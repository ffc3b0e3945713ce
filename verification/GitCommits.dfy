/** `_commit_tree`: the root tree a commit names, read from a bounded header. */
module GitCommits {
  import opened ByteStrings
  import opened Encoding
  import opened JoinedTexts
  import opened GitTrees

  const NEWLINE: Byte := 10
  const SPACE: Byte := 32
  const TREE := Ascii("tree")
  const PARENT := Ascii("parent")

  // ----- object ids as text

  function HexText(oid: Bytes): (r: Bytes)
    ensures |r| == 2 * |oid|
  {
    if oid == [] then [] else [HexDigit(oid[0] / 16), HexDigit(oid[0] % 16)] + HexText(oid[1..])
  }

  predicate IsHex(b: Byte) {
    48 <= b <= 57 || 97 <= b <= 102
  }

  function Digit(b: Byte): (n: nat)
    requires IsHex(b)
    ensures n < 16 && HexDigit(n) == b
  {
    if b <= 57 then b - 48 else b - 87
  }

  function Unhex(text: Bytes): (r: Option<Bytes>) {
    if text == [] then Some([])
    else if |text| == 1 || !IsHex(text[0]) || !IsHex(text[1]) then None
    else
      var rest := Unhex(text[2..]);
      if rest.None? then None else Some([16 * Digit(text[0]) + Digit(text[1])] + rest.value)
  }

  lemma {:induction false} UnhexExact(text: Bytes, oid: Bytes)
    ensures Unhex(text) == Some(oid) <==> HexText(oid) == text
    decreases |text|
  {
    if text != [] && oid != [] {
      if |text| >= 2 { UnhexExact(text[2..], oid[1..]); }
      var a, b := oid[0] / 16, oid[0] % 16;
      assert oid == [oid[0]] + oid[1..];
      if HexText(oid) == text {
        assert text[0] == HexDigit(a) && text[1] == HexDigit(b) && text[2..] == HexText(oid[1..]);
        assert Digit(text[0]) == a && Digit(text[1]) == b;
      }
      if Unhex(text) == Some(oid) {
        assert oid[0] == 16 * Digit(text[0]) + Digit(text[1]);
        assert text == [text[0], text[1]] + text[2..];
      }
    }
  }

  // ----- what a header line may say

  predicate Visible(key: Bytes) {
    key != [] && forall i :: 0 <= i < |key| ==> 33 <= key[i] <= 126
  }

  predicate Folded(l: Bytes) {
    l != [] && l[0] == SPACE
  }

  predicate KeyLine(l: Bytes, key: Bytes, value: Bytes) {
    Visible(key) && l == key + [SPACE] + value
  }

  ghost predicate RefLine(l: Bytes, key: Bytes, oid: Bytes) {
    LegalOid(oid) && l == key + [SPACE] + HexText(oid)
  }

  ghost predicate PlainLine(l: Bytes) {
    Folded(l) || exists key, value :: KeyLine(l, key, value) && key != TREE && key != PARENT
  }

  ghost predicate IsParent(l: Bytes) {
    exists oid :: RefLine(l, PARENT, oid)
  }

  ghost function CountParents(lines: seq<Bytes>): (n: nat) {
    if lines == [] then 0 else CountParents(lines[..|lines| - 1]) + if IsParent(lines[|lines| - 1]) then 1 else 0
  }

  /** A tree line first and nowhere else, at most so many parents, nothing malformed. */
  ghost predicate Header(lim: Limits, lines: seq<Bytes>, tree: Bytes) {
    && lines != [] && Free(NEWLINE, lines) && RefLine(lines[0], TREE, tree)
    && (forall i :: 1 <= i < |lines| ==> PlainLine(lines[i]) || IsParent(lines[i]))
    && CountParents(lines) <= lim.maxParents
  }

  /** The text of a commit: its header, a blank line, anything. */
  ghost predicate CommitText(lim: Limits, payload: Bytes, lines: seq<Bytes>, body: Bytes, tree: Bytes) {
    && Header(lim, lines, tree) && payload == Join(NEWLINE, lines) + ([NEWLINE, NEWLINE] + body)
    && |Join(NEWLINE, lines)| + 2 <= lim.maxHeaderBytes
  }

  // ----- reading one line

  datatype LineKind = Malformed | Plain | TreeRef(oid: Bytes) | ParentRef(oid: Bytes)

  function KindOf(l: Bytes): (k: LineKind) {
    if l == [] then Malformed
    else if l[0] == SPACE then Plain
    else
      var at := Find(l, SPACE, 0, |l|);
      if at < 0 || !Visible(l[..at]) then Malformed
      else if l[..at] != TREE && l[..at] != PARENT then Plain
      else
        var oid := Unhex(l[at + 1..]);
        if oid.None? || !LegalOid(oid.value) then Malformed
        else if l[..at] == TREE then TreeRef(oid.value) else ParentRef(oid.value)
  }

  lemma WordsVisible()
    ensures Visible(TREE) && Visible(PARENT) && TREE != PARENT
  {
    assert TREE == [116, 114, 101, 101];
    assert PARENT == [112, 97, 114, 101, 110, 116];
  }

  /** The key is what stands before the first space. */
  lemma KeySplits(l: Bytes, key: Bytes, value: Bytes)
    requires KeyLine(l, key, value)
    ensures l != [] && l[0] != SPACE && Find(l, SPACE, 0, |l|) == |key|
    ensures l[..|key|] == key && l[|key| + 1..] == value
  {
    var at := Find(l, SPACE, 0, |l|);
    assert l[|key|] == SPACE;
    forall k | 0 <= k < |key| ensures l[k] != SPACE { assert l[k] == key[k]; }
  }

  lemma RefReads(l: Bytes, key: Bytes, oid: Bytes)
    requires key == TREE || key == PARENT
    ensures RefLine(l, key, oid) <==> KindOf(l) == if key == TREE then TreeRef(oid) else ParentRef(oid)
  {
    hide Ascii, HexText, Unhex, LegalOid, Visible;
    WordsVisible();
    if RefLine(l, key, oid) {
      KeySplits(l, key, HexText(oid));
      UnhexExact(HexText(oid), oid);
    }
    if KindOf(l) == if key == TREE then TreeRef(oid) else ParentRef(oid) {
      var at := Find(l, SPACE, 0, |l|);
      UnhexExact(l[at + 1..], oid);
      assert l == l[..at] + [SPACE] + l[at + 1..];
    }
  }

  lemma PlainReads(l: Bytes)
    ensures PlainLine(l) <==> KindOf(l) == Plain
  {
    hide Ascii, HexText, Unhex, LegalOid, Visible;
    if PlainLine(l) && !Folded(l) {
      var key, value :| KeyLine(l, key, value) && key != TREE && key != PARENT;
      KeySplits(l, key, value);
    }
    if KindOf(l) == Plain && !Folded(l) {
      var at := Find(l, SPACE, 0, |l|);
      assert l == l[..at] + [SPACE] + l[at + 1..];
      assert KeyLine(l, l[..at], l[at + 1..]);
    }
  }

  lemma ParentReads(l: Bytes)
    ensures IsParent(l) <==> KindOf(l).ParentRef?
  {
    hide KindOf, RefLine;
    if oid :| RefLine(l, PARENT, oid) { ParentRefReads(l, oid); }
    if KindOf(l).ParentRef? { ParentRefReads(l, KindOf(l).oid); }
  }

  lemma ParentRefReads(l: Bytes, oid: Bytes)
    ensures RefLine(l, PARENT, oid) <==> KindOf(l) == ParentRef(oid)
  {
    hide KindOf, RefLine, Ascii;
    WordsVisible();
    RefReads(l, PARENT, oid);
  }

  // ----- lines

  function Lines(s: Bytes): (r: seq<Bytes>)
    ensures r != []
    decreases |s|
  {
    var at := Find(s, NEWLINE, 0, |s|);
    if at < 0 then [s] else [s[..at]] + Lines(s[at + 1..])
  }

  lemma FrontLine(a: Bytes, rest: seq<Bytes>)
    requires rest != [] && NEWLINE !in a && Free(NEWLINE, rest)
    ensures Free(NEWLINE, [a] + rest) && Join(NEWLINE, [a] + rest) == a + ([NEWLINE] + Join(NEWLINE, rest))
  {
    assert ([a] + rest)[1..] == rest;
  }

  lemma OneLine(a: Bytes)
    requires NEWLINE !in a
    ensures Free(NEWLINE, [a]) && Join(NEWLINE, [a]) == a
  {
    assert a + [] == a;
  }

  lemma LinesUnfold(s: Bytes)
    ensures var at := Find(s, NEWLINE, 0, |s|);
            if at < 0 then NEWLINE !in s && Lines(s) == [s]
            else at < |s| && NEWLINE !in s[..at] && s[at] == NEWLINE && Lines(s) == [s[..at]] + Lines(s[at + 1..])
  {
  }

  lemma {:induction false} LinesJoin(s: Bytes)
    ensures Free(NEWLINE, Lines(s)) && Join(NEWLINE, Lines(s)) == s
    decreases |s|
  {
    hide Join, Free, Lines, Find;
    LinesUnfold(s);
    var at := Find(s, NEWLINE, 0, |s|);
    if at < 0 {
      OneLine(s);
    } else {
      LinesJoin(s[at + 1..]);
      FrontLine(s[..at], Lines(s[at + 1..]));
      assert s == s[..at] + ([NEWLINE] + s[at + 1..]);
    }
  }

  /** Lines come back from their join. */
  lemma LinesOf(lines: seq<Bytes>)
    requires lines != [] && Free(NEWLINE, lines)
    ensures Lines(Join(NEWLINE, lines)) == lines
  {
    hide Join, Lines;
    LinesJoin(Join(NEWLINE, lines));
    JoinInjective(NEWLINE, Lines(Join(NEWLINE, lines)), lines);
  }

  // ----- the blank line

  predicate BlankAt(s: Bytes, i: nat) {
    i + 1 < |s| && s[i] == NEWLINE && s[i + 1] == NEWLINE
  }

  /** The first blank line that ends before `to`, or -1. */
  function FindBlank(s: Bytes, from: nat, to: nat): (r: int)
    ensures r == -1 || (from <= r && r + 2 <= to && BlankAt(s, r) && forall k :: from <= k < r ==> !BlankAt(s, k))
    ensures r == -1 ==> forall k :: from <= k && k + 2 <= to ==> !BlankAt(s, k)
    decreases |s| - from
  {
    if from + 2 > to || from >= |s| then -1
    else if BlankAt(s, from) then from
    else FindBlank(s, from + 1, to)
  }

  ghost predicate NoEmpty(lines: seq<Bytes>) {
    forall i :: 0 <= i < |lines| ==> lines[i] != []
  }

  /** No blank line inside a header without empty lines, nor at its end. */
  lemma {:induction false} JoinUnbroken(lines: seq<Bytes>, rest: Bytes, i: nat)
    requires lines != [] && Free(NEWLINE, lines) && NoEmpty(lines) && i < |Join(NEWLINE, lines)|
    ensures !BlankAt(Join(NEWLINE, lines) + rest, i)
    ensures Join(NEWLINE, lines)[0] != NEWLINE
    decreases |lines|
  {
    var a, all := lines[0], Join(NEWLINE, lines);
    assert all[0] == a[0] && a[0] in a;
    if i < |a| {
      assert (all + rest)[i] == a[i] && a[i] in a;
    } else {
      assert |lines| > 1;
      var tail := Join(NEWLINE, lines[1..]);
      assert all == a + ([NEWLINE] + tail);
      TailNonEmpty(lines[1..]);
      if i == |a| {
        JoinUnbroken(lines[1..], rest, 0);
        assert (all + rest)[i + 1] == tail[0];
      } else {
        var j := i - |a| - 1;
        JoinUnbroken(lines[1..], rest, j);
        assert all + rest == a + [NEWLINE] + (tail + rest);
        assert (all + rest)[i] == (tail + rest)[j];
        assert i + 1 < |all + rest| ==> (all + rest)[i + 1] == (tail + rest)[j + 1];
      }
    }
  }

  lemma TailNonEmpty(lines: seq<Bytes>)
    requires lines != [] && NoEmpty(lines)
    ensures Join(NEWLINE, lines) != []
  {
  }

  lemma HeaderNoEmpty(lim: Limits, lines: seq<Bytes>, tree: Bytes)
    requires Header(lim, lines, tree)
    ensures NoEmpty(lines)
  {
    hide Ascii, HexText, LegalOid, Visible, Join, CountParents;
    forall i | 0 <= i < |lines| ensures lines[i] != [] {
      if i > 0 { assert PlainLine(lines[i]) || IsParent(lines[i]); }
    }
  }

  /** A commit's text has its first blank line right after its header. */
  lemma TextCut(lim: Limits, payload: Bytes, lines: seq<Bytes>, body: Bytes, tree: Bytes)
    requires CommitText(lim, payload, lines, body, tree)
    ensures var end := |Join(NEWLINE, lines)|;
            FindBlank(payload, 0, lim.maxHeaderBytes + 1) == end && Lines(payload[..end]) == lines
  {
    hide Header, Join, Lines, HexText;
    var text, rest := Join(NEWLINE, lines), [NEWLINE, NEWLINE] + body;
    HeaderLines(lim, lines, tree);
    HeaderNoEmpty(lim, lines, tree);
    forall k | 0 <= k < |text| ensures !BlankAt(payload, k) { JoinUnbroken(lines, rest, k); }
    assert BlankAt(payload, |text|);
    assert payload[..|text|] == text;
    LinesOf(lines);
  }

  lemma HeaderLines(lim: Limits, lines: seq<Bytes>, tree: Bytes)
    requires Header(lim, lines, tree)
    ensures lines != [] && Free(NEWLINE, lines)
  {
  }

  // ----- the loop over the lines

  lemma ParentsNext(lines: seq<Bytes>, i: nat)
    requires i < |lines|
    ensures CountParents(lines[..i + 1]) == CountParents(lines[..i]) + if KindOf(lines[i]).ParentRef? then 1 else 0
  {
    hide KindOf, IsParent;
    ParentReads(lines[i]);
    assert lines[..i + 1][..i] == lines[..i];
  }

  lemma {:induction false} ParentsGrow(lines: seq<Bytes>, i: nat)
    requires i <= |lines|
    ensures CountParents(lines[..i]) <= CountParents(lines)
    decreases |lines| - i
  {
    hide IsParent;
    if i == |lines| {
      assert lines[..i] == lines;
    } else {
      ParentsGrow(lines, i + 1);
      assert lines[..i + 1][..i] == lines[..i];
    }
  }

  lemma LineReads(l: Bytes)
    ensures PlainLine(l) || IsParent(l) <==> KindOf(l).Plain? || KindOf(l).ParentRef?
  {
    hide KindOf, PlainLine, IsParent;
    PlainReads(l);
    ParentReads(l);
  }

  lemma TreeReads(l: Bytes, oid: Bytes)
    ensures RefLine(l, TREE, oid) <==> KindOf(l) == TreeRef(oid)
  {
    hide KindOf, RefLine, Ascii;
    RefReads(l, TREE, oid);
  }

  method ReadHeader(lines: seq<Bytes>, lim: Limits) returns (tree: Option<Bytes>)
    requires lines != [] && Free(NEWLINE, lines)
    ensures forall oid :: tree == Some(oid) <==> Header(lim, lines, oid)
  {
    hide KindOf, PlainLine, IsParent, RefLine, Free, CountParents;
    var first := KindOf(lines[0]);
    forall oid ensures RefLine(lines[0], TREE, oid) <==> first == TreeRef(oid) { TreeReads(lines[0], oid); }
    if !first.TreeRef? { return None; }
    var parents := 0;
    ParentsNext(lines, 0);
    NoParents(lines);
    for i := 1 to |lines|
      invariant parents == CountParents(lines[..i]) <= lim.maxParents
      invariant forall k :: 1 <= k < i ==> PlainLine(lines[k]) || IsParent(lines[k])
    {
      var kind := KindOf(lines[i]);
      LineReads(lines[i]);
      ParentsNext(lines, i);
      if kind.Malformed? || kind.TreeRef? { return None; }
      if kind.ParentRef? {
        parents := parents + 1;
        if parents > lim.maxParents {
          ParentsGrow(lines, i + 1);
          return None;
        }
      }
    }
    assert lines[..|lines|] == lines;
    tree := Some(first.oid);
  }

  lemma NoParents(lines: seq<Bytes>)
    ensures CountParents(lines[..0]) == 0
  {
  }

  /** A tree is returned exactly when the payload is a commit's text, and it is the one
      the commit names. */
  method CommitTree(payload: Bytes, lim: Limits) returns (tree: Option<Bytes>)
    ensures forall oid :: tree == Some(oid) <==> exists lines, body :: CommitText(lim, payload, lines, body, oid)
  {
    hide Header, Join, Lines, Free;
    var end := FindBlank(payload, 0, lim.maxHeaderBytes + 1);
    if end < 0 || end + 2 > lim.maxHeaderBytes {
      forall oid, lines, body ensures !CommitText(lim, payload, lines, body, oid) {
        if CommitText(lim, payload, lines, body, oid) { TextCut(lim, payload, lines, body, oid); }
      }
      return None;
    }
    var lines := Lines(payload[..end]);
    LinesJoin(payload[..end]);
    tree := ReadHeader(lines, lim);
    forall oid ensures Header(lim, lines, oid) <==> exists ls, body :: CommitText(lim, payload, ls, body, oid) {
      CutText(lim, payload, end, oid);
    }
  }

  lemma BlankSplits(payload: Bytes, end: nat)
    requires BlankAt(payload, end)
    ensures payload == payload[..end] + ([NEWLINE, NEWLINE] + payload[end + 2..])
  {
  }

  lemma CutText(lim: Limits, payload: Bytes, end: nat, oid: Bytes)
    requires FindBlank(payload, 0, lim.maxHeaderBytes + 1) == end && end + 2 <= lim.maxHeaderBytes && end <= |payload|
    ensures Header(lim, Lines(payload[..end]), oid) <==> exists ls, body :: CommitText(lim, payload, ls, body, oid)
  {
    hide Header, Join, Lines, Free, FindBlank, BlankAt;
    LinesJoin(payload[..end]);
    BlankSplits(payload, end);
    if Header(lim, Lines(payload[..end]), oid) {
      assert CommitText(lim, payload, Lines(payload[..end]), payload[end + 2..], oid);
    }
    if ls, body :| CommitText(lim, payload, ls, body, oid) {
      TextCut(lim, payload, ls, body, oid);
      TextHeader(lim, payload, ls, body, oid);
    }
  }

  lemma TextHeader(lim: Limits, payload: Bytes, lines: seq<Bytes>, body: Bytes, tree: Bytes)
    requires CommitText(lim, payload, lines, body, tree)
    ensures Header(lim, lines, tree)
  {
  }

  /** One text names one tree. */
  lemma CommitNamesOne(lim: Limits, payload: Bytes, lines: seq<Bytes>, body: Bytes, tree: Bytes, others: seq<Bytes>,
                       rest: Bytes, other: Bytes)
    requires CommitText(lim, payload, lines, body, tree) && CommitText(lim, payload, others, rest, other)
    ensures lines == others && body == rest && tree == other
  {
    hide Join, Lines, Free, CountParents, RefLine;
    TextCut(lim, payload, lines, body, tree);
    TextCut(lim, payload, others, rest, other);
    PrefixCancel(Join(NEWLINE, lines), [NEWLINE, NEWLINE] + body, [NEWLINE, NEWLINE] + rest);
    PrefixCancel([NEWLINE, NEWLINE], body, rest);
    TreeReads(lines[0], tree);
    TreeReads(lines[0], other);
  }
}
