/** The lexical preflight of `decode_json`: what its counters make of canonical
    text, and which admitted values it would still turn away. */
module JsonScans {
  import opened ByteStrings
  import opened Normalisation
  import opened JsonTexts
  import opened JsonBudgets

  /** The scanner's variables; `ok` turns false once a bound is broken. */
  datatype Scan = Scan(depth: int, count: nat, quoted: bool, escaped: bool, token: bool, ok: bool)

  const START := Scan(0, 0, false, false, false, true)

  predicate Opens(b: Byte) { b == 123 || b == 91 }
  predicate Closes(b: Byte) { b == 125 || b == 93 }
  predicate Separates(b: Byte) { b == 32 || b == 9 || b == 10 || b == 13 || b == 44 || b == 58 }

  function Checked(s: Scan): (r: Scan) {
    s.(ok := 0 <= s.depth <= MAX_DEPTH && s.count <= MAX_VALUES)
  }

  /** The effect of one byte. */
  function Step(s: Scan, b: Byte): (r: Scan) {
    if !s.ok then s
    else if s.quoted then
      if s.escaped then s.(escaped := false)
      else if b == 92 then s.(escaped := true)
      else if b == 34 then s.(quoted := false)
      else s
    else if b == 34 then Checked(s.(quoted := true, count := s.count + 1, token := false))
    else if Opens(b) then Checked(s.(depth := s.depth + 1, count := s.count + 1, token := false))
    else if Closes(b) then Checked(s.(depth := s.depth - 1, token := false))
    else if Separates(b) then Checked(s.(token := false))
    else if !s.token then Checked(s.(count := s.count + 1, token := true))
    else Checked(s)
  }

  function ScanAll(s: Scan, data: Bytes): (r: Scan)
    decreases data
  {
    if data == [] then s else ScanAll(Step(s, data[0]), data[1..])
  }

  predicate Passes(data: Bytes) {
    var r := ScanAll(START, data);
    r.ok && !r.quoted && r.depth == 0
  }

  lemma {:induction false} ScanAppend(s: Scan, a: Bytes, b: Bytes)
    ensures ScanAll(s, a + b) == ScanAll(ScanAll(s, a), b)
    decreases a
  {
    if a == [] {
      assert a + b == b;
    } else {
      assert (a + b)[1..] == a[1..] + b;
      ScanAppend(Step(s, a[0]), a[1..], b);
    }
  }

  lemma ScanOne(s: Scan, b: Byte)
    ensures ScanAll(s, [b]) == Step(s, b)
  {
    assert ScanAll(Step(s, b), []) == Step(s, b);
  }

  lemma {:induction false} ScanBroken(s: Scan, data: Bytes)
    requires !s.ok
    ensures ScanAll(s, data) == s
  {
    if data != [] { ScanBroken(s, data[1..]); }
  }

  /** The loop of the preflight. */
  method Preflight(data: Bytes, maximum: int) returns (ok: bool)
    ensures ok <==> |data| <= maximum && Passes(data)
  {
    hide ScanAll;
    if |data| > maximum { return false; }
    var depth, count := 0, 0;
    var quoted, escaped, token := false, false, false;
    ghost var s := START;
    assert ScanAll(s, data[..0]) == s by { ScanNothing(s, data); }
    for i := 0 to |data|
      invariant s == Scan(depth, count, quoted, escaped, token, true) && ScanAll(START, data[..i]) == s && count >= 0
    {
      ScanPrefix(data, i);
      var b := data[i];
      ghost var was := s;
      if quoted {
        if escaped { escaped := false; } else if b == 92 { escaped := true; } else if b == 34 { quoted := false; }
        s := Step(s, b);
      } else {
        if b == 34 {
          quoted, count, token := true, count + 1, false;
        } else if b == 123 || b == 91 {
          depth, count, token := depth + 1, count + 1, false;
        } else if b == 125 || b == 93 {
          depth, token := depth - 1, false;
        } else if b == 32 || b == 9 || b == 10 || b == 13 || b == 44 || b == 58 {
          token := false;
        } else if !token {
          count, token := count + 1, true;
        }
        s := Step(s, b);
        if !(0 <= depth <= MAX_DEPTH && count <= MAX_VALUES) {
          ScanStopped(data, i + 1);
          return false;
        }
      }
    }
    assert data[..|data|] == data;
    ok := !quoted && depth == 0;
  }

  lemma ScanNothing(s: Scan, data: Bytes)
    ensures ScanAll(s, data[..0]) == s
  {
  }

  lemma ScanPrefix(data: Bytes, i: nat)
    requires i < |data|
    ensures ScanAll(START, data[..i + 1]) == Step(ScanAll(START, data[..i]), data[i])
  {
    assert data[..i + 1] == data[..i] + [data[i]];
    ScanAppend(START, data[..i], [data[i]]);
    ScanOne(ScanAll(START, data[..i]), data[i]);
  }

  lemma ScanStopped(data: Bytes, i: nat)
    requires i <= |data| && !ScanAll(START, data[..i]).ok
    ensures !Passes(data)
  {
    assert data == data[..i] + data[i..];
    ScanAppend(START, data[..i], data[i..]);
    ScanBroken(ScanAll(START, data[..i]), data[i..]);
  }

  // ----- scanning canonical text

  /** Between two tokens, inside the bounds. */
  ghost predicate Ready(s: Scan) {
    s.ok && !s.quoted && !s.escaped && !s.token && 0 <= s.depth <= MAX_DEPTH && s.count <= MAX_VALUES
  }

  predicate Plain(b: Byte) {
    b != 34 && !Opens(b) && !Closes(b) && !Separates(b)
  }

  /** What scanning something with `n` values and `k` open containers should give. */
  ghost predicate Scanned(s: Scan, n: nat, k: nat, token: bool, r: Scan) {
    if s.depth + k > MAX_DEPTH || s.count + n > MAX_VALUES then !r.ok
    else r == s.(count := s.count + n, token := token)
  }

  lemma {:induction false} ScanTokenRest(s: Scan, data: Bytes)
    requires s.ok && !s.quoted && s.token && 0 <= s.depth <= MAX_DEPTH && s.count <= MAX_VALUES
    requires forall i :: 0 <= i < |data| ==> Plain(data[i])
    ensures ScanAll(s, data) == s
  {
    if data != [] {
      assert Plain(data[0]) && Step(s, data[0]) == s;
      ScanTokenRest(s, data[1..]);
    }
  }

  lemma ScanToken(s: Scan, data: Bytes)
    requires Ready(s) && data != [] && forall i :: 0 <= i < |data| ==> Plain(data[i])
    ensures Scanned(s, 1, 0, true, ScanAll(s, data))
  {
    assert Plain(data[0]);
    var t := Step(s, data[0]);
    if t.ok { ScanTokenRest(t, data[1..]); } else { ScanBroken(t, data[1..]); }
  }

  lemma IntPlain(i: int)
    ensures forall k :: 0 <= k < |IntText(i)| ==> Plain(IntText(i)[k])
  {
    DecimalDigits(if i < 0 then -i else i);
  }

  lemma HexSafe(c: nat)
    requires c < 32
    ensures HexDigit(c / 16) != 34 && HexDigit(c / 16) != 92 && HexDigit(c % 16) != 34 && HexDigit(c % 16) != 92
  {
  }

  lemma {:induction false} ScanInside(s: Scan, data: Bytes)
    requires s.ok && s.quoted && !s.escaped && forall i :: 0 <= i < |data| ==> data[i] != 34 && data[i] != 92
    ensures ScanAll(s, data) == s
  {
    if data != [] { ScanInside(s, data[1..]); }
  }

  lemma ScanEscape(s: Scan, b: Byte, rest: Bytes)
    requires s.ok && s.quoted && !s.escaped && forall i :: 0 <= i < |rest| ==> rest[i] != 34 && rest[i] != 92
    ensures ScanAll(s, [92, b] + rest) == s
  {
    var data := [92, b] + rest;
    assert data[1..] == [b] + rest && data[1..][1..] == rest;
    var t := Step(s, 92);
    assert Step(t, b) == s;
    assert ScanAll(s, data) == ScanAll(t, data[1..]) == ScanAll(s, rest);
    ScanInside(s, rest);
  }

  lemma ScanChar(s: Scan, c: nat)
    requires s.ok && s.quoted && !s.escaped
    ensures ScanAll(s, CharBytes(c)) == s
  {
    if ShortEscape(c) {
      ScanEscape(s, EscapeLetter(c), []);
      assert [92, EscapeLetter(c)] + [] == CharBytes(c);
    } else if c < 32 {
      HexSafe(c);
      var rest := [48, 48, HexDigit(c / 16), HexDigit(c % 16)];
      ScanEscape(s, 117, rest);
      assert [92, 117] + rest == CharBytes(c);
    } else {
      assert forall i :: 0 <= i < |Utf8(c)| ==> Utf8(c)[i] in Utf8(c);
      ScanInside(s, Utf8(c));
    }
  }

  lemma {:induction false} ScanCodes(s: Scan, codes: seq<nat>)
    requires s.ok && s.quoted && !s.escaped
    ensures ScanAll(s, CodeBytes(codes)) == s
  {
    hide CharBytes;
    if codes != [] {
      ScanAppend(s, CharBytes(codes[0]), CodeBytes(codes[1..]));
      ScanChar(s, codes[0]);
      ScanCodes(s, codes[1..]);
    }
  }

  lemma ScanString(s: Scan, codes: seq<Code>)
    requires Ready(s)
    ensures Scanned(s, 1, 0, false, ScanAll(s, Print(Str(codes))))
  {
    hide ScanAll;
    var inner := CodeBytes(codes);
    assert Print(Str(codes)) == [34] + inner + [34];
    var t := Step(s, 34);
    ScanAppend(s, [34] + inner, [34]);
    ScanAppend(s, [34], inner);
    ScanOne(s, 34);
    if t.ok {
      ScanCodes(t, codes);
      ScanOne(t, 34);
    } else {
      ScanBroken(t, inner);
      ScanBroken(t, [34]);
    }
  }

  predicate LeavesToken(v: Value) {
    Scalar(v)
  }

  /** On the text of any printable value the counters come to the number of
      values and the nesting of containers, and the scan breaks exactly when one
      of them passes its bound. */
  lemma {:induction false} ScanValue(s: Scan, v: Value)
    requires Ready(s) && Typed(v)
    ensures Scanned(s, Count(v), Nest(v), LeavesToken(v), ScanAll(s, Print(v)))
    decreases v, 1
  {
    match v {
      case Null => ScanToken(s, Print(v));
      case Bool(b) => ScanToken(s, Print(v));
      case Int(i) =>
        IntPlain(i);
        ScanToken(s, Print(v));
      case Str(codes) => ScanString(s, codes);
      case List(items) => ScanList(s, items);
      case Dict(entries) => ScanDict(s, entries);
    }
  }

  /** An opening bracket, a body and a closing bracket. */
  lemma ScanBracketed(s: Scan, open: Byte, body: Bytes, close: Byte, n: nat, k: nat, token: bool)
    requires Ready(s) && Opens(open) && Closes(close)
    requires Step(s, open).ok ==> Scanned(Step(s, open), n, k, token, ScanAll(Step(s, open), body))
    ensures Scanned(s, 1 + n, 1 + k, false, ScanAll(s, [open] + body + [close]))
  {
    hide ScanAll;
    var t := Step(s, open);
    ScanAppend(s, [open] + body, [close]);
    ScanAppend(s, [open], body);
    ScanOne(s, open);
    var u := ScanAll(t, body);
    ScanOne(u, close);
    if !t.ok { ScanBroken(t, body); }
    if !u.ok { ScanBroken(u, [close]); }
  }

  lemma {:induction false} ScanList(s: Scan, items: seq<Value>)
    requires Ready(s) && forall x :: x in items ==> Typed(x)
    ensures Scanned(s, Count(List(items)), Nest(List(items)), false, ScanAll(s, Print(List(items))))
    decreases items, 3
  {
    hide ScanAll;
    if Step(s, 91).ok { ScanItems(Step(s, 91), items); }
    ScanBracketed(s, 91, PrintItems(items), 93, CountItems(items), NestItems(items),
                  items != [] && LeavesToken(items[|items| - 1]));
  }

  lemma {:induction false} ScanDict(s: Scan, es: seq<Entry>)
    requires Ready(s) && forall e :: e in es ==> TypedEntry(e)
    ensures Scanned(s, Count(Dict(es)), Nest(Dict(es)), false, ScanAll(s, Print(Dict(es))))
    decreases es, 3
  {
    hide ScanAll;
    if Step(s, 123).ok { ScanEntries(Step(s, 123), es); }
    ScanBracketed(s, 123, PrintEntries(es), 125, CountEntries(es), NestEntries(es),
                  es != [] && LeavesToken(es[|es| - 1].child));
  }

  /** Two pieces with a separator between them. */
  lemma ScanJoined(s: Scan, a: Bytes, n: nat, k: nat, tokenA: bool, sep: Byte, b: Bytes, m: nat, l: nat, tokenB: bool)
    requires Ready(s) && Separates(sep) && Scanned(s, n, k, tokenA, ScanAll(s, a))
    requires s.depth + k <= MAX_DEPTH && s.count + n <= MAX_VALUES ==>
               var t := s.(count := s.count + n); Scanned(t, m, l, tokenB, ScanAll(t, b))
    ensures Scanned(s, n + m, Larger(k, l), tokenB, ScanAll(s, a + ([sep] + b)))
  {
    hide ScanAll;
    var u := ScanAll(s, a);
    ScanAppend(s, a, [sep] + b);
    ScanAppend(u, [sep], b);
    ScanOne(u, sep);
    if !u.ok { ScanBroken(u, [sep] + b); }
  }

  lemma {:induction false} ScanItems(s: Scan, vs: seq<Value>)
    requires Ready(s) && forall x :: x in vs ==> Typed(x)
    ensures Scanned(s, CountItems(vs), NestItems(vs), vs != [] && LeavesToken(vs[|vs| - 1]), ScanAll(s, PrintItems(vs)))
    decreases vs, 2
  {
    if vs != [] {
      assert vs[0] in vs;
      ScanValue(s, vs[0]);
      if |vs| == 1 {
        assert CountItems(vs[1..]) == 0 && NestItems(vs[1..]) == 0;
      } else {
        var n, k := Count(vs[0]), Nest(vs[0]);
        if s.depth + k <= MAX_DEPTH && s.count + n <= MAX_VALUES { ScanItems(s.(count := s.count + n), vs[1..]); }
        ScanJoined(s, Print(vs[0]), n, k, LeavesToken(vs[0]), 44, PrintItems(vs[1..]), CountItems(vs[1..]),
                   NestItems(vs[1..]),
                   LeavesToken(vs[|vs| - 1]));
      }
    }
  }

  lemma {:induction false} ScanEntry(s: Scan, e: Entry)
    requires Ready(s) && TypedEntry(e)
    ensures Scanned(s, CountEntry(e), NestOf(e), LeavesToken(e.child), ScanAll(s, PrintEntry(e)))
    decreases e, 2
  {
    hide ScanAll;
    ScanValue(s, e.key);
    var n, k := Count(e.key), Nest(e.key);
    if s.depth + k <= MAX_DEPTH && s.count + n <= MAX_VALUES { ScanValue(s.(count := s.count + n), e.child); }
    ScanJoined(s, Print(e.key), n, k, LeavesToken(e.key), 58, Print(e.child), Count(e.child), Nest(e.child),
               LeavesToken(e.child));
  }

  lemma {:induction false} ScanEntries(s: Scan, es: seq<Entry>)
    requires Ready(s) && forall e :: e in es ==> TypedEntry(e)
    ensures Scanned(s, CountEntries(es), NestEntries(es), es != [] && LeavesToken(es[|es| - 1].child),
                    ScanAll(s, PrintEntries(es)))
    decreases es, 2
  {
    if es != [] {
      assert es[0] in es;
      ScanEntry(s, es[0]);
      if |es| == 1 {
        assert CountEntries(es[1..]) == 0 && NestEntries(es[1..]) == 0;
      } else {
        var n, k := CountEntry(es[0]), NestOf(es[0]);
        if s.depth + k <= MAX_DEPTH && s.count + n <= MAX_VALUES { ScanEntries(s.(count := s.count + n), es[1..]); }
        ScanJoined(s, PrintEntry(es[0]), n, k, LeavesToken(es[0].child), 44, PrintEntries(es[1..]),
                   CountEntries(es[1..]), NestEntries(es[1..]),
                   LeavesToken(es[|es| - 1].child));
      }
    }
  }

  // ----- budget against preflight

  /** The preflight passes canonical text exactly when values and nesting are in bounds. */
  lemma PassesExactly(v: Value)
    requires Typed(v)
    ensures Passes(Print(Sorted(v))) <==> Nest(v) <= MAX_DEPTH && Count(v) <= MAX_VALUES
  {
    hide ScanAll, Print;
    SortedMeasure(v);
    ScanValue(START, Sorted(v));
  }

  /** A value the budget admits is read back unless an empty container sits at the
      last admitted level: that one nests one deeper than the scanner allows. */
  lemma PassesAdmitted(v: Value, maximum: int)
    requires Fits(v, maximum)
    ensures |Print(Sorted(v))| <= maximum
    ensures Passes(Print(Sorted(v))) <==> Nest(v) <= MAX_DEPTH
    ensures Passes(Print(Sorted(v))) <==> !EmptyAt(v, MAX_DEPTH)
  {
    hide ScanAll, Print, Passes;
    SortedMeasure(v);
    PrintLength(Sorted(v));
    PassesExactly(v);
    NestBeyondDepth(v, MAX_DEPTH);
  }

  function Wrapped(n: nat): (v: Value) {
    if n == 0 then List([]) else List([Wrapped(n - 1)])
  }

  lemma {:induction false} WrappedMeasure(n: nat)
    ensures Typed(Wrapped(n)) && Count(Wrapped(n)) == n + 1 && Deepest(Wrapped(n)) == n && Nest(Wrapped(n)) == n + 1
    ensures Size(Wrapped(n)) == 2 * n + 2
  {
    hide Typed, CountItems, DeepestItem, NestItems, SizeItems;
    EmptyListTyped();
    if n > 0 {
      WrappedMeasure(n - 1);
      SingletonMeasure(Wrapped(n - 1));
    }
  }

  lemma EmptyListTyped()
    ensures Typed(List([])) && CountItems([]) == 0 && NestItems([]) == 0 && SizeItems([]) == 0
  {
  }

  lemma SingletonMeasure(w: Value)
    ensures CountItems([w]) == Count(w) && DeepestItem([w]) == Deepest(w) && NestItems([w]) == Nest(w)
    ensures SizeItems([w]) == Size(w)
    ensures Typed(List([w])) <==> Typed(w)
  {
    var rest := [w][1..];
    assert rest == [] && w in [w];
    assert CountItems(rest) == 0 && DeepestItem(rest) == 0 && NestItems(rest) == 0 && SizeItems(rest) == 0;
  }

  /** Twenty-five brackets around nothing are written out but not read back. */
  lemma DeepEmptyList()
    ensures Fits(Wrapped(24), 50) && !Passes(Print(Sorted(Wrapped(24))))
  {
    hide Passes, Print, Sorted;
    WrappedMeasure(24);
    PassesExactly(Wrapped(24));
  }
}
