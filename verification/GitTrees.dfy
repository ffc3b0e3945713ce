/** Git tree payloads: a parser that accepts exactly the texts its printer can
    write, and gives back what was written. */
module GitTrees {
  import opened ByteStrings

  datatype Mode = Directory | Regular | Executable
  datatype Entry = Entry(mode: Mode, name: Bytes, oid: Bytes)
  datatype Parsed = Unsupported | Entries(list: seq<Entry>)

  /** The caps that matter here. `text` tells whether a name is strict UTF-8 free
      of C1 control characters. */
  datatype Limits = Limits(maxEntries: nat, maxPathBytes: nat, maxDepth: nat, maxFiles: nat, maxTotalBytes: nat,
    maxHeaderBytes: nat, maxParents: nat, text: Bytes -> bool)

  // ----- printing

  function ModeBytes(m: Mode): (r: Bytes)
    ensures 5 <= |r| <= 6 && forall i :: 0 <= i < |r| ==> r[i] > 32
  {
    match m
    case Directory => [52, 48, 48, 48, 48]
    case Regular => [49, 48, 48, 54, 52, 52]
    case Executable => [49, 48, 48, 55, 53, 53]
  }

  function PrintEntry(e: Entry): (r: Bytes) {
    ModeBytes(e.mode) + ([32] + (e.name + ([0] + e.oid)))
  }

  function PrintTree(es: seq<Entry>): (r: Bytes) {
    if es == [] then [] else PrintTree(es[..|es| - 1]) + PrintEntry(es[|es| - 1])
  }

  // ----- what may be printed

  const DOT_NAMES: set<Bytes> := {[], [46], [46, 46], [46, 103, 105, 116]}

  predicate Legal(lim: Limits, name: Bytes) {
    && name !in DOT_NAMES && lim.text(name) && |name| <= lim.maxPathBytes
    && forall i :: 0 <= i < |name| ==> name[i] != 47 && name[i] != 92 && name[i] >= 32 && name[i] != 127
  }

  predicate LegalOid(oid: Bytes) {
    |oid| == 20 && exists i :: 0 <= i < |oid| && oid[i] != 0
  }

  /** Directories sort as if their name ended in a slash. */
  function OrderKey(e: Entry): (r: Bytes) {
    e.name + [if e.mode == Directory then 47 else 0]
  }

  predicate LegalEntry(lim: Limits, e: Entry) {
    Legal(lim, e.name) && LegalOid(e.oid)
  }

  ghost predicate GitOrder(es: seq<Entry>) {
    forall i, j :: 0 <= i < j < |es| ==> Less(OrderKey(es[i]), OrderKey(es[j]))
  }

  ghost predicate DistinctNames(es: seq<Entry>) {
    forall i, j :: 0 <= i < j < |es| ==> es[i].name != es[j].name
  }

  /** The entry lists that make a supported tree. */
  ghost predicate Supported(lim: Limits, es: seq<Entry>) {
    && |es| <= lim.maxEntries && GitOrder(es) && DistinctNames(es)
    && forall i :: 0 <= i < |es| ==> LegalEntry(lim, es[i])
  }

  // ----- searching

  /** The first `b` in `data[from..to]`, or -1. */
  function Find(data: Bytes, b: Byte, from: nat, to: nat): (r: int)
    ensures r == -1 || (from <= r < to && r < |data| && data[r] == b && forall k :: from <= k < r ==> data[k] != b)
    ensures r == -1 ==> forall k :: from <= k < to && k < |data| ==> data[k] != b
    decreases |data| - from
  {
    if from >= to || from >= |data| then -1
    else if data[from] == b then from
    else Find(data, b, from + 1, to)
  }

  lemma FindAt(data: Bytes, b: Byte, from: nat, to: nat, k: nat)
    requires from <= k < to && k < |data| && data[k] == b && forall j :: from <= j < k ==> data[j] != b
    ensures Find(data, b, from, to) == k
  {
  }

  // ----- one entry at a position

  /** The payload continues with the text of `e`. */
  ghost predicate Here(data: Bytes, at: nat, e: Entry) {
    at + |PrintEntry(e)| <= |data| && data[at..at + |PrintEntry(e)|] == PrintEntry(e)
  }

  datatype Cut = Cut(space: int, nul: int)

  function CutAt(data: Bytes, at: nat): (r: Cut) {
    var space := Find(data, 32, at, at + 8);
    Cut(space, if space >= 0 then Find(data, 0, space + 1, |data|) else -1)
  }

  function ReadMode(raw: Bytes): (m: seq<Mode>)
    ensures |m| <= 1 && forall k :: k in m ==> ModeBytes(k) == raw
  {
    if raw == ModeBytes(Directory) then [Directory]
    else if raw == ModeBytes(Regular) then [Regular]
    else if raw == ModeBytes(Executable) then [Executable]
    else []
  }

  lemma ReadModeBytes(m: Mode)
    ensures ReadMode(ModeBytes(m)) == [m]
  {
    assert ModeBytes(Directory)[0] == 52;
    assert ModeBytes(Regular)[3] == 54 && ModeBytes(Executable)[3] == 55;
  }

  lemma HereAt(data: Bytes, at: nat, e: Entry, k: nat)
    requires Here(data, at, e) && k < |PrintEntry(e)|
    ensures data[at + k] == PrintEntry(e)[k]
  {
    hide PrintEntry;
    var p := PrintEntry(e);
    assert data[at..at + |p|][k] == p[k];
  }

  lemma HereSlice(data: Bytes, at: nat, e: Entry, i: nat, j: nat)
    requires Here(data, at, e) && i <= j <= |PrintEntry(e)|
    ensures data[at + i..at + j] == PrintEntry(e)[i..j]
  {
    hide PrintEntry;
    var p := PrintEntry(e);
    forall k | 0 <= k < j - i ensures data[at + i..at + j][k] == p[i..j][k] {
      HereAt(data, at, e, i + k);
    }
  }

  lemma SpaceFound(data: Bytes, at: nat, e: Entry)
    requires Here(data, at, e)
    ensures Find(data, 32, at, at + 8) == at + |ModeBytes(e.mode)|
  {
    hide Here, ModeBytes, PrintEntry;
    var m := |ModeBytes(e.mode)|;
    PrintEntryParts(e);
    HereInside(data, at, e);
    forall j | at <= j < at + m ensures data[j] != 32 { HereAt(data, at, e, j - at); }
    HereAt(data, at, e, m);
    FindAt(data, 32, at, at + 8, at + m);
  }

  lemma HereInside(data: Bytes, at: nat, e: Entry)
    requires Here(data, at, e)
    ensures at + |PrintEntry(e)| <= |data|
  {
  }

  lemma NulFound(lim: Limits, data: Bytes, at: nat, e: Entry)
    requires Here(data, at, e) && LegalEntry(lim, e)
    ensures var m := |ModeBytes(e.mode)|; Find(data, 0, at + m + 1, |data|) == at + m + 1 + |e.name|
  {
    hide Here, ModeBytes, PrintEntry;
    var m, n := |ModeBytes(e.mode)|, |e.name|;
    PrintEntryParts(e);
    HereInside(data, at, e);
    forall j | at + m + 1 <= j < at + m + 1 + n ensures data[j] != 0 {
      HereAt(data, at, e, j - at);
      var k := j - at - m - 1;
      assert PrintEntry(e)[m + 1 + k] == e.name[k];
    }
    HereAt(data, at, e, m + 1 + n);
    FindAt(data, 0, at + m + 1, |data|, at + m + 1 + n);
  }

  /** Where a legal entry stands, the two searches find its own separators. */
  lemma CutFinds(lim: Limits, data: Bytes, at: nat, e: Entry)
    requires Here(data, at, e) && LegalEntry(lim, e)
    ensures var m := |ModeBytes(e.mode)|; var c := CutAt(data, at);
            && c.space == at + m && c.nul == at + m + 1 + |e.name| && c.nul + 21 <= |data|
            && data[at..c.space] == ModeBytes(e.mode) && data[c.space + 1..c.nul] == e.name
            && data[c.nul + 1..c.nul + 21] == e.oid
            && at + |PrintEntry(e)| == c.nul + 21
  {
    hide Here, ModeBytes, PrintEntry, Find;
    var m, n := |ModeBytes(e.mode)|, |e.name|;
    PrintEntryParts(e);
    HereInside(data, at, e);
    SpaceFound(data, at, e);
    NulFound(lim, data, at, e);
    HereSlice(data, at, e, 0, m);
    HereSlice(data, at, e, m + 1, m + 1 + n);
    HereSlice(data, at, e, m + 2 + n, m + 22 + n);
    var p := PrintEntry(e);
    assert p[0..m] == p[..m] && p[m + 2 + n..m + 22 + n] == p[m + 2 + n..];
    assert at + (m + 1) == at + m + 1 && at + (m + 2 + n) == at + m + 1 + n + 1;
  }

  lemma Middle(a: Bytes, b: Bytes, c: Bytes)
    ensures (a + (b + c))[..|a|] == a && (a + (b + c))[|a|..|a| + |b|] == b && (a + (b + c))[|a| + |b|..] == c
    ensures forall k :: 0 <= k < |b| ==> (a + (b + c))[|a| + k] == b[k]
  {
    assert (a + (b + c))[|a|..|a| + |b|] == b;
    assert (a + (b + c))[|a| + |b|..] == c;
  }

  lemma PrintEntryMode(e: Entry)
    ensures var p, m := PrintEntry(e), |ModeBytes(e.mode)|;
            && |p| > m && p[..m] == ModeBytes(e.mode) && p[m] == 32
            && (forall k :: 0 <= k < m ==> p[k] == ModeBytes(e.mode)[k])
  {
    hide ModeBytes;
    var m, rest := ModeBytes(e.mode), e.name + ([0] + e.oid);
    assert PrintEntry(e) == m + ([32] + rest);
  }

  lemma PrintEntryName(e: Entry)
    ensures var p, m, n := PrintEntry(e), |ModeBytes(e.mode)|, |e.name|;
            |p| >= m + 1 + n && p[m + 1..m + 1 + n] == e.name && (forall k :: 0 <= k < n ==> p[m + 1 + k] == e.name[k])
  {
    hide ModeBytes;
    var a, rest := ModeBytes(e.mode) + [32], [0] + e.oid;
    assert PrintEntry(e) == a + (e.name + rest) by { Associative(ModeBytes(e.mode), [32], e.name + rest); }
    hide PrintEntry;
    Middle(a, e.name, rest);
    assert |a| == |ModeBytes(e.mode)| + 1;
  }

  lemma PrintEntryOid(e: Entry)
    ensures var p, m, n := PrintEntry(e), |ModeBytes(e.mode)|, |e.name|;
            |p| == m + 2 + n + |e.oid| && p[m + 1 + n] == 0 && p[m + 2 + n..] == e.oid
  {
    hide ModeBytes;
    var m, n, o := ModeBytes(e.mode), e.name, e.oid;
    var b := m + [32] + n;
    Associative(m, [32], n + ([0] + o));
    Associative(m + [32], n, [0] + o);
    assert PrintEntry(e) == b + ([0] + o);
    Middle(b, [0], o);
    assert (b + ([0] + o))[|b|] == 0;
  }

  lemma PrintEntryParts(e: Entry)
    ensures var p, m, n := PrintEntry(e), |ModeBytes(e.mode)|, |e.name|;
            && |p| == m + 2 + n + |e.oid| && p[..m] == ModeBytes(e.mode) && p[m] == 32 && p[m + 1..m + 1 + n] == e.name
            && p[m + 1 + n] == 0 && p[m + 2 + n..] == e.oid
            && (forall k :: 0 <= k < m ==> p[k] == ModeBytes(e.mode)[k])
            && (forall k :: 0 <= k < n ==> p[m + 1 + k] == e.name[k])
  {
    hide ModeBytes, PrintEntry;
    PrintEntryMode(e);
    PrintEntryName(e);
    PrintEntryOid(e);
  }

  lemma PrintsItsCut(data: Bytes, at: nat, m: Mode)
    requires at <= |data|
    requires var c := CutAt(data, at);
             c.space >= 0 && c.nul >= 0 && c.nul + 21 <= |data| && ModeBytes(m) == data[at..c.space]
    ensures var c := CutAt(data, at);
            PrintEntry(Entry(m, data[c.space + 1..c.nul], data[c.nul + 1..c.nul + 21])) == data[at..c.nul + 21]
  {
    hide ModeBytes;
    var c := CutAt(data, at);
    var name, oid := data[c.space + 1..c.nul], data[c.nul + 1..c.nul + 21];
    assert data[at..c.nul + 21] == data[at..c.space] + ([data[c.space]] + (name + ([data[c.nul]] + oid)));
  }

  // ----- whole trees

  lemma {:induction false} PrintTreeAppend(a: seq<Entry>, b: seq<Entry>)
    ensures PrintTree(a + b) == PrintTree(a) + PrintTree(b)
  {
    hide PrintEntry;
    if b == [] {
      assert a + b == a;
    } else {
      assert (a + b)[..|a + b| - 1] == a + b[..|b| - 1];
      PrintTreeAppend(a, b[..|b| - 1]);
    }
  }

  lemma PrintTreeOne(e: Entry)
    ensures PrintTree([e]) == PrintEntry(e)
  {
    hide PrintEntry;
    assert [e][..0] == [];
    assert PrintTree([]) == [];
  }

  /** A supported tree with this text. */
  ghost predicate Candidate(lim: Limits, data: Bytes, es: seq<Entry>) {
    Supported(lim, es) && PrintTree(es) == data
  }

  ghost predicate StartsWith(es: seq<Entry>, done: seq<Entry>) {
    |done| <= |es| && es[..|done|] == done
  }

  /** After the entries read so far, the next entry of any candidate stands at the cursor. */
  lemma NextStands(lim: Limits, data: Bytes, es: seq<Entry>, done: seq<Entry>)
    requires Candidate(lim, data, es) && StartsWith(es, done) && PrintTree(done) <= data && |PrintTree(done)| < |data|
    ensures |done| < |es| && LegalEntry(lim, es[|done|]) && Here(data, |PrintTree(done)|, es[|done|])
  {
    hide PrintEntry, LegalEntry, GitOrder, DistinctNames, PrintTree;
    var k, at := |done|, |PrintTree(done)|;
    assert es[..|es|] == es;
    var e := es[k];
    assert es == done + ([e] + es[k + 1..]);
    PrintTreeAppend(done, [e] + es[k + 1..]);
    PrintTreeAppend([e], es[k + 1..]);
    PrintTreeOne(e);
    Middle(PrintTree(done), PrintEntry(e), PrintTree(es[k + 1..]));
  }

  predicate Listed(es: seq<Entry>, name: Bytes) {
    exists i :: 0 <= i < |es| && es[i].name == name
  }

  /** Whether a legal next entry keeps the list supported. */
  ghost predicate Continues(lim: Limits, done: seq<Entry>, e: Entry) {
    && |done| < lim.maxEntries && LegalEntry(lim, e) && !Listed(done, e.name)
    && (done != [] ==> Less(OrderKey(done[|done| - 1]), OrderKey(e)))
  }

  lemma ContinuesSupported(lim: Limits, done: seq<Entry>, e: Entry)
    requires Supported(lim, done) && Continues(lim, done, e)
    ensures Supported(lim, done + [e])
  {
    hide Less, LegalEntry, OrderKey;
    var es := done + [e];
    forall i, j | 0 <= i < j < |es| ensures Less(OrderKey(es[i]), OrderKey(es[j])) {
      if j == |done| && i < |done| - 1 { LessTransitive(OrderKey(es[i]), OrderKey(done[|done| - 1]), OrderKey(e)); }
    }
  }

  lemma SupportedContinues(lim: Limits, es: seq<Entry>, done: seq<Entry>)
    requires Supported(lim, es) && StartsWith(es, done) && |done| < |es|
    ensures Continues(lim, done, es[|done|])
  {
    hide Less, LegalEntry, OrderKey;
    forall i | 0 <= i < |done| ensures done[i] == es[i] { assert es[..|done|][i] == done[i]; }
  }

  /** The entry the cursor stands on, if the bytes there spell one at all. */
  function ReadEntry(data: Bytes, at: nat): (r: seq<Entry>)
    requires at <= |data|
    ensures |r| <= 1
  {
    var c := CutAt(data, at);
    if c.space < 0 || c.nul < 0 || c.nul + 21 > |data| then []
    else
      var m := ReadMode(data[at..c.space]);
      if m == [] then [] else [Entry(m[0], data[c.space + 1..c.nul], data[c.nul + 1..c.nul + 21])]
  }

  lemma ReadEntryPrints(data: Bytes, at: nat)
    requires at <= |data| && ReadEntry(data, at) != []
    ensures Here(data, at, ReadEntry(data, at)[0])
  {
    hide PrintEntry, ModeBytes, ReadMode;
    var c := CutAt(data, at);
    var m := ReadMode(data[at..c.space]);
    assert m[0] in m;
    PrintsItsCut(data, at, m[0]);
  }

  lemma ReadEntryFinds(lim: Limits, data: Bytes, at: nat, e: Entry)
    requires at <= |data| && Here(data, at, e) && LegalEntry(lim, e)
    ensures ReadEntry(data, at) == [e]
  {
    hide PrintEntry, ModeBytes, ReadMode, Here, CutAt;
    CutFinds(lim, data, at, e);
    ReadModeBytes(e.mode);
  }

  /** Accepts exactly the texts of supported trees, and returns the tree. */
  method TreeEntries(data: Bytes, lim: Limits) returns (r: Parsed)
    ensures r.Entries? ==> Candidate(lim, data, r.list)
    ensures r.Unsupported? ==> forall es :: !Candidate(lim, data, es)
  {
    hide Candidate, StartsWith, PrintTree, Supported, Here, ReadEntry, LegalEntry, OrderKey, Less, Listed;
    var result: seq<Entry> := [];
    var position := 0;
    EmptyTree(lim, data);
    while position < |data|
      invariant position <= |data| && PrintTree(result) == data[..position] && Supported(lim, result)
      invariant forall es :: Candidate(lim, data, es) ==> StartsWith(es, result)
      decreases |data| - position
    {
      forall es | Candidate(lim, data, es)
        ensures Forced(lim, data, position, result, es) { CandidateForced(lim, data, position, result, es); }
      if |result| >= lim.maxEntries { return Unsupported; }
      var read := ReadEntry(data, position);
      if read == [] { return Unsupported; }
      var e := read[0];
      if !LegalEntry(lim, e) { return Unsupported; }
      if Listed(result, e.name) || (result != [] && !Less(OrderKey(result[|result| - 1]), OrderKey(e))) {
        return Unsupported;
      }
      ContinuesSupported(lim, result, e);
      Extends(data, position, result, e);
      forall es | Candidate(lim, data, es)
        ensures StartsWith(es, result + [e]) { ForcedExtends(lim, data, position, result, es); }
      result := result + [e];
      position := position + |PrintEntry(e)|;
    }
    assert data[..position] == data;
    r := Entries(result);
    assert Candidate(lim, data, result) by { CandidateFound(lim, data, result); }
  }

  lemma EmptyTree(lim: Limits, data: Bytes)
    ensures PrintTree([]) == data[..0] && Supported(lim, []) && forall es :: StartsWith(es, [])
  {
  }

  lemma CandidateFound(lim: Limits, data: Bytes, es: seq<Entry>)
    requires Supported(lim, es) && PrintTree(es) == data
    ensures Candidate(lim, data, es)
  {
  }

  /** Any candidate goes on with the entry read at the cursor. */
  ghost predicate Forced(lim: Limits, data: Bytes, at: nat, done: seq<Entry>, es: seq<Entry>) {
    at <= |data| && |done| < |es| && ReadEntry(data, at) == [es[|done|]] && Continues(lim, done, es[|done|])
        && StartsWith(es, done)
  }

  lemma CandidateForced(lim: Limits, data: Bytes, at: nat, done: seq<Entry>, es: seq<Entry>)
    requires at < |data| && PrintTree(done) == data[..at] && Candidate(lim, data, es) && StartsWith(es, done)
    ensures Forced(lim, data, at, done, es)
  {
    hide StartsWith, PrintTree, Here, ReadEntry, LegalEntry, Supported, Continues;
    assert PrintTree(done) <= data;
    NextStands(lim, data, es, done);
    ReadEntryFinds(lim, data, at, es[|done|]);
    SupportedContinues(lim, es, done);
  }

  lemma ForcedExtends(lim: Limits, data: Bytes, at: nat, done: seq<Entry>, es: seq<Entry>)
    requires Forced(lim, data, at, done, es)
    ensures StartsWith(es, done + ReadEntry(data, at))
  {
    hide ReadEntry, Continues;
    assert es[..|done| + 1] == es[..|done|] + [es[|done|]];
  }

  lemma Extends(data: Bytes, at: nat, done: seq<Entry>, e: Entry)
    requires at <= |data| && PrintTree(done) == data[..at] && ReadEntry(data, at) == [e]
    ensures at + |PrintEntry(e)| <= |data| && |PrintEntry(e)| > 0
    ensures PrintTree(done + [e]) == data[..at + |PrintEntry(e)|]
  {
    hide ReadEntry, PrintTree;
    ReadEntryPrints(data, at);
    PrintTreeAppend(done, [e]);
    PrintTreeOne(e);
    PrintEntryParts(e);
    assert data[..at + |PrintEntry(e)|] == data[..at] + data[at..at + |PrintEntry(e)|];
  }

  lemma PrefixText(es: seq<Entry>, k: nat)
    requires k < |es|
    ensures var p := PrintTree(es[..k]); |p| < |PrintTree(es)| && PrintTree(es)[..|p|] == p
  {
    hide PrintTree, PrintEntry;
    assert es == es[..k] + ([es[k]] + es[k + 1..]);
    PrintTreeAppend(es[..k], [es[k]] + es[k + 1..]);
    PrintTreeAppend([es[k]], es[k + 1..]);
    PrintTreeOne(es[k]);
    PrintEntryParts(es[k]);
  }

  /** Printing is injective on supported trees: a payload stands for one tree. */
  lemma {:induction false} PrintInjective(lim: Limits, es: seq<Entry>, fs: seq<Entry>, k: nat)
    requires Supported(lim, es) && Supported(lim, fs) && PrintTree(es) == PrintTree(fs) && k <= |es|
    ensures StartsWith(fs, es[..k])
  {
    hide Supported, PrintTree, ReadEntry, Continues;
    if k > 0 {
      PrintInjective(lim, es, fs, k - 1);
      var data, done := PrintTree(es), es[..k - 1];
      PrefixText(es, k - 1);
      CandidateForced(lim, data, |PrintTree(done)|, done, es);
      CandidateForced(lim, data, |PrintTree(done)|, done, fs);
      assert fs[..k] == fs[..k - 1] + [fs[k - 1]];
      assert es[..k] == done + [es[k - 1]];
    }
  }

  lemma OneTree(lim: Limits, es: seq<Entry>, fs: seq<Entry>)
    requires Supported(lim, es) && Supported(lim, fs) && PrintTree(es) == PrintTree(fs)
    ensures es == fs
  {
    hide Supported, PrintTree;
    PrintInjective(lim, es, fs, |es|);
    PrintInjective(lim, fs, es, |fs|);
    assert es[..|es|] == es && fs[..|fs|] == fs;
  }
}
