/** Canonical JSON text: what `canonical_bytes` prints, with keys sorted, no
    spaces and characters outside ASCII left as UTF-8. */
module JsonTexts {
  import opened ByteStrings
  import opened Normalisation

  /** A code point. */
  type Code = c: nat | c < 0x11_0000

  /** A Python value. Dictionary keys may be of any type; `Other` stands for the
      types JSON has no place for. */
  datatype Value =
    | Null
    | Bool(b: bool)
    | Int(i: int)
    | Str(codes: seq<Code>)
    | List(items: seq<Value>)
    | Dict(entries: seq<Entry>)
    | Other

  datatype Entry = Entry(key: Value, child: Value)

  predicate Scalar(v: Value) {
    v.Null? || v.Bool? || v.Int?
  }

  // ----- characters

  predicate ShortEscape(c: nat) {
    c == 34 || c == 92 || c == 8 || c == 12 || c == 10 || c == 13 || c == 9
  }

  function EscapeLetter(c: nat): (r: Byte)
    requires ShortEscape(c)
  {
    if c == 8 then 98
    else if c == 12 then 102
    else if c == 10 then 110
    else if c == 13 then 114
    else if c == 9 then 116
    else c
  }

  function Utf8(c: nat): (r: Bytes)
    ensures c >= 128 ==> forall b :: b in r ==> b >= 128
  {
    if c < 0x80 then [c]
    else if c < 0x800 then [192 + c / 64, 128 + c % 64]
    else if c < 0x10000 then [224 + c / 4096, 128 + c / 64 % 64, 128 + c % 64]
    else [240 + c / 262144 % 8, 128 + c / 4096 % 64, 128 + c / 64 % 64, 128 + c % 64]
  }

  function CharBytes(c: nat): (r: Bytes) {
    if ShortEscape(c) then [92, EscapeLetter(c)]
    else if c < 32 then [92, 117, 48, 48, HexDigit(c / 16), HexDigit(c % 16)]
    else Utf8(c)
  }

  /** What the budget charges for a character. */
  function CharSize(c: nat): (n: nat) {
    if ShortEscape(c) then 2
    else if c < 32 then 6
    else if c < 128 then 1 else if c < 2048 then 2 else if c < 65536 then 3 else 4
  }

  function CodeBytes(codes: seq<nat>): (r: Bytes) {
    if codes == [] then [] else CharBytes(codes[0]) + CodeBytes(codes[1..])
  }

  function CodeSize(codes: seq<nat>): (n: nat)
    ensures n >= |codes|
  {
    if codes == [] then 0 else CharSize(codes[0]) + CodeSize(codes[1..])
  }

  lemma {:induction false} CodeLength(codes: seq<nat>)
    ensures |CodeBytes(codes)| == CodeSize(codes)
  {
    if codes != [] { CodeLength(codes[1..]); }
  }

  function IntText(i: int): (r: Bytes)
    ensures |r| >= 1
  {
    if i < 0 then [45] + Decimal(-i) else Decimal(i)
  }

  // ----- values

  function Print(v: Value): (r: Bytes) {
    match v
    case Null => [110, 117, 108, 108]
    case Bool(b) => if b then [116, 114, 117, 101] else [102, 97, 108, 115, 101]
    case Int(i) => IntText(i)
    case Str(codes) => [34] + CodeBytes(codes) + [34]
    case List(items) => [91] + PrintItems(items) + [93]
    case Dict(entries) => [123] + PrintEntries(entries) + [125]
    case Other => []
  }

  function PrintItems(vs: seq<Value>): (r: Bytes) {
    if vs == [] then []
    else if |vs| == 1 then Print(vs[0])
    else Print(vs[0]) + ([44] + PrintItems(vs[1..]))
  }

  function PrintEntry(e: Entry): (r: Bytes) {
    Print(e.key) + ([58] + Print(e.child))
  }

  function PrintEntries(es: seq<Entry>): (r: Bytes) {
    if es == [] then []
    else if |es| == 1 then PrintEntry(es[0])
    else PrintEntry(es[0]) + ([44] + PrintEntries(es[1..]))
  }

  // ----- sizes

  function Commas(n: nat): (r: nat) {
    if n == 0 then 0 else n - 1
  }

  function Size(v: Value): (n: nat) {
    match v
    case Null => 4
    case Bool(b) => if b then 4 else 5
    case Int(i) => |IntText(i)|
    case Str(codes) => 2 + CodeSize(codes)
    case List(items) => 2 + Commas(|items|) + SizeItems(items)
    case Dict(entries) => 2 + Commas(|entries|) + |entries| + SizeEntries(entries)
    case Other => 0
  }

  function SizeItems(vs: seq<Value>): (n: nat) {
    if vs == [] then 0 else Size(vs[0]) + SizeItems(vs[1..])
  }

  function SizeEntry(e: Entry): (n: nat) {
    Size(e.key) + Size(e.child)
  }

  function SizeEntries(es: seq<Entry>): (n: nat) {
    if es == [] then 0 else SizeEntry(es[0]) + SizeEntries(es[1..])
  }

  /** The charged size of a value is the length of its text. */
  lemma {:induction false} PrintLength(v: Value)
    ensures |Print(v)| == Size(v)
    decreases v, 1
  {
    match v {
      case Str(codes) => CodeLength(codes);
      case List(items) => ItemsLength(items);
      case Dict(entries) => EntriesLength(entries);
      case _ =>
    }
  }

  lemma {:induction false} ItemsLength(vs: seq<Value>)
    ensures |PrintItems(vs)| == Commas(|vs|) + SizeItems(vs)
    decreases vs, 0
  {
    if vs != [] {
      PrintLength(vs[0]);
      ItemsLength(vs[1..]);
    }
  }

  lemma {:induction false} EntriesLength(es: seq<Entry>)
    ensures |PrintEntries(es)| == Commas(|es|) + |es| + SizeEntries(es)
    decreases es, 0
  {
    if es != [] {
      EntryLength(es[0]);
      EntriesLength(es[1..]);
    }
  }

  lemma {:induction false} EntryLength(e: Entry)
    ensures |PrintEntry(e)| == 1 + SizeEntry(e)
    decreases e, 2
  {
    PrintLength(e.key);
    PrintLength(e.child);
  }

  // ----- how many values, how deep

  function Count(v: Value): (n: nat)
    ensures n >= 1
  {
    match v
    case List(items) => 1 + CountItems(items)
    case Dict(entries) => 1 + CountEntries(entries)
    case _ => 1
  }

  function CountItems(vs: seq<Value>): (n: nat)
    ensures n >= |vs|
  {
    if vs == [] then 0 else Count(vs[0]) + CountItems(vs[1..])
  }

  function CountEntry(e: Entry): (n: nat)
    ensures n >= 2
  {
    Count(e.key) + Count(e.child)
  }

  function CountEntries(es: seq<Entry>): (n: nat)
    ensures n >= 2 * |es|
  {
    if es == [] then 0 else CountEntry(es[0]) + CountEntries(es[1..])
  }

  /** How far below the root the deepest value or key lies. */
  function Deepest(v: Value): (n: nat) {
    match v
    case List(items) => if items == [] then 0 else 1 + DeepestItem(items)
    case Dict(entries) => if entries == [] then 0 else 1 + DeepestEntry(entries)
    case _ => 0
  }

  function DeepestItem(vs: seq<Value>): (n: nat) {
    if vs == [] then 0 else Larger(Deepest(vs[0]), DeepestItem(vs[1..]))
  }

  function DeepestEntry(es: seq<Entry>): (n: nat) {
    if es == [] then 0 else Larger(DeepestOf(es[0]), DeepestEntry(es[1..]))
  }

  function DeepestOf(e: Entry): (n: nat) {
    Larger(Deepest(e.key), Deepest(e.child))
  }

  /** How many containers are open at once. */
  function Nest(v: Value): (n: nat) {
    match v
    case List(items) => 1 + NestItems(items)
    case Dict(entries) => 1 + NestEntries(entries)
    case _ => 0
  }

  function NestItems(vs: seq<Value>): (n: nat) {
    if vs == [] then 0 else Larger(Nest(vs[0]), NestItems(vs[1..]))
  }

  function NestEntries(es: seq<Entry>): (n: nat) {
    if es == [] then 0 else Larger(NestOf(es[0]), NestEntries(es[1..]))
  }

  function NestOf(e: Entry): (n: nat) {
    Larger(Nest(e.key), Nest(e.child))
  }

  /** An empty container exactly `k` levels below the root. */
  predicate EmptyAt(v: Value, k: nat) {
    match v
    case List(items) => if k == 0 then items == [] else EmptyAtItems(items, k - 1)
    case Dict(entries) => if k == 0 then entries == [] else EmptyAtEntries(entries, k - 1)
    case _ => false
  }

  predicate EmptyAtItems(vs: seq<Value>, k: nat) {
    vs != [] && (EmptyAt(vs[0], k) || EmptyAtItems(vs[1..], k))
  }

  predicate EmptyAtEntry(e: Entry, k: nat) {
    EmptyAt(e.key, k) || EmptyAt(e.child, k)
  }

  predicate EmptyAtEntries(es: seq<Entry>, k: nat) {
    es != [] && (EmptyAtEntry(es[0], k) || EmptyAtEntries(es[1..], k))
  }

  /** Nesting passes the depth exactly where an empty container sits at the bottom. */
  lemma {:induction false} NestBeyondDepth(v: Value, k: nat)
    requires Deepest(v) <= k
    ensures Nest(v) > k <==> EmptyAt(v, k)
    decreases v, 1
  {
    match v {
      case List(items) => if items != [] { NestItemsBeyond(items, k - 1); }
      case Dict(entries) => if entries != [] { NestEntriesBeyond(entries, k - 1); }
      case _ =>
    }
  }

  lemma {:induction false} NestItemsBeyond(vs: seq<Value>, k: nat)
    requires vs != [] ==> DeepestItem(vs) <= k
    ensures NestItems(vs) > k <==> EmptyAtItems(vs, k)
    decreases vs, 0
  {
    if vs != [] {
      NestBeyondDepth(vs[0], k);
      NestItemsBeyond(vs[1..], k);
    }
  }

  lemma {:induction false} NestEntriesBeyond(es: seq<Entry>, k: nat)
    requires es != [] ==> DeepestEntry(es) <= k
    ensures NestEntries(es) > k <==> EmptyAtEntries(es, k)
    decreases es, 0
  {
    if es != [] {
      NestOfBeyond(es[0], k);
      NestEntriesBeyond(es[1..], k);
    }
  }

  lemma {:induction false} NestOfBeyond(e: Entry, k: nat)
    requires DeepestOf(e) <= k
    ensures NestOf(e) > k <==> EmptyAtEntry(e, k)
    decreases e, 2
  {
    NestBeyondDepth(e.key, k);
    NestBeyondDepth(e.child, k);
  }

  // ----- what may be printed

  const SHORT := 2 * 1024 * 1024
  const TWO_63 := 0x8000_0000_0000_0000

  predicate TypedScalar(v: Value) {
    match v
    case Int(i) => -TWO_63 <= i < TWO_63
    case Str(codes) => |codes| <= SHORT && forall i :: 0 <= i < |codes| ==> !(0xD800 <= codes[i] <= 0xDFFF)
    case Other => false
    case _ => true
  }

  /** In-range integers, no surrogates, string keys, bounded strings throughout. */
  predicate Typed(v: Value) {
    match v
    case List(items) => forall x :: x in items ==> Typed(x)
    case Dict(entries) => forall e :: e in entries ==> TypedEntry(e)
    case _ => TypedScalar(v)
  }

  // ----- sorted keys

  function KeyCodes(e: Entry): (r: seq<nat>) {
    if e.key.Str? then e.key.codes else []
  }

  function InsertEntry(e: Entry, es: seq<Entry>): (r: seq<Entry>)
    ensures |r| == |es| + 1 && forall x :: x in r <==> x == e || x in es
  {
    if es == [] then [e]
    else if Less(KeyCodes(e), KeyCodes(es[0])) then [e] + es
    else [es[0]] + InsertEntry(e, es[1..])
  }

  function SortEntries(es: seq<Entry>): (r: seq<Entry>)
    ensures |r| == |es| && forall x :: x in r <==> x in es
  {
    if es == [] then [] else InsertEntry(es[|es| - 1], SortEntries(es[..|es| - 1]))
  }

  function SortedItems(vs: seq<Value>): (r: seq<Value>)
    ensures |r| == |vs|
  {
    if vs == [] then [] else [Sorted(vs[0])] + SortedItems(vs[1..])
  }

  function SortedChildren(es: seq<Entry>): (r: seq<Entry>)
    ensures |r| == |es|
  {
    if es == [] then [] else [SortedEntry(es[0])] + SortedChildren(es[1..])
  }

  function SortedEntry(e: Entry): (r: Entry) {
    Entry(e.key, Sorted(e.child))
  }

  /** Every dictionary in key order. */
  function Sorted(v: Value): (r: Value) {
    match v
    case List(items) => List(SortedItems(items))
    case Dict(entries) => Dict(SortEntries(SortedChildren(entries)))
    case _ => v
  }

  /** What both passes measure. */
  ghost predicate SameMeasure(v: Value, w: Value) {
    && Size(v) == Size(w) && Count(v) == Count(w) && Nest(v) == Nest(w) && Deepest(v) == Deepest(w)
    && (Typed(v) <==> Typed(w))
  }

  lemma {:induction false} InsertMeasure(e: Entry, es: seq<Entry>)
    ensures SizeEntries(InsertEntry(e, es)) == SizeEntry(e) + SizeEntries(es)
    ensures CountEntries(InsertEntry(e, es)) == CountEntry(e) + CountEntries(es)
    ensures NestEntries(InsertEntry(e, es)) == Larger(NestOf(e), NestEntries(es))
    ensures DeepestEntry(InsertEntry(e, es)) == Larger(DeepestOf(e), DeepestEntry(es))
  {
    if es != [] && !Less(KeyCodes(e), KeyCodes(es[0])) {
      InsertMeasure(e, es[1..]);
      assert ([es[0]] + InsertEntry(e, es[1..]))[1..] == InsertEntry(e, es[1..]);
    } else {
      assert ([e] + es)[1..] == es;
    }
  }

  lemma {:induction false} AppendMeasure(es: seq<Entry>, e: Entry)
    ensures SizeEntries(es + [e]) == SizeEntries(es) + SizeEntry(e)
    ensures CountEntries(es + [e]) == CountEntries(es) + CountEntry(e)
    ensures NestEntries(es + [e]) == Larger(NestOf(e), NestEntries(es))
    ensures DeepestEntry(es + [e]) == Larger(DeepestOf(e), DeepestEntry(es))
  {
    if es != [] {
      AppendMeasure(es[1..], e);
      assert (es + [e])[1..] == es[1..] + [e];
    } else {
      assert (es + [e])[1..] == [];
    }
  }

  lemma {:induction false} SortMeasure(es: seq<Entry>)
    ensures SizeEntries(SortEntries(es)) == SizeEntries(es)
    ensures CountEntries(SortEntries(es)) == CountEntries(es)
    ensures NestEntries(SortEntries(es)) == NestEntries(es) && DeepestEntry(SortEntries(es)) == DeepestEntry(es)
  {
    if es != [] {
      var front, last := es[..|es| - 1], es[|es| - 1];
      SortMeasure(front);
      InsertMeasure(last, SortEntries(front));
      AppendMeasure(front, last);
      assert front + [last] == es;
    }
  }

  /** Sorting keys changes no size, count, nesting or type. */
  lemma {:induction false} SortedMeasure(v: Value)
    ensures SameMeasure(v, Sorted(v))
    decreases v, 1
  {
    match v {
      case List(items) =>
        SortedItemsMeasure(items);
        assert forall x :: x in items <==> exists i :: 0 <= i < |items| && items[i] == x;
      case Dict(entries) =>
        SortedChildrenMeasure(entries);
        SortMeasure(SortedChildren(entries));
      case _ =>
    }
  }

  lemma {:induction false} SortedItemsMeasure(vs: seq<Value>)
    ensures SizeItems(SortedItems(vs)) == SizeItems(vs) && CountItems(SortedItems(vs)) == CountItems(vs)
    ensures NestItems(SortedItems(vs)) == NestItems(vs) && DeepestItem(SortedItems(vs)) == DeepestItem(vs)
    ensures (forall x :: x in SortedItems(vs) ==> Typed(x)) <==> (forall x :: x in vs ==> Typed(x))
    decreases vs, 0
  {
    if vs != [] {
      SortedMeasure(vs[0]);
      SortedItemsMeasure(vs[1..]);
      var r := SortedItems(vs);
      assert r[1..] == SortedItems(vs[1..]) && r[0] == Sorted(vs[0]);
      assert r[0] in r && vs[0] in vs;
      assert forall x :: x in r <==> x == r[0] || x in r[1..];
      assert forall x :: x in vs <==> x == vs[0] || x in vs[1..];
    }
  }

  lemma {:induction false} SortedEntryMeasure(e: Entry)
    ensures SizeEntry(SortedEntry(e)) == SizeEntry(e) && CountEntry(SortedEntry(e)) == CountEntry(e)
    ensures NestOf(SortedEntry(e)) == NestOf(e) && DeepestOf(SortedEntry(e)) == DeepestOf(e)
    ensures TypedEntry(SortedEntry(e)) <==> TypedEntry(e)
    decreases e, 2
  {
    SortedMeasure(e.child);
  }

  predicate TypedEntry(e: Entry) {
    e.key.Str? && Typed(e.key) && Typed(e.child)
  }

  lemma {:induction false} SortedChildrenMeasure(es: seq<Entry>)
    ensures SizeEntries(SortedChildren(es)) == SizeEntries(es) && CountEntries(SortedChildren(es)) == CountEntries(es)
    ensures NestEntries(SortedChildren(es)) == NestEntries(es) && DeepestEntry(SortedChildren(es)) == DeepestEntry(es)
    ensures (forall e :: e in SortedChildren(es) ==> TypedEntry(e)) <==> (forall e :: e in es ==> TypedEntry(e))
    decreases es, 0
  {
    if es != [] {
      SortedEntryMeasure(es[0]);
      SortedChildrenMeasure(es[1..]);
      var r := SortedChildren(es);
      assert r[1..] == SortedChildren(es[1..]);
      assert forall x :: x in r <==> x == r[0] || x in r[1..];
      assert forall x :: x in es <==> x == es[0] || x in es[1..];
    }
  }

  /** The keys of a printed dictionary ascend. */
  ghost predicate KeysAscend(es: seq<Entry>) {
    forall i, j :: 0 <= i < j < |es| ==> !Less(KeyCodes(es[j]), KeyCodes(es[i]))
  }

  lemma NotLessTransitive(a: seq<int>, b: seq<int>, c: seq<int>)
    requires !Less(b, a) && !Less(c, b)
    ensures !Less(c, a)
  {
    LessTotal(a, b);
    LessTotal(b, c);
    if Less(a, b) && Less(b, c) { LessTransitive(a, b, c); }
    if Less(c, a) {
      if Less(a, b) { LessTransitive(c, a, b); }
    }
    LessIrreflexive(a);
  }

  lemma {:induction false} InsertKeysAscend(e: Entry, es: seq<Entry>)
    requires KeysAscend(es)
    ensures KeysAscend(InsertEntry(e, es))
  {
    hide Less;
    if es != [] {
      var k, head := KeyCodes(e), KeyCodes(es[0]);
      LessTotal(k, head);
      if Less(k, head) {
        LessIrreflexive(k);
        if Less(head, k) { LessTransitive(k, head, k); }
        forall j | 0 <= j < |es| ensures !Less(KeyCodes(es[j]), k) {
          if j > 0 { NotLessTransitive(k, head, KeyCodes(es[j])); }
        }
      } else {
        InsertKeysAscend(e, es[1..]);
        var r := InsertEntry(e, es[1..]);
        forall j | 0 <= j < |r| ensures !Less(KeyCodes(r[j]), head) {
          assert r[j] in r;
          if r[j] != e {
            var i :| 0 <= i < |es[1..]| && es[1..][i] == r[j];
            assert es[i + 1] == r[j];
          }
        }
      }
    }
  }

  lemma {:induction false} SortedKeysAscend(es: seq<Entry>)
    ensures KeysAscend(SortEntries(es))
  {
    if es != [] {
      SortedKeysAscend(es[..|es| - 1]);
      InsertKeysAscend(es[|es| - 1], SortEntries(es[..|es| - 1]));
    }
  }
}
