/** One canonical text belongs to one value: what the last comparison in
    `decode_json` relies on. */
module JsonInverses {
  import opened ByteStrings
  import opened Normalisation
  import opened JoinedTexts
  import opened JsonTexts
  import opened JsonBudgets
  import opened JsonScans

  // ----- what can follow a value

  predicate Delimiter(b: Byte) {
    b == 44 || b == 58 || b == 93 || b == 125
  }

  predicate Ends(x: Bytes) {
    x == [] || Delimiter(x[0])
  }

  predicate Digit(b: Byte) {
    48 <= b <= 57
  }

  /** The first byte of a value's text tells its kind. */
  predicate Opens(v: Value, b: Byte) {
    match v
    case Null => b == 110
    case Bool(t) => b == if t then 116 else 102
    case Int(i) => if i < 0 then b == 45 else Digit(b)
    case Str(_) => b == 34
    case List(_) => b == 91
    case Dict(_) => b == 123
    case Other => false
  }

  lemma FirstByte(v: Value)
    requires !v.Other?
    ensures Print(v) != [] && Opens(v, Print(v)[0])
  {
    if v.Int? { DecimalDigits(if v.i < 0 then -v.i else v.i); }
  }

  lemma TypedPrintable(v: Value)
    requires Typed(v)
    ensures !v.Other?
  {
  }

  // ----- characters

  /** No character's bytes begin another's. */
  lemma CharCancel(c: Code, d: Code, x: Bytes, y: Bytes)
    requires CharBytes(c) + x == CharBytes(d) + y
    ensures c == d && x == y
  {
    var a, b := CharBytes(c), CharBytes(d);
    assert a != [] && b != [] && (a + x)[0] == a[0] && (b + y)[0] == b[0];
    CharClass(c);
    CharClass(d);
    assert |a| == |b| by {
      if a[0] == 92 {
        assert (a + x)[1] == a[1] && (b + y)[1] == b[1];
      }
    }
    assert a == (a + x)[..|a|] && b == (b + y)[..|b|];
    assert x == (a + x)[|a|..] && y == (b + y)[|b|..];
    CharInjective(c, d);
  }

  /** The first one or two bytes tell the length. */
  lemma CharClass(c: Code)
    ensures var b := CharBytes(c);
            && b != [] && b[0] != 34
            && (b[0] == 92 ==> |b| >= 2 && |b| == if b[1] == 117 then 6 else 2)
            && (b[0] < 128 && b[0] != 92 ==> |b| == 1)
            && (b[0] >= 128 ==> |b| == if b[0] < 224 then 2 else if b[0] < 240 then 3 else 4)
  {
  }

  lemma CharInjective(c: Code, d: Code)
    requires CharBytes(c) == CharBytes(d)
    ensures c == d
  {
    CharClass(c);
    CharClass(d);
    var a, b := CharBytes(c), CharBytes(d);
    if a[0] == 92 && a[1] == 117 {
      assert a[4] == b[4] && a[5] == b[5];
      assert c == 16 * (c / 16) + c % 16 && d == 16 * (d / 16) + d % 16;
    } else if a[0] >= 128 {
      Utf8Injective(c, d);
    }
  }

  function Point(b: seq<int>): (c: int) {
    if |b| == 2 then 64 * (b[0] - 192) + (b[1] - 128)
    else if |b| == 3 then 64 * (64 * (b[0] - 224) + (b[1] - 128)) + (b[2] - 128)
    else if |b| == 4 then 64 * (64 * (64 * (b[0] - 240) + (b[1] - 128)) + (b[2] - 128)) + (b[3] - 128)
    else 0
  }

  lemma PointOf(c: Code)
    requires c >= 128
    ensures Point(Utf8(c)) == c
  {
    SixBits(c);
  }

  lemma Utf8Injective(c: Code, d: Code)
    requires c >= 128 && d >= 128 && Utf8(c) == Utf8(d)
    ensures c == d
  {
    hide Point, Utf8;
    PointOf(c);
    PointOf(d);
  }

  lemma SixBits(c: Code)
    ensures c == 64 * (c / 64) + c % 64 && c / 64 == 64 * (c / 4096) + c / 64 % 64
    ensures c / 4096 == 64 * (c / 262144) + c / 4096 % 64 && c / 262144 < 8
  {
    assert c / 64 / 64 == c / 4096 && c / 4096 / 64 == c / 262144;
  }

  lemma {:induction false} CodesCancel(c: seq<Code>, d: seq<Code>, x: Bytes, y: Bytes)
    requires CodeBytes(c) + ([34] + x) == CodeBytes(d) + ([34] + y)
    ensures c == d && x == y
  {
    hide CharBytes;
    var l, r := CodeBytes(c) + ([34] + x), CodeBytes(d) + ([34] + y);
    if c != [] { CharClass(c[0]); assert l[0] == CharBytes(c[0])[0]; }
    if d != [] { CharClass(d[0]); assert r[0] == CharBytes(d[0])[0]; }
    if c != [] && d != [] {
      assert l == CharBytes(c[0]) + (CodeBytes(c[1..]) + ([34] + x));
      assert r == CharBytes(d[0]) + (CodeBytes(d[1..]) + ([34] + y));
      CharCancel(c[0], d[0], CodeBytes(c[1..]) + ([34] + x), CodeBytes(d[1..]) + ([34] + y));
      CodesCancel(c[1..], d[1..], x, y);
    } else {
      assert c == [] && d == [];
      assert l == [34] + x && r == [34] + y;
      PrefixCancel([34], x, y);
    }
  }

  // ----- numbers

  lemma DigitsCancel(m: nat, n: nat, x: Bytes, y: Bytes)
    requires Decimal(m) + x == Decimal(n) + y && Ends(x) && Ends(y)
    ensures m == n && x == y
  {
    hide Decimal;
    var a, b := Decimal(m), Decimal(n);
    DecimalDigits(m);
    DecimalDigits(n);
    assert a == (a + x)[..|a|] && b == (b + y)[..|b|];
    PrefixCancel(a, x, y);
    DecimalInjective(m, n);
  }

  lemma IntOpens(i: int, x: Bytes)
    ensures (IntText(i) + x)[0] == 45 <==> i < 0
    ensures i < 0 ==> (IntText(i) + x)[1..] == Decimal(-i) + x
  {
    hide Decimal;
    DecimalDigits(if i < 0 then -i else i);
  }

  lemma IntCancel(i: int, j: int, x: Bytes, y: Bytes)
    requires IntText(i) + x == IntText(j) + y && Ends(x) && Ends(y)
    ensures i == j && x == y
  {
    hide Decimal, Ends;
    IntOpens(i, x);
    IntOpens(j, y);
    if i < 0 { DigitsCancel(-i, -j, x, y); } else { DigitsCancel(i, j, x, y); }
  }

  // ----- values

  lemma KindsAgree(v: Value, w: Value, x: Bytes, y: Bytes)
    requires Typed(v) && Typed(w) && Print(v) + x == Print(w) + y
    ensures match v
            case Null => w.Null?
            case Bool(t) => w == Bool(t)
            case Int(_) => w.Int?
            case Str(_) => w.Str?
            case List(_) => w.List?
            case Dict(_) => w.Dict?
            case Other => false
  {
    hide Print, Typed;
    TypedPrintable(v);
    TypedPrintable(w);
    FirstByte(v);
    FirstByte(w);
    assert (Print(v) + x)[0] == Print(v)[0] && (Print(w) + y)[0] == Print(w)[0];
  }

  /** A value's text, followed by a delimiter or nothing, splits off in one way. */
  lemma {:induction false} ValueCancel(v: Value, w: Value, x: Bytes, y: Bytes)
    requires Typed(v) && Typed(w) && Print(v) + x == Print(w) + y && Ends(x) && Ends(y)
    ensures v == w && x == y
    decreases v, 1
  {
    KindsAgree(v, w, x, y);
    hide CodeBytes, PrintItems, PrintEntries, IntText, Typed;
    match v {
      case Null => PrefixCancel(Print(v), x, y);
      case Bool(_) => PrefixCancel(Print(v), x, y);
      case Int(i) => IntCancel(i, w.i, x, y);
      case Str(codes) =>
        StripFirst(Print(v), 34, CodeBytes(codes), 34, x);
        StripFirst(Print(w), 34, CodeBytes(w.codes), 34, y);
        CodesCancel(codes, w.codes, x, y);
      case List(items) =>
        StripFirst(Print(v), 91, PrintItems(items), 93, x);
        StripFirst(Print(w), 91, PrintItems(w.items), 93, y);
        TypedItems(v);
        TypedItems(w);
        ItemsCancel(items, w.items, x, y);
      case Dict(entries) =>
        StripFirst(Print(v), 123, PrintEntries(entries), 125, x);
        StripFirst(Print(w), 123, PrintEntries(w.entries), 125, y);
        TypedEntries(v);
        TypedEntries(w);
        EntriesCancel(entries, w.entries, x, y);
    }
  }

  lemma StripFirst(text: Bytes, a: Byte, inner: Bytes, b: Byte, x: Bytes)
    requires text == [a] + inner + [b]
    ensures (text + x)[1..] == inner + ([b] + x)
  {
  }

  lemma TypedItems(v: Value)
    requires Typed(v) && v.List?
    ensures forall i :: 0 <= i < |v.items| ==> Typed(v.items[i])
  {
  }

  lemma TypedEntries(v: Value)
    requires Typed(v) && v.Dict?
    ensures forall i :: 0 <= i < |v.entries| ==> TypedEntry(v.entries[i])
  {
  }

  /** What is left of a list after its first value. */
  function ItemsRest(vs: seq<Value>, x: Bytes): (r: Bytes)
    requires vs != []
    ensures r != [] && Ends(r) && (r[0] == 44 <==> |vs| > 1)
  {
    if |vs| == 1 then [93] + x else [44] + (PrintItems(vs[1..]) + ([93] + x))
  }

  lemma ItemsSplit(vs: seq<Value>, x: Bytes)
    requires vs != []
    ensures PrintItems(vs) + ([93] + x) == Print(vs[0]) + ItemsRest(vs, x)
  {
    hide Print;
  }

  lemma ItemsFirst(vs: seq<Value>, x: Bytes)
    requires vs != [] ==> Typed(vs[0])
    ensures (PrintItems(vs) + ([93] + x))[0] == 93 <==> vs == []
  {
    hide Print, Typed;
    if vs != [] {
      TypedPrintable(vs[0]);
      FirstByte(vs[0]);
    }
  }

  lemma {:induction false} ItemsCancel(vs: seq<Value>, ws: seq<Value>, x: Bytes, y: Bytes)
    requires forall i :: 0 <= i < |vs| ==> Typed(vs[i])
    requires forall i :: 0 <= i < |ws| ==> Typed(ws[i])
    requires PrintItems(vs) + ([93] + x) == PrintItems(ws) + ([93] + y)
    ensures vs == ws && x == y
    decreases vs, 0
  {
    hide Print, Typed;
    ItemsFirst(vs, x);
    ItemsFirst(ws, y);
    if vs == [] {
      assert PrintItems(vs) + ([93] + x) == [93] + x && PrintItems(ws) + ([93] + y) == [93] + y;
      PrefixCancel([93], x, y);
    } else {
      ItemsSplit(vs, x);
      ItemsSplit(ws, y);
      ValueCancel(vs[0], ws[0], ItemsRest(vs, x), ItemsRest(ws, y));
      if |vs| > 1 {
        PrefixCancel([44], PrintItems(vs[1..]) + ([93] + x), PrintItems(ws[1..]) + ([93] + y));
        ItemsCancel(vs[1..], ws[1..], x, y);
        assert vs == [vs[0]] + vs[1..] && ws == [ws[0]] + ws[1..];
      } else {
        PrefixCancel([93], x, y);
      }
    }
  }

  function EntriesRest(es: seq<Entry>, x: Bytes): (r: Bytes)
    requires es != []
    ensures r != [] && Ends(r) && (r[0] == 44 <==> |es| > 1)
  {
    if |es| == 1 then [125] + x else [44] + (PrintEntries(es[1..]) + ([125] + x))
  }

  lemma EntriesSplit(es: seq<Entry>, x: Bytes)
    requires es != []
    ensures PrintEntries(es) + ([125] + x) == PrintEntry(es[0]) + EntriesRest(es, x)
  {
    hide PrintEntry;
  }

  lemma EntriesFirst(es: seq<Entry>, x: Bytes)
    requires es != [] ==> TypedEntry(es[0])
    ensures (PrintEntries(es) + ([125] + x))[0] == 125 <==> es == []
  {
    hide Print, Typed;
    if es != [] {
      FirstByte(es[0].key);
    }
  }

  lemma {:induction false} EntryCancel(e: Entry, f: Entry, x: Bytes, y: Bytes)
    requires TypedEntry(e) && TypedEntry(f) && PrintEntry(e) + x == PrintEntry(f) + y && Ends(x) && Ends(y)
    ensures e == f && x == y
    decreases e, 2
  {
    hide Print, Typed;
    assert PrintEntry(e) + x == Print(e.key) + ([58] + (Print(e.child) + x));
    assert PrintEntry(f) + y == Print(f.key) + ([58] + (Print(f.child) + y));
    ValueCancel(e.key, f.key, [58] + (Print(e.child) + x), [58] + (Print(f.child) + y));
    PrefixCancel([58], Print(e.child) + x, Print(f.child) + y);
    ValueCancel(e.child, f.child, x, y);
  }

  lemma {:induction false} EntriesCancel(es: seq<Entry>, fs: seq<Entry>, x: Bytes, y: Bytes)
    requires forall i :: 0 <= i < |es| ==> TypedEntry(es[i])
    requires forall i :: 0 <= i < |fs| ==> TypedEntry(fs[i])
    requires PrintEntries(es) + ([125] + x) == PrintEntries(fs) + ([125] + y)
    ensures es == fs && x == y
    decreases es, 0
  {
    hide PrintEntry, TypedEntry;
    EntriesFirst(es, x);
    EntriesFirst(fs, y);
    if es == [] {
      assert PrintEntries(es) + ([125] + x) == [125] + x && PrintEntries(fs) + ([125] + y) == [125] + y;
      PrefixCancel([125], x, y);
    } else {
      EntriesSplit(es, x);
      EntriesSplit(fs, y);
      EntryCancel(es[0], fs[0], EntriesRest(es, x), EntriesRest(fs, y));
      if |es| > 1 {
        PrefixCancel([44], PrintEntries(es[1..]) + ([125] + x), PrintEntries(fs[1..]) + ([125] + y));
        EntriesCancel(es[1..], fs[1..], x, y);
        assert es == [es[0]] + es[1..] && fs == [fs[0]] + fs[1..];
      } else {
        PrefixCancel([125], x, y);
      }
    }
  }

  /** Canonical texts are equal exactly when the values are, up to key order. */
  lemma PrintExact(v: Value, w: Value)
    requires Typed(v) && Typed(w)
    ensures Print(Sorted(v)) == Print(Sorted(w)) <==> Sorted(v) == Sorted(w)
  {
    hide Print, Typed, Sorted;
    SortedMeasure(v);
    SortedMeasure(w);
    if Print(Sorted(v)) == Print(Sorted(w)) { ValueCancel(Sorted(v), Sorted(w), [], []); }
  }

  // ----- reading back

  datatype Decoded = Refused | Read(value: Value)

  /** `decode_json`, whatever `json.loads` returns: size, preflight, and the
      comparison with the canonical text of what was read. */
  function Decode(data: Bytes, loads: Bytes -> Decoded, maximum: int): (r: Decoded) {
    if |data| > maximum || !Passes(data) then Refused
    else
      match loads(data)
      case Refused => Refused
      case Read(w) => if Fits(w, maximum) && Print(Sorted(w)) == data then Read(w) else Refused
  }

  lemma FitsSorted(v: Value, w: Value, maximum: int)
    requires Fits(v, maximum) && Sorted(v) == Sorted(w)
    ensures Fits(w, maximum)
  {
    hide Typed, Count, Size, Deepest, Sorted;
    SortedMeasure(v);
    SortedMeasure(w);
  }

  /** An admitted value is read back as itself, up to key order, or not at all; and
      it is read back exactly when no empty container sits at the last admitted level
      and the reader returns that value. */
  lemma DecodeExact(v: Value, loads: Bytes -> Decoded, maximum: int)
    requires Fits(v, maximum)
    ensures var data := Print(Sorted(v)); var r := Decode(data, loads, maximum);
            && (r.Read? ==> r == loads(data) && Sorted(r.value) == Sorted(v))
            && (r.Read? <==> !EmptyAt(v, MAX_DEPTH) && loads(data).Read? && Sorted(loads(data).value) == Sorted(v))
  {
    hide Typed, Count, Size, Deepest, Sorted, Passes, Print, EmptyAt;
    var data := Print(Sorted(v));
    PassesAdmitted(v, maximum);
    if loads(data).Read? {
      var w := loads(data).value;
      if Fits(w, maximum) { PrintExact(v, w); }
      if Sorted(w) == Sorted(v) { FitsSorted(v, w, maximum); }
    }
  }
}
