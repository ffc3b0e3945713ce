/** Canonical JSON written out on one value, and the bounds of the budget in numbers. */
module JsonVectors {
  import opened ByteStrings
  import opened Encoding
  import opened Normalisation
  import opened JsonTexts
  import opened JsonBudgets
  import opened JsonScans

  // ----- characters

  /** Quote, backslash and five control characters have a letter each. */
  lemma EscapeVectors()
    ensures CharBytes(34) == Ascii("\\\"") && CharBytes(92) == Ascii("\\\\")
    ensures CharBytes(8) == Ascii("\\b") && CharBytes(12) == Ascii("\\f") && CharBytes(10) == Ascii("\\n")
    ensures CharBytes(13) == Ascii("\\r") && CharBytes(9) == Ascii("\\t")
  {
  }

  /** Other control characters have a number, and everything else is its UTF-8. */
  lemma CharVectors()
    ensures CharBytes(1) == Ascii("\\u0001") && CharBytes(31) == Ascii("\\u001f") && CharBytes(47) == Ascii("/")
    ensures CharBytes(127) == [127] && CharBytes(233) == [195, 169] && CharBytes(8364) == [226, 130, 172]
    ensures CharBytes(128512) == [240, 159, 152, 128]
  {
  }

  /** Numbers in decimal with a sign only if negative. */
  lemma IntVectors()
    ensures IntText(-12) == Ascii("-12") && IntText(0) == Ascii("0") && IntText(907) == Ascii("907")
  {
    assert Decimal(1) == [49] && Decimal(12) == [49, 50];
    assert Decimal(9) == [57] && Decimal(90) == [57, 48] && Decimal(907) == [57, 48, 55];
  }

  // ----- a value

  const ITEMS := List([Null, Bool(true), Bool(false), Int(-12)])
  const TEXT := Str([34, 1, 233])

  /** Keys b and a, in that order. */
  const SAMPLE := Dict([Entry(Str([98]), ITEMS), Entry(Str([97]), TEXT)])

  lemma WordsPrinted()
    ensures Print(Null) == Ascii("null") && Print(Bool(true)) == Ascii("true") && Print(Bool(false)) == Ascii("false")
    ensures Print(Int(-12)) == Ascii("-12")
    ensures Ascii(",") == [44] && Ascii(":") == [58] && Ascii("[") == [91] && Ascii("]") == [93]
    ensures Ascii("{") == [123] && Ascii("}") == [125] && Ascii("\"") == [34]
  {
    IntVectors();
  }

  lemma Joined(v: Value, w: Value, rest: seq<Value>)
    ensures PrintItems([v]) == Print(v)
    ensures PrintItems([v, w] + rest) == Print(v) + ([44] + PrintItems([w] + rest))
  {
    hide Print;
    assert ([v, w] + rest)[1..] == [w] + rest;
  }

  lemma ItemsPrinted()
    ensures Print(ITEMS) ==
            Ascii("[")
            + (Ascii("null") + (Ascii(",")
               + (Ascii("true") + (Ascii(",") + (Ascii("false") + (Ascii(",") + Ascii("-12")))))))
            + Ascii("]")
  {
    hide Ascii, PrintItems;
    WordsPrinted();
    var n, t, f, i := Null, Bool(true), Bool(false), Int(-12);
    Joined(i, i, []);
    Joined(f, i, []);
    Joined(t, f, [i]);
    Joined(n, t, [f, i]);
    assert [f, i] + [] == [f, i] && [f] + [i] == [f, i] && [t, f] + [i] == [t, f, i] && [t] + [f, i] == [t, f, i];
    assert [i] + [] == [i] && [n, t] + [f, i] == [n, t, f, i];
  }

  lemma TextPrinted()
    ensures Print(TEXT) == Ascii("\"") + (Ascii("\\\"") + (Ascii("\\u0001") + [195, 169])) + Ascii("\"")
    ensures Print(Str([98])) == Ascii("\"b\"") && Print(Str([97])) == Ascii("\"a\"")
  {
    hide CharBytes, Ascii;
    EscapeVectors();
    CharVectors();
    WordsPrinted();
    LetterPrinted(97);
    LetterPrinted(98);
    var c: seq<nat> := [34, 1, 233];
    assert c[1..] == [1, 233] && [1, 233][1..] == [233] && [233][1..] == [];
    assert CodeBytes([233]) == CharBytes(233) + CodeBytes([]);
    assert CodeBytes([1, 233]) == CharBytes(1) + CharBytes(233);
    QuotedNames();
  }

  lemma QuotedNames()
    ensures Ascii("\"b\"") == [34, 98, 34] && Ascii("\"a\"") == [34, 97, 34]
  {
  }

  lemma LetterPrinted(c: Code)
    requires 97 <= c <= 98
    ensures Print(Str([c])) == [34, c, 34]
  {
    assert [c][1..] == [];
    assert CodeBytes([c]) == [c];
  }

  lemma SampleSorted()
    ensures Sorted(SAMPLE) == Dict([Entry(Str([97]), TEXT), Entry(Str([98]), ITEMS)])
  {
    var b, a := Entry(Str([98]), ITEMS), Entry(Str([97]), TEXT);
    ItemsSorted();
    var es := [b, a];
    assert es[1..] == [a] && [a][1..] == [];
    assert SortedChildren([a]) == [a] && SortedChildren(es) == [b, a];
    assert es[..1] == [b] && [b][..0] == [];
    assert SortEntries([b]) == InsertEntry(b, []) == [b];
    assert Less(KeyCodes(a), KeyCodes(b)) by { assert KeyCodes(a) == [97] && KeyCodes(b) == [98]; }
    assert SortEntries(es) == InsertEntry(a, [b]) == [a, b];
  }

  lemma ItemsSorted()
    ensures Sorted(ITEMS) == ITEMS
  {
    var vs := [Null, Bool(true), Bool(false), Int(-12)];
    assert vs[1..] == [Bool(true), Bool(false), Int(-12)] && vs[1..][1..] == [Bool(false), Int(-12)];
    assert [Bool(false), Int(-12)][1..] == [Int(-12)] && [Int(-12)][1..] == [];
    assert SortedItems([Bool(false), Int(-12)]) == [Bool(false), Int(-12)];
  }

  /** The canonical text: keys in order, no blanks, escapes and UTF-8. */
  lemma SampleText()
    ensures Print(Sorted(SAMPLE)) ==
            Ascii("{")
            + (Ascii("\"a\"") + (Ascii(":")
                 + (Ascii("\"") + (Ascii("\\\"") + (Ascii("\\u0001") + [195, 169])) + Ascii("\"")))
               + (Ascii(",") + (Ascii("\"b\"") + (Ascii(":")
                 + (Ascii("[")
                    + (Ascii("null") + (Ascii(",")
                       + (Ascii("true") + (Ascii(",") + (Ascii("false") + (Ascii(",") + Ascii("-12")))))))
                    + Ascii("]"))))))
            + Ascii("}")
  {
    hide Print, Sorted, Ascii;
    SampleSorted();
    DictPrinted(Entry(Str([97]), TEXT), Entry(Str([98]), ITEMS));
    WordsPrinted();
    TextPrinted();
    ItemsPrinted();
  }

  lemma DictPrinted(a: Entry, b: Entry)
    ensures Print(Dict([a, b])) == [123] + (PrintEntry(a) + ([44] + PrintEntry(b))) + [125]
  {
    hide PrintEntry;
    assert [a, b][1..] == [b];
    assert PrintEntries([b]) == PrintEntry(b);
  }

  lemma ItemsMeasure()
    ensures Count(ITEMS) == 5 && Deepest(ITEMS) == 1 && Nest(ITEMS) == 1
  {
    var vs := [Null, Bool(true), Bool(false), Int(-12)];
    assert vs[1..] == [Bool(true), Bool(false), Int(-12)] && vs[1..][1..] == [Bool(false), Int(-12)];
    assert [Bool(false), Int(-12)][1..] == [Int(-12)] && [Int(-12)][1..] == [];
    var end := [Bool(false), Int(-12)];
    assert CountItems(end) == 2 && DeepestItem(end) == 0 && NestItems(end) == 0;
    assert CountItems(vs) == 4 && DeepestItem(vs) == 0 && NestItems(vs) == 0;
  }

  /** Nine values on two levels. */
  lemma SampleMeasures()
    ensures Count(SAMPLE) == 9 && Deepest(SAMPLE) == 2 && Nest(SAMPLE) == 2
  {
    ItemsMeasure();
    var b, a := Entry(Str([98]), ITEMS), Entry(Str([97]), TEXT);
    Entries(b, a);
  }

  lemma Entries(b: Entry, a: Entry)
    ensures CountEntries([b, a]) == CountEntry(b) + CountEntry(a)
    ensures DeepestEntry([b, a]) == Larger(DeepestOf(b), DeepestOf(a))
    ensures NestEntries([b, a]) == Larger(NestOf(b), NestOf(a))
  {
    hide CountEntry, DeepestOf, NestOf;
    assert [b, a][1..] == [a] && [a][1..] == [];
    assert CountEntries([a]) == CountEntry(a) && DeepestEntry([a]) == DeepestOf(a) && NestEntries([a]) == NestOf(a);
  }

  // ----- bounds

  /** Some value or key lies so many steps below the root. */
  ghost predicate ReachesDown(v: Value, k: nat)
    decreases k
  {
    k == 0
    || (v.List? && exists x :: x in v.items && ReachesDown(x, k - 1))
    || (v.Dict? && exists e :: e in v.entries && (ReachesDown(e.key, k - 1) || ReachesDown(e.child, k - 1)))
  }

  lemma {:induction false} DeepestIs(v: Value, k: nat)
    ensures ReachesDown(v, k) <==> k <= Deepest(v)
    decreases k
  {
    if k > 0 {
      if v.List? {
        forall x | x in v.items ensures ReachesDown(x, k - 1) <==> k - 1 <= Deepest(x) { DeepestIs(x, k - 1); }
        DeepestItemIs(v.items, k - 1);
      } else if v.Dict? {
        forall e | e in v.entries
          ensures ReachesDown(e.key, k - 1) || ReachesDown(e.child, k - 1) <==> k - 1 <= DeepestOf(e) {
          DeepestIs(e.key, k - 1);
          DeepestIs(e.child, k - 1);
        }
        DeepestEntryIs(v.entries, k - 1);
      }
    }
  }

  lemma {:induction false} DeepestItemIs(vs: seq<Value>, k: nat)
    ensures (exists x :: x in vs && k <= Deepest(x)) <==> vs != [] && k <= DeepestItem(vs)
  {
    if vs != [] {
      DeepestItemIs(vs[1..], k);
      assert vs == [vs[0]] + vs[1..];
      assert vs[0] in vs && forall x :: x in vs[1..] ==> x in vs;
    }
  }

  lemma {:induction false} DeepestEntryIs(es: seq<Entry>, k: nat)
    ensures (exists e :: e in es && k <= DeepestOf(e)) <==> es != [] && k <= DeepestEntry(es)
  {
    if es != [] {
      DeepestEntryIs(es[1..], k);
      assert es == [es[0]] + es[1..];
      assert es[0] in es && forall x :: x in es[1..] ==> x in es;
    }
  }

  /** The budget in numbers: types, a hundred thousand values, nothing twenty-five steps down,
      and the length of the text. */
  lemma FitsIs(v: Value, maximum: int)
    ensures Fits(v, maximum) <==>
              && 1 <= maximum <= 8388608 && Typed(v) && Count(v) <= 100000 && !ReachesDown(v, 25)
              && |Print(v)| <= maximum
  {
    hide Print, Size;
    DeepestIs(v, 25);
    PrintLength(v);
  }

  /** Numbers are 64-bit, strings short and free of surrogates, keys strings. */
  lemma TypedIs(v: Value)
    ensures v.Int? ==> (Typed(v) <==> -9223372036854775808 <= v.i <= 9223372036854775807)
    ensures v.Str? ==>
              (Typed(v) <==>
                 |v.codes| <= 2097152 && forall i :: 0 <= i < |v.codes| ==> v.codes[i] < 55296 || v.codes[i] > 57343)
    ensures v.List? ==> (Typed(v) <==> forall x :: x in v.items ==> Typed(x))
    ensures v.Dict? ==>
              (Typed(v) <==> forall e :: e in v.entries ==> e.key.Str? && Typed(e.key) && Typed(e.child))
    ensures (v.Null? || v.Bool? ==> Typed(v)) && !Typed(Other)
  {
  }

  // ----- the preflight

  lemma {:induction false} Scans(t: Bytes, states: seq<Scan>)
    requires |states| == |t| + 1 && forall i :: 0 <= i < |t| ==> states[i + 1] == Step(states[i], t[i])
    ensures ScanAll(states[0], t) == states[|t|]
  {
    hide Step;
    if t != [] {
      assert states[0 + 1] == Step(states[0], t[0]);
      forall i | 0 <= i < |t[1..]| ensures states[1..][i + 1] == Step(states[1..][i], t[1..][i]) {
        assert states[i + 1 + 1] == Step(states[i + 1], t[i + 1]);
      }
      Scans(t[1..], states[1..]);
    }
  }

  lemma StepVectors()
    ensures Step(START, 91) == Scan(1, 1, false, false, false, true)
    ensures Step(Scan(1, 1, false, false, false, true), 32) == Scan(1, 1, false, false, false, true)
    ensures Step(Scan(1, 1, false, false, false, true), 49) == Scan(1, 2, false, false, true, true)
    ensures Step(Scan(1, 2, false, false, true, true), 44) == Scan(1, 2, false, false, false, true)
    ensures Step(Scan(1, 2, false, false, false, true), 34) == Scan(1, 3, true, false, false, true)
    ensures Step(Scan(1, 3, true, false, false, true), 92) == Scan(1, 3, true, true, false, true)
    ensures Step(Scan(1, 3, true, true, false, true), 34) == Scan(1, 3, true, false, false, true)
    ensures Step(Scan(1, 3, true, false, false, true), 93) == Scan(1, 3, true, false, false, true)
    ensures Step(Scan(1, 3, true, false, false, true), 34) == Scan(1, 3, false, false, false, true)
    ensures Step(Scan(1, 3, false, false, false, true), 93) == Scan(0, 3, false, false, false, true)
  {
  }

  lemma SpeltOut()
    ensures Ascii("[ 1,\"\\\"]\"]") == [91, 32, 49, 44, 34, 92, 34, 93, 34, 93]
  {
  }

  /** Blanks and commas end tokens; brackets, strings and tokens are counted; an escaped quote
      and a bracket inside a string are not. */
  lemma ScanVector()
    ensures ScanAll(START, Ascii("[ 1,\"\\\"]\"]")) == Scan(0, 3, false, false, false, true)
  {
    hide ScanAll, Step, Ascii;
    SpeltOut();
    StepVectors();
    Scans([91, 32, 49, 44, 34, 92, 34, 93, 34, 93],
          [START, Scan(1, 1, false, false, false, true), Scan(1, 1, false, false, false, true),
           Scan(1, 2, false, false, true, true), Scan(1, 2, false, false, false, true),
           Scan(1, 3, true, false, false, true), Scan(1, 3, true, true, false, true),
           Scan(1, 3, true, false, false, true), Scan(1, 3, true, false, false, true),
           Scan(1, 3, false, false, false, true), Scan(0, 3, false, false, false, true)]);
  }

  /** The four blanks, the comma and the colon. */
  lemma SeparatorsAre(b: Byte)
    ensures Separates(b) <==> b in {9, 10, 13, 32, 44, 58}
    ensures Opens(b) <==> b in {91, 123}
    ensures Closes(b) <==> b in {93, 125}
  {
  }

  /** A scan breaks exactly when the depth leaves 0 to 24 or a hundred thousand is passed. */
  lemma BoundsAre(s: Scan)
    ensures Checked(s).ok <==> 0 <= s.depth && s.depth <= 24 && s.count <= 100000
  {
  }
}
