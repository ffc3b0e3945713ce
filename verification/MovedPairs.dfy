/** A package move that changes the strong slice bytes. */
module MovedPairs {
  import opened ByteStrings
  import opened FiniteSets
  import opened Graphs
  import opened Encoding
  import opened Individualisation
  import opened SearchTrees
  import opened TreeInvariance
  import opened Cpgs
  import opened Rebuilds
  import opened Slices
  import opened SliceLaws
  import opened Normalisation
  import opened Canonicality
  import opened CanonicalOrders
  import opened Fingerprints
  import opened PackageMoves
  import opened LocalNumbers
  import opened MoveExactness

  // ----- slices that need no search

  ghost predicate LabelsApart(c: Graph) {
    forall v, w {:trigger c.labels[v], c.labels[w]} :: v in c.labels && w in c.labels && c.labels[v] == c.labels[w] ==>
          v == w
  }

  lemma ApartLeaf(c: Graph)
    requires WellFormed(c) && LabelsApart(c)
    ensures Size(Root(c)) == 1
  {
    hide ColoursOf, WellFormed, SearchTree, Encode, CompleteOrder;
    var k := ColoursOf(c, map[]);
    ColoursOfShape(c, map[]);
    forall v, w | v in k && w in k && k[v] == k[w] ensures v == w {
      ColoursOfSeparates(c, map[], v, w);
    }
    PrunedLeaf(c, map[]);
  }

  lemma ApartStrong(g: Cpg, used: nat, limit: nat, sha: Bytes -> Bytes)
    requires Valid(g) && LabelsApart(Content(g)) && used < limit
    ensures OutcomeOf(g, used, limit, sha).Strong? && OutcomeOf(g, used, limit, sha).states == used + 1
  {
    hide Valid, Content, WellFormed, SearchTree, LabelsApart, Winner;
    ContentWellFormed(g);
    ApartLeaf(Content(g));
  }

  lemma ApartCarried(a: Graph, b: Graph, f: map<nat, nat>)
    requires Isomorphism(a, b, f) && LabelsApart(a)
    ensures LabelsApart(b)
  {
    hide PreservesEdges;
    forall v, w {:trigger b.labels[v], b.labels[w]} | v in b.labels && w in b.labels && b.labels[v] == b.labels[w]
      ensures v == w {
      var x := PreimageOf(f, a.labels.Keys, b.labels.Keys, v);
      var y := PreimageOf(f, a.labels.Keys, b.labels.Keys, w);
      assert SameLabel(a, x, b, f[x]) && SameLabel(a, y, b, f[y]);
    }
  }

  lemma BareApart(c: Graph, o: seq<nat>)
    requires LabelsApart(Bare(c))
    ensures LabelsApart(Nameless(c)) && LabelsApart(Counted(c, o))
  {
    hide CollapseLabel, LabelsApart;
    NamelessApart(c);
    CountedApart(c, o);
  }

  lemma NamelessApart(c: Graph)
    requires LabelsApart(Bare(c))
    ensures LabelsApart(Nameless(c))
  {
    hide CollapseLabel, Blind;
    var n, b := Nameless(c), Bare(c);
    forall v, w {:trigger n.labels[v], n.labels[w]} | v in n.labels && w in n.labels && n.labels[v] == n.labels[w]
      ensures v == w {
      assert b.labels[v] == b.labels[w];
    }
  }

  lemma CountedApart(c: Graph, o: seq<nat>)
    requires LabelsApart(Bare(c))
    ensures LabelsApart(Counted(c, o))
  {
    hide Bare, Counted;
    var n, b := Counted(c, o), Bare(c);
    NumberedShape(c, o);
    forall v, w {:trigger n.labels[v], n.labels[w]} | v in n.labels && w in n.labels && n.labels[v] == n.labels[w]
      ensures v == w {
      CountedBare(c, o, v);
      CountedBare(c, o, w);
      assert b.labels[v] == b.labels[w];
    }
  }

  lemma CountedBare(c: Graph, o: seq<nat>, v: nat)
    requires v in c.labels
    ensures v in Counted(c, o).labels && v in Bare(c).labels && Bare(c).labels[v] == Blind(Counted(c, o).labels[v])
  {
    hide NormaliseFqn, LocalName;
  }

  /** The lengths that the collapsed and numbered labels must fit. */
  ghost predicate CollapsedFits(c: Graph) {
    forall v :: v in c.labels ==> FitsLabel(CollapseLabel(c.labels[v]))
  }

  lemma CountedFits(c: Graph, o: seq<nat>, v: nat)
    requires CollapsedFits(c) && |o| < TWO_64 && v in c.labels
    ensures v in Counted(c, o).labels && FitsLabel(Counted(c, o).labels[v])
  {
    hide NormaliseFqn, LocalName, CountLocals;
    if v in o { LocalNameFits(CountLocals(c, o[..Position(o, v)])); }
  }

  lemma NormalSound(s: Cpg, used: nat, limit: nat, sha: Bytes -> Bytes)
    requires Valid(s) && EdgesInside(s) && UniqueIds(s.nodes) && NormalOf(s, used, limit, sha).Ready?
    ensures SoundExceptLabels(NormalOf(s, used, limit, sha).cpg)
  {
    hide Content, UniqueIds, EdgesInside, Valid, HasLocals, CollapsedCopy, OutcomeOf, NormalCopy, BlindCopy,
      SoundExceptLabels, Below;
    ValidSound(s);
    if HasLocals(Content(s)) {
      NormalCopySound(s, OutcomeOf(BlindCopy(s), used, limit, sha).order);
    } else {
      CollapsedSound(s);
    }
  }

  lemma ApartNormal(s: Cpg, limit: nat, sha: Bytes -> Bytes)
    requires Valid(s) && EdgesInside(s) && UniqueIds(s.nodes) && LabelsApart(Bare(Content(s))) && limit >= 2
    ensures NormalOf(s, 0, limit, sha).Ready? && NormalOf(s, 0, limit, sha).states <= 1
  {
    hide Content, UniqueIds, EdgesInside, Valid, HasLocals, CollapsedCopy, OutcomeOf, NormalCopy, BlindCopy,
      LabelsApart, Isomorphism, Below, Bare, Nameless, Counted;
    NormalNeverFails(s, 0, limit, sha);
    BareApart(Content(s), []);
    BlindCopyValid(s);
    BlindCopyIsomorphic(s);
    ApartCarried(Nameless(Content(s)), Content(BlindCopy(s)), Remap(s));
    ApartStrong(BlindCopy(s), 0, limit, sha);
  }

  lemma OrderFits(s: Cpg)
    requires Valid(s)
    ensures |LocalOrder(s)| < TWO_64
  {
    hide Content, Valid, LocalOrder, Nameless, Encode;
    ContentWellFormed(s);
    OrdersComplete(s);
    OrderLength(Content(s), LocalOrder(s));
  }

  lemma NormalValid(s: Cpg, limit: nat, sha: Bytes -> Bytes)
    requires Valid(s) && EdgesInside(s) && UniqueIds(s.nodes) && LabelsApart(Bare(Content(s)))
    requires CollapsedFits(Content(s))
    requires NormalOf(s, 0, limit, sha).Ready?
    ensures Valid(NormalOf(s, 0, limit, sha).cpg) && LabelsApart(Content(NormalOf(s, 0, limit, sha).cpg))
  {
    hide Content, UniqueIds, EdgesInside, Valid, NormalOf, LabelsApart, PreservesEdges, SoundExceptLabels, Bare,
      Counted, LocalOrder, CollapsedFits, FitsLabel, Nameless;
    var n, a := NormalOf(s, 0, limit, sha).cpg, Counted(Content(s), LocalOrder(s));
    NormalSound(s, 0, limit, sha);
    var e := NormalIsNumbered(s, 0, limit, sha);
    BareApart(Content(s), LocalOrder(s));
    ApartCarried(a, Content(n), e);
    ValidIffLabelsFit(n);
    OrderFits(s);
    NumberedShape(Content(s), LocalOrder(s));
    forall w | w in Content(n).labels ensures FitsLabel(Content(n).labels[w]) {
      var v := PreimageOf(e, a.labels.Keys, Content(n).labels.Keys, w);
      assert SameLabel(a, v, Content(n), e[v]);
      CountedFits(Content(s), LocalOrder(s), v);
    }
  }

  /** A slice whose nodes all differ without names and prefixes is strong within two states. */
  lemma ApartSliceStrong(g: Cpg, w: seq<nat>, limit: nat, sha: Bytes -> Bytes)
    requires Valid(g) && SliceOf(g, w).Sliced? && limit >= 2
    requires LabelsApart(Bare(Content(SliceOf(g, w).cpg))) && CollapsedFits(Content(SliceOf(g, w).cpg))
    ensures FingerprintOf(g, w, limit, sha).StrongSlice? && FingerprintOf(g, w, limit, sha).states <= 2
  {
    hide Content, UniqueIds, EdgesInside, Valid, NormalOf, LabelsApart, SoundExceptLabels, Bare, CollapsedFits,
      SliceOf, FingerprintOf, OutcomeOf, SelfNumbered;
    var s := SliceOf(g, w).cpg;
    ValidSound(g);
    SliceValid(g, w);
    ValidSound(s);
    SoundUnique(s);
    FingerprintUnfolds(g, w, limit, sha);
    ApartNormal(s, limit, sha);
    NormalValid(s, limit, sha);
    var n := NormalOf(s, 0, limit, sha);
    ApartStrong(n.cpg, n.states, limit, sha);
  }

  // ----- two unconnected locals

  function LocalOf(fqn: Bytes): (l: Label) {
    Label(IDENTIFIER, [120], fqn, [])
  }

  function Pair(a: Label, b: Label): (r: Cpg) {
    Cpg([Node(0, a, []), Node(1, b, [])], [])
  }

  lemma PairShape(a: Label, b: Label)
    ensures Ids(Pair(a, b)) == {0, 1} && UniqueIds(Pair(a, b).nodes) && SelfNumbered(Pair(a, b))
    ensures Content(Pair(a, b)) == Graph(map[0 := a, 1 := b], [])
  {
    hide NodeOf, Content;
    var g := Pair(a, b);
    assert g.nodes[0] in g.nodes && g.nodes[1] in g.nodes;
    assert Below(2) == {0, 1};
    ContentLabel(g, g.nodes[0]);
    ContentLabel(g, g.nodes[1]);
  }

  lemma PairSliced(a: Label, b: Label)
    ensures SliceSet(Pair(a, b), [0, 1]) == {0, 1} && SliceOf(Pair(a, b), [0, 1]) == Sliced(Pair(a, b), [0, 1])
  {
    hide Reaches, SelfNumbered, SliceOf, Content;
    PairShape(a, b);
    var g := Pair(a, b);
    assert SliceSet(g, [0, 1]) == Ids(g);
    WholeSlice(g, [0, 1]);
  }

  lemma TerminalAt(p: Byte, q: Byte)
    requires q != DOT
    ensures Terminal([p, DOT, q]) == [q]
  {
    TerminalSuffix([p], [q]);
    assert [p] + [DOT] + [q] == [p, DOT, q];
  }

  lemma LocalOrdered(p: Byte, q: Byte, r: Byte, s: Byte)
    requires p < r
    ensures PlainBefore(LocalOf([p, DOT, q]), LocalOf([r, DOT, s]))
    ensures !PlainBefore(LocalOf([r, DOT, s]), LocalOf([p, DOT, q]))
  {
    hide U64, Ascii;
    var a, b := Blind(LocalOf([p, DOT, q])), Blind(LocalOf([r, DOT, s]));
    var x, y := [p, DOT, q] + Text([]), [r, DOT, s] + Text([]);
    assert Less(x, y) && !Less(y, x);
    var pre := Text(IDENTIFIER) + Text([]) + U64(3);
    assert LabelBytes(a) == pre + x && LabelBytes(b) == pre + y;
    LessAfterPrefix(pre, x, y);
    LessAfterPrefix(pre, y, x);
  }

  lemma PairFits(p: Byte, q: Byte)
    requires q != DOT
    ensures FitsLabel(LocalOf([p, DOT, q])) && FitsLabel(CollapseLabel(LocalOf([p, DOT, q])))
    ensures CollapseLabel(Blind(LocalOf([p, DOT, q]))) == Label(IDENTIFIER, [], Ascii("%pkg.") + [q], [])
  {
    TerminalAt(p, q);
    assert |IDENTIFIER| == 10;
  }

  lemma PairStrong(p: Byte, q: Byte, r: Byte, s: Byte, limit: nat, sha: Bytes -> Bytes)
    requires q != s && q != DOT && s != DOT && limit >= 2
    ensures var g := Pair(LocalOf([p, DOT, q]), LocalOf([r, DOT, s]));
            && FingerprintOf(g, [0, 1], limit, sha).StrongSlice? && SliceLocalsApart(g, [0, 1])
  {
    hide FingerprintOf, Terminal, Ascii, SelfNumbered, Content, SliceOf, Reaches, SliceSet, FitsLabel, CollapseLabel,
      Blind;
    var a, b := LocalOf([p, DOT, q]), LocalOf([r, DOT, s]);
    PairShape(a, b);
    PairSliced(a, b);
    PairFits(p, q);
    PairFits(r, s);
    var k := Ascii("%pkg.");
    assert (k + [q])[|k|] == q && (k + [s])[|k|] == s;
    assert CollapseLabel(Blind(a)) != CollapseLabel(Blind(b));
    var g := Pair(a, b);
    assert Valid(g);
    ApartSliceStrong(g, [0, 1], limit, sha);
  }

  /** Moving `a.p` to `c.p` beside `b.q` keeps every last segment and yet changes
      the strong slice bytes, at every budget that lets both searches finish. */
  lemma MoveCanChangeBytes(limit: nat, sha: Bytes -> Bytes)
    requires limit >= 2
    ensures var g := Pair(LocalOf([97, DOT, 112]), LocalOf([98, DOT, 113]));
            var h := Pair(LocalOf([99, DOT, 112]), LocalOf([98, DOT, 113]));
            var r, s := FingerprintOf(g, [0, 1], limit, sha), FingerprintOf(h, [0, 1], limit, sha);
            Moved(g, h) && r.StrongSlice? && s.StrongSlice? && r.code != s.code
  {
    hide FingerprintOf, PlainBefore, Terminal, Content, SliceSet, SelfNumbered, SliceLocalsApart;
    var a, b, c := LocalOf([97, DOT, 112]), LocalOf([98, DOT, 113]), LocalOf([99, DOT, 112]);
    var g, h := Pair(a, b), Pair(c, b);
    PairStrong(97, 112, 98, 113, limit, sha);
    PairStrong(99, 112, 98, 113, limit, sha);
    TerminalAt(97, 112);
    TerminalAt(99, 112);
    assert Moved(g, h);
    PairShape(a, b);
    PairShape(c, b);
    PairSliced(a, b);
    MoveExactly(g, h, [0, 1], limit, limit, sha);
    LocalOrdered(97, 112, 98, 113);
    LocalOrdered(98, 113, 99, 112);
    assert SliceLocal(g, [0, 1], 0) && SliceLocal(g, [0, 1], 1);
    assert !KeptPair(Content(g), Content(h), 0, 1);
  }
}
