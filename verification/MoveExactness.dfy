/** Exactly when a package move leaves the strong slice bytes as they are. */
module MoveExactness {
  import opened ByteStrings
  import opened FiniteSets
  import opened Graphs
  import opened Encoding
  import opened Cpgs
  import opened Rebuilds
  import opened Slices
  import opened SliceLaws
  import opened Normalisation
  import opened Canonicality
  import opened Fingerprints
  import opened OrderTwins
  import opened PackageMoves
  import opened LocalNumbers

  // ----- the order in which a slice's locals are numbered

  lemma AscendsCarried(g: Graph, h: Graph, f: map<nat, nat>, o: seq<nat>)
    requires Isomorphism(g, h, f) && LabelsAscend(g, o)
    requires (forall v :: v in o ==> v in f) && CompleteOrder(h, MoveOrder(f, o))
    ensures LabelsAscend(h, MoveOrder(f, o))
  {
    hide Isomorphism, LabelBytes, Less;
    var p := MoveOrder(f, o);
    forall i, j {:trigger p[i], p[j]} | 0 <= i < j < |p| ensures !LabelBefore(h, p[j], p[i]) {
      LabelKept(g, h, f, o[i]);
      LabelKept(g, h, f, o[j]);
      assert !LabelBefore(g, o[j], o[i]);
    }
  }

  lemma AscendsBack(s: Cpg, o: seq<nat>)
    requires Valid(s) && EdgesInside(s) && UniqueIds(s.nodes) && LabelsAscend(Content(BlindCopy(s)), o)
    ensures forall v :: v in o ==> v in Below(|s.nodes|)
    ensures LabelsAscend(Nameless(Content(s)), ReadBack(s, o))
  {
    hide Valid, UniqueIds, EdgesInside, Content, BlindCopy, Nameless, Encode, Remap, LabelBefore, Isomorphism,
      Bijection, Below;
    ReadBackEncodes(s, o);
    BlindCopyInverse(s);
    var f := Inverse(Remap(s), Below(|s.nodes|));
    forall v | v in o ensures v in f { LabelKept(Content(BlindCopy(s)), Nameless(Content(s)), f, v); }
    AscendsCarried(Content(BlindCopy(s)), Nameless(Content(s)), f, o);
  }

  /** The canonical order of the slice with its names removed, on the slice's own ids. */
  ghost function LocalOrder(s: Cpg): (o: seq<nat>)
    requires Valid(s)
    ensures WellFormed(Nameless(Content(s))) && LabelsAscend(Nameless(Content(s)), o)
  {
    hide Valid, UniqueIds, EdgesInside, Content, BlindCopy, Nameless, Winner, LabelsAscend, ReadBack, WellFormed, Below;
    ValidSound(s);
    SoundUnique(s);
    BlindCopyValid(s);
    ContentWellFormed(BlindCopy(s));
    ContentWellFormed(s);
    NamelessWellFormed(Content(s));
    WinnerAscends(Content(BlindCopy(s)));
    AscendsBack(s, Winner(Content(BlindCopy(s))).order);
    ReadBack(s, Winner(Content(BlindCopy(s))).order)
  }

  // ----- what the passes make of the slice

  lemma NothingRenamed(c: Graph, o: seq<nat>)
    requires !HasLocals(c)
    ensures Renamed(c, o) == c
  {
  }

  lemma CollapsedIsomorphic(s: Cpg) returns (e: map<nat, nat>)
    requires UniqueIds(s.nodes) && EdgesInside(s)
    ensures Isomorphism(MapLabels(Content(s), Collapse()), Content(CollapsedCopy(s)), e)
  {
    hide Isomorphism, Content, Rebuild, Relabelled, MapLabels, Remap;
    RelabelledByFields(s, CollapseNode(), Collapse());
    RebuildIsomorphic(s, CollapseNode());
    e := Remap(s);
  }

  lemma Chain(a: Graph, b: Graph, c: Graph, f: map<nat, nat>, d: map<nat, nat>) returns (e: map<nat, nat>)
    requires Isomorphism(a, b, f) && Isomorphism(b, c, d)
    ensures Isomorphism(a, c, e)
  {
    hide PreservesEdges;
    IsomorphismLands(a, b, f);
    IsomorphismCompose(a, b, c, f, d);
    e := Compose(f, d);
  }

  lemma NumberedUnique(s: Cpg, o: seq<nat>)
    requires EdgesInside(s)
    ensures UniqueIds(NumberedCopy(s, o).nodes)
  {
    hide Rebuild, RenameNode;
    RebuildIds(s, RenameNode(Content(s), o));
  }

  lemma RenamedStep(s: Cpg, o: seq<nat>)
    requires UniqueIds(s.nodes) && EdgesInside(s)
    ensures Isomorphism(Renamed(Content(s), o), Content(NumberedCopy(s, o)), Remap(s))
  {
    hide Isomorphism, Content, Rebuild, Relabelled, Remap, Renamed, RenameNode, UniqueIds, EdgesInside;
    RenamedCopy(s, o);
    RebuildIsomorphic(s, RenameNode(Content(s), o));
  }

  lemma NumberedCollapsed(s: Cpg, o: seq<nat>) returns (e: map<nat, nat>)
    requires UniqueIds(s.nodes) && EdgesInside(s)
    ensures EdgesInside(NumberedCopy(s, o)) && UniqueIds(NumberedCopy(s, o).nodes)
    ensures Isomorphism(Counted(Content(s), o), Content(CollapsedCopy(NumberedCopy(s, o))), e)
  {
    hide Isomorphism, Content, Rebuild, Relabelled, MapLabels, Remap, Renamed, RenameNode, UniqueIds, EdgesInside,
      NumberedCopy, CollapsedCopy;
    var t := NumberedCopy(s, o);
    NumberedInside(s, o);
    NumberedUnique(s, o);
    RenamedStep(s, o);
    MapLabelsIsomorphic(Renamed(Content(s), o), Content(t), Remap(s), Collapse());
    var d := CollapsedIsomorphic(t);
    e := Chain(Counted(Content(s), o), MapLabels(Content(t), Collapse()), Content(CollapsedCopy(t)), Remap(s), d);
  }

  /** Normalisation leaves, up to isomorphism, the numbered graph. */
  lemma NormalIsNumbered(s: Cpg, used: nat, limit: nat, sha: Bytes -> Bytes) returns (e: map<nat, nat>)
    requires Valid(s) && EdgesInside(s) && UniqueIds(s.nodes) && NormalOf(s, used, limit, sha).Ready?
    ensures Isomorphism(Counted(Content(s), LocalOrder(s)), Content(NormalOf(s, used, limit, sha).cpg), e)
  {
    hide Isomorphism, Content, MapLabels, Renamed, UniqueIds, EdgesInside, Valid, HasLocals, CollapsedCopy,
      NumberedCopy, BlindCopy, Winner, LabelsAscend, Nameless, WellFormed, ReadBack, Finishes, StatesAfter, Below;
    if HasLocals(Content(s)) {
      BlindCopyValid(s);
      e := NumberedCollapsed(s, LocalOrder(s));
    } else {
      NothingRenamed(Content(s), LocalOrder(s));
      e := CollapsedIsomorphic(s);
    }
  }

  lemma StrongIsWinner(n: Normal, t: seq<nat>, limit: nat, sha: Bytes -> Bytes)
    requires Finish(n, t, limit, sha).StrongSlice?
    ensures n.Ready? && WellFormed(Content(n.cpg)) && Finish(n, t, limit, sha).code == Winner(Content(n.cpg)).code
  {
    hide Content, WellFormed, Winner, Finishes, StatesAfter, Valid;
    if n.Ready? && Valid(n.cpg) { ContentWellFormed(n.cpg); }
  }

  lemma Sandwich(a: Graph, b: Graph, p: Graph, l: map<nat, nat>, q: Graph, r: map<nat, nat>)
    requires Isomorphism(a, p, l) && Isomorphism(b, q, r)
    ensures Isomorphic(a, b) <==> Isomorphic(p, q)
  {
    hide Isomorphism;
    if f :| Isomorphism(a, b, f) { var e := Bridge(a, b, f, p, l, q, r); }
    if f :| Isomorphism(p, q, f) {
      var back := Reverse(a, p, l);
      var down := Reverse(b, q, r);
      var e := Bridge(p, q, f, a, back, b, down);
    }
  }

  lemma Reverse(a: Graph, b: Graph, f: map<nat, nat>) returns (e: map<nat, nat>)
    requires Isomorphism(a, b, f)
    ensures Isomorphism(b, a, e)
  {
    hide PreservesEdges;
    IsomorphismInverse(a, b, f);
    e := Inverse(f, b.labels.Keys);
  }

  // ----- the exact condition

  lemma MovedContents(s: Cpg, t: Cpg)
    requires Moved(s, t)
    ensures MovedGraph(Content(s), Content(t))
  {
    hide Content, MovedNodes, MovedLabel;
    MovedIds(s, t);
    forall v | v in Content(s).labels
      ensures MovedLabel(Content(s).labels[v], Content(t).labels[v]) { MovedContent(s, t, v); }
  }

  /** Some automorphism of the slice, taken without names and prefixes, carries
      every local's number before the move to its number after it. */
  ghost predicate NumbersCarried(s: Cpg, t: Cpg)
    requires Valid(s) && Valid(t)
  {
    exists f :: CarriesNumbers(Content(s), LocalOrder(s), Content(t), LocalOrder(t), f)
  }

  lemma SlicesStrong(g: Cpg, w: seq<nat>, limit: nat, sha: Bytes -> Bytes)
    requires FingerprintOf(g, w, limit, sha).StrongSlice?
    ensures Valid(g) && SliceOf(g, w).Sliced? && Valid(SliceOf(g, w).cpg)
  {
    hide FingerprintOf, Valid, SliceOf, Finish, NormalSlice;
    StrongHasSlice(g, w, limit, sha);
    SliceValid(g, w);
  }

  lemma StrongSliceGraph(g: Cpg, w: seq<nat>, limit: nat, sha: Bytes -> Bytes) returns (c: Graph, e: map<nat, nat>)
    requires FingerprintOf(g, w, limit, sha).StrongSlice?
    ensures Valid(g) && SliceOf(g, w).Sliced? && Valid(SliceOf(g, w).cpg)
    ensures WellFormed(c) && FingerprintOf(g, w, limit, sha).code == Winner(c).code
    ensures Isomorphism(Counted(Content(SliceOf(g, w).cpg), LocalOrder(SliceOf(g, w).cpg)), c, e)
  {
    hide FingerprintOf, Valid, SliceOf, Finish, NormalOf, Content, Winner, WellFormed, Isomorphism, Counted,
      LocalOrder, EdgesInside, UniqueIds, SelfNumbered;
    SlicesStrong(g, w, limit, sha);
    StrongHasSlice(g, w, limit, sha);
    var s := SliceOf(g, w).cpg;
    ValidSound(s);
    SoundUnique(s);
    StrongIsWinner(NormalSlice(g, w, limit, sha), SliceOf(g, w).trail, limit, sha);
    c := Content(NormalSlice(g, w, limit, sha).cpg);
    e := NormalIsNumbered(s, 0, limit, sha);
  }

  /** For every slice, under any two budgets that let the searches finish, a package
      move keeps the strong bytes exactly when the locals' numbers are carried. */
  lemma MoveExact(g: Cpg, h: Cpg, w: seq<nat>, b: nat, l: nat, sha: Bytes -> Bytes)
    requires Moved(g, h) && FingerprintOf(g, w, b, sha).StrongSlice? && FingerprintOf(h, w, l, sha).StrongSlice?
    ensures Valid(g) && SliceOf(g, w).Sliced? && Valid(SliceOf(g, w).cpg)
    ensures Valid(h) && SliceOf(h, w).Sliced? && Valid(SliceOf(h, w).cpg)
    ensures FingerprintOf(g, w, b, sha).code == FingerprintOf(h, w, l, sha).code <==>
              NumbersCarried(SliceOf(g, w).cpg, SliceOf(h, w).cpg)
  {
    hide FingerprintOf, Valid, SliceOf, Content, Winner, WellFormed, Isomorphism, Counted, LabelsAscend, Nameless,
      Moved, MovedGraph, CarriesNumbers;
    var c, d := StrongSliceGraph(g, w, b, sha);
    var x, y := StrongSliceGraph(h, w, l, sha);
    var s, t := SliceOf(g, w).cpg, SliceOf(h, w).cpg;
    MovedSlices(g, h, w);
    MovedContents(s, t);
    CanonicalExact(c, x);
    Sandwich(Counted(Content(s), LocalOrder(s)), Counted(Content(t), LocalOrder(t)), c, d, x, y);
    OrdersComplete(s);
    OrdersComplete(t);
    NumberedExact(Content(s), LocalOrder(s), Content(t), LocalOrder(t));
  }

  lemma OrdersComplete(s: Cpg)
    requires Valid(s)
    ensures CompleteOrder(Content(s), LocalOrder(s))
  {
    hide Valid, Content, LocalOrder;
    var o := LocalOrder(s);
  }

  // ----- read on the nodes of the graph

  ghost predicate SliceLocal(g: Cpg, w: seq<nat>, v: nat)
    requires w != []
  {
    v in SliceSet(g, w) && IsLocal(Content(g).labels[v])
  }

  predicate SameBareLabel(c: Graph, u: nat, v: nat)
    requires u in c.labels && v in c.labels
  {
    CollapseLabel(Blind(c.labels[u])) == CollapseLabel(Blind(c.labels[v]))
  }

  /** No two locals of the slice look the same without names and prefixes. */
  ghost predicate SliceLocalsApart(g: Cpg, w: seq<nat>)
    requires w != []
  {
    forall u, v {:trigger SliceLocal(g, w, u), SliceLocal(g, w, v)} ::
      SliceLocal(g, w, u) && SliceLocal(g, w, v) && SameBareLabel(Content(g), u, v) ==> u == v
  }

  /** On the locals of the slice, the framed labels with names left out compare the
      same way before and after. */
  ghost predicate SliceLocalsKept(g: Cpg, h: Cpg, w: seq<nat>)
    requires w != [] && Ids(g) == Ids(h)
  {
    forall u, v {:trigger SliceLocal(g, w, u), SliceLocal(g, w, v)} ::
      SliceLocal(g, w, u) && SliceLocal(g, w, v) ==> KeptPair(Content(g), Content(h), u, v)
  }

  lemma SliceLabelAt(g: Cpg, w: seq<nat>, i: nat)
    requires Valid(g) && SliceOf(g, w).Sliced?
    ensures w != [] && (i in Content(SliceOf(g, w).cpg).labels <==> i < |SliceOrder(g, w)|)
    ensures i < |SliceOrder(g, w)| ==>
              var v := SliceOrder(g, w)[i];
              && v in SliceSet(g, w) && v in Content(g).labels
              && Content(SliceOf(g, w).cpg).labels[i] == Content(g).labels[v]
  {
    hide SliceOf, SliceSet, SliceOrder, Content, Valid, Ids, EdgesInside, UniqueIds;
    WitnessPresent(g, w);
    ValidSound(g);
    SoundUnique(g);
    SliceSelfNumbered(g, w);
    SliceSized(g, w);
    var s := SliceOf(g, w).cpg;
    if i < |s.nodes| {
      SliceFieldAt(g, w, i);
      assert SliceOrder(g, w)[i] in Elements(SliceOrder(g, w));
      ContentLabel(s, s.nodes[i]);
    }
  }

  lemma SliceSized(g: Cpg, w: seq<nat>)
    requires SliceOf(g, w).Sliced?
    ensures w != [] && |SliceOrder(g, w)| == |SliceOf(g, w).cpg.nodes|
  {
    hide SliceSet, Cells.Ascending, Remap, KeepEdges;
  }

  lemma SliceSpot(g: Cpg, w: seq<nat>, v: nat) returns (i: nat)
    requires w != [] && v in SliceSet(g, w)
    ensures i < |SliceOrder(g, w)| && SliceOrder(g, w)[i] == v
  {
    hide SliceSet, SliceOrder;
    assert v in Elements(SliceOrder(g, w));
    i :| 0 <= i < |SliceOrder(g, w)| && SliceOrder(g, w)[i] == v;
  }

  lemma ApartInSlice(g: Cpg, w: seq<nat>)
    requires Valid(g) && SliceOf(g, w).Sliced? && w != [] && SliceLocalsApart(g, w)
    ensures LocalsApart(Content(SliceOf(g, w).cpg))
  {
    hide SliceOf, SliceSet, Content, Valid, Ids, IsLocal, CollapseLabel, Blind, SliceOrder;
    var c := Content(SliceOf(g, w).cpg);
    forall i: nat, j: nat {:trigger LocalIn(c, i), LocalIn(c, j)} | LocalIn(c, i) && LocalIn(c, j)
        && Bare(c).labels[i] == Bare(c).labels[j]
      ensures i == j
    {
      SliceLabelAt(g, w, i);
      SliceLabelAt(g, w, j);
      var u, v := SliceOrder(g, w)[i], SliceOrder(g, w)[j];
      assert SliceLocal(g, w, u) && SliceLocal(g, w, v);
      assert u == v;
      SliceOrderApart(g, w, i, j);
    }
  }

  lemma SliceOrderApart(g: Cpg, w: seq<nat>, i: nat, j: nat)
    requires w != [] && i < |SliceOrder(g, w)| && j < |SliceOrder(g, w)| && SliceOrder(g, w)[i] == SliceOrder(g, w)[j]
    ensures i == j
  {
    hide SliceSet;
    assert Distinct(SliceOrder(g, w));
  }

  lemma KeptInSlice(g: Cpg, h: Cpg, w: seq<nat>)
    requires Valid(g) && Valid(h) && Moved(g, h) && SliceOf(g, w).Sliced? && SliceOf(h, w).Sliced?
    requires w != [] && Ids(g) == Ids(h)
    requires Content(SliceOf(g, w).cpg).labels.Keys == Content(SliceOf(h, w).cpg).labels.Keys
    ensures LocalsOrderKept(Content(SliceOf(g, w).cpg), Content(SliceOf(h, w).cpg)) <==> SliceLocalsKept(g, h, w)
  {
    hide SliceOf, SliceSet, Content, Valid, Ids, IsLocal, SliceOrder, PlainBefore, Moved;
    var c, d := Content(SliceOf(g, w).cpg), Content(SliceOf(h, w).cpg);
    SameSliceOrder(g, h, w);
    if SliceLocalsKept(g, h, w) {
      forall i: nat, j: nat {:trigger LocalIn(c, i), LocalIn(c, j)} | LocalIn(c, i) && LocalIn(c, j)
        ensures KeptPair(c, d, i, j) {
        SliceLabelAt(g, w, i);
        SliceLabelAt(g, w, j);
        SliceLabelAt(h, w, i);
        SliceLabelAt(h, w, j);
        assert SliceLocal(g, w, SliceOrder(g, w)[i]) && SliceLocal(g, w, SliceOrder(g, w)[j]);
      }
    }
    if LocalsOrderKept(c, d) {
      forall u, v {:trigger SliceLocal(g, w, u), SliceLocal(g, w, v)} | SliceLocal(g, w, u) && SliceLocal(g, w, v)
        ensures KeptPair(Content(g), Content(h), u, v)
      {
        var i := SliceSpot(g, w, u);
        var j := SliceSpot(g, w, v);
        SliceLabelAt(g, w, i);
        SliceLabelAt(g, w, j);
        SliceLabelAt(h, w, i);
        SliceLabelAt(h, w, j);
        assert LocalIn(c, i) && LocalIn(c, j);
      }
    }
  }

  /** Where no two locals of the slice look the same without names and prefixes, a
      package move keeps the strong bytes exactly when it keeps the order of the
      anonymised labels of the locals; what it does to other nodes is immaterial. */
  lemma MoveExactly(g: Cpg, h: Cpg, w: seq<nat>, b: nat, l: nat, sha: Bytes -> Bytes)
    requires Moved(g, h) && FingerprintOf(g, w, b, sha).StrongSlice? && FingerprintOf(h, w, l, sha).StrongSlice?
    requires w != [] && Ids(g) == Ids(h) && SliceLocalsApart(g, w)
    ensures FingerprintOf(g, w, b, sha).code == FingerprintOf(h, w, l, sha).code <==> SliceLocalsKept(g, h, w)
  {
    hide FingerprintOf, Valid, SliceOf, Content, WellFormed, LabelsAscend, Nameless, Moved, MovedGraph,
      CarriesNumbers, SliceLocalsApart, SliceLocalsKept, LocalsApart, LocalsOrderKept, SameNumbers, Ids, LocalOrder;
    MoveExact(g, h, w, b, l, sha);
    var s, t := SliceOf(g, w).cpg, SliceOf(h, w).cpg;
    MovedSlices(g, h, w);
    MovedContents(s, t);
    MovedKeys(Content(s), Content(t));
    ApartInSlice(g, w);
    NumbersKept(Content(s), LocalOrder(s), Content(t), LocalOrder(t));
    ApartNumbers(Content(s), LocalOrder(s), Content(t), LocalOrder(t));
    KeptInSlice(g, h, w);
  }

  lemma NeverBeforeItself(l: Label)
    ensures !PlainBefore(l, l)
  {
    LessIrreflexive(LabelBytes(Blind(l)));
  }

  /** So a slice with at most one local keeps its strong bytes under every move. */
  lemma LoneLocalKept(g: Cpg, h: Cpg, w: seq<nat>, b: nat, l: nat, sha: Bytes -> Bytes)
    requires Moved(g, h) && FingerprintOf(g, w, b, sha).StrongSlice? && FingerprintOf(h, w, l, sha).StrongSlice?
    requires w != [] && forall u, v :: SliceLocal(g, w, u) && SliceLocal(g, w, v) ==> u == v
    ensures FingerprintOf(g, w, b, sha).code == FingerprintOf(h, w, l, sha).code
  {
    hide FingerprintOf, Content, Moved, PlainBefore, IsLocal, Blind, CollapseLabel, Reaches;
    MovedIds(g, h);
    forall u, v {:trigger SliceLocal(g, w, u), SliceLocal(g, w, v)} | SliceLocal(g, w, u) && SliceLocal(g, w, v)
      ensures KeptPair(Content(g), Content(h), u, v)
    {
      NeverBeforeItself(Content(g).labels[u]);
      NeverBeforeItself(Content(h).labels[u]);
    }
    MoveExactly(g, h, w, b, l, sha);
  }
}
