/** Class and state count of a slice fingerprint: what they depend on, and exactly when a
    package move keeps them. */
module MoveStates {
  import opened FiniteSets
  import opened ByteStrings
  import opened Graphs
  import opened Encoding
  import opened Refinement
  import opened Individualisation
  import opened SearchTrees
  import opened TreeInvariance
  import opened Cpgs
  import opened Rebuilds
  import opened Slices
  import opened SliceLaws
  import opened Normalisation
  import opened Canonicality
  import opened CanonicalOrders
  import opened Fingerprints
  import opened PackageMoves
  import opened LocalNumbers
  import opened MoveExactness
  import opened MovedPairs

  // ----- the two searches of a slice

  /** States of the search that orders the slice without its names; none if it has no locals. */
  ghost function FirstSearch(s: Cpg): (n: nat)
    requires Valid(s)
  {
    ContentWellFormed(s);
    NamelessWellFormed(Content(s));
    if HasLocals(Content(s)) then Size(Root(Nameless(Content(s)))) else 0
  }

  lemma CountedWellFormed(s: Cpg)
    requires Valid(s) && CollapsedFits(Content(s))
    ensures WellFormed(Counted(Content(s), LocalOrder(s)))
  {
    hide Valid, Content, LocalOrder, CollapsedFits, Counted;
    var c, a := Content(s), Counted(Content(s), LocalOrder(s));
    ContentWellFormed(s);
    OrderFits(s);
    NumberedShape(c, LocalOrder(s));
    assert |a.labels| == |a.labels.Keys| && |c.labels| == |c.labels.Keys|;
    forall v | v in a.labels ensures FitsLabel(a.labels[v]) { CountedFits(c, LocalOrder(s), v); }
  }

  /** States of the search over the numbered and collapsed slice. */
  ghost function SecondSearch(s: Cpg): (n: nat)
    requires Valid(s) && CollapsedFits(Content(s))
  {
    CountedWellFormed(s);
    Size(Root(Counted(Content(s), LocalOrder(s))))
  }

  lemma SameSize(g: Graph, h: Graph, f: map<nat, nat>)
    requires WellFormed(g) && WellFormed(h) && Isomorphism(g, h, f)
    ensures Size(Root(g)) == Size(Root(h))
  {
    hide SearchTree, Isomorphism, Size, Codes;
    TreeInvariant(g, h, f, map[], map[]);
  }

  // ----- the first search

  lemma BlindOutcome(s: Cpg, limit: nat, sha: Bytes -> Bytes)
    requires Valid(s) && EdgesInside(s) && UniqueIds(s.nodes) && HasLocals(Content(s))
    ensures var r := OutcomeOf(BlindCopy(s), 0, limit, sha);
            if FirstSearch(s) <= limit then r.Strong? && r.states == FirstSearch(s) else r.Weak? && r.states == limit
  {
    hide Valid, Content, BlindCopy, WellFormed, Winner, SearchTree, Nameless, Isomorphism, EdgesInside, UniqueIds,
      HasLocals, Size, Remap;
    BlindCopyValid(s);
    ContentWellFormed(BlindCopy(s));
    ContentWellFormed(s);
    NamelessWellFormed(Content(s));
    BlindCopyIsomorphic(s);
    SameSize(Nameless(Content(s)), Content(BlindCopy(s)), Remap(s));
  }

  lemma NormalStates(s: Cpg, limit: nat, sha: Bytes -> Bytes)
    requires Valid(s) && EdgesInside(s) && UniqueIds(s.nodes)
    ensures var r := NormalOf(s, 0, limit, sha);
            if FirstSearch(s) <= limit then r.Ready? && r.states == FirstSearch(s) else r == Spent(limit)
  {
    hide Valid, Content, BlindCopy, OutcomeOf, NormalCopy, CollapsedCopy, EdgesInside, UniqueIds, HasLocals,
      FirstSearch, Below;
    NormalNeverFails(s, 0, limit, sha);
    if HasLocals(Content(s)) { BlindOutcome(s, limit, sha); } else { NoFirstSearch(s); }
  }

  lemma NoFirstSearch(s: Cpg)
    requires Valid(s) && !HasLocals(Content(s))
    ensures FirstSearch(s) == 0
  {
  }

  /** The first search is made exactly for a slice with an IDENTIFIER node. */
  lemma FirstSearchMade(s: Cpg)
    requires Valid(s)
    ensures FirstSearch(s) > 0 <==>
              exists n :: n in s.nodes && n.fields.kind == [73, 68, 69, 78, 84, 73, 70, 73, 69, 82]
  {
    hide Valid, Content, Size, SearchTree, WellFormed, Nameless;
    ValidSound(s);
    SoundUnique(s);
    assert IDENTIFIER == [73, 68, 69, 78, 84, 73, 70, 73, 69, 82];
    forall n | n in s.nodes
      ensures n.id in Content(s).labels && Content(s).labels[n.id] == n.fields { ContentLabel(s, n); }
    if HasLocals(Content(s)) {
      var v :| v in Content(s).labels && IsLocal(Content(s).labels[v]);
      NodeAt(s, v);
    }
  }

  lemma NodeAt(s: Cpg, v: nat)
    requires v in Content(s).labels
    ensures exists n :: n in s.nodes && n.id == v && n.fields == Content(s).labels[v]
  {
    var n := Find(s, v);
  }

  // ----- the second search

  lemma CountedFitsExactly(c: Graph, o: seq<nat>, v: nat)
    requires WellFormed(c) && |o| < TWO_64 && v in c.labels
    ensures v in Counted(c, o).labels
    ensures FitsLabel(Counted(c, o).labels[v]) <==> FitsLabel(CollapseLabel(c.labels[v]))
  {
    hide NormaliseFqn, LocalName, CountLocals;
    if v in o { LocalNameFits(CountLocals(c, o[..Position(o, v)])); }
  }

  /** The normalised slice is valid exactly when the collapsed labels still fit. */
  lemma NormalFits(s: Cpg, limit: nat, sha: Bytes -> Bytes)
    requires Valid(s) && EdgesInside(s) && UniqueIds(s.nodes) && NormalOf(s, 0, limit, sha).Ready?
    ensures Valid(NormalOf(s, 0, limit, sha).cpg) <==> CollapsedFits(Content(s))
  {
    hide Content, UniqueIds, EdgesInside, Valid, NormalOf, PreservesEdges, SoundExceptLabels, Counted, LocalOrder,
      FitsLabel, Nameless, CollapseLabel, WellFormed, Bijection;
    var n, c, a := NormalOf(s, 0, limit, sha).cpg, Content(s), Counted(Content(s), LocalOrder(s));
    NormalSound(s, 0, limit, sha);
    var e := NormalIsNumbered(s, 0, limit, sha);
    ValidIffLabelsFit(n);
    OrderFits(s);
    ContentWellFormed(s);
    NumberedShape(c, LocalOrder(s));
    if CollapsedFits(c) {
      forall w | w in Content(n).labels ensures FitsLabel(Content(n).labels[w]) {
        var v := PreimageOf(e, a.labels.Keys, Content(n).labels.Keys, w);
        assert SameLabel(a, v, Content(n), e[v]);
        CountedFitsExactly(c, LocalOrder(s), v);
      }
    }
    if Valid(n) {
      forall v | v in c.labels ensures FitsLabel(CollapseLabel(c.labels[v])) {
        LabelKept(a, Content(n), e, v);
        CountedFitsExactly(c, LocalOrder(s), v);
      }
    }
  }

  lemma NormalSize(s: Cpg, limit: nat, sha: Bytes -> Bytes)
    requires Valid(s) && EdgesInside(s) && UniqueIds(s.nodes) && NormalOf(s, 0, limit, sha).Ready?
    requires CollapsedFits(Content(s)) && Valid(NormalOf(s, 0, limit, sha).cpg)
    ensures WellFormed(Content(NormalOf(s, 0, limit, sha).cpg))
    ensures Size(Root(Content(NormalOf(s, 0, limit, sha).cpg))) == SecondSearch(s)
  {
    hide Content, UniqueIds, EdgesInside, Valid, NormalOf, Isomorphism, Counted, LocalOrder, CollapsedFits,
      WellFormed, Nameless, SearchTree, Size;
    var n := NormalOf(s, 0, limit, sha).cpg;
    ContentWellFormed(n);
    CountedWellFormed(s);
    var e := NormalIsNumbered(s, 0, limit, sha);
    SameSize(Counted(Content(s), LocalOrder(s)), Content(n), e);
  }

  // ----- class and states

  function AtMostLimit(n: nat, limit: nat): (r: nat) {
    if n <= limit then n else limit
  }

  /** What the class and the state count are, budget by budget. */
  ghost predicate Classified(r: Fingerprint, s: Cpg, limit: nat)
    requires Valid(s)
  {
    if FirstSearch(s) > limit then r.WeakSlice? && r.states == limit
    else if !CollapsedFits(Content(s)) then r == Refused
    else
      var all := FirstSearch(s) + SecondSearch(s);
      && (if all <= limit then r.StrongSlice? else r.WeakSlice?)
      && r.states == AtMostLimit(all, limit)
  }

  lemma FinishClassified(s: Cpg, t: seq<nat>, limit: nat, sha: Bytes -> Bytes)
    requires Valid(s) && EdgesInside(s) && UniqueIds(s.nodes)
    ensures Classified(Finish(NormalOf(s, 0, limit, sha), t, limit, sha), s, limit)
  {
    hide Content, UniqueIds, EdgesInside, Valid, NormalOf, CollapsedFits, WellFormed, FirstSearch, SecondSearch,
      Winner, SearchTree, Size;
    NormalStates(s, limit, sha);
    var n := NormalOf(s, 0, limit, sha);
    if n.Ready? {
      NormalFits(s, limit, sha);
      if Valid(n.cpg) {
        ContentWellFormed(n.cpg);
        NormalSize(s, limit, sha);
      }
    }
  }

  /** A slice is strong exactly when its two searches fit the budget together, and the
      states counted are those of the searches, up to the budget. */
  lemma StatesExactly(g: Cpg, w: seq<nat>, limit: nat, sha: Bytes -> Bytes)
    requires Valid(g) && SliceOf(g, w).Sliced? && limit > 0
    ensures Valid(SliceOf(g, w).cpg)
    ensures Classified(FingerprintOf(g, w, limit, sha), SliceOf(g, w).cpg, limit)
  {
    hide Content, UniqueIds, EdgesInside, Valid, NormalOf, SliceOf, FingerprintOf, Finish, Classified, SelfNumbered;
    var s := SliceOf(g, w).cpg;
    ValidSound(g);
    SliceValid(g, w);
    ValidSound(s);
    SoundUnique(s);
    FingerprintUnfolds(g, w, limit, sha);
    FinishClassified(s, SliceOf(g, w).trail, limit, sha);
  }

  // ----- under a move

  ghost predicate SameClass(r: Fingerprint, q: Fingerprint) {
    match (r, q)
    case (StrongSlice(_, i), StrongSlice(_, j)) => i == j
    case (WeakSlice(_, i), WeakSlice(_, j)) => i == j
    case _ => r == q
  }

  /** The searches take as many states, or more than the budget both times. */
  ghost predicate KeepsStates(s: Cpg, t: Cpg, limit: nat)
    requires Valid(s) && Valid(t) && (CollapsedFits(Content(s)) <==> CollapsedFits(Content(t)))
  {
    if CollapsedFits(Content(s)) then
      var before, after := FirstSearch(s) + SecondSearch(s), FirstSearch(t) + SecondSearch(t);
      before == after || (before > limit && after > limit)
    else FirstSearch(s) <= limit <==> FirstSearch(t) <= limit
  }

  lemma FitsMoved(s: Cpg, t: Cpg)
    requires Moved(s, t)
    ensures CollapsedFits(Content(s)) <==> CollapsedFits(Content(t))
  {
    hide Content, Moved, FitsLabel, CollapseLabel;
    MovedContents(s, t);
    forall v | v in Content(s).labels
      ensures CollapseLabel(Content(s).labels[v]) == CollapseLabel(Content(t).labels[v]) {
      CollapseMoved(Content(s).labels[v], Content(t).labels[v]);
    }
  }

  lemma ClassesCompare(r: Fingerprint, q: Fingerprint, s: Cpg, t: Cpg, limit: nat)
    requires Valid(s) && Valid(t) && (CollapsedFits(Content(s)) <==> CollapsedFits(Content(t)))
    requires Classified(r, s, limit) && Classified(q, t, limit)
    ensures SameClass(r, q) <==> KeepsStates(s, t, limit)
  {
    hide Valid, Content, CollapsedFits, FirstSearch, SecondSearch;
  }

  /** At a given budget a move keeps class and state count exactly when it keeps the
      states of the two searches together, or both exceed the budget. */
  lemma MoveKeepsClass(g: Cpg, h: Cpg, w: seq<nat>, limit: nat, sha: Bytes -> Bytes)
    requires Valid(g) && Valid(h) && Moved(g, h) && SliceOf(g, w).Sliced? && limit > 0
    ensures SliceOf(h, w).Sliced? && Valid(SliceOf(g, w).cpg) && Valid(SliceOf(h, w).cpg)
    ensures CollapsedFits(Content(SliceOf(g, w).cpg)) <==> CollapsedFits(Content(SliceOf(h, w).cpg))
    ensures SameClass(FingerprintOf(g, w, limit, sha), FingerprintOf(h, w, limit, sha)) <==>
              KeepsStates(SliceOf(g, w).cpg, SliceOf(h, w).cpg, limit)
  {
    hide Content, Valid, SliceOf, FingerprintOf, Moved, Classified, SameClass, KeepsStates, CollapsedFits;
    MovedSlices(g, h, w);
    var s, t := SliceOf(g, w).cpg, SliceOf(h, w).cpg;
    StatesExactly(g, w, limit, sha);
    StatesExactly(h, w, limit, sha);
    FitsMoved(s, t);
    ClassesCompare(FingerprintOf(g, w, limit, sha), FingerprintOf(h, w, limit, sha), s, t, limit);
  }

  /** At every budget: exactly when the states of the two searches come to the same. */
  lemma MoveKeepsEveryClass(g: Cpg, h: Cpg, w: seq<nat>, sha: Bytes -> Bytes)
    requires Valid(g) && Valid(h) && Moved(g, h) && SliceOf(g, w).Sliced? && Valid(SliceOf(g, w).cpg)
    requires CollapsedFits(Content(SliceOf(g, w).cpg))
    ensures SliceOf(h, w).Sliced? && Valid(SliceOf(h, w).cpg) && CollapsedFits(Content(SliceOf(h, w).cpg))
    ensures (forall limit :: limit > 0 ==>
               SameClass(FingerprintOf(g, w, limit, sha), FingerprintOf(h, w, limit, sha))) <==>
              FirstSearch(SliceOf(g, w).cpg) + SecondSearch(SliceOf(g, w).cpg) ==
              FirstSearch(SliceOf(h, w).cpg) + SecondSearch(SliceOf(h, w).cpg)
  {
    hide Content, Valid, SliceOf, FingerprintOf, Moved, SameClass, CollapsedFits, FirstSearch, SecondSearch;
    MoveKeepsClass(g, h, w, 1, sha);
    var s, t := SliceOf(g, w).cpg, SliceOf(h, w).cpg;
    var before, after := FirstSearch(s) + SecondSearch(s), FirstSearch(t) + SecondSearch(t);
    var limit := if before < after then after + 1 else before + 1;
    MoveKeepsClass(g, h, w, limit, sha);
    if before == after {
      forall l: nat | l > 0 ensures SameClass(FingerprintOf(g, w, l, sha), FingerprintOf(h, w, l, sha)) {
        MoveKeepsClass(g, h, w, l, sha);
      }
    }
  }

  /** Where the numbers are carried the second search is kept, so the first decides. */
  lemma CarriedSecondSearch(s: Cpg, t: Cpg)
    requires Valid(s) && Valid(t) && Moved(s, t) && NumbersCarried(s, t) && CollapsedFits(Content(s))
    ensures CollapsedFits(Content(t)) && SecondSearch(s) == SecondSearch(t)
  {
    hide Content, Valid, Moved, CollapsedFits, Counted, LocalOrder, CarriesNumbers, WellFormed, SearchTree, Size,
      Isomorphism, MovedGraph;
    FitsMoved(s, t);
    MovedContents(s, t);
    OrdersComplete(s);
    OrdersComplete(t);
    CountedWellFormed(s);
    CountedWellFormed(t);
    NumberedExact(Content(s), LocalOrder(s), Content(t), LocalOrder(t));
    var f :| Isomorphism(Counted(Content(s), LocalOrder(s)), Counted(Content(t), LocalOrder(t)), f);
    SameSize(Counted(Content(s), LocalOrder(s)), Counted(Content(t), LocalOrder(t)), f);
  }

  /** Both searches finish within the budget. */
  ghost predicate FitsBudget(s: Cpg, limit: nat)
    requires Valid(s)
  {
    CollapsedFits(Content(s)) && FirstSearch(s) + SecondSearch(s) <= limit
  }

  lemma FitsStrong(r: Fingerprint, s: Cpg, limit: nat)
    requires Valid(s) && Classified(r, s, limit)
    ensures FitsBudget(s, limit) <==> r.StrongSlice?
  {
    hide Valid, Content, CollapsedFits, FirstSearch, SecondSearch;
  }

  /** At a given budget a move keeps the whole fingerprint, class, states and strong bytes,
      exactly when it keeps the states and, where the searches finish, carries the numbers. */
  lemma MoveKeepsFingerprint(g: Cpg, h: Cpg, w: seq<nat>, limit: nat, sha: Bytes -> Bytes)
    requires Valid(g) && Valid(h) && Moved(g, h) && SliceOf(g, w).Sliced? && limit > 0
    ensures SliceOf(h, w).Sliced? && Valid(SliceOf(g, w).cpg) && Valid(SliceOf(h, w).cpg)
    ensures CollapsedFits(Content(SliceOf(g, w).cpg)) <==> CollapsedFits(Content(SliceOf(h, w).cpg))
    ensures var s, t := SliceOf(g, w).cpg, SliceOf(h, w).cpg;
            SameFingerprint(FingerprintOf(g, w, limit, sha), FingerprintOf(h, w, limit, sha)) <==>
              KeepsStates(s, t, limit) && (FitsBudget(s, limit) ==> NumbersCarried(s, t))
  {
    hide Content, Valid, SliceOf, FingerprintOf, Moved, Classified, KeepsStates, CollapsedFits, FitsBudget,
      NumbersCarried;
    MoveKeepsClass(g, h, w, limit, sha);
    StatesExactly(g, w, limit, sha);
    var r, q := FingerprintOf(g, w, limit, sha), FingerprintOf(h, w, limit, sha);
    FitsStrong(r, SliceOf(g, w).cpg, limit);
    if r.StrongSlice? && q.StrongSlice? { MoveExact(g, h, w, limit, limit, sha); }
  }

  // ----- a move that changes the class

  /** Two locals never get the same number. */
  lemma CountedDiffer(c: Graph, o: seq<nat>, u: nat, v: nat)
    requires CompleteOrder(c, o) && LocalIn(c, u) && LocalIn(c, v) && u != v
    ensures u in Counted(c, o).labels && v in Counted(c, o).labels
    ensures Counted(c, o).labels[u] != Counted(c, o).labels[v]
  {
    hide LocalName, CountLocals, Distinct, NormaliseFqn;
    NumbersFollowPlaces(c, o, u, v);
    NumbersFollowPlaces(c, o, v, u);
    LocalNameInjective(LocalNumber(c, o, u), LocalNumber(c, o, v));
  }

  /** Interchangeable nodes force the search to branch. */
  lemma SwappedBranches(g: Graph, f: map<nat, nat>, u: nat, v: nat)
    requires WellFormed(g) && Isomorphism(g, g, f) && u in g.labels && v in f && u != v && u in f && f[u] == v
    ensures Size(Root(g)) >= 2
  {
    hide ColoursOf, SearchTree, Isomorphism, WellFormed, Size, Carries, CarriesMarkers;
    Unmarked(f);
    ColoursOfCarried(g, g, f, map[], map[]);
    ColoursOfShape(g, map[]);
    SharedColour(ColoursOf(g, map[]), f, u, v);
    BranchSize(g);
  }

  lemma Unmarked(f: map<nat, nat>)
    ensures CarriesMarkers(f, map[], map[])
  {
  }

  lemma SharedColour(c: Colours, f: map<nat, nat>, u: nat, v: nat)
    requires Carries(f, c, c) && u in f && f[u] == v && u != v && u in c
    ensures !Injective(c)
  {
    assert c[v] == c[u];
  }

  lemma BranchSize(g: Graph)
    requires WellFormed(g) && Branches(g, map[])
    ensures Size(Root(g)) >= 2
  {
    hide ColoursOf, WellFormed;
    SearchTreeHasLeaf(g, map[]);
    var t := Root(g);
    assert t.Branch?;
    assert t.kids != [];
  }

  lemma PairCollapsed(a: Label, b: Label)
    requires FitsLabel(CollapseLabel(a)) && FitsLabel(CollapseLabel(b))
    ensures CollapsedFits(Content(Pair(a, b)))
  {
    hide FitsLabel, Content, SelfNumbered, CollapseLabel;
    PairShape(a, b);
  }

  lemma PairValid(a: Label, b: Label)
    requires FitsLabel(a) && FitsLabel(b)
    ensures Valid(Pair(a, b))
  {
    hide FitsLabel, Content, SelfNumbered;
    PairShape(a, b);
  }

  lemma PairSecond(a: Label, b: Label)
    requires Valid(Pair(a, b)) && CollapsedFits(Content(Pair(a, b))) && IsLocal(a) && IsLocal(b)
    ensures SecondSearch(Pair(a, b)) == 1
  {
    hide Valid, Content, Size, SearchTree, LocalOrder, Counted, WellFormed, SelfNumbered, IsLocal, CollapsedFits,
      CompleteOrder;
    var s := Pair(a, b);
    var c, o := Content(s), LocalOrder(s);
    PairShape(a, b);
    OrdersComplete(s);
    CountedWellFormed(s);
    NumberedShape(c, o);
    assert LocalIn(c, 0) && LocalIn(c, 1);
    CountedDiffer(c, o, 0, 1);
    var k := Counted(c, o);
    forall v, w {:trigger k.labels[v], k.labels[w]} | v in k.labels && w in k.labels && k.labels[v] == k.labels[w]
      ensures v == w
    {
      assert v == 0 || v == 1;
      assert w == 0 || w == 1;
    }
    ApartLeaf(k);
  }

  lemma PairFirst(a: Label, b: Label)
    requires Valid(Pair(a, b)) && IsLocal(a) && IsLocal(b)
    ensures if Blind(a) == Blind(b) then FirstSearch(Pair(a, b)) >= 2 else FirstSearch(Pair(a, b)) == 1
  {
    hide Valid, Content, Size, SearchTree, WellFormed, SelfNumbered, IsLocal, Blind;
    var s := Pair(a, b);
    PairShape(a, b);
    ContentWellFormed(s);
    NamelessWellFormed(Content(s));
    var n := Nameless(Content(s));
    assert IsLocal(Content(s).labels[0]);
    assert n.labels == map[0 := Blind(a), 1 := Blind(b)] && n.edges == [];
    if Blind(a) == Blind(b) {
      PairSwaps(n, Blind(a));
      SwappedBranches(n, map[0 := 1, 1 := 0], 0, 1);
    } else {
      ApartLeaf(n);
    }
  }

  lemma PairSwaps(n: Graph, l: Label)
    requires n.labels == map[0 := l, 1 := l] && n.edges == []
    ensures Isomorphism(n, n, map[0 := 1, 1 := 0])
  {
    var f: map<nat, nat> := map[0 := 1, 1 := 0];
    assert f[0] == 1 && f[1] == 0;
    assert Hit(f, 0) && Hit(f, 1);
  }

  /** Moving `a.p` and `b.p` into one package makes them alike without names: the search
      now branches, and a budget of two no longer reaches a strong identity. */
  lemma MoveCanChangeClass(sha: Bytes -> Bytes)
    ensures var g := Pair(LocalOf([97, DOT, 112]), LocalOf([98, DOT, 112]));
            var h := Pair(LocalOf([99, DOT, 112]), LocalOf([99, DOT, 112]));
            && Moved(g, h) && FingerprintOf(g, [0, 1], 2, sha).StrongSlice?
            && FingerprintOf(h, [0, 1], 2, sha).WeakSlice?
  {
    hide FingerprintOf, Terminal, Content, SliceOf, SelfNumbered, FitsLabel, CollapseLabel, Valid, FirstSearch,
      SecondSearch, CollapsedFits, Ascii;
    var a, b, c := LocalOf([97, DOT, 112]), LocalOf([98, DOT, 112]), LocalOf([99, DOT, 112]);
    PairFits(97, 112);
    PairFits(98, 112);
    PairFits(99, 112);
    TerminalAt(97, 112);
    TerminalAt(98, 112);
    TerminalAt(99, 112);
    assert Moved(Pair(a, b), Pair(c, c));
    assert Blind(a) != Blind(b) by { assert [97, DOT, 112][0] != [98, DOT, 112][0]; }
    PairValid(a, b);
    PairValid(c, c);
    PairCollapsed(a, b);
    PairCollapsed(c, c);
    PairFirst(a, b);
    PairFirst(c, c);
    PairSecond(a, b);
    PairSecond(c, c);
    PairSliced(a, b);
    PairSliced(c, c);
    StatesExactly(Pair(a, b), [0, 1], 2, sha);
    StatesExactly(Pair(c, c), [0, 1], 2, sha);
  }
}
