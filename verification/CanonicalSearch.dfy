/** `_canonical_search`: a stack of pending markings, a state budget and the best
    leaf so far, against the tree they walk. */
module CanonicalSearch {
  import opened ByteStrings
  import opened FiniteSets
  import opened Graphs
  import opened Encoding
  import opened Refinement
  import opened Individualisation
  import opened Swaps
  import opened Cells
  import opened SearchTrees
  import opened TreeInvariance
  import opened Canonicality
  import opened Budgets
  import opened GraphIndexes

  datatype SearchResult = Late | Spent | Found(best: Candidate)

  // ----- the steps of one state

  /** The smallest ambiguous cell, ties to the smaller colour; none when all cells are singletons. */
  method PickTarget(c: Colours, nodes: seq<nat>) returns (t: Option<nat>)
    requires Elements(nodes) == c.Keys
    ensures t.None? <==> Injective(c)
    ensures t.Some? ==> t.value == Target(c)
  {
    t := None;
    for i := 0 to |nodes|
      invariant t.Some? ==> Ambiguous(c, t.value)
      invariant forall j :: 0 <= j < i && nodes[j] in c && Ambiguous(c, c[nodes[j]]) ==>
                  t.Some? && NoLater(c, t.value, c[nodes[j]])
    {
      assert nodes[i] in Elements(nodes);
      var k := c[nodes[i]];
      if Ambiguous(c, k) && (t.None? || !NoLater(c, t.value, k)) { t := Some(k); }
    }
    forall k | Ambiguous(c, k) ensures t.Some? && NoLater(c, t.value, k) {
      var v, w := AmbiguousMakesPair(c, k);
      assert v in Elements(nodes);
      var j :| 0 <= j < |nodes| && nodes[j] == v;
    }
    if t.Some? {
      var v, w := AmbiguousMakesPair(c, t.value);
      TargetUnique(c, t.value);
    } else if v, w :| v in c && w in c && c[v] == c[w] && v != w {
      PairMakesAmbiguous(c, v, w);
    }
  }

  /** `sorted(cell)`. */
  method SortCell(c: Colours, k: nat, nodes: seq<nat>) returns (r: seq<nat>)
    requires Elements(nodes) == c.Keys && Distinct(nodes)
    ensures r == Ascending(Cell(c, k))
  {
    r := [];
    for i := 0 to |nodes|
      invariant Elements(r) == set v | v in nodes[..i] && c[v] == k
      invariant forall p, q :: 0 <= p < q < |r| ==> r[p] < r[q]
    {
      var v := nodes[i];
      assert v in Elements(nodes);
      assert nodes[..i + 1] == nodes[..i] + [v];
      if c[v] == k {
        assert v !in Elements(r);
        r := InsertId(r, v);
      }
    }
    assert nodes[..|nodes|] == nodes;
    assert Elements(r) == Cell(c, k);
    AscendingUnique(r, Cell(c, k));
  }

  /** The pruning loop: keep a node unless it can be swapped with one already kept. */
  method ChooseRepresentatives(ix: Index, ghost g: Graph, ns: seq<nat>, budget: Budget)
    returns (expired: bool, reps: seq<nat>)
    requires Indexes(ix, g) && WellFormed(g) && forall v :: v in ns ==> v in g.labels
    ensures !expired ==> reps == Representatives(g, ns)
  {
    hide Indexes, WellFormed, SwapCertified;
    expired, reps := false, [];
    for i := 0 to |ns|
      invariant reps == Representatives(g, ns[..i])
    {
      var v := ns[i];
      assert v in ns;
      assert ns[..i + 1][..i] == ns[..i];
      var late, covered := CanReplace(ix, g, reps, v, budget);
      if late { return true, reps; }
      if !covered { reps := reps + [v]; }
    }
    assert ns[..|ns|] == ns;
  }

  method CanReplace(ix: Index, ghost g: Graph, reps: seq<nat>, v: nat, budget: Budget)
    returns (expired: bool, covered: bool)
    requires Indexes(ix, g) && WellFormed(g) && v in g.labels && forall r :: r in reps ==> r in g.labels
    ensures !expired ==> covered == Replaces(g, reps, v)
  {
    hide Indexes, WellFormed, SwapCertified;
    expired, covered := false, false;
    for i := 0 to |reps|
      invariant forall k :: 0 <= k < i ==> !SwapCertified(g, v, reps[k])
    {
      assert reps[i] in reps;
      var late, ok := SwapIsAutomorphism(ix, g, v, reps[i], budget);
      if late { return true, false; }
      if ok { return false, true; }
    }
  }

  /** `sorted(colors, key=...)` on a discrete colouring. */
  method LeafOrder(ghost g: Graph, c: Colours, nodes: seq<nat>) returns (order: seq<nat>)
    requires Dense(c) && Injective(c) && c.Keys == g.labels.Keys && Elements(nodes) == c.Keys
    ensures order == OrderOf(c)
  {
    hide OrderOf, Dense;
    var node: map<nat, nat> := map[];
    for i := 0 to |nodes|
      invariant forall v :: v in nodes[..i] ==> v in c && c[v] in node
      invariant forall k :: k in node ==> node[k] in c && c[node[k]] == k
    {
      assert nodes[i] in Elements(nodes);
      node := node[c[nodes[i]] := nodes[i]];
    }
    assert nodes[..|nodes|] == nodes;
    OrderOfComplete(g, c);
    ghost var o := OrderOf(c);
    forall k | 0 <= k < |o| ensures k in node && node[k] == o[k] {
      assert o[k] in Elements(nodes);
      assert c[o[k]] == k;
    }
    order := seq(|c.Values|, k requires 0 <= k < |c.Values| && k in node => node[k]);
  }

  // ----- stacks of trees

  lemma {:induction false} SizeAllAppend(ts: seq<Tree>, us: seq<Tree>)
    ensures SizeAll(ts + us) == SizeAll(ts) + SizeAll(us)
  {
    if ts == [] {
      assert ts + us == us;
    } else {
      assert (ts + us)[1..] == ts[1..] + us;
      SizeAllAppend(ts[1..], us);
    }
  }

  lemma {:induction false} BestAllAppend(ts: seq<Tree>, us: seq<Tree>)
    ensures BestAll(ts + us) == Better(BestAll(ts), BestAll(us))
  {
    if ts == [] {
      assert ts + us == us;
    } else {
      assert (ts + us)[1..] == ts[1..] + us;
      BestAllAppend(ts[1..], us);
      BetterAssociative(Best(ts[0]), BestAll(ts[1..]), BestAll(us));
    }
  }

  function Reversed<T>(s: seq<T>): (r: seq<T>)
    ensures |r| == |s| && forall i :: 0 <= i < |s| ==> r[i] == s[|s| - 1 - i]
  {
    if s == [] then [] else Reversed(s[1..]) + [s[0]]
  }

  lemma BetterCommutes(a: Option<Candidate>, b: Option<Candidate>)
    ensures Better(a, b) == Better(b, a)
  {
    if a.Some? && b.Some? { BeforeTotal(a.value, b.value); }
  }

  lemma {:induction false} ReversedTotals(ts: seq<Tree>)
    ensures SizeAll(Reversed(ts)) == SizeAll(ts) && BestAll(Reversed(ts)) == BestAll(ts)
  {
    if ts != [] {
      ReversedTotals(ts[1..]);
      SizeAllAppend(Reversed(ts[1..]), [ts[0]]);
      BestAllAppend(Reversed(ts[1..]), [ts[0]]);
      BetterCommutes(BestAll(ts[1..]), Best(ts[0]));
      assert BestAll([ts[0]]) == Best(ts[0]);
    }
  }

  ghost predicate AllMarkers(g: Graph, ms: seq<Markers>) {
    forall i :: 0 <= i < |ms| ==> MarkersOf(g, ms[i])
  }

  ghost function Trees(g: Graph, ms: seq<Markers>): (r: seq<Tree>)
    requires WellFormed(g) && AllMarkers(g, ms)
  {
    seq(|ms|, i requires 0 <= i < |ms| => SearchTree(g, ms[i]))
  }

  lemma TreesAppend(g: Graph, ms: seq<Markers>, ns: seq<Markers>)
    requires WellFormed(g) && AllMarkers(g, ms) && AllMarkers(g, ns)
    ensures AllMarkers(g, ms + ns)
    ensures SizeAll(Trees(g, ms + ns)) == SizeAll(Trees(g, ms)) + SizeAll(Trees(g, ns))
    ensures BestAll(Trees(g, ms + ns)) == Better(BestAll(Trees(g, ms)), BestAll(Trees(g, ns)))
  {
    hide MarkersOf, SearchTree, SizeAll, BestAll, WellFormed;
    assert Trees(g, ms + ns) == Trees(g, ms) + Trees(g, ns);
    SizeAllAppend(Trees(g, ms), Trees(g, ns));
    BestAllAppend(Trees(g, ms), Trees(g, ns));
  }

  lemma TreesPop(g: Graph, ms: seq<Markers>)
    requires WellFormed(g) && AllMarkers(g, ms) && ms != []
    ensures AllMarkers(g, ms[..|ms| - 1]) && MarkersOf(g, ms[|ms| - 1])
    ensures SizeAll(Trees(g, ms)) == SizeAll(Trees(g, ms[..|ms| - 1])) + Size(SearchTree(g, ms[|ms| - 1]))
    ensures BestAll(Trees(g, ms)) == Better(BestAll(Trees(g, ms[..|ms| - 1])), Best(SearchTree(g, ms[|ms| - 1])))
  {
    hide MarkersOf, SearchTree, Size, Best, WellFormed;
    var front, last := ms[..|ms| - 1], [ms[|ms| - 1]];
    assert ms == front + last;
    TreesAppend(g, front, last);
    assert Trees(g, last) == [SearchTree(g, ms[|ms| - 1])];
  }

  /** What the search pushes for one branching state. */
  function Pushed(m: Markers, reps: seq<nat>): (r: seq<Markers>) {
    seq(|reps|, i requires 0 <= i < |reps| => Extend(m, reps[|reps| - 1 - i]))
  }

  lemma PushedTotals(g: Graph, m: Markers)
    requires WellFormed(g) && MarkersOf(g, m) && Branches(g, m)
    ensures AllMarkers(g, Pushed(m, Reps(g, m)))
    ensures SizeAll(Trees(g, Pushed(m, Reps(g, m)))) + 1 == Size(SearchTree(g, m))
    ensures BestAll(Trees(g, Pushed(m, Reps(g, m)))) == Best(SearchTree(g, m))
  {
    hide MarkersOf, SearchTree, Reps, Branches, WellFormed, SizeAll, BestAll;
    PrunedBranch(g, m);
    var kids, next := SearchTree(g, m).kids, Pushed(m, Reps(g, m));
    forall i | 0 <= i < |next| ensures MarkersOf(g, next[i]) && SearchTree(g, next[i]) == kids[|kids| - 1 - i] {
      PrunedKid(g, m, |kids| - 1 - i);
    }
    assert Trees(g, next) == Reversed(kids);
    ReversedTotals(kids);
  }

  // ----- the search

  datatype Expansion = Expired | AtLeaf(leaf: Candidate) | Split(pushed: seq<Markers>)

  /** One state: refine, then either encode the leaf or list the markings to push. */
  method Expand(ix: Index, g: Graph, m: Markers, budget: Budget) returns (e: Expansion)
    requires Indexes(ix, g) && WellFormed(g) && MarkersOf(g, m)
    ensures e.AtLeaf? ==> !Branches(g, m) && SearchTree(g, m) == Leaf(e.leaf.code, e.leaf.order)
    ensures e.Split? ==> Branches(g, m) && e.pushed == Pushed(m, Reps(g, m))
  {
    hide Indexes, MarkersOf, ColoursOf, SearchTree, Encode, CompleteOrder, OrderOf, Dense, WellFormed, Representatives;
    var late, c := RefineMarked(ix, g, m, budget);
    if late { return Expired; }
    ColoursOfShape(g, m);
    IndexedNodes(ix, g);
    IndexedDistinct(ix, g);
    var target := PickTarget(c, ix.nodes);
    if target.None? {
      var order := LeafOrder(g, c, ix.nodes);
      PrunedLeaf(g, m);
      return AtLeaf(Candidate(Encode(g, order), order));
    }
    var cell := SortCell(c, target.value, ix.nodes);
    assert cell == Candidates(g, m);
    var lateToo, reps := ChooseRepresentatives(ix, g, cell, budget);
    if lateToo { return Expired; }
    e := Split(Pushed(m, reps));
  }

  lemma IndexedDistinct(ix: Index, g: Graph)
    requires Indexes(ix, g)
    ensures Distinct(ix.nodes)
  {
    hide LabelBytes, TablesFor, Kinds, PairKinds;
  }

  ghost predicate OnTrack(g: Graph, pending: seq<Markers>, best: Option<Candidate>, states: nat, used: nat)
    requires WellFormed(g)
  {
    && AllMarkers(g, pending)
    && states + SizeAll(Trees(g, pending)) == used + Size(Root(g))
    && Better(best, BestAll(Trees(g, pending))) == Best(Root(g))
  }

  lemma StartOnTrack(g: Graph, used: nat)
    requires WellFormed(g)
    ensures OnTrack(g, [map[]], None, used, used)
  {
    hide SearchTree;
    assert MarkersOf(g, map[]);
    var t := Root(g);
    assert Trees(g, [map[]]) == [t];
    assert SizeAll([t]) == Size(t) + SizeAll([]);
    assert BestAll([t]) == Better(Best(t), BestAll([]));
  }

  lemma LeafOnTrack(g: Graph, pending: seq<Markers>, best: Option<Candidate>, states: nat, used: nat, leaf: Candidate)
    requires WellFormed(g) && OnTrack(g, pending, best, states, used) && pending != []
    requires MarkersOf(g, pending[|pending| - 1])
    requires SearchTree(g, pending[|pending| - 1]) == Leaf(leaf.code, leaf.order)
    ensures OnTrack(g, pending[..|pending| - 1], Better(best, Some(leaf)), states + 1, used)
  {
    hide SearchTree, MarkersOf, WellFormed, SizeAll, BestAll, Better;
    TreesPop(g, pending);
    var rest := BestAll(Trees(g, pending[..|pending| - 1]));
    BetterCommutes(rest, Some(leaf));
    BetterAssociative(best, Some(leaf), rest);
  }

  lemma BranchOnTrack(g: Graph, pending: seq<Markers>, best: Option<Candidate>, states: nat, used: nat)
    requires WellFormed(g) && OnTrack(g, pending, best, states, used) && pending != []
    requires var m := pending[|pending| - 1]; MarkersOf(g, m) && Branches(g, m)
    ensures var m := pending[|pending| - 1];
            OnTrack(g, pending[..|pending| - 1] + Pushed(m, Reps(g, m)), best, states + 1, used)
  {
    hide SearchTree, MarkersOf, WellFormed, SizeAll, BestAll, Size, Best, Reps, Pushed, Branches;
    var m := pending[|pending| - 1];
    TreesPop(g, pending);
    PushedTotals(g, m);
    TreesAppend(g, pending[..|pending| - 1], Pushed(m, Reps(g, m)));
  }

  lemma TrackDone(g: Graph, best: Option<Candidate>, states: nat, used: nat)
    requires WellFormed(g) && OnTrack(g, [], best, states, used)
    ensures best == Some(Winner(g)) && states == used + Size(Root(g))
  {
    hide SearchTree, WellFormed, Size, Best, Winner;
    assert Trees(g, []) == [];
    WinnerLeast(g);
  }

  lemma TrackPending(g: Graph, pending: seq<Markers>, best: Option<Candidate>, states: nat, used: nat)
    requires WellFormed(g) && OnTrack(g, pending, best, states, used) && pending != []
    ensures states < used + Size(Root(g))
  {
    hide SearchTree, WellFormed, BestAll, Best, Root;
    TreesPop(g, pending);
  }

  /** A completed search returns the least leaf; a refused one proves the tree
      has more states than the budget has left. */
  method Search(ix: Index, g: Graph, budget: Budget) returns (r: SearchResult)
    requires Indexes(ix, g) && WellFormed(g) && budget.Valid()
    modifies budget
    ensures budget.Valid()
    ensures r.Found? ==> Finishes(g, old(budget.states), budget.limit) && r.best == Winner(g)
    ensures r.Spent? ==> !Finishes(g, old(budget.states), budget.limit)
    ensures !r.Late? ==> budget.states == StatesAfter(g, old(budget.states), budget.limit)
  {
    hide Indexes, SearchTree, Encode, CompleteOrder, WellFormed, OnTrack, Winner, Root, Size, Reps, Branches, Pushed;
    var pending: seq<Markers> := [map[]];
    var best: Option<Candidate> := None;
    ghost var used := budget.states;
    StartOnTrack(g, used);
    while pending != []
      invariant budget.Valid()
      invariant OnTrack(g, pending, best, budget.states, used)
      decreases budget.limit - budget.states
    {
      TrackPending(g, pending, best, budget.states, used);
      var entry := budget.EnterState();
      if entry.OutOfTime? { return Late; }
      if entry.OutOfStates? { return Spent; }
      var m := pending[|pending| - 1];
      TrackMarkers(g, pending, best, budget.states - 1, used);
      var e := Expand(ix, g, m, budget);
      match e {
        case Expired => return Late;
        case AtLeaf(leaf) =>
          LeafOnTrack(g, pending, best, budget.states - 1, used, leaf);
          pending, best := pending[..|pending| - 1], Better(best, Some(leaf));
        case Split(pushed) =>
          BranchOnTrack(g, pending, best, budget.states - 1, used);
          pending := pending[..|pending| - 1] + pushed;
      }
    }
    TrackDone(g, best, budget.states, used);
    r := Found(best.value);
  }

  lemma TrackMarkers(g: Graph, pending: seq<Markers>, best: Option<Candidate>, states: nat, used: nat)
    requires WellFormed(g) && OnTrack(g, pending, best, states, used) && pending != []
    ensures MarkersOf(g, pending[|pending| - 1])
  {
  }
}
