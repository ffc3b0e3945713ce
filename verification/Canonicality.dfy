/** What `canonical_order` promises: the verdict, the number of search states and
    the strong bytes depend on the isomorphism class alone, and equal bytes come
    from isomorphic graphs alone. */
module Canonicality {
  import opened ByteStrings
  import opened Graphs
  import opened Encoding
  import opened Refinement
  import opened Individualisation
  import opened Swaps
  import opened Cells
  import opened SearchTrees
  import opened TreeInvariance

  /** A leaf as the search compares it: bytes first, then the order itself. */
  datatype Candidate = Candidate(code: Bytes, order: seq<nat>)

  predicate Before(a: Candidate, b: Candidate) {
    Less(a.code, b.code) || (a.code == b.code && Less(a.order, b.order))
  }

  lemma BeforeTotal(a: Candidate, b: Candidate)
    ensures Before(a, b) || a == b || Before(b, a)
    ensures !(Before(a, b) && Before(b, a))
  {
    LessTotal(a.code, b.code);
    LessTotal(a.order, b.order);
    LessIrreflexive(a.code);
    LessIrreflexive(a.order);
    if Less(a.code, b.code) && Less(b.code, a.code) { LessTransitive(a.code, b.code, a.code); }
    if Less(a.order, b.order) && Less(b.order, a.order) { LessTransitive(a.order, b.order, a.order); }
  }

  lemma BeforeTransitive(a: Candidate, b: Candidate, c: Candidate)
    requires Before(a, b) && Before(b, c)
    ensures Before(a, c)
  {
    if Less(a.code, b.code) && Less(b.code, c.code) { LessTransitive(a.code, b.code, c.code); }
    if Less(a.order, b.order) && Less(b.order, c.order) { LessTransitive(a.order, b.order, c.order); }
  }

  function Better(a: Option<Candidate>, b: Option<Candidate>): (r: Option<Candidate>) {
    if a.None? then b else if b.None? then a else if Before(b.value, a.value) then b else a
  }

  lemma BetterAssociative(a: Option<Candidate>, b: Option<Candidate>, c: Option<Candidate>)
    ensures Better(Better(a, b), c) == Better(a, Better(b, c))
  {
    if a.Some? && b.Some? && c.Some? {
      BeforeTotal(a.value, b.value);
      BeforeTotal(b.value, c.value);
      BeforeTotal(a.value, c.value);
      if Before(a.value, b.value) && Before(b.value, c.value) { BeforeTransitive(a.value, b.value, c.value); }
      if Before(b.value, a.value) && Before(c.value, b.value) { BeforeTransitive(c.value, b.value, a.value); }
    }
  }

  /** The first leaf of a tree in that order. */
  function Best(t: Tree): (r: Option<Candidate>) {
    match t case Leaf(code, order) => Some(Candidate(code, order)) case Branch(kids) => BestAll(kids)
  }

  function BestAll(ts: seq<Tree>): (r: Option<Candidate>) {
    if ts == [] then None else Better(Best(ts[0]), BestAll(ts[1..]))
  }

  ghost predicate LeastOf(r: Option<Candidate>, s: set<Bytes>) {
    if s == {} then r.None?
    else r.Some? && r.value.code in s && forall c :: c in s ==> !Less(c, r.value.code)
  }

  lemma BetterLeast(a: Option<Candidate>, s: set<Bytes>, b: Option<Candidate>, t: set<Bytes>)
    requires LeastOf(a, s) && LeastOf(b, t)
    ensures LeastOf(Better(a, b), s + t)
  {
    if a.Some? && b.Some? {
      var r := Better(a, b).value.code;
      BeforeTotal(a.value, b.value);
      forall c | c in s + t ensures !Less(c, r) {
        if Less(c, r) {
          if c in s {
            LessTotal(r, a.value.code);
            if Less(r, a.value.code) { LessTransitive(c, r, a.value.code); }
          } else {
            LessTotal(r, b.value.code);
            if Less(r, b.value.code) { LessTransitive(c, r, b.value.code); }
          }
        }
      }
    } else {
      assert s + t == if a.None? then t else s;
    }
  }

  /** The chosen leaf carries the least code of the tree. */
  lemma {:induction false} BestLeast(t: Tree)
    ensures LeastOf(Best(t), Codes(t))
    decreases t, 1
  {
    match t {
      case Leaf(code, order) => LessIrreflexive(code);
      case Branch(kids) => BestAllLeast(kids);
    }
  }

  lemma {:induction false} BestAllLeast(ts: seq<Tree>)
    ensures LeastOf(BestAll(ts), CodesAll(ts))
    decreases ts, 0
  {
    if ts != [] {
      BestLeast(ts[0]);
      BestAllLeast(ts[1..]);
      BetterLeast(Best(ts[0]), Codes(ts[0]), BestAll(ts[1..]), CodesAll(ts[1..]));
    }
  }

  function Leaves(t: Tree): (s: set<Candidate>)
    decreases t, 1
  {
    match t case Leaf(code, order) => {Candidate(code, order)} case Branch(kids) => LeavesAll(kids)
  }

  function LeavesAll(ts: seq<Tree>): (s: set<Candidate>)
    decreases ts, 0
  {
    if ts == [] then {} else Leaves(ts[0]) + LeavesAll(ts[1..])
  }

  ghost predicate FirstLeaf(r: Option<Candidate>, s: set<Candidate>) {
    if s == {} then r.None?
    else
      && r.Some? && r.value in s
      && forall a :: a in s ==>
            !Less(a.code, r.value.code) && (a.code == r.value.code ==> !Less(a.order, r.value.order))
  }

  lemma BetterFirst(a: Option<Candidate>, s: set<Candidate>, b: Option<Candidate>, t: set<Candidate>)
    requires FirstLeaf(a, s) && FirstLeaf(b, t)
    ensures FirstLeaf(Better(a, b), s + t)
  {
    if a.Some? && b.Some? {
      var r := Better(a, b).value;
      BeforeTotal(a.value, b.value);
      forall x | x in s + t ensures !Before(x, r) {
        if Before(x, r) {
          var y := if x in s then a.value else b.value;
          BeforeTotal(y, r);
          if Before(r, y) { BeforeTransitive(x, r, y); }
        }
      }
    } else {
      assert s + t == if a.None? then t else s;
    }
  }

  /** Among the leaves with the least code the chosen one has the least order. */
  lemma {:induction false} BestFirst(t: Tree)
    ensures FirstLeaf(Best(t), Leaves(t))
    decreases t, 1
  {
    match t {
      case Leaf(code, order) =>
        LessIrreflexive(code);
        LessIrreflexive(order);
      case Branch(kids) => BestAllFirst(kids);
    }
  }

  lemma {:induction false} BestAllFirst(ts: seq<Tree>)
    ensures FirstLeaf(BestAll(ts), LeavesAll(ts))
    decreases ts, 0
  {
    if ts != [] {
      BestFirst(ts[0]);
      BestAllFirst(ts[1..]);
      BetterFirst(Best(ts[0]), Leaves(ts[0]), BestAll(ts[1..]), LeavesAll(ts[1..]));
    }
  }

  lemma LeastUnique(a: Option<Candidate>, b: Option<Candidate>, s: set<Bytes>)
    requires LeastOf(a, s) && LeastOf(b, s)
    ensures a.Some? == b.Some? && (a.Some? ==> a.value.code == b.value.code)
  {
    if a.Some? { LessTotal(a.value.code, b.value.code); }
  }

  // ----- every leaf is an encoding of the graph

  ghost predicate Encodes(g: Graph, t: Tree) {
    match t
    case Leaf(code, order) => CompleteOrder(g, order) && code == Encode(g, order)
    case Branch(kids) => forall k :: k in kids ==> Encodes(g, k)
  }

  lemma {:induction false} SearchTreeEncodes(g: Graph, m: Markers)
    requires WellFormed(g) && MarkersOf(g, m)
    ensures Encodes(g, SearchTree(g, m))
    decreases |g.labels| - |m|
  {
    hide ColoursOf, Encode, Candidates, MarkersOf, Branches, Reps, SearchTree;
    if Branches(g, m) {
      PrunedBranch(g, m);
      var kids := SearchTree(g, m).kids;
      forall k | k in kids ensures Encodes(g, k) {
        var i :| 0 <= i < |kids| && kids[i] == k;
        PrunedKid(g, m, i);
        SearchTreeEncodes(g, Extend(m, Reps(g, m)[i]));
      }
    } else {
      PrunedLeaf(g, m);
    }
  }

  ghost predicate EncodesBest(g: Graph, r: Option<Candidate>) {
    r.Some? ==> CompleteOrder(g, r.value.order) && r.value.code == Encode(g, r.value.order)
  }

  lemma {:induction false} BestEncodes(g: Graph, t: Tree)
    requires Encodes(g, t)
    ensures EncodesBest(g, Best(t))
    decreases t, 1
  {
    hide Encode, CompleteOrder;
    if t.Branch? { BestAllEncodes(g, t.kids); }
  }

  lemma {:induction false} BestAllEncodes(g: Graph, ts: seq<Tree>)
    requires forall k :: k in ts ==> Encodes(g, k)
    ensures EncodesBest(g, BestAll(ts))
    decreases ts, 0
  {
    hide Encode, CompleteOrder;
    if ts != [] {
      assert ts[0] in ts;
      BestEncodes(g, ts[0]);
      BestAllEncodes(g, ts[1..]);
    }
  }

  /** Every search meets a leaf: the final assertion of the search never fails. */
  lemma {:induction false} SearchTreeHasLeaf(g: Graph, m: Markers)
    requires WellFormed(g) && MarkersOf(g, m)
    ensures Codes(SearchTree(g, m)) != {}
    decreases |g.labels| - |m|
  {
    hide ColoursOf, Encode, Candidates, MarkersOf, Branches, Reps, SearchTree, SwapCertified;
    if Branches(g, m) {
      PrunedBranch(g, m);
      var v := SomeCandidate(g, m);
      var j := StandIn(g, m, v);
      PrunedKid(g, m, j);
      SearchTreeHasLeaf(g, Extend(m, Reps(g, m)[j]));
      CodesOfKid(SearchTree(g, m).kids, j);
    } else {
      PrunedLeaf(g, m);
    }
  }

  lemma SomeCandidate(g: Graph, m: Markers) returns (v: nat)
    requires WellFormed(g) && MarkersOf(g, m) && Branches(g, m)
    ensures v in Candidates(g, m)
  {
    hide ColoursOf, Candidates;
    var c := ColoursOf(g, m);
    var x, y := AmbiguousMakesPair(c, Target(c));
    v := x;
  }

  // ----- the verdict of a search

  /** The whole tree below the unmarked graph. */
  ghost function Root(g: Graph): (t: Tree)
    requires WellFormed(g)
  {
    SearchTree(g, map[])
  }

  /** A search that starts with `used` of `limit` states already spent. */
  ghost predicate Finishes(g: Graph, used: nat, limit: nat)
    requires WellFormed(g)
  {
    used + Size(Root(g)) <= limit
  }

  ghost function StatesAfter(g: Graph, used: nat, limit: nat): (n: nat)
    requires WellFormed(g)
  {
    if Finishes(g, used, limit) then used + Size(Root(g)) else limit
  }

  ghost function Winner(g: Graph): (r: Candidate)
    requires WellFormed(g)
    ensures CompleteOrder(g, r.order) && r.code == Encode(g, r.order)
  {
    hide SearchTree, Encode, CompleteOrder;
    SearchTreeHasLeaf(g, map[]);
    SearchTreeEncodes(g, map[]);
    BestLeast(Root(g));
    BestEncodes(g, Root(g));
    Best(Root(g)).value
  }

  lemma WinnerLeast(g: Graph)
    requires WellFormed(g)
    ensures Best(Root(g)) == Some(Winner(g)) && LeastOf(Best(Root(g)), Codes(Root(g)))
  {
    hide SearchTree, Encode, CompleteOrder;
    SearchTreeHasLeaf(g, map[]);
    BestLeast(Root(g));
  }

  /** Isomorphic graphs: same verdict, same number of states, same strong bytes,
      for every budget and every amount of it already spent. */
  lemma CanonicalInvariance(g: Graph, h: Graph, f: map<nat, nat>, used: nat, limit: nat)
    requires WellFormed(g) && WellFormed(h) && Isomorphism(g, h, f)
    ensures Finishes(g, used, limit) <==> Finishes(h, used, limit)
    ensures StatesAfter(g, used, limit) == StatesAfter(h, used, limit)
    ensures Winner(g).code == Winner(h).code
  {
    hide SearchTree, Encode, CompleteOrder, Isomorphism, Winner;
    TreeInvariant(g, h, f, map[], map[]);
    WinnerLeast(g);
    WinnerLeast(h);
    LeastUnique(Best(Root(g)), Best(Root(h)), Codes(Root(g)));
  }

  /** Equal strong bytes make the two chosen orders an isomorphism, position by position. */
  lemma CanonicalCompleteness(g: Graph, h: Graph)
    requires WellFormed(g) && WellFormed(h) && Winner(g).code == Winner(h).code
    ensures |Winner(g).order| == |Winner(h).order|
    ensures Isomorphism(g, h, PositionMap(Winner(g).order, Winner(h).order))
  {
    hide Encode, CompleteOrder, Winner, Isomorphism;
    EncodeUniquelyDecodes(g, Winner(g).order, h, Winner(h).order);
  }

  /** Strong bytes are a complete invariant. */
  lemma CanonicalExact(g: Graph, h: Graph)
    requires WellFormed(g) && WellFormed(h)
    ensures Winner(g).code == Winner(h).code <==> Isomorphic(g, h)
  {
    hide Winner, Isomorphism;
    if Winner(g).code == Winner(h).code {
      CanonicalCompleteness(g, h);
    }
    if f :| Isomorphism(g, h, f) {
      CanonicalInvariance(g, h, f, 0, 0);
    }
  }

  /** The strong bytes are the least code of the unpruned tree. */
  lemma CanonicalLeast(g: Graph)
    requires WellFormed(g)
    ensures LeastOf(Some(Winner(g)), Codes(FullTree(g, map[])))
  {
    hide SearchTree, FullTree, Encode, CompleteOrder, Winner;
    PruningExact(g, map[]);
    WinnerLeast(g);
  }
}
