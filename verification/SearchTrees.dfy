/** The tree of individualisation steps that `_canonical_search` walks, and why
    its size and the codes on its leaves do not depend on node ids. */
module SearchTrees {
  import opened ByteStrings
  import opened FiniteSets
  import opened Graphs
  import opened Encoding
  import opened Refinement
  import opened Individualisation
  import opened Cells

  datatype Tree = Leaf(code: Bytes, order: seq<nat>) | Branch(kids: seq<Tree>)

  // ----- leaves

  ghost function NodeOfColour(c: Colours, i: nat): (v: nat)
    requires Dense(c) && i < |c.Values|
    ensures v in c && c[v] == i
  {
    assert i in c.Values;
    var v :| v in c && c[v] == i;
    v
  }

  /** The nodes sorted by colour. */
  ghost function OrderOf(c: Colours): (r: seq<nat>)
    requires Dense(c)
    ensures |r| == |c.Values|
  {
    seq(|c.Values|, i requires 0 <= i < |c.Values| => NodeOfColour(c, i))
  }

  lemma OrderOfComplete(g: Graph, c: Colours)
    requires Dense(c) && Injective(c) && c.Keys == g.labels.Keys
    ensures CompleteOrder(g, OrderOf(c))
    ensures forall i :: 0 <= i < |OrderOf(c)| ==> OrderOf(c)[i] in c && c[OrderOf(c)[i]] == i
  {
    var o := OrderOf(c);
    forall i, j | 0 <= i < j < |o| ensures o[i] != o[j] {
      assert c[o[i]] == i && c[o[j]] == j;
    }
    forall v | v in c ensures v in o {
      assert c[v] in c.Values;
      assert c[o[c[v]]] == c[v];
    }
  }

  // ----- branches

  function Extend(m: Markers, v: nat): (r: Markers) {
    m[v := |m| + 1]
  }

  lemma AmbiguousUnmarked(g: Graph, m: Markers, v: nat)
    requires WellFormed(g) && MarkersOf(g, m) && v in ColoursOf(g, m) && Ambiguous(ColoursOf(g, m), ColoursOf(g, m)[v])
    ensures v !in m
  {
    hide ColoursOf, WellFormed, MarkersOf;
    var c := ColoursOf(g, m);
    ColoursOfShape(g, m);
    var x, y := AmbiguousMakesPair(c, c[v]);
    if v in m { MarkedAlone(g, m, v, if x == v then y else x); }
  }

  lemma ExtendMarkers(g: Graph, m: Markers, v: nat)
    requires WellFormed(g) && MarkersOf(g, m) && v in g.labels
    requires v in ColoursOf(g, m) && Ambiguous(ColoursOf(g, m), ColoursOf(g, m)[v])
    ensures v !in m && MarkersOf(g, Extend(m, v))
    ensures |Extend(m, v)| == |m| + 1 <= |g.labels|
  {
    hide ColoursOf;
    AmbiguousUnmarked(g, m, v);
    hide Ambiguous, WellFormed;
    var n := Extend(m, v);
    assert n.Keys == m.Keys + {v};
    assert |n.Keys| == |m.Keys| + 1 && |n| == |n.Keys| && |m| == |m.Keys|;
    SubsetSize(n.Keys, g.labels.Keys);
  }

  /** Some cell still holds more than one node. */
  ghost predicate Branches(g: Graph, m: Markers)
    requires WellFormed(g)
  {
    !Injective(ColoursOf(g, m))
  }

  /** The nodes the search would individualise next, in ascending id order. */
  ghost function Candidates(g: Graph, m: Markers): (r: seq<nat>)
    requires WellFormed(g) && MarkersOf(g, m) && Branches(g, m)
    ensures forall v :: v in r ==> v in g.labels
    ensures forall v :: v in r <==> v in Cell(ColoursOf(g, m), Target(ColoursOf(g, m)))
  {
    hide ColoursOf;
    ColoursOfShape(g, m);
    Ascending(Cell(ColoursOf(g, m), Target(ColoursOf(g, m))))
  }

  lemma CandidateMarkers(g: Graph, m: Markers, v: nat)
    requires WellFormed(g) && MarkersOf(g, m) && Branches(g, m) && v in Candidates(g, m)
    ensures v in g.labels && v !in m && MarkersOf(g, Extend(m, v))
    ensures |Extend(m, v)| == |m| + 1 <= |g.labels|
  {
    hide ColoursOf;
    ExtendMarkers(g, m, v);
  }

  /** The pruned tree: one child per class of interchangeable candidates. */
  ghost function SearchTree(g: Graph, m: Markers): (t: Tree)
    requires WellFormed(g) && MarkersOf(g, m)
    decreases |g.labels| - |m|
  {
    hide ColoursOf, Encode;
    var c := ColoursOf(g, m);
    ColoursOfShape(g, m);
    if !Branches(g, m) then
      OrderOfComplete(g, c);
      Leaf(Encode(g, OrderOf(c)), OrderOf(c))
    else
      var reps := Representatives(g, Candidates(g, m));
      Branch(seq(|reps|, i requires 0 <= i < |reps| =>
        CandidateMarkers(g, m, reps[i]);
        SearchTree(g, Extend(m, reps[i]))))
  }

  /** The tree without pruning: one child per candidate. */
  ghost function FullTree(g: Graph, m: Markers): (t: Tree)
    requires WellFormed(g) && MarkersOf(g, m)
    decreases |g.labels| - |m|
  {
    hide ColoursOf, Encode;
    var c := ColoursOf(g, m);
    ColoursOfShape(g, m);
    if !Branches(g, m) then
      OrderOfComplete(g, c);
      Leaf(Encode(g, OrderOf(c)), OrderOf(c))
    else
      var all := Candidates(g, m);
      Branch(seq(|all|, i requires 0 <= i < |all| =>
        CandidateMarkers(g, m, all[i]);
        FullTree(g, Extend(m, all[i]))))
  }

  // ----- the number of states and the codes on the leaves

  function Size(t: Tree): (n: nat)
    ensures n >= 1
  {
    match t case Leaf(_, _) => 1 case Branch(kids) => 1 + SizeAll(kids)
  }

  function SizeAll(ts: seq<Tree>): (n: nat) {
    if ts == [] then 0 else Size(ts[0]) + SizeAll(ts[1..])
  }

  function Codes(t: Tree): (s: set<Bytes>) {
    match t case Leaf(code, _) => {code} case Branch(kids) => CodesAll(kids)
  }

  function CodesAll(ts: seq<Tree>): (s: set<Bytes>) {
    if ts == [] then {} else Codes(ts[0]) + CodesAll(ts[1..])
  }

  lemma {:induction false} CodesOfKid(ts: seq<Tree>, i: nat)
    requires i < |ts|
    ensures Codes(ts[i]) <= CodesAll(ts)
  {
    if i > 0 { CodesOfKid(ts[1..], i - 1); }
  }

  lemma {:induction false} KidOfCode(ts: seq<Tree>, code: Bytes) returns (i: nat)
    requires code in CodesAll(ts)
    ensures i < |ts| && code in Codes(ts[i])
  {
    if code in Codes(ts[0]) {
      i := 0;
    } else {
      var j := KidOfCode(ts[1..], code);
      i := j + 1;
    }
  }

  // ----- sums along an injection

  function Sum(s: seq<nat>): (n: nat) {
    if s == [] then 0 else s[0] + Sum(s[1..])
  }

  lemma {:induction false} SumUpdate(s: seq<nat>, j: nat, x: nat)
    requires j < |s|
    ensures Sum(s[j := x]) + s[j] == Sum(s) + x
  {
    if j == 0 {
      assert s[j := x][1..] == s[1..];
    } else {
      assert s[j := x][1..] == s[1..][j - 1 := x];
      SumUpdate(s[1..], j - 1, x);
    }
  }

  lemma {:induction false} SumInjection(s: seq<nat>, t: seq<nat>, to: seq<nat>)
    requires |to| == |s| && Distinct(to)
    requires forall i :: 0 <= i < |s| ==> to[i] < |t| && s[i] <= t[to[i]]
    ensures Sum(s) <= Sum(t)
  {
    if s != [] {
      var j := to[0];
      SumUpdate(t, j, 0);
      var s', to', t' := s[1..], to[1..], t[j := 0];
      forall i | 0 <= i < |s'| ensures to'[i] < |t'| && s'[i] <= t'[to'[i]] {
        assert to[i + 1] != j;
      }
      SumInjection(s', t', to');
    }
  }

  function Sizes(ts: seq<Tree>): (r: seq<nat>) {
    seq(|ts|, i requires 0 <= i < |ts| => Size(ts[i]))
  }

  lemma {:induction false} SizeAllIsSum(ts: seq<Tree>)
    ensures SizeAll(ts) == Sum(Sizes(ts))
  {
    if ts != [] {
      SizeAllIsSum(ts[1..]);
      assert Sizes(ts)[1..] == Sizes(ts[1..]);
    }
  }

  lemma SizeInjection(ts: seq<Tree>, us: seq<Tree>, to: seq<nat>)
    requires |to| == |ts| && Distinct(to)
    requires forall i :: 0 <= i < |ts| ==> to[i] < |us| && Size(ts[i]) <= Size(us[to[i]])
    ensures SizeAll(ts) <= SizeAll(us)
  {
    SizeAllIsSum(ts);
    SizeAllIsSum(us);
    SumInjection(Sizes(ts), Sizes(us), to);
  }

  lemma CodesInjection(ts: seq<Tree>, us: seq<Tree>, to: seq<nat>)
    requires |to| == |ts|
    requires forall i :: 0 <= i < |ts| ==> to[i] < |us| && Codes(ts[i]) <= Codes(us[to[i]])
    ensures CodesAll(ts) <= CodesAll(us)
  {
    forall code | code in CodesAll(ts) ensures code in CodesAll(us) {
      var i := KidOfCode(ts, code);
      CodesOfKid(us, to[i]);
    }
  }
}
