/** Which cell the search branches on, and which of its nodes survive pruning. */
module Cells {
  import opened FiniteSets
  import opened Graphs
  import opened Refinement
  import opened Individualisation
  import opened Swaps

  function Cell(c: Colours, k: nat): (r: set<nat>) {
    set v | v in c && c[v] == k
  }

  predicate Ambiguous(c: Colours, k: nat) {
    |Cell(c, k)| > 1
  }

  /** `min` over (cell size, colour). */
  predicate NoLater(c: Colours, k: nat, j: nat) {
    |Cell(c, k)| < |Cell(c, j)| || (|Cell(c, k)| == |Cell(c, j)| && k <= j)
  }

  ghost predicate IsTarget(c: Colours, k: nat) {
    Ambiguous(c, k) && forall j :: Ambiguous(c, j) ==> NoLater(c, k, j)
  }

  lemma PairMakesAmbiguous(c: Colours, v: nat, w: nat)
    requires v in c && w in c && v != w && c[v] == c[w]
    ensures Ambiguous(c, c[v])
  {
    SubsetSize({v, w}, Cell(c, c[v]));
  }

  lemma AmbiguousMakesPair(c: Colours, k: nat) returns (v: nat, w: nat)
    requires Ambiguous(c, k)
    ensures v in c && w in c && v != w && c[v] == k && c[w] == k
  {
    v :| v in Cell(c, k);
    if Cell(c, k) == {v} { assert false; }
    assert Cell(c, k) - {v} != {};
    w :| w in Cell(c, k) - {v};
  }

  lemma {:induction false} TargetBelow(c: Colours, k: nat) returns (t: nat)
    requires Ambiguous(c, k)
    ensures IsTarget(c, t)
    decreases |Cell(c, k)|, k
  {
    if j :| Ambiguous(c, j) && !NoLater(c, k, j) {
      t := TargetBelow(c, j);
    } else {
      t := k;
    }
  }

  ghost function Target(c: Colours): (t: nat)
    requires !Injective(c)
    ensures IsTarget(c, t)
  {
    assert exists t :: IsTarget(c, t) by {
      var v, w :| v in c && w in c && c[v] == c[w] && v != w;
      PairMakesAmbiguous(c, v, w);
      var t := TargetBelow(c, c[v]);
    }
    var t :| IsTarget(c, t);
    t
  }

  lemma TargetUnique(c: Colours, k: nat)
    requires !Injective(c) && IsTarget(c, k)
    ensures Target(c) == k
  {
  }

  /** The chosen cell is a smallest one of those with several nodes, and of the smallest
      the one with the least colour. */
  lemma TargetSmallest(c: Colours, k: nat)
    requires !Injective(c) && |set v | v in c && c[v] == k| > 1
    ensures |set v | v in c && c[v] == Target(c)| > 1
    ensures |set v | v in c && c[v] == Target(c)| <= |set v | v in c && c[v] == k|
    ensures |set v | v in c && c[v] == Target(c)| == |set v | v in c && c[v] == k| ==> Target(c) <= k
  {
    var t := Target(c);
    assert (set v | v in c && c[v] == k) == Cell(c, k);
    assert (set v | v in c && c[v] == t) == Cell(c, t);
    assert Ambiguous(c, k) && Ambiguous(c, t);
  }

  lemma CellCarried(f: map<nat, nat>, c: Colours, d: Colours, k: nat)
    requires Carries(f, c, d)
    ensures Cell(d, k) == Image(f, Cell(c, k)) && |Cell(d, k)| == |Cell(c, k)|
  {
    forall w | w in Cell(d, k) ensures w in Image(f, Cell(c, k)) {
      var v := PreimageOf(f, c.Keys, d.Keys, w);
    }
    forall w | w in Image(f, Cell(c, k)) ensures w in Cell(d, k) {
      var v :| v in Cell(c, k) && f[v] == w;
    }
    ImageSize(f, Cell(c, k));
  }

  lemma InjectiveCarried(f: map<nat, nat>, c: Colours, d: Colours)
    requires Carries(f, c, d)
    ensures Injective(c) <==> Injective(d)
  {
    if Injective(c) {
      forall x, y | x in d && y in d && d[x] == d[y] ensures x == y {
        var u := PreimageOf(f, c.Keys, d.Keys, x);
        var v := PreimageOf(f, c.Keys, d.Keys, y);
        assert c[u] == c[v];
      }
    }
    if Injective(d) {
      forall x, y | x in c && y in c && c[x] == c[y] ensures x == y {
        assert d[f[x]] == d[f[y]];
      }
    }
  }

  /** The chosen colour does not depend on node ids. */
  lemma TargetCarried(f: map<nat, nat>, c: Colours, d: Colours)
    requires Carries(f, c, d) && !Injective(c) && !Injective(d)
    ensures Target(d) == Target(c)
  {
    forall k ensures |Cell(d, k)| == |Cell(c, k)| {
      CellCarried(f, c, d, k);
    }
    var t := Target(c);
    forall j | Ambiguous(d, j) ensures NoLater(d, t, j) {
      assert Ambiguous(c, j);
      assert NoLater(c, t, j);
    }
    TargetUnique(d, t);
  }

  // ----- ascending node ids

  lemma {:induction false} LeastExists(s: set<nat>) returns (m: nat)
    requires s != {}
    ensures m in s && forall x :: x in s ==> m <= x
  {
    var a :| a in s;
    if s == {a} {
      m := a;
    } else {
      assert s - {a} != {};
      var n := LeastExists(s - {a});
      m := if n < a then n else a;
      assert forall x :: x in s ==> x == a || x in s - {a};
    }
  }

  ghost function Least(s: set<nat>): (m: nat)
    requires s != {}
    ensures m in s && forall x :: x in s ==> m <= x
  {
    assert exists m :: m in s && forall x :: x in s ==> m <= x by {
      var m := LeastExists(s);
    }
    var m :| m in s && forall x :: x in s ==> m <= x;
    m
  }

  /** The ids of a set in ascending order. */
  ghost function Ascending(s: set<nat>): (r: seq<nat>)
    ensures forall x :: x in r <==> x in s
    ensures forall i, j :: 0 <= i < j < |r| ==> r[i] < r[j]
  {
    if s == {} then [] else
    var m := Least(s);
    var rest := Ascending(s - {m});
    assert forall i :: 0 <= i < |rest| ==> rest[i] in s - {m};
    [m] + rest
  }

  predicate Climbs(r: seq<nat>) {
    forall i, j :: 0 <= i < j < |r| ==> r[i] < r[j]
  }

  lemma ClimbsTail(r: seq<nat>)
    requires r != [] && Climbs(r)
    ensures Climbs(r[1..]) && Elements(r[1..]) == Elements(r) - {r[0]} && r[0] in Elements(r)
    ensures forall x :: x in Elements(r) ==> r[0] <= x
  {
    forall x | x in Elements(r) - {r[0]} ensures x in Elements(r[1..]) {
      var i :| 0 <= i < |r| && r[i] == x;
      assert r[1..][i - 1] == x;
    }
    forall x | x in Elements(r[1..]) ensures x in Elements(r) - {r[0]} {
      var i :| 0 <= i < |r[1..]| && r[1..][i] == x;
      assert r[i + 1] == x;
    }
  }

  lemma AscendingUnfolds(s: set<nat>, m: nat)
    requires m in s && forall x :: x in s ==> m <= x
    ensures Ascending(s) == [m] + Ascending(s - {m})
  {
    assert Least(s) == m;
  }

  lemma {:induction false} ClimbsUnique(r: seq<nat>, s: set<nat>)
    requires Elements(r) == s && Climbs(r)
    ensures r == Ascending(s)
    decreases |r|
  {
    hide Elements, Climbs, Ascending;
    if r == [] {
      NoElements();
      NoneAscends();
    } else {
      ClimbsTail(r);
      AscendingUnfolds(s, r[0]);
      ClimbsUnique(r[1..], s - {r[0]});
      assert r == [r[0]] + r[1..];
    }
  }

  lemma NoneAscends()
    ensures Ascending({}) == []
  {
  }

  lemma AscendingUnique(r: seq<nat>, s: set<nat>)
    requires Elements(r) == s && forall i, j :: 0 <= i < j < |r| ==> r[i] < r[j]
    ensures r == Ascending(s)
  {
    ClimbsUnique(r, s);
  }

  lemma NoElements()
    ensures Elements<nat>([]) == {}
  {
  }

  function InsertId(r: seq<nat>, v: nat): (s: seq<nat>)
    requires v !in r && forall p, q :: 0 <= p < q < |r| ==> r[p] < r[q]
    ensures Elements(s) == Elements(r) + {v}
    ensures forall p, q :: 0 <= p < q < |s| ==> s[p] < s[q]
  {
    if r == [] then [v]
    else if v < r[0] then [v] + r
    else
      var t := InsertId(r[1..], v);
      assert forall p :: 0 <= p < |t| ==> t[p] in Elements(t);
      assert forall p :: 0 <= p < |t| ==> r[0] < t[p];
      assert Elements(r) == Elements(r[1..]) + {r[0]};
      [r[0]] + t
  }

  // ----- one representative of each class of interchangeable nodes

  predicate Replaces(g: Graph, reps: seq<nat>, v: nat)
    requires v in g.labels && forall r :: r in reps ==> r in g.labels
  {
    exists i :: 0 <= i < |reps| && SwapCertified(g, v, reps[i])
  }

  /** Nodes are taken in order; one that can be swapped with an earlier choice is dropped. */
  function Representatives(g: Graph, ns: seq<nat>): (r: seq<nat>)
    requires forall v :: v in ns ==> v in g.labels
    ensures forall v :: v in r ==> v in ns
  {
    if ns == [] then [] else
    var last := ns[|ns| - 1];
    var reps := Representatives(g, ns[..|ns| - 1]);
    if Replaces(g, reps, last) then reps else reps + [last]
  }

  /** Every node of the cell can be swapped with some representative. */
  lemma {:induction false} RepresentativesCover(g: Graph, ns: seq<nat>, v: nat)
    requires (forall w :: w in ns ==> w in g.labels) && v in ns
    ensures Replaces(g, Representatives(g, ns), v)
  {
    hide SwapCertified;
    var last, reps := ns[|ns| - 1], Representatives(g, ns[..|ns| - 1]);
    var all := Representatives(g, ns);
    if v in ns[..|ns| - 1] {
      RepresentativesCover(g, ns[..|ns| - 1], v);
      var i :| 0 <= i < |reps| && SwapCertified(g, v, reps[i]);
      assert all[i] == reps[i];
    } else {
      assert v == last;
      if !Replaces(g, reps, last) {
        SwapReflexive(g, v);
        assert all[|reps|] == v;
      }
    }
  }

  /** No two representatives can be swapped: exactly one per class survives. */
  lemma {:induction false} RepresentativesApart(g: Graph, ns: seq<nat>, i: nat, j: nat)
    requires forall w :: w in ns ==> w in g.labels
    requires i < |Representatives(g, ns)| && j < |Representatives(g, ns)|
    requires SwapCertified(g, Representatives(g, ns)[i], Representatives(g, ns)[j])
    ensures i == j
  {
    hide SwapCertified;
    var last, reps := ns[|ns| - 1], Representatives(g, ns[..|ns| - 1]);
    var all := Representatives(g, ns);
    if i < |reps| && j < |reps| {
      assert all[i] == reps[i] && all[j] == reps[j];
      RepresentativesApart(g, ns[..|ns| - 1], i, j);
    } else if i != j {
      assert all == reps + [last] && !Replaces(g, reps, last);
      NotReplaced(g, reps, last, if i < |reps| then i else j);
      if i < |reps| { SwapSymmetric(g, all[i], all[j]); }
    }
  }

  /** The first node of each class is the one that is kept. */
  lemma {:induction false} FirstOfClassKept(g: Graph, ns: seq<nat>, i: nat)
    requires (forall w :: w in ns ==> w in g.labels) && i < |ns|
    ensures ns[i] in Representatives(g, ns) ||
            exists j :: 0 <= j < i && ns[j] in Representatives(g, ns) && SwapCertified(g, ns[i], ns[j])
  {
    hide SwapCertified;
    var ms := ns[..i + 1];
    assert ms[..|ms| - 1] == ns[..i] && ms[|ms| - 1] == ns[i];
    var reps := Representatives(g, ns[..i]);
    if Replaces(g, reps, ns[i]) {
      var k :| 0 <= k < |reps| && SwapCertified(g, ns[i], reps[k]);
      assert reps[k] in ns[..i];
      var j :| 0 <= j < i && ns[j] == reps[k];
      RepresentativesGrow(g, ns, i, reps[k]);
    } else {
      RepresentativesGrow(g, ns, i + 1, ns[i]);
    }
  }

  lemma {:induction false} RepresentativesGrow(g: Graph, ns: seq<nat>, i: nat, v: nat)
    requires (forall w :: w in ns ==> w in g.labels) && i <= |ns| && v in Representatives(g, ns[..i])
    ensures v in Representatives(g, ns)
  {
    hide SwapCertified;
    if i < |ns| {
      assert ns[..|ns| - 1][..i] == ns[..i];
      RepresentativesGrow(g, ns[..|ns| - 1], i, v);
    } else {
      assert ns[..i] == ns;
    }
  }

  /** Of nodes in ascending order the least of each class is kept, and the kept ones ascend. */
  lemma {:induction false} LeastOfClassKept(g: Graph, ns: seq<nat>, v: nat)
    requires (forall w :: w in ns ==> w in g.labels) && Climbs(ns) && v in ns
    requires forall w :: w in ns && SwapCertified(g, v, w) ==> v <= w
    ensures v in Representatives(g, ns) && Climbs(Representatives(g, ns))
  {
    hide SwapCertified;
    var i :| 0 <= i < |ns| && ns[i] == v;
    FirstOfClassKept(g, ns, i);
    RepresentativesClimb(g, ns);
  }

  lemma {:induction false} RepresentativesClimb(g: Graph, ns: seq<nat>)
    requires (forall w :: w in ns ==> w in g.labels) && Climbs(ns)
    ensures Climbs(Representatives(g, ns))
  {
    hide SwapCertified;
    if ns != [] {
      var front, last := ns[..|ns| - 1], ns[|ns| - 1];
      RepresentativesClimb(g, front);
      var reps := Representatives(g, front);
      forall i | 0 <= i < |reps| ensures reps[i] < last { assert reps[i] in front; }
    }
  }

  lemma NotReplaced(g: Graph, reps: seq<nat>, v: nat, i: nat)
    requires v in g.labels && (forall r :: r in reps ==> r in g.labels)
    requires !Replaces(g, reps, v) && i < |reps|
    ensures !SwapCertified(g, v, reps[i])
  {
  }
}
