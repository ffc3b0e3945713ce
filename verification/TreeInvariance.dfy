/** Isomorphic graphs have search trees of one size with one set of leaf codes,
    and pruning by certified swaps loses no leaf code. */
module TreeInvariance {
  import opened FiniteSets
  import opened Graphs
  import opened Encoding
  import opened Refinement
  import opened Individualisation
  import opened Swaps
  import opened Cells
  import opened SearchTrees

  // ----- the shape of a tree

  ghost function Reps(g: Graph, m: Markers): (r: seq<nat>)
    requires WellFormed(g) && MarkersOf(g, m) && Branches(g, m)
    ensures forall v :: v in r ==> v in Candidates(g, m) && v in g.labels
  {
    Representatives(g, Candidates(g, m))
  }

  lemma PrunedKid(g: Graph, m: Markers, i: nat)
    requires WellFormed(g) && MarkersOf(g, m) && Branches(g, m) && i < |Reps(g, m)|
    ensures SearchTree(g, m).Branch? && |SearchTree(g, m).kids| == |Reps(g, m)|
    ensures MarkersOf(g, Extend(m, Reps(g, m)[i])) && |Extend(m, Reps(g, m)[i])| == |m| + 1 <= |g.labels|
    ensures SearchTree(g, m).kids[i] == SearchTree(g, Extend(m, Reps(g, m)[i]))
  {
    hide ColoursOf, Candidates, Representatives, Encode;
    CandidateMarkers(g, m, Reps(g, m)[i]);
  }

  lemma PrunedBranch(g: Graph, m: Markers)
    requires WellFormed(g) && MarkersOf(g, m) && Branches(g, m)
    ensures SearchTree(g, m).Branch? && |SearchTree(g, m).kids| == |Reps(g, m)|
  {
    hide ColoursOf, Candidates, Representatives, Encode;
  }

  lemma FullKid(g: Graph, m: Markers, i: nat)
    requires WellFormed(g) && MarkersOf(g, m) && Branches(g, m) && i < |Candidates(g, m)|
    ensures FullTree(g, m).Branch? && |FullTree(g, m).kids| == |Candidates(g, m)|
    ensures MarkersOf(g, Extend(m, Candidates(g, m)[i])) && |Extend(m, Candidates(g, m)[i])| == |m| + 1 <= |g.labels|
    ensures FullTree(g, m).kids[i] == FullTree(g, Extend(m, Candidates(g, m)[i]))
  {
    hide ColoursOf, Candidates, Encode;
    CandidateMarkers(g, m, Candidates(g, m)[i]);
  }

  lemma FullBranch(g: Graph, m: Markers)
    requires WellFormed(g) && MarkersOf(g, m) && Branches(g, m)
    ensures FullTree(g, m).Branch? && |FullTree(g, m).kids| == |Candidates(g, m)|
  {
    hide ColoursOf, Candidates, Encode;
  }

  lemma PrunedLeaf(g: Graph, m: Markers)
    requires WellFormed(g) && MarkersOf(g, m) && !Branches(g, m)
    ensures Dense(ColoursOf(g, m)) && CompleteOrder(g, OrderOf(ColoursOf(g, m)))
    ensures SearchTree(g, m) == Leaf(Encode(g, OrderOf(ColoursOf(g, m))), OrderOf(ColoursOf(g, m)))
  {
    hide ColoursOf, Encode, OrderOf;
    ColoursOfShape(g, m);
    OrderOfComplete(g, ColoursOf(g, m));
  }

  lemma SameLeaf(g: Graph, m: Markers)
    requires WellFormed(g) && MarkersOf(g, m) && !Branches(g, m)
    ensures SearchTree(g, m) == FullTree(g, m) && SearchTree(g, m).Leaf?
  {
    hide ColoursOf, Encode;
  }

  // ----- travelling along an isomorphism

  lemma OrderAt(g: Graph, d: Colours, w: nat)
    requires Dense(d) && Injective(d) && d.Keys == g.labels.Keys && w in d
    ensures d[w] < |OrderOf(d)| && OrderOf(d)[d[w]] == w
  {
    OrderOfComplete(g, d);
    assert d[w] in d.Values;
    assert d[OrderOf(d)[d[w]]] == d[w];
  }

  lemma OrderCarried(g: Graph, h: Graph, f: map<nat, nat>, c: Colours, d: Colours)
    requires Isomorphism(g, h, f) && Carries(f, c, d) && Dense(c) && Dense(d)
    requires c.Keys == g.labels.Keys && d.Keys == h.labels.Keys && Injective(c) && Injective(d)
    ensures CompleteOrder(g, OrderOf(c))
    ensures OrderOf(d) == MoveOrder(f, OrderOf(c))
  {
    hide Isomorphism, OrderOf, Dense;
    OrderOfComplete(g, c);
    CarriedValues(f, c, d);
    var o, p := OrderOf(c), OrderOf(d);
    forall i | 0 <= i < |o| ensures p[i] == f[o[i]] {
      assert d[f[o[i]]] == c[o[i]] == i;
      OrderAt(h, d, f[o[i]]);
    }
  }

  lemma LeafCarried(g: Graph, h: Graph, f: map<nat, nat>, m: Markers, n: Markers)
    requires WellFormed(g) && WellFormed(h) && Isomorphism(g, h, f)
    requires MarkersOf(g, m) && MarkersOf(h, n) && CarriesMarkers(f, m, n)
    requires !Branches(g, m) && !Branches(h, n)
    ensures SearchTree(g, m).Leaf? && SearchTree(h, n).Leaf?
    ensures SearchTree(g, m).code == SearchTree(h, n).code
  {
    hide ColoursOf, Encode, Isomorphism, Carries;
    var c, d := ColoursOf(g, m), ColoursOf(h, n);
    ColoursOfShape(g, m);
    ColoursOfShape(h, n);
    ColoursOfCarried(g, h, f, m, n);
    OrderCarried(g, h, f, c, d);
    EncodeIsomorphic(g, h, f, OrderOf(c));
  }

  lemma BranchesCarried(g: Graph, h: Graph, f: map<nat, nat>, m: Markers, n: Markers)
    requires WellFormed(g) && WellFormed(h) && Isomorphism(g, h, f) && CarriesMarkers(f, m, n)
    ensures Branches(g, m) <==> Branches(h, n)
  {
    hide ColoursOf, Isomorphism, Carries;
    ColoursOfCarried(g, h, f, m, n);
    InjectiveCarried(f, ColoursOf(g, m), ColoursOf(h, n));
  }

  lemma CellMember(f: map<nat, nat>, c: Colours, d: Colours, k: nat, v: nat)
    requires Carries(f, c, d) && v in Cell(c, k)
    ensures v in f && f[v] in Cell(d, k)
  {
  }

  lemma CandidateCarried(g: Graph, h: Graph, f: map<nat, nat>, m: Markers, n: Markers, v: nat)
    requires WellFormed(g) && WellFormed(h) && Isomorphism(g, h, f)
    requires MarkersOf(g, m) && MarkersOf(h, n) && CarriesMarkers(f, m, n)
    requires Branches(g, m) && Branches(h, n) && v in Candidates(g, m)
    ensures v in f && f[v] in Candidates(h, n)
  {
    hide ColoursOf, Isomorphism, Carries, Candidates, Cell;
    var c, d := ColoursOf(g, m), ColoursOf(h, n);
    ColoursOfCarried(g, h, f, m, n);
    TargetCarried(f, c, d);
    CellMember(f, c, d, Target(c), v);
  }

  /** The representative that stands for the image of a candidate. */
  lemma StandIn(h: Graph, n: Markers, w: nat) returns (j: nat)
    requires WellFormed(h) && MarkersOf(h, n) && Branches(h, n) && w in Candidates(h, n)
    ensures w in h.labels && j < |Reps(h, n)| && SwapCertified(h, w, Reps(h, n)[j])
  {
    hide ColoursOf, Candidates, Representatives, SwapCertified;
    RepresentativesCover(h, Candidates(h, n), w);
    j :| 0 <= j < |Reps(h, n)| && SwapCertified(h, w, Reps(h, n)[j]);
  }

  /** Following an isomorphism by a swap of two unmarked nodes carries one step
      of marking to the other. */
  lemma DetourMarkers(f: map<nat, nat>, s: set<nat>, m: Markers, n: Markers, v: nat, w: nat)
    requires Bijection(f, f.Keys, s) && CarriesMarkers(f, m, n) && |m| == |n|
    requires v in f && v !in m && f[v] !in n && w !in n && w in s
    requires Bijection(Swap(s, f[v], w), s, s)
    ensures CarriesMarkers(Compose(f, Swap(s, f[v], w)), Extend(m, v), Extend(n, w))
  {
    BijectionLands(f, f.Keys, s);
    var e := Compose(f, Swap(s, f[v], w));
    forall u | u in e ensures Marker(Extend(n, w), e[u]) == Marker(Extend(m, v), u) {
      assert e[u] == Swapped(f[v], w, f[u]);
    }
  }

  lemma Detour(g: Graph, h: Graph, f: map<nat, nat>, m: Markers, n: Markers, v: nat, w: nat) returns (e: map<nat, nat>)
    requires Isomorphism(g, h, f) && CarriesMarkers(f, m, n) && |m| == |n|
    requires v in f && v !in m && f[v] in h.labels && f[v] !in n && w !in n && w in h.labels
    requires SwapCertified(h, f[v], w)
    ensures Isomorphism(g, h, e) && CarriesMarkers(e, Extend(m, v), Extend(n, w))
  {
    hide SwapCertified, CarriesMarkers, PreservesEdges;
    CertifiedIsAutomorphism(h, f[v], w);
    e := Compose(f, Swap(h.labels.Keys, f[v], w));
    IsomorphismCompose(g, h, h, f, Swap(h.labels.Keys, f[v], w));
    DetourMarkers(f, h.labels.Keys, m, n, v, w);
  }

  /** Different representatives of one graph need different stand-ins in the other. */
  lemma StandInsApart(g: Graph, h: Graph, f: map<nat, nat>, x: nat, y: nat, w: nat)
    requires Isomorphism(g, h, f) && x in f && y in f && w in h.labels
    requires f[x] in h.labels && f[y] in h.labels
    requires SwapCertified(h, f[x], w) && SwapCertified(h, f[y], w)
    ensures SwapCertified(g, x, y)
  {
    hide SwapCertified, PreservesEdges;
    SwapSymmetric(h, f[y], w);
    SwapTransitive(h, f[x], w, f[y]);
    var back := Inverse(f, h.labels.Keys);
    IsomorphismInverse(g, h, f);
    assert back[f[x]] == x && back[f[y]] == y;
    SwapCarried(h, g, back, f[x], f[y]);
  }

  // ----- the two theorems

  lemma KidsAtMost(g: Graph, h: Graph, f: map<nat, nat>, m: Markers, n: Markers, i: nat) returns (j: nat)
    requires WellFormed(g) && WellFormed(h) && Isomorphism(g, h, f)
    requires MarkersOf(g, m) && MarkersOf(h, n) && CarriesMarkers(f, m, n) && |m| == |n|
    requires Branches(g, m) && Branches(h, n) && i < |Reps(g, m)|
    ensures SearchTree(g, m).Branch? && i < |SearchTree(g, m).kids|
    ensures SearchTree(h, n).Branch? && j < |SearchTree(h, n).kids| && j < |Reps(h, n)|
    ensures Size(SearchTree(g, m).kids[i]) <= Size(SearchTree(h, n).kids[j])
    ensures Codes(SearchTree(g, m).kids[i]) <= Codes(SearchTree(h, n).kids[j])
    ensures Reps(g, m)[i] in f && f[Reps(g, m)[i]] in h.labels
    ensures SwapCertified(h, f[Reps(g, m)[i]], Reps(h, n)[j])
    decreases |g.labels| - |m|, 0
  {
    hide ColoursOf, Candidates, Reps, SearchTree, SwapCertified, Isomorphism, Size, Codes, CarriesMarkers;
    var r := Reps(g, m)[i];
    CandidateCarried(g, h, f, m, n, r);
    j := StandIn(h, n, f[r]);
    var w := Reps(h, n)[j];
    PrunedKid(g, m, i);
    PrunedKid(h, n, j);
    CandidateMarkers(g, m, r);
    CandidateMarkers(h, n, f[r]);
    CandidateMarkers(h, n, w);
    assert r in g.labels && r in f;
    var e := Detour(g, h, f, m, n, r, w);
    TreeAtMost(g, h, e, Extend(m, r), Extend(n, w));
  }

  lemma {:induction false} TreeAtMost(g: Graph, h: Graph, f: map<nat, nat>, m: Markers, n: Markers)
    requires WellFormed(g) && WellFormed(h) && Isomorphism(g, h, f)
    requires MarkersOf(g, m) && MarkersOf(h, n) && CarriesMarkers(f, m, n) && |m| == |n|
    ensures Size(SearchTree(g, m)) <= Size(SearchTree(h, n))
    ensures Codes(SearchTree(g, m)) <= Codes(SearchTree(h, n))
    decreases |g.labels| - |m|, 2
  {
    hide ColoursOf, SearchTree, Isomorphism, MarkersOf, CarriesMarkers, Branches;
    BranchesCarried(g, h, f, m, n);
    if Branches(g, m) {
      BranchAtMost(g, h, f, m, n);
    } else {
      LeafCarried(g, h, f, m, n);
    }
  }

  lemma BranchAtMost(g: Graph, h: Graph, f: map<nat, nat>, m: Markers, n: Markers)
    requires WellFormed(g) && WellFormed(h) && Isomorphism(g, h, f)
    requires MarkersOf(g, m) && MarkersOf(h, n) && CarriesMarkers(f, m, n) && |m| == |n|
    requires Branches(g, m) && Branches(h, n)
    ensures Size(SearchTree(g, m)) <= Size(SearchTree(h, n))
    ensures Codes(SearchTree(g, m)) <= Codes(SearchTree(h, n))
    decreases |g.labels| - |m|, 1
  {
    hide ColoursOf, Candidates, Reps, SearchTree, SwapCertified, Isomorphism, CarriesMarkers, Branches, MarkersOf;
    PrunedBranch(g, m);
    PrunedBranch(h, n);
    var ts, us := SearchTree(g, m).kids, SearchTree(h, n).kids;
    var to: seq<nat> := [];
    while |to| < |ts|
      invariant |to| <= |ts|
      invariant forall i :: 0 <= i < |to| ==>
        to[i] < |us| && Size(ts[i]) <= Size(us[to[i]]) && Codes(ts[i]) <= Codes(us[to[i]])
      invariant forall i :: 0 <= i < |to| ==>
        && Reps(g, m)[i] in f && f[Reps(g, m)[i]] in h.labels
        && SwapCertified(h, f[Reps(g, m)[i]], Reps(h, n)[to[i]])
      decreases |ts| - |to|
    {
      var j := KidsAtMost(g, h, f, m, n, |to|);
      to := to + [j];
    }
    forall i, j | 0 <= i < j < |to| ensures to[i] != to[j] {
      if to[i] == to[j] {
        StandInsApart(g, h, f, Reps(g, m)[i], Reps(g, m)[j], Reps(h, n)[to[j]]);
        RepsApart(g, m, i, j);
      }
    }
    SizeInjection(ts, us, to);
    CodesInjection(ts, us, to);
  }

  lemma RepsApart(g: Graph, m: Markers, i: nat, j: nat)
    requires WellFormed(g) && MarkersOf(g, m) && Branches(g, m)
    requires i < |Reps(g, m)| && j < |Reps(g, m)| && SwapCertified(g, Reps(g, m)[i], Reps(g, m)[j])
    ensures i == j
  {
    hide ColoursOf, Candidates, Representatives, SwapCertified;
    RepresentativesApart(g, Candidates(g, m), i, j);
  }

  /** Tree size and leaf codes do not depend on node ids or list order. */
  lemma TreeInvariant(g: Graph, h: Graph, f: map<nat, nat>, m: Markers, n: Markers)
    requires WellFormed(g) && WellFormed(h) && Isomorphism(g, h, f)
    requires MarkersOf(g, m) && MarkersOf(h, n) && CarriesMarkers(f, m, n) && |m| == |n|
    ensures Size(SearchTree(g, m)) == Size(SearchTree(h, n))
    ensures Codes(SearchTree(g, m)) == Codes(SearchTree(h, n))
  {
    hide SearchTree, Size, Codes, PreservesEdges, MarkersOf;
    TreeAtMost(g, h, f, m, n);
    var back := Inverse(f, h.labels.Keys);
    IsomorphismInverse(g, h, f);
    assert CarriesMarkers(back, n, m) by {
      forall w | w in back ensures Marker(m, back[w]) == Marker(n, w) {
        assert Lands(back, w, f.Keys);
        assert f[back[w]] == w;
      }
    }
    TreeAtMost(h, g, back, n, m);
  }

  // ----- pruning

  lemma PrunedWithinFull(g: Graph, m: Markers)
    requires WellFormed(g) && MarkersOf(g, m)
    ensures Codes(SearchTree(g, m)) <= Codes(FullTree(g, m))
    decreases |g.labels| - |m|
  {
    hide ColoursOf, Candidates, SearchTree, FullTree, Reps, MarkersOf, Branches;
    if Branches(g, m) {
      PrunedBranch(g, m);
      FullBranch(g, m);
      forall code | code in Codes(SearchTree(g, m)) ensures code in Codes(FullTree(g, m)) {
        var i := KidOfCode(SearchTree(g, m).kids, code);
        PrunedKid(g, m, i);
        var r := Reps(g, m)[i];
        PrunedWithinFull(g, Extend(m, r));
        assert r in Reps(g, m) && r in Candidates(g, m);
        var k :| 0 <= k < |Candidates(g, m)| && Candidates(g, m)[k] == r;
        FullKid(g, m, k);
        CodesOfKid(FullTree(g, m).kids, k);
      }
    } else {
      SameLeaf(g, m);
    }
  }

  lemma FullWithinPruned(g: Graph, m: Markers)
    requires WellFormed(g) && MarkersOf(g, m)
    ensures Codes(FullTree(g, m)) <= Codes(SearchTree(g, m))
    decreases |g.labels| - |m|
  {
    hide ColoursOf, Candidates, SearchTree, FullTree, Reps, SwapCertified, MarkersOf, Branches;
    if Branches(g, m) {
      PrunedBranch(g, m);
      FullBranch(g, m);
      forall code | code in Codes(FullTree(g, m)) ensures code in Codes(SearchTree(g, m)) {
        var k := KidOfCode(FullTree(g, m).kids, code);
        FullKid(g, m, k);
        var v := Candidates(g, m)[k];
        FullWithinPruned(g, Extend(m, v));
        var j := StandIn(g, m, v);
        SiblingCodes(g, m, v, j);
        CodesOfKid(SearchTree(g, m).kids, j);
      }
    } else {
      SameLeaf(g, m);
    }
  }

  /** Subtrees of interchangeable candidates carry the same leaf codes. */
  lemma SiblingCodes(g: Graph, m: Markers, v: nat, j: nat)
    requires WellFormed(g) && MarkersOf(g, m) && Branches(g, m) && v in Candidates(g, m)
    requires j < |Reps(g, m)| && SwapCertified(g, v, Reps(g, m)[j])
    ensures MarkersOf(g, Extend(m, v))
    ensures SearchTree(g, m).Branch? && j < |SearchTree(g, m).kids|
    ensures Codes(SearchTree(g, Extend(m, v))) == Codes(SearchTree(g, m).kids[j])
  {
    hide ColoursOf, Candidates, SearchTree, Reps, SwapCertified, PreservesEdges, Codes;
    var w := Reps(g, m)[j];
    PrunedKid(g, m, j);
    CandidateMarkers(g, m, v);
    CandidateMarkers(g, m, w);
    var id := Identity(g.labels.Keys);
    IsomorphismIdentity(g);
    var e := Detour(g, g, id, m, m, v, w);
    TreeInvariant(g, g, e, Extend(m, v), Extend(m, w));
  }

  /** Pruning is sound and exact: it changes which leaves are visited, not which
      codes are found. */
  lemma PruningExact(g: Graph, m: Markers)
    requires WellFormed(g) && MarkersOf(g, m)
    ensures Codes(SearchTree(g, m)) == Codes(FullTree(g, m))
  {
    hide ColoursOf, SearchTree, FullTree;
    PrunedWithinFull(g, m);
    FullWithinPruned(g, m);
  }
}
