/** The search sees labels only through their byte order: relabelling a graph so
    that the order of framed labels is kept leaves the number of states and the
    chosen node order unchanged. */
module OrderTwins {
  import opened ByteStrings
  import opened FiniteSets
  import opened Graphs
  import opened Arcs
  import opened Encoding
  import opened Refinement
  import opened Individualisation
  import opened Swaps
  import opened Cells
  import opened SearchTrees
  import opened TreeInvariance
  import opened Canonicality

  predicate LabelBefore(g: Graph, v: nat, w: nat)
    requires v in g.labels && w in g.labels
  {
    Less(LabelBytes(g.labels[v]), LabelBytes(g.labels[w]))
  }

  /** Same nodes and edges, and the framed labels compare the same way. */
  ghost predicate Twins(g: Graph, h: Graph) {
    && g.labels.Keys == h.labels.Keys && g.edges == h.edges
    && forall v, w {:trigger LabelBefore(g, v, w)} {:trigger LabelBefore(h, v, w)} ::
         v in g.labels && w in g.labels ==> (LabelBefore(g, v, w) <==> LabelBefore(h, v, w))
  }

  lemma LabelBytesExact(g: Graph, v: nat, w: nat)
    requires WellFormed(g) && v in g.labels && w in g.labels
    ensures LabelBytes(g.labels[v]) == LabelBytes(g.labels[w]) <==> g.labels[v] == g.labels[w]
    ensures g.labels[v] == g.labels[w] <==> !LabelBefore(g, v, w) && !LabelBefore(g, w, v)
  {
    hide LabelBytes;
    var a, b := LabelBytes(g.labels[v]), LabelBytes(g.labels[w]);
    if a == b {
      assert a + [] == b + [];
      LabelCancel(g.labels[v], g.labels[w], [], []);
    }
    LessTotal(a, b);
    LessIrreflexive(a);
  }

  lemma TwinLabels(g: Graph, h: Graph, v: nat, w: nat)
    requires WellFormed(g) && WellFormed(h) && Twins(g, h) && v in g.labels && w in g.labels
    ensures g.labels[v] == g.labels[w] <==> h.labels[v] == h.labels[w]
  {
    hide LabelBefore, WellFormed;
    LabelBytesExact(g, v, w);
    LabelBytesExact(h, v, w);
  }

  // ----- refinement

  /** What follows two strings matters only where one is a prefix of the other. */
  lemma {:induction false} LessAppended(a: seq<int>, b: seq<int>, x: seq<int>, y: seq<int>)
    requires Less(a + x, b + y) != Less(a, b)
    ensures (|a| <= |b| && b[..|a|] == a) || (|b| <= |a| && a[..|b|] == b)
  {
    if a != [] && b != [] && a[0] == b[0] {
      assert (a + x)[1..] == a[1..] + x && (b + y)[1..] == b[1..] + y;
      LessAppended(a[1..], b[1..], x, y);
      assert a == [a[0]] + a[1..] && b == [b[0]] + b[1..];
    }
  }

  /** No framed label is a proper prefix of another. */
  lemma LabelPrefixFree(l: Label, m: Label)
    requires FitsLabel(l) && FitsLabel(m)
    requires |LabelBytes(l)| <= |LabelBytes(m)| && LabelBytes(m)[..|LabelBytes(l)|] == LabelBytes(l)
    ensures l == m
  {
    hide LabelBytes;
    var rest := LabelBytes(m)[|LabelBytes(l)|..];
    assert LabelBytes(l) + rest == LabelBytes(m) + [];
    LabelCancel(l, m, rest, []);
  }

  lemma SignatureLess(g: Graph, m: Markers, v: nat, w: nat)
    requires WellFormed(g) && MarkersOf(g, m) && v in g.labels && w in g.labels
    ensures Less(StartSignatures(g, m)[v], StartSignatures(g, m)[w]) <==>
              if g.labels[v] == g.labels[w] then Less(U64(Marker(m, v)), U64(Marker(m, w))) else LabelBefore(g, v, w)
  {
    hide LabelBytes, U64, Marker, MarkersOf;
    var a, b := LabelBytes(g.labels[v]), LabelBytes(g.labels[w]);
    var x, y := U64(Marker(m, v)), U64(Marker(m, w));
    assert StartSignatures(g, m)[v] == a + x && StartSignatures(g, m)[w] == b + y;
    if g.labels[v] == g.labels[w] {
      LessAfterPrefix(a, x, y);
    } else if Less(a + x, b + y) != Less(a, b) {
      LessAppended(a, b, x, y);
      if |a| <= |b| && b[..|a|] == a { LabelPrefixFree(g.labels[v], g.labels[w]); } else {
        LabelPrefixFree(g.labels[w], g.labels[v]);
      }
    }
  }

  lemma StartLess(g: Graph, m: Markers, v: nat, w: nat)
    requires WellFormed(g) && MarkersOf(g, m) && v in g.labels && w in g.labels
    ensures Start(g, m)[v] < Start(g, m)[w] <==>
              if g.labels[v] == g.labels[w] then Less(U64(Marker(m, v)), U64(Marker(m, w))) else LabelBefore(g, v, w)
  {
    hide LabelBefore, WellFormed, MarkersOf, StartSignatures, Intern, U64, Less;
    SignatureKeys(g, m);
    InternFaithful(StartSignatures(g, m));
    SignatureLess(g, m, v, w);
  }

  lemma TwinStartOrder(g: Graph, h: Graph, m: Markers, v: nat, w: nat)
    requires WellFormed(g) && WellFormed(h) && MarkersOf(g, m) && MarkersOf(h, m) && Twins(g, h) && v in g.labels
    requires w in g.labels
    ensures Start(g, m)[v] < Start(g, m)[w] <==> Start(h, m)[v] < Start(h, m)[w]
    ensures Start(g, m)[v] == Start(g, m)[w] <==> Start(h, m)[v] == Start(h, m)[w]
  {
    hide LabelBefore, WellFormed, MarkersOf, Start, U64, Less;
    StartLess(g, m, v, w);
    StartLess(h, m, v, w);
    TwinLabels(g, h, v, w);
    StartExact(g, m, v, w);
    StartExact(h, m, v, w);
  }

  lemma SignatureKeys(g: Graph, m: Markers)
    ensures StartSignatures(g, m).Keys == g.labels.Keys
  {
  }

  lemma TwinStart(g: Graph, h: Graph, m: Markers)
    requires WellFormed(g) && WellFormed(h) && MarkersOf(g, m) && MarkersOf(h, m) && Twins(g, h)
    ensures Start(g, m) == Start(h, m)
  {
    hide WellFormed, MarkersOf, Start, LabelBefore;
    var c, d := Start(g, m), Start(h, m);
    forall v, w | v in c && w in c ensures (c[v] < c[w] <==> d[v] < d[w]) && (c[v] == c[w] <==> d[v] == d[w]) {
      TwinStartOrder(g, h, m, v, w);
    }
    FinerCount(c, d);
    FinerCount(d, c);
    StartDense(g, m);
    StartDense(h, m);
    SameColours(c, d);
  }

  lemma SameSignature(g: Graph, h: Graph, c: Colours, v: nat)
    requires g.edges == h.edges && v in c
    ensures Signature(g, c, v) == Signature(h, c, v)
  {
    hide SignatureBytes, Sort, Collect;
  }

  lemma SameRound(g: Graph, h: Graph, c: Colours)
    requires g.edges == h.edges
    ensures Round(g, c) == Round(h, c)
  {
    hide Signature, Intern;
    forall v | v in c ensures Signature(g, c, v) == Signature(h, c, v) { SameSignature(g, h, c, v); }
    assert Signatures(g, c) == Signatures(h, c);
  }

  lemma {:induction false} SameRefine(g: Graph, h: Graph, c: Colours)
    requires WellFormed(g) && WellFormed(h) && g.edges == h.edges && c.Keys == g.labels.Keys == h.labels.Keys
    requires Dense(c)
    ensures Refine(g, c) == Refine(h, c)
    decreases |g.labels| - |c.Values|
  {
    hide Round, WellFormed;
    SameRound(g, h, c);
    RoundCount(g, c);
    if |Round(g, c).Values| != |c.Values| { SameRefine(g, h, Round(g, c)); }
  }

  lemma TwinColours(g: Graph, h: Graph, m: Markers)
    requires WellFormed(g) && WellFormed(h) && MarkersOf(g, m) && MarkersOf(h, m) && Twins(g, h)
    ensures ColoursOf(g, m) == ColoursOf(h, m)
  {
    hide WellFormed, MarkersOf, Start, Refine, LabelBefore;
    TwinStart(g, h, m);
    StartDense(g, m);
    SameRefine(g, h, Start(g, m));
  }

  // ----- pruning

  lemma TwinSwaps(g: Graph, h: Graph, a: nat, b: nat)
    requires WellFormed(g) && WellFormed(h) && Twins(g, h) && a in g.labels && b in g.labels
    ensures SwapCertified(g, a, b) <==> SwapCertified(h, a, b)
  {
    TwinLabels(g, h, a, b);
    hide WellFormed, LabelBefore, Twins;
    assert g.labels.Keys == h.labels.Keys && g.edges == h.edges;
    forall o ensures SameOutside(g, a, b, o) <==> SameOutside(h, a, b, o) {
    }
  }

  lemma {:induction false} TwinRepresentatives(g: Graph, h: Graph, ns: seq<nat>)
    requires WellFormed(g) && WellFormed(h) && Twins(g, h) && forall v :: v in ns ==> v in g.labels && v in h.labels
    ensures Representatives(g, ns) == Representatives(h, ns)
  {
    hide WellFormed, LabelBefore, Twins, SwapCertified;
    if ns != [] {
      var last, front := ns[|ns| - 1], ns[..|ns| - 1];
      TwinRepresentatives(g, h, front);
      var reps := Representatives(g, front);
      forall i | 0 <= i < |reps| ensures SwapCertified(g, last, reps[i]) <==> SwapCertified(h, last, reps[i]) {
        assert reps[i] in reps && reps[i] in front;
        TwinSwaps(g, h, last, reps[i]);
      }
    }
  }

  lemma TwinReps(g: Graph, h: Graph, m: Markers)
    requires WellFormed(g) && WellFormed(h) && MarkersOf(g, m) && MarkersOf(h, m) && Twins(g, h)
    ensures Branches(g, m) <==> Branches(h, m)
    ensures Branches(g, m) ==> Reps(g, m) == Reps(h, m)
  {
    hide WellFormed, MarkersOf, ColoursOf, Twins, Representatives;
    TwinColours(g, h, m);
    if Branches(g, m) {
      assert Candidates(g, m) == Candidates(h, m);
      TwinRepresentatives(g, h, Candidates(g, m));
    }
  }

  // ----- the two trees

  /** Same shape, same orders on the leaves. */
  ghost predicate SameShape(t: Tree, u: Tree) {
    match (t, u)
    case (Leaf(_, o), Leaf(_, p)) => o == p
    case (Branch(ks), Branch(ls)) => |ks| == |ls| && forall i :: 0 <= i < |ks| ==> SameShape(ks[i], ls[i])
    case _ => false
  }

  lemma {:induction false} TwinTrees(g: Graph, h: Graph, m: Markers)
    requires WellFormed(g) && WellFormed(h) && MarkersOf(g, m) && MarkersOf(h, m) && Twins(g, h)
    ensures SameShape(SearchTree(g, m), SearchTree(h, m))
    decreases |g.labels| - |m|
  {
    hide WellFormed, MarkersOf, ColoursOf, Twins, SearchTree, Reps, Branches, Encode;
    TwinReps(g, h, m);
    if Branches(g, m) {
      PrunedBranch(g, m);
      PrunedBranch(h, m);
      var ks, ls := SearchTree(g, m).kids, SearchTree(h, m).kids;
      forall i | 0 <= i < |ks| ensures SameShape(ks[i], ls[i]) {
        PrunedKid(g, m, i);
        PrunedKid(h, m, i);
        TwinTrees(g, h, Extend(m, Reps(g, m)[i]));
      }
    } else {
      PrunedLeaf(g, m);
      PrunedLeaf(h, m);
      TwinColours(g, h, m);
    }
  }

  lemma {:induction false} SameShapeSize(t: Tree, u: Tree)
    requires SameShape(t, u)
    ensures Size(t) == Size(u)
    decreases t, 1
  {
    if t.Branch? { SameShapeSizes(t.kids, u.kids); }
  }

  lemma {:induction false} SameShapeSizes(ts: seq<Tree>, us: seq<Tree>)
    requires |ts| == |us| && forall i :: 0 <= i < |ts| ==> SameShape(ts[i], us[i])
    ensures SizeAll(ts) == SizeAll(us)
    decreases ts, 0
  {
    if ts != [] {
      SameShapeSize(ts[0], us[0]);
      SameShapeSizes(ts[1..], us[1..]);
    }
  }

  // ----- leaves list the labels in ascending order

  ghost predicate LabelsAscend(g: Graph, o: seq<nat>) {
    && CompleteOrder(g, o)
    && forall i, j {:trigger o[i], o[j]} :: 0 <= i < j < |o| ==> !LabelBefore(g, o[j], o[i])
  }

  lemma LeafAscends(g: Graph, m: Markers)
    requires WellFormed(g) && MarkersOf(g, m) && !Branches(g, m)
    ensures Dense(ColoursOf(g, m)) && LabelsAscend(g, OrderOf(ColoursOf(g, m)))
  {
    hide WellFormed, MarkersOf, ColoursOf, Start, OrderOf, Stable, Finer, LabelBefore, Distinct;
    var c := ColoursOf(g, m);
    ColoursOfShape(g, m);
    ColoursOfStable(g, m);
    OrderOfComplete(g, c);
    var o := OrderOf(c);
    forall i, j {:trigger o[i], o[j]} | 0 <= i < j < |o| ensures !LabelBefore(g, o[j], o[i]) {
      if LabelBefore(g, o[j], o[i]) { StartFollowsLabels(g, m, o[j], o[i]); }
    }
  }

  lemma StartFollowsLabels(g: Graph, m: Markers, v: nat, w: nat)
    requires WellFormed(g) && MarkersOf(g, m) && v in g.labels && w in g.labels && LabelBefore(g, v, w)
    ensures Start(g, m)[v] < Start(g, m)[w]
  {
    LabelBytesExact(g, v, w);
    SignatureLess(g, m, v, w);
    InternFaithful(StartSignatures(g, m));
  }

  lemma AscendStep(g: Graph, o: seq<nat>, p: seq<nat>, i: nat, k: nat)
    requires LabelsAscend(g, o) && LabelsAscend(g, p) && k <= i < |o| && |o| == |p| && LabelBefore(g, o[i], p[i])
    ensures o[k] in p[..i]
  {
    assert o[k] in o && o[i] in o && p[i] in p;
    var q := Position(p, o[k]);
    var a, b, d := LabelBytes(g.labels[o[k]]), LabelBytes(g.labels[o[i]]), LabelBytes(g.labels[p[i]]);
    if q >= i {
      assert q == i || !LabelBefore(g, p[q], p[i]);
      if k < i { assert !LabelBefore(g, o[i], o[k]); }
      LessTotal(a, b);
      if a != b && Less(a, b) { LessTransitive(a, b, d); }
      LessIrreflexive(d);
    } else {
      assert p[..i][q] == o[k];
    }
  }

  /** Of two ascending orders neither can be ahead of the other anywhere. */
  lemma NeverAhead(g: Graph, o: seq<nat>, p: seq<nat>, i: nat)
    requires LabelsAscend(g, o) && LabelsAscend(g, p) && i < |o| && |o| == |p|
    ensures o[i] in g.labels && p[i] in g.labels && !LabelBefore(g, o[i], p[i])
  {
    hide LabelBefore;
    assert o[i] in o && p[i] in p;
    if LabelBefore(g, o[i], p[i]) {
      forall v | v in Elements(o[..i + 1]) ensures v in Elements(p[..i]) {
        var k :| 0 <= k < i + 1 && o[..i + 1][k] == v;
        AscendStep(g, o, p, i, k);
      }
      DistinctSize(o[..i + 1]);
      DistinctSize(p[..i]);
      SubsetSize(Elements(o[..i + 1]), Elements(p[..i]));
    }
  }

  lemma AscendingLabelsAgree(g: Graph, o: seq<nat>, p: seq<nat>)
    requires WellFormed(g) && LabelsAscend(g, o) && LabelsAscend(g, p)
    ensures LabelsInOrder(g, o) == LabelsInOrder(g, p)
  {
    OrderLength(g, o);
    OrderLength(g, p);
    forall i | 0 <= i < |o| ensures LabelsInOrder(g, o)[i] == LabelsInOrder(g, p)[i] {
      NeverAhead(g, o, p, i);
      NeverAhead(g, p, o, i);
      LabelBytesExact(g, o[i], p[i]);
    }
  }

  // ----- leaf codes compare by their edges

  function EdgeTail(g: Graph, o: seq<nat>): (r: Bytes) {
    U64(|EdgesInOrder(g, o)|) + EdgeBlock(EdgesInOrder(g, o))
  }

  lemma CodesByEdges(g: Graph, o: seq<nat>, p: seq<nat>)
    requires WellFormed(g) && LabelsAscend(g, o) && LabelsAscend(g, p)
    ensures Less(Encode(g, o), Encode(g, p)) <==> Less(EdgeTail(g, o), EdgeTail(g, p))
    ensures Encode(g, o) == Encode(g, p) <==> EdgeTail(g, o) == EdgeTail(g, p)
  {
    hide EdgesInOrder, LabelBlock, EdgeBlock, U64, Ascii;
    AscendingLabelsAgree(g, o, p);
    var ls, x, y := LabelsInOrder(g, o), EdgeTail(g, o), EdgeTail(g, p);
    LessAfterPrefix(LabelBlock(ls), x, y);
    LessAfterPrefix(U64(|ls|), LabelBlock(ls) + x, LabelBlock(ls) + y);
    LessAfterPrefix(MAGIC, U64(|ls|) + (LabelBlock(ls) + x), U64(|ls|) + (LabelBlock(ls) + y));
    if Encode(g, o) == Encode(g, p) {
      PrefixCancel(MAGIC, U64(|ls|) + (LabelBlock(ls) + x), U64(|ls|) + (LabelBlock(ls) + y));
      PrefixCancel(U64(|ls|), LabelBlock(ls) + x, LabelBlock(ls) + y);
      PrefixCancel(LabelBlock(ls), x, y);
    }
  }

  /** A candidate that encodes the graph along an ascending order. */
  ghost predicate Honest(g: Graph, a: Candidate) {
    LabelsAscend(g, a.order) && a.code == Encode(g, a.order)
  }

  lemma TwinBefore(g: Graph, h: Graph, a: Candidate, b: Candidate, c: Candidate, d: Candidate)
    requires WellFormed(g) && WellFormed(h) && g.edges == h.edges
    requires Honest(g, a) && Honest(g, b) && Honest(h, c) && Honest(h, d) && a.order == c.order && b.order == d.order
    ensures Before(a, b) <==> Before(c, d)
  {
    hide WellFormed, LabelsAscend, Encode;
    CodesByEdges(g, a.order, b.order);
    CodesByEdges(h, c.order, d.order);
  }

  ghost predicate AllHonest(g: Graph, t: Tree) {
    match t
    case Leaf(code, order) => Honest(g, Candidate(code, order))
    case Branch(kids) => forall k :: k in kids ==> AllHonest(g, k)
  }

  lemma {:induction false} SearchTreeHonest(g: Graph, m: Markers)
    requires WellFormed(g) && MarkersOf(g, m)
    ensures AllHonest(g, SearchTree(g, m))
    decreases |g.labels| - |m|
  {
    hide WellFormed, MarkersOf, ColoursOf, SearchTree, Reps, Branches, Encode, LabelsAscend;
    if Branches(g, m) {
      PrunedBranch(g, m);
      var kids := SearchTree(g, m).kids;
      forall k | k in kids ensures AllHonest(g, k) {
        var i :| 0 <= i < |kids| && kids[i] == k;
        PrunedKid(g, m, i);
        SearchTreeHonest(g, Extend(m, Reps(g, m)[i]));
      }
    } else {
      PrunedLeaf(g, m);
      LeafAscends(g, m);
    }
  }

  ghost predicate Matched(g: Graph, h: Graph, r: Option<Candidate>, s: Option<Candidate>) {
    || (r.None? && s.None?)
    || (r.Some? && s.Some? && r.value.order == s.value.order && Honest(g, r.value) && Honest(h, s.value))
  }

  lemma BetterMatched(g: Graph, h: Graph, a: Option<Candidate>, b: Option<Candidate>, c: Option<Candidate>,
                      d: Option<Candidate>)
    requires WellFormed(g) && WellFormed(h) && g.edges == h.edges && Matched(g, h, a, c) && Matched(g, h, b, d)
    ensures Matched(g, h, Better(a, b), Better(c, d))
  {
    hide WellFormed, Honest, Before;
    if a.Some? && b.Some? { TwinBefore(g, h, b.value, a.value, d.value, c.value); }
  }

  lemma {:induction false} BestMatched(g: Graph, h: Graph, t: Tree, u: Tree)
    requires WellFormed(g) && WellFormed(h) && g.edges == h.edges && AllHonest(g, t) && AllHonest(h, u)
    requires SameShape(t, u)
    ensures Matched(g, h, Best(t), Best(u))
    decreases t, 1
  {
    hide WellFormed, Honest;
    if t.Branch? { BestAllMatched(g, h, t.kids, u.kids); }
  }

  lemma {:induction false} BestAllMatched(g: Graph, h: Graph, ts: seq<Tree>, us: seq<Tree>)
    requires WellFormed(g) && WellFormed(h) && g.edges == h.edges && |ts| == |us|
    requires (forall k :: k in ts ==> AllHonest(g, k)) && (forall k :: k in us ==> AllHonest(h, k))
    requires forall i :: 0 <= i < |ts| ==> SameShape(ts[i], us[i])
    ensures Matched(g, h, BestAll(ts), BestAll(us))
    decreases ts, 0
  {
    hide WellFormed, Honest, Better;
    if ts != [] {
      assert ts[0] in ts && us[0] in us;
      BestMatched(g, h, ts[0], us[0]);
      BestAllMatched(g, h, ts[1..], us[1..]);
      BetterMatched(g, h, Best(ts[0]), BestAll(ts[1..]), Best(us[0]), BestAll(us[1..]));
    }
  }

  /** Order-preserving relabelling keeps the verdict, the number of states and the
      chosen node order, for every budget. */
  lemma TwinWinners(g: Graph, h: Graph, used: nat, limit: nat)
    requires WellFormed(g) && WellFormed(h) && Twins(g, h)
    ensures Finishes(g, used, limit) <==> Finishes(h, used, limit)
    ensures StatesAfter(g, used, limit) == StatesAfter(h, used, limit)
    ensures Winner(g).order == Winner(h).order
  {
    hide WellFormed, SearchTree, Winner, Encode, LabelBefore, SameShape, AllHonest, Honest, Best;
    TwinTrees(g, h, map[]);
    SameShapeSize(Root(g), Root(h));
    SearchTreeHonest(g, map[]);
    SearchTreeHonest(h, map[]);
    BestMatched(g, h, Root(g), Root(h));
    WinnerLeast(g);
    WinnerLeast(h);
  }

  /** The chosen order lists the labels in ascending byte order. */
  lemma WinnerAscends(g: Graph)
    requires WellFormed(g)
    ensures LabelsAscend(g, Winner(g).order)
  {
    hide WellFormed, SearchTree, Winner, Encode, LabelsAscend, Best;
    SearchTreeHonest(g, map[]);
    SameShapeSelf(Root(g));
    BestMatched(g, g, Root(g), Root(g));
    WinnerLeast(g);
  }

  lemma {:induction false} SameShapeSelf(t: Tree)
    ensures SameShape(t, t)
  {
    if t.Branch? {
      forall i | 0 <= i < |t.kids| ensures SameShape(t.kids[i], t.kids[i]) { SameShapeSelf(t.kids[i]); }
    }
  }
}
