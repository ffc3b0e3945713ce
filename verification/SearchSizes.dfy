/** A search counted to the last state: a directed triangle beside a pair of isolated nodes.
    The pair is split first, for it is the smaller cell, and gives one child; the triangle
    then gives three. */
module SearchSizes {
  import opened ByteStrings
  import opened FiniteSets
  import opened Graphs
  import opened Arcs
  import opened Refinement
  import opened Individualisation
  import opened Swaps
  import opened Cells
  import opened SearchTrees
  import opened TreeInvariance
  import opened Canonicality
  import opened Cpgs
  import opened CanonicalOrders

  const FLOW: Bytes := [67, 70, 71]
  const CORNER := Label([65], [], [], [])
  const SINGLE := Label([66], [], [], [])

  function Triangle(): (g: Cpg) {
    Cpg([Node(0, CORNER, []), Node(1, CORNER, []), Node(2, CORNER, []), Node(3, SINGLE, []), Node(4, SINGLE, [])],
        [Edge(0, 1, FLOW), Edge(1, 2, FLOW), Edge(2, 0, FLOW)])
  }

  function Drawn(): (g: Graph) {
    Graph(map[0 := CORNER, 1 := CORNER, 2 := CORNER, 3 := SINGLE, 4 := SINGLE],
          [Edge(0, 1, FLOW), Edge(1, 2, FLOW), Edge(2, 0, FLOW)])
  }

  lemma DrawnLabels()
    ensures Drawn().labels.Keys == {0, 1, 2, 3, 4} && |Drawn().edges| == 3
    ensures forall v :: v in Drawn().labels ==> Drawn().labels[v] == if v < 3 then CORNER else SINGLE
  {
  }

  lemma DrawnEdge(e: Edge)
    requires e in Drawn().edges
    ensures e.src in {0, 1, 2} && e.dst in {0, 1, 2} && e.kind == FLOW
  {
  }

  lemma DrawnShape()
    ensures WellFormed(Drawn()) && Drawn().labels.Keys == {0, 1, 2, 3, 4}
    ensures forall v :: v in Drawn().labels ==> Drawn().labels[v] == if v < 3 then CORNER else SINGLE
  {
    hide Drawn;
    DrawnLabels();
    var ls := Drawn().labels;
    assert |ls| == |ls.Keys|;
    forall e | e in Drawn().edges ensures e.src in ls && e.dst in ls && |e.kind| < TWO_64 { DrawnEdge(e); }
  }

  lemma TriangleIds()
    ensures Ids(Triangle()) == {0, 1, 2, 3, 4} && UniqueIds(Triangle().nodes)
  {
    var ns := Triangle().nodes;
    assert ns[0] in ns && ns[1] in ns && ns[2] in ns && ns[3] in ns && ns[4] in ns;
    assert forall i :: 0 <= i < |ns| ==> ns[i].id == i;
  }

  lemma TriangleValid()
    ensures Valid(Triangle())
  {
    hide Ids, UniqueIds;
    var g := Triangle();
    TriangleIds();
    forall e | e in g.edges ensures FitsEdge(g, e) { }
    forall n | n in g.nodes ensures FitsNode(n) { }
  }

  lemma TriangleNode(v: nat)
    requires v < 5
    ensures v in Content(Triangle()).labels && Content(Triangle()).labels[v] == if v < 3 then CORNER else SINGLE
  {
    hide Ids, UniqueIds;
    var g := Triangle();
    TriangleIds();
    assert g.nodes[v].id == v;
    ContentLabel(g, g.nodes[v]);
  }

  lemma TriangleDrawn()
    ensures Valid(Triangle()) && Content(Triangle()) == Drawn()
  {
    hide Ids, UniqueIds, Valid, Content;
    TriangleValid();
    TriangleLabels(Content(Triangle()).labels);
  }

  lemma TriangleLabels(m: map<nat, Label>)
    requires m == Content(Triangle()).labels
    ensures m == Drawn().labels
  {
    hide Drawn, Content, Triangle;
    TriangleIds();
    DrawnShape();
    forall v | v in m ensures m[v] == Drawn().labels[v] { TriangleNode(v); }
  }

  // ----- what a node of the triangle sees

  function Next(v: nat): (r: nat) {
    if v == 2 then 0 else v + 1
  }

  lemma Seen(c: Colours, v: nat)
    requires c.Keys == {0, 1, 2, 3, 4} && v < 3
    ensures Collect(Drawn().edges, Incoming(Next(v), c)) == [Arc(FLOW, c[v], 0)]
    ensures Collect(Drawn().edges, Outgoing(v, c)) == [Arc(FLOW, c[Next(v)], 0)]
  {
    Three(Incoming(Next(v), c));
    Three(Outgoing(v, c));
  }

  lemma Three(f: Edge -> Choice)
    ensures Collect(Drawn().edges, f) ==
            Chosen(f(Edge(0, 1, FLOW))) + Chosen(f(Edge(1, 2, FLOW))) + Chosen(f(Edge(2, 0, FLOW)))
  {
    var es := Drawn().edges;
    assert es[1..] == [Edge(1, 2, FLOW), Edge(2, 0, FLOW)] && es[1..][1..] == [Edge(2, 0, FLOW)];
    assert es[1..][1..][1..] == [];
  }

  lemma Blank(c: Colours, v: nat)
    requires c.Keys == {0, 1, 2, 3, 4} && 3 <= v
    ensures Collect(Drawn().edges, Incoming(v, c)) == [] && Collect(Drawn().edges, Outgoing(v, c)) == []
  {
    Three(Incoming(v, c));
    Three(Outgoing(v, c));
  }

  // ----- colourings

  lemma Coloured(m: Markers)
    requires MarkersOf(Drawn(), m)
    ensures WellFormed(Drawn()) && ColoursOf(Drawn(), m).Keys == {0, 1, 2, 3, 4}
    ensures Dense(ColoursOf(Drawn(), m)) && Stable(Drawn(), ColoursOf(Drawn(), m))
  {
    hide ColoursOf;
    DrawnShape();
    ColoursOfShape(Drawn(), m);
    ColoursOfStable(Drawn(), m);
  }

  lemma CornerSees(d: Colours, v: nat)
    requires d.Keys == {0, 1, 2, 3, 4} && d[0] == d[1] == d[2] && v < 3
    ensures Collect(Drawn().edges, Incoming(v, d)) == [Arc(FLOW, d[0], 0)]
    ensures Collect(Drawn().edges, Outgoing(v, d)) == [Arc(FLOW, d[0], 0)]
  {
    hide Drawn, Collect, Incoming, Outgoing;
    Seen(d, v);
    Seen(d, Next(Next(v)));
  }

  lemma CornersSee(d: Colours, u: nat, x: nat)
    requires d.Keys == {0, 1, 2, 3, 4} && d[0] == d[1] == d[2] && u < 3 && x < 3
    ensures SeeAlike(Drawn(), d, u, x)
  {
    hide Drawn, Collect, Incoming, Outgoing;
    CornerSees(d, u);
    CornerSees(d, x);
  }

  lemma KindsStable(d: Colours)
    requires d.Keys == {0, 1, 2, 3, 4} && d[0] == d[1] == d[2] && d[0] != d[3] && d[0] != d[4]
    ensures Stable(Drawn(), d)
  {
    hide Drawn, SeeAlike;
    forall u, x | u in d && x in d && d[u] == d[x] ensures SeeAlike(Drawn(), d, u, x) {
      if u < 3 { CornersSee(d, u, x); } else { BlanksSee(d, u, x); }
    }
  }

  lemma BlanksSee(d: Colours, u: nat, x: nat)
    requires d.Keys == {0, 1, 2, 3, 4} && 3 <= u && 3 <= x
    ensures SeeAlike(Drawn(), d, u, x)
  {
    hide Drawn;
    Blank(d, u);
    Blank(d, x);
  }

  /** Where only isolated nodes are marked, the corners look alike. */
  lemma CornersAlike(m: Markers, v: nat, w: nat)
    requires MarkersOf(Drawn(), m) && m.Keys <= {3, 4} && v < 3 && w < 3
    ensures WellFormed(Drawn()) && v in ColoursOf(Drawn(), m) && w in ColoursOf(Drawn(), m)
    ensures ColoursOf(Drawn(), m)[v] == ColoursOf(Drawn(), m)[w]
  {
    hide ColoursOf, WellFormed, Drawn, Stable, Dense, MarkersOf, Start;
    Coloured(m);
    DrawnShape();
    var d: Colours := map u | u in Drawn().labels :: if u < 3 then 0 else u;
    KindsStable(d);
    CornersUnmarked(m);
    forall u, x {:trigger Marker(m, u), Marker(m, x)} | u in d && x in d && d[u] == d[x]
      ensures Marker(m, u) == Marker(m, x)
    {
      assert u == x || (u < 3 && x < 3);
    }
    Coarsest(m, d);
  }

  lemma CornersUnmarked(m: Markers)
    requires m.Keys <= {3, 4}
    ensures forall v: nat :: v < 3 ==> Marker(m, v) == 0
  {
  }

  lemma Coarsest(m: Markers, d: Colours)
    requires MarkersOf(Drawn(), m) && d.Keys == {0, 1, 2, 3, 4} && Stable(Drawn(), d)
    requires d[0] != d[3] && d[0] != d[4] && d[1] != d[3] && d[1] != d[4] && d[2] != d[3] && d[2] != d[4]
    requires forall v, w {:trigger Marker(m, v), Marker(m, w)} :: v in d && w in d && d[v] == d[w] ==>
               Marker(m, v) == Marker(m, w)
    ensures WellFormed(Drawn()) && Finer(d, ColoursOf(Drawn(), m))
  {
    hide ColoursOf, WellFormed, Drawn, Stable, Dense, MarkersOf, Start, KeepsOrder, Finer;
    DrawnShape();
    forall v, w | v in d && w in d && d[v] == d[w]
      ensures Drawn().labels[v] == Drawn().labels[w] && Marker(m, v) == Marker(m, w)
    {
      assert v < 3 <==> w < 3;
    }
    ColoursOfCoarsestStable(Drawn(), m, d);
  }

  /** Unmarked isolated nodes look alike. */
  lemma PairAlike()
    ensures WellFormed(Drawn()) && MarkersOf(Drawn(), map[]) && ColoursOf(Drawn(), map[]).Keys == {0, 1, 2, 3, 4}
    ensures ColoursOf(Drawn(), map[])[3] == ColoursOf(Drawn(), map[])[4]
  {
    hide ColoursOf, WellFormed, Drawn, Stable, Dense, Start;
    assert MarkersOf(Drawn(), map[]);
    Coloured(map[]);
    DrawnShape();
    var d: Colours := map[0 := 0, 1 := 0, 2 := 0, 3 := 1, 4 := 1];
    KindsStable(d);
    Coarsest(map[], d);
  }

  lemma Apart(m: Markers, v: nat, w: nat)
    requires MarkersOf(Drawn(), m) && v in Drawn().labels && w in Drawn().labels
    requires Drawn().labels[v] != Drawn().labels[w] || Marker(m, v) != Marker(m, w)
    ensures WellFormed(Drawn()) && v in ColoursOf(Drawn(), m) && w in ColoursOf(Drawn(), m)
    ensures ColoursOf(Drawn(), m)[v] != ColoursOf(Drawn(), m)[w]
  {
    hide ColoursOf, WellFormed;
    Coloured(m);
    ColoursOfSeparates(Drawn(), m, v, w);
  }

  // ----- the three levels of the search

  lemma CornerCell(c: Colours)
    requires c.Keys == {0, 1, 2, 3, 4} && c[0] == c[1] == c[2] && c[0] != c[3] && c[0] != c[4]
    ensures |set v | v in c && c[v] == c[0]| == 3
  {
    assert (set v | v in c && c[v] == c[0]) == {0, 1, 2};
  }

  lemma PairCells(c: Colours)
    requires c.Keys == {0, 1, 2, 3, 4} && c[0] == c[1] == c[2] && c[3] == c[4] && c[0] != c[3]
    ensures !Injective(c) && Ascending(Cell(c, Target(c))) == [3, 4]
  {
    assert !Injective(c) by { assert c[3] == c[4]; }
    assert (set v | v in c && c[v] == c[3]) == {3, 4};
    TargetSmallest(c, c[3]);
    CornerCell(c);
    var v, w := AmbiguousMakesPair(c, Target(c));
    assert Target(c) == c[3];
    assert Cell(c, Target(c)) == {3, 4};
    AscendingUnique([3, 4], {3, 4});
  }

  /** The root branches on the pair, and one of the pair is enough. */
  lemma RootSplitsPair()
    ensures WellFormed(Drawn()) && MarkersOf(Drawn(), map[]) && Branches(Drawn(), map[])
    ensures Reps(Drawn(), map[]) == [3]
  {
    hide ColoursOf, WellFormed, Ascending, Representatives, Cell, Drawn, Dense, Injective;
    PairAlike();
    DrawnShape();
    CornersAlike(map[], 0, 1);
    CornersAlike(map[], 0, 2);
    Apart(map[], 0, 3);
    PairCells(ColoursOf(Drawn(), map[]));
    PairReps();
  }

  lemma PairReps()
    ensures Representatives(Drawn(), [3, 4]) == [3]
  {
    hide SwapCertified;
    PairSwaps();
    var g := Drawn();
    assert [3, 4][..1] == [3] && [3][..0] == [];
    assert Representatives(g, []) == [];
    assert Representatives(g, [3]) == [3];
    assert [3][0] == 3 && SwapCertified(g, 4, [3][0]);
    assert Replaces(g, [3], 4);
  }

  lemma Unjoined(v: nat, o: nat)
    requires 3 <= v
    ensures Kinds(Drawn(), v, o) == [] && Kinds(Drawn(), o, v) == []
  {
    hide Drawn;
    Three(Between(v, o));
    Three(Between(o, v));
  }

  lemma PairSwaps()
    ensures 3 in Drawn().labels && 4 in Drawn().labels && SwapCertified(Drawn(), 4, 3)
  {
    hide Drawn, Kinds;
    DrawnShape();
    forall o: nat ensures SameOutside(Drawn(), 4, 3, o) {
      Unjoined(3, o);
      Unjoined(4, o);
    }
    Unjoined(3, 4);
    Unjoined(3, 3);
    Unjoined(4, 4);
  }

  lemma TriangleCells(c: Colours)
    requires c.Keys == {0, 1, 2, 3, 4} && c[0] == c[1] == c[2] && c[3] != c[4] && c[0] != c[3] && c[0] != c[4]
    ensures !Injective(c) && Ascending(Cell(c, Target(c))) == [0, 1, 2]
  {
    assert !Injective(c) by { assert c[0] == c[1]; }
    var v, w := AmbiguousMakesPair(c, Target(c));
    assert Cell(c, Target(c)) == {0, 1, 2};
    AscendingUnique([0, 1, 2], {0, 1, 2});
  }

  /** With one of the pair marked the triangle is the only cell left, and no two corners
      can be swapped. */
  lemma ThenTriangle()
    ensures WellFormed(Drawn()) && MarkersOf(Drawn(), map[3 := 1]) && Branches(Drawn(), map[3 := 1])
    ensures Reps(Drawn(), map[3 := 1]) == [0, 1, 2]
  {
    hide ColoursOf, WellFormed, Ascending, Representatives, Cell, Drawn, Dense, Injective, Stable;
    var m: Markers := map[3 := 1];
    PairMarked();
    Coloured(m);
    DrawnShape();
    CornersAlike(m, 0, 1);
    CornersAlike(m, 0, 2);
    Apart(m, 0, 3);
    Apart(m, 0, 4);
    Apart(m, 3, 4);
    TriangleCells(ColoursOf(Drawn(), m));
    CornerReps();
  }

  lemma PairMarked()
    ensures MarkersOf(Drawn(), map[3 := 1])
  {
    hide Drawn;
    DrawnShape();
  }

  lemma CornersStay(v: nat)
    requires v < 3
    ensures !SwapCertified(Drawn(), v, Next(v)) && !SwapCertified(Drawn(), Next(v), v)
  {
    Three(Between(v, Next(v)));
    Three(Between(Next(v), v));
    var a, b := Collect(Drawn().edges, Between(v, Next(v))), Collect(Drawn().edges, Between(Next(v), v));
    assert a == [Arc(FLOW, 0, 0)] && b == [];
  }

  lemma CornerReps()
    ensures Representatives(Drawn(), [0, 1, 2]) == [0, 1, 2]
  {
    hide SwapCertified;
    CornersStay(0);
    CornersStay(1);
    CornersStay(2);
    var g := Drawn();
    assert [0, 1, 2][..2] == [0, 1] && [0, 1][..1] == [0] && [0][..0] == [];
    assert Representatives(g, []) == [];
    assert Representatives(g, [0]) == [0];
    assert !Replaces(g, [0], 1);
    assert Representatives(g, [0, 1]) == [0, 1];
    assert !Replaces(g, [0, 1], 2);
  }

  lemma SameSource(c: Colours, v: nat)
    requires c.Keys == {0, 1, 2, 3, 4} && v < 3 && SeeAlike(Drawn(), c, Next(v), Next(Next(v)))
    ensures c[v] == c[Next(v)]
  {
    hide Drawn, Collect, Incoming, Outgoing;
    Seen(c, v);
    Seen(c, Next(v));
    assert Arc(FLOW, c[v], 0) in multiset([Arc(FLOW, c[v], 0)]);
  }

  /** In a stable colouring a corner with a colour of its own tells the other two apart. */
  lemma OthersDiffer(c: Colours, v: nat)
    requires c.Keys == {0, 1, 2, 3, 4} && Stable(Drawn(), c) && v < 3 && c[v] != c[Next(v)]
    ensures c[Next(v)] != c[Next(Next(v))]
  {
    hide Drawn, SeeAlike;
    if SeeAlike(Drawn(), c, Next(v), Next(Next(v))) { SameSource(c, v); }
  }

  lemma OthersLeft(v: nat, u: nat, x: nat)
    requires v < 3 && u < 5 && x < 5 && (u < 3 <==> x < 3)
    requires Marker(map[3 := 1, v := 2], u) == Marker(map[3 := 1, v := 2], x)
    ensures u == x || (u == Next(v) && x == Next(Next(v))) || (x == Next(v) && u == Next(Next(v)))
  {
  }

  /** A marked corner tells the other two apart. */
  lemma CornerDecides(v: nat)
    requires v < 3 && MarkersOf(Drawn(), map[3 := 1, v := 2])
    ensures WellFormed(Drawn()) && !Branches(Drawn(), map[3 := 1, v := 2])
  {
    hide ColoursOf, WellFormed, Drawn, Stable, Dense, MarkersOf, Marker;
    var m: Markers := map[3 := 1, v := 2];
    Coloured(m);
    DrawnShape();
    var c := ColoursOf(Drawn(), m);
    assert Marker(m, v) == 2 && Marker(m, Next(v)) == 0 by { Marks(v); }
    Apart(m, v, Next(v));
    OthersDiffer(c, v);
    forall u, x | u in c && x in c && c[u] == c[x] ensures u == x {
      ColoursOfSeparates(Drawn(), m, u, x);
      OthersLeft(v, u, x);
    }
  }

  lemma Marks(v: nat)
    requires v < 3
    ensures Marker(map[3 := 1, v := 2], v) == 2 && Marker(map[3 := 1, v := 2], Next(v)) == 0
  {
  }

  lemma CornerLeaf(i: nat)
    requires i < 3
    ensures MarkersOf(Drawn(), map[3 := 1]) && WellFormed(Drawn()) && Branches(Drawn(), map[3 := 1])
    ensures var t := SearchTree(Drawn(), map[3 := 1]); t.Branch? && |t.kids| == 3 && Size(t.kids[i]) == 1
  {
    hide ColoursOf, WellFormed, Reps, Branches, MarkersOf, SearchTree, Drawn, Dense, OrderOf;
    ThenTriangle();
    PrunedKid(Drawn(), map[3 := 1], i);
    assert Extend(map[3 := 1], i) == map[3 := 1, i := 2];
    CornerDecides(i);
    PrunedLeaf(Drawn(), map[3 := 1, i := 2]);
  }

  lemma TriangleSize()
    ensures MarkersOf(Drawn(), map[3 := 1]) && WellFormed(Drawn()) && Size(SearchTree(Drawn(), map[3 := 1])) == 4
  {
    hide ColoursOf, WellFormed, Branches, MarkersOf, SearchTree, Drawn;
    CornerLeaf(0);
    CornerLeaf(1);
    CornerLeaf(2);
    var kids := SearchTree(Drawn(), map[3 := 1]).kids;
    assert kids[1..][0] == kids[1] && kids[1..][1..][0] == kids[2] && kids[1..][1..][1..] == [];
    assert SizeAll(kids) == 3;
  }

  /** The search takes exactly five states: the root, one child for the pair, three for
      the triangle. */
  lemma TriangleStates()
    ensures WellFormed(Drawn()) && Size(Root(Drawn())) == 5
  {
    hide ColoursOf, WellFormed, Reps, Branches, MarkersOf, SearchTree, Drawn;
    RootSplitsPair();
    var g, m := Drawn(), map[];
    PrunedKid(g, m, 0);
    assert Extend(m, 3) == map[3 := 1];
    TriangleSize();
    var top := SearchTree(g, m).kids;
    assert top[1..] == [];
    assert SizeAll(top) == Size(top[0]);
  }

  /** So five states are enough for a strong identity and four are not. */
  lemma TriangleBudget(sha: Bytes -> Bytes)
    ensures OutcomeOf(Triangle(), 0, 5, sha).Strong? && OutcomeOf(Triangle(), 0, 5, sha).states == 5
    ensures OutcomeOf(Triangle(), 0, 4, sha).Weak? && OutcomeOf(Triangle(), 0, 4, sha).states == 4
  {
    hide WellFormed, SearchTree, Winner, Valid, Content, Size, Drawn, Triangle;
    TriangleDrawn();
    TriangleStates();
  }
}
