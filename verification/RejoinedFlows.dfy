/** A call that leaves and comes back: the three conditions hold, and still the
    incremental solve reports another witness. */
module RejoinedFlows {
  import opened ByteStrings
  import opened FiniteSets
  import opened Graphs
  import opened Encoding
  import opened Cpgs
  import opened Canonicality
  import opened CanonicalOrders
  import opened OrderTwins
  import opened Supergraphs
  import opened SupergraphRuns
  import opened Witnesses
  import opened Incremental
  import opened Boundaries
  import opened LoneFacts
  import opened Solver
  import opened Solutions
  import opened Readings
  import opened IncrementalSolves
  import opened DetectorBounds
  import opened DetectorWitnesses
  import opened Cells
  import opened MovedPairs
  import T = Tabulation

  // ----- which of two routes is found first

  lemma {:induction false} RunKeeps(pb: T.Problem, s: T.Scope, st: T.State, x: T.Item)
    requires T.WellFormed(pb) && T.Within(pb, st) && x in st.pred
    ensures x in T.Run(pb, s, st).pred && T.Run(pb, s, st).pred[x] == st.pred[x]
    decreases T.Universe(pb) - st.pred.Keys, st.work
  {
    hide T.Successors, T.Universe, T.WellFormed;
    if st.work != {} {
      T.WorkRanked(pb, st);
      var y := T.First(pb, st.work);
      T.StepWithin(pb, s, st, y);
      RunKeeps(pb, s, T.StepOn(pb, s, st, y), x);
    }
  }

  /** From a lone seed, what the seed's first successor leads to is discovered by it. */
  lemma FoundThrough(pb: T.Problem, s: T.Scope, a: T.Item, next: set<T.Item>, b: T.Item, x: T.Item)
    requires T.WellFormed(pb) && T.SeedItems(pb, s) == {a} && a.node in pb.rank
    requires T.Successors(pb, s, a) == next && a !in next && b in next && forall y :: y in next ==> y.node in pb.rank
    requires forall y :: y in next ==>
               pb.rank[b.node] < pb.rank[y.node] || (pb.rank[b.node] == pb.rank[y.node] && b.fact <= y.fact)
    requires x in T.Successors(pb, s, b) && x != a && x !in next
    ensures x in T.Tabulated(pb, s).pred && T.Tabulated(pb, s).pred[x] == T.From(b)
  {
    hide T.Successors, T.Universe, T.WellFormed, T.SeedItems, T.Run, T.Within;
    T.StartWithin(pb, s);
    var st := T.Start(pb, s);
    T.LoneFirst(pb, a);
    assert st.work == {a};
    RunOne(pb, s, st, a);
    var one := T.StepOn(pb, s, st, a);
    assert one.work == next;
    RunOne(pb, s, one, b);
    var two := T.StepOn(pb, s, one, b);
    assert x in two.pred && two.pred[x] == T.From(b);
    RunKeeps(pb, s, two, x);
  }

  lemma TrailThrough(pred: map<T.Item, T.Origin>, time: map<T.Item, nat>, x: T.Item, b: T.Item)
    requires T.Timed(pred, time) && x in pred && pred[x] == T.From(b)
    ensures var t := Trail(pred, time, x); |t| >= 2 && t[|t| - 2] == b.node
  {
  }

  /** Two solves that discover a sink through different nodes report different findings. */
  lemma DifferentWitness(pb: T.Problem, c: set<nat>, stamp: Stamp, full: Solution, part: Solution, x: T.Item,
                         a: T.Item, b: T.Item)
    requires T.WellFormed(pb) && SolvedBoth(pb, c, stamp, full, part) && x.node in pb.sinks && a.node != b.node
    requires x in T.Tabulated(pb, T.Everywhere).pred && T.Tabulated(pb, T.Everywhere).pred[x] == T.From(a)
    requires x in T.Tabulated(pb, T.Only(c)).pred && T.Tabulated(pb, T.Only(c)).pred[x] == T.From(b)
    ensures part.findings != full.findings
  {
    hide T.WellFormed, T.Tabulated, FindingsOf, Hashes, T.Touched, T.Timed;
    TrailThrough(T.Tabulated(pb, T.Everywhere).pred, Times(pb, T.Everywhere), x, a);
    TrailThrough(T.Tabulated(pb, T.Only(c)).pred, Times(pb, T.Only(c)), x, b);
    OtherWitness(pb, c, stamp, full, part, x);
  }

  // ----- the graph

  const HERE: Bytes := [97]
  const CALLER := Label(METHOD, [120], HERE, [])
  const CALLEE := Label(METHOD, [], [98], [])
  const STEP := Label(Ascii("CONTROL"), [], [], HERE)
  const TARGET := Label(Ascii("VARIABLE"), [121], [], HERE)

  /** The source method 0 calls 1 and goes on to 2; both 1 and 2 go on to the sink 3. */
  function Rejoined(): (g: Cpg)
    ensures Ids(g) == {0, 1, 2, 3}
  {
    var g := Cpg([Node(0, CALLER, []), Node(1, CALLEE, []), Node(2, STEP, []), Node(3, TARGET, [])],
                 [Edge(0, 1, CALL), Edge(0, 2, CFG), Edge(1, 3, CFG), Edge(2, 3, CFG)]);
    assert g.nodes[0].id == 0 && g.nodes[1].id == 1 && g.nodes[2].id == 2 && g.nodes[3].id == 3;
    g
  }

  function Watcher(): (det: Detector) {
    Aimed(Rejoined(), 0, [], 3)
  }

  lemma RejoinedNodes()
    ensures var g := Rejoined();
            && g.nodes == [Node(0, CALLER, []), Node(1, CALLEE, []), Node(2, STEP, []), Node(3, TARGET, [])]
            && g.edges == [Edge(0, 1, CALL), Edge(0, 2, CFG), Edge(1, 3, CFG), Edge(2, 3, CFG)]
            && UniqueIds(g.nodes)
  {
  }

  lemma RejoinedLengths()
    ensures |METHOD| == 6 && |CFG| == 3 && |CALL| == 4 && |STEP.kind| == 7 && |TARGET.kind| == 8
  {
  }

  lemma RejoinedFits()
    ensures FitsLabel(CALLER) && FitsLabel(CALLEE) && FitsLabel(STEP) && FitsLabel(TARGET) && CFG != [] && CALL != []
  {
    hide Ascii;
    RejoinedLengths();
  }

  lemma RejoinedLabels()
    ensures Content(Rejoined()).labels == map[0 := CALLER, 1 := CALLEE, 2 := STEP, 3 := TARGET]
    ensures Content(Rejoined()).edges == Rejoined().edges
  {
    hide Content, NodeOf, Ascii, Ids, UniqueIds;
    var g := Rejoined();
    RejoinedNodes();
    ContentLabel(g, g.nodes[0]);
    ContentLabel(g, g.nodes[1]);
    ContentLabel(g, g.nodes[2]);
    ContentLabel(g, g.nodes[3]);
  }

  lemma RejoinedTexted()
    ensures Texted(Rejoined()) == {0, 3}
  {
    hide Content, Ascii, Ids;
    RejoinedLabels();
  }

  lemma RejoinedValid()
    ensures Valid(Rejoined())
  {
    hide FitsLabel, Ids, UniqueIds, Ascii;
    var g := Rejoined();
    RejoinedNodes();
    RejoinedLengths();
    RejoinedFits();
    forall n | n in g.nodes ensures FitsNode(n) { }
    forall e | e in g.edges ensures FitsEdge(g, e) { }
  }

  // ----- its tables

  /** The one method of a name owns it. */
  lemma {:induction false} OnlyNamed(c: Graph, order: seq<nat>, name: Bytes, v: nat)
    requires v in order && IsMethod(c, v) && MethodName(c.labels[v]) == name
    requires forall u :: u in order && IsMethod(c, u) && MethodName(c.labels[u]) == name ==> u == v
    ensures ProcNamed(c, order, name) == Some(v)
  {
    hide MethodName, IsMethod;
    var last := order[|order| - 1];
    if last != v { OnlyNamed(c, order[..|order| - 1], name, v); }
  }

  lemma RejoinedOwners(order: seq<nat>)
    requires CompleteOrder(Content(Rejoined()), order)
    ensures Owners(Content(Rejoined()), order) == map[0 := 0, 1 := 1, 2 := 0, 3 := 0]
  {
    hide Content, Ascii, ProcNamed, Ids, Rejoined, Distinct;
    RejoinedLabels();
    RejoinedLengths();
    var c := Content(Rejoined());
    assert IsMethod(c, 0) && IsMethod(c, 1) && !IsMethod(c, 2) && !IsMethod(c, 3);
    assert MethodName(c.labels[0]) == HERE && MethodName(c.labels[1]) != HERE;
    OnlyNamed(c, order, HERE, 0);
  }

  lemma CfgNext(es: seq<Edge>, e: Edge, v: nat)
    ensures CfgTargets(es + [e], v) == CfgTargets(es, v) + if e.kind == CFG && e.src == v then [e.dst] else []
  {
    assert (es + [e])[..|es|] == es;
  }

  lemma CallNext(c: Graph, es: seq<Edge>, e: Edge, v: nat)
    ensures CallTargets(c, es + [e], v) ==
            CallTargets(c, es, v) + if e.kind == CALL && e.src == v && IsMethod(c, e.dst) then [e.dst] else []
  {
    assert (es + [e])[..|es|] == es;
  }

  lemma RejoinedTargets(c: Graph, v: nat)
    requires IsMethod(c, 1)
    ensures CfgTargets(Rejoined().edges, v) == if v == 0 then [2] else if v == 1 || v == 2 then [3] else []
    ensures CallTargets(c, Rejoined().edges, v) == if v == 0 then [1] else []
  {
    hide Ascii, CfgTargets, CallTargets, IsMethod;
    RejoinedLengths();
    var a, b, d, e := Edge(0, 1, CALL), Edge(0, 2, CFG), Edge(1, 3, CFG), Edge(2, 3, CFG);
    NoTargets(c, v);
    CfgNext([], a, v);
    CfgNext([a], b, v);
    CfgNext([a, b], d, v);
    CfgNext([a, b, d], e, v);
    CallNext(c, [], a, v);
    CallNext(c, [a], b, v);
    CallNext(c, [a, b], d, v);
    CallNext(c, [a, b, d], e, v);
    assert [] + [a] == [a] && [a] + [b] == [a, b] && [a, b] + [d] == [a, b, d] && [a, b, d] + [e] == [a, b, d, e];
    assert Rejoined().edges == [a, b, d, e];
  }

  lemma NoTargets(c: Graph, v: nat)
    ensures CfgTargets([], v) == [] && CallTargets(c, [], v) == []
  {
  }

  predicate Onward(v: nat, s: nat) {
    (v == 0 && s == 2) || ((v == 1 || v == 2) && s == 3)
  }

  predicate Calling(v: nat, q: nat) {
    v == 0 && q == 1
  }

  lemma RejoinedAt(order: seq<nat>, v: nat, s: nat)
    requires WellFormed(Content(Rejoined())) && CompleteOrder(Content(Rejoined()), order) && v in Ids(Rejoined())
    ensures s in CfgTable(Rejoined(), order)[v] <==> Onward(v, s)
    ensures s in CallTable(Rejoined(), order)[v] <==> Calling(v, s)
  {
    hide Content, WellFormed, CompleteOrder, Ranks, Rejoined, SortByRank, CfgTargets, CallTargets, Ascii;
    var g := Rejoined();
    RejoinedLabels();
    RejoinedTargets(Content(g), v);
    TargetsRanked(g, order);
    SortByRankMembers(CfgTargets(g.edges, v), Ranks(order), s);
    SortByRankMembers(CallTargets(Content(g), g.edges, v), Ranks(order), s);
  }

  ghost predicate Laid(pb: T.Problem) {
    Placed(pb) && Threaded(pb)
  }

  ghost predicate Threaded(pb: T.Problem) {
    && (forall v, s :: v in pb.cfg ==> (s in pb.cfg[v] <==> Onward(v, s)))
    && (forall v, q :: v in pb.calls ==> (q in pb.calls[v] <==> Calling(v, q)))
  }

  ghost predicate Placed(pb: T.Problem) {
    && pb.nodes == {0, 1, 2, 3} && pb.procOf == map[0 := 0, 1 := 1, 2 := 0, 3 := 0]
    && pb.cfg.Keys == pb.nodes && pb.calls.Keys == pb.nodes
  }

  lemma RejoinedPlaced(order: seq<nat>, det: Detector)
    requires WellFormed(Content(Rejoined())) && CompleteOrder(Content(Rejoined()), order)
    ensures Placed(ProblemOf(Rejoined(), order, det)) && ProblemOf(Rejoined(), order, det).rank == Ranks(order)
  {
    hide Content, WellFormed, CompleteOrder, SeedTable, Ranks, MatchesAny, Owners, Rejoined;
    RejoinedOwners(order);
    ProblemTables(Rejoined(), order, det);
  }

  lemma RejoinedThreaded(order: seq<nat>, det: Detector)
    requires WellFormed(Content(Rejoined())) && CompleteOrder(Content(Rejoined()), order)
    ensures Threaded(ProblemOf(Rejoined(), order, det))
  {
    hide Content, WellFormed, CompleteOrder, ProblemOf, Ranks, Rejoined, Onward, Calling, Ids;
    var pb := ProblemOf(Rejoined(), order, det);
    ProblemTables(Rejoined(), order, det);
    forall v, s | v in pb.cfg ensures s in pb.cfg[v] <==> Onward(v, s) { RejoinedRow(order, det, v, s); }
    forall v, q | v in pb.calls ensures q in pb.calls[v] <==> Calling(v, q) { RejoinedRow(order, det, v, q); }
  }

  lemma RejoinedLaid(order: seq<nat>, det: Detector)
    requires WellFormed(Content(Rejoined())) && CompleteOrder(Content(Rejoined()), order)
    ensures Laid(ProblemOf(Rejoined(), order, det)) && ProblemOf(Rejoined(), order, det).rank == Ranks(order)
  {
    hide Content, WellFormed, CompleteOrder, ProblemOf, Ranks, Rejoined, Placed, Threaded;
    RejoinedPlaced(order, det);
    RejoinedThreaded(order, det);
  }

  lemma RejoinedRow(order: seq<nat>, det: Detector, v: nat, s: nat)
    requires WellFormed(Content(Rejoined())) && CompleteOrder(Content(Rejoined()), order) && v in Ids(Rejoined())
    ensures var pb := ProblemOf(Rejoined(), order, det);
            && v in pb.cfg && (s in pb.cfg[v] <==> Onward(v, s))
            && v in pb.calls && (s in pb.calls[v] <==> Calling(v, s))
  {
    hide Content, WellFormed, CompleteOrder, SeedTable, Ranks, MatchesAny, Owners, Rejoined, CfgTable, CallTable,
      Onward, Calling;
    ProblemTables(Rejoined(), order, det);
    RejoinedAt(order, v, s);
  }

  // ----- the conditions hold

  lemma LaidHop(pb: T.Problem, s: T.Scope, m: nat, n: nat)
    requires T.WellFormed(pb) && Laid(pb)
    ensures Hop(pb, s, m, n) <==> Onward(m, n) || (Calling(m, n) && T.InScope(s, n))
  {
    hide T.WellFormed;
  }

  lemma LaidRoute(pb: T.Problem, s: T.Scope)
    requires T.WellFormed(pb) && Laid(pb)
    ensures Routes(pb, s, 0, 3)
  {
    hide T.WellFormed, Hop, Routes, Laid;
    LaidHop(pb, s, 0, 2);
    LaidHop(pb, s, 2, 3);
    RoutesSelf(pb, s, 0);
    RoutesHop(pb, s, 0, 0, 2);
    RoutesHop(pb, s, 0, 2, 3);
  }

  predicate Home(v: nat) {
    v != 1
  }

  predicate Last(v: nat) {
    v == 3
  }

  lemma LaidStays(pb: T.Problem, n: nat, x: nat)
    requires T.WellFormed(pb) && Laid(pb) && n != 1 && Routes(pb, T.Only({0}), n, x)
    ensures x != 1
  {
    hide T.WellFormed, Hop, Routes, Laid;
    var r := iset v | Home(v);
    forall m, v | m in r && Hop(pb, T.Only({0}), m, v) ensures v in r { LaidHop(pb, T.Only({0}), m, v); }
    RoutesInside(pb, T.Only({0}), n, x, r);
  }

  lemma LaidEnds(pb: T.Problem, x: nat)
    requires T.WellFormed(pb) && Laid(pb) && Routes(pb, T.Everywhere, 3, x)
    ensures x == 3
  {
    hide T.WellFormed, Hop, Routes, Laid;
    var r := iset v | Last(v);
    forall m, v | m in r && Hop(pb, T.Everywhere, m, v) ensures v in r { LaidHop(pb, T.Everywhere, m, v); }
    RoutesInside(pb, T.Everywhere, 3, x, r);
  }

  lemma LaidKnown(pb: T.Problem, n: nat, x: nat)
    requires T.WellFormed(pb) && Laid(pb) && n in pb.nodes && Routes(pb, T.Only({0}), n, x)
    ensures x in pb.nodes
  {
    hide T.WellFormed, Hop, Routes, Laid, Closed;
    NodesClosed(pb, T.Only({0}));
    RoutesInside(pb, T.Only({0}), n, x, iset v | v in pb.nodes);
  }

  lemma LaidSeparated(pb: T.Problem)
    requires T.WellFormed(pb) && Laid(pb)
    ensures Separated(pb, {0, 3}, {0})
  {
    hide T.WellFormed, Routes, Onward, Calling;
    forall n, s {:trigger Routes(pb, T.Everywhere, n, s)} |
      Seedable(pb, {0, 3}, n) && s in {0, 3} && OwnedBy(pb, {0}, s) && Routes(pb, T.Everywhere, n, s)
      ensures OwnedBy(pb, {0}, n) && Routes(pb, T.Only({0}), n, s)
    {
      if n == s {
        RoutesSelf(pb, T.Only({0}), n);
      } else {
        if n == 3 { LaidEnds(pb, s); }
        LaidRoute(pb, T.Only({0}));
      }
    }
    forall n, s {:trigger Routes(pb, T.Only({0}), n, s)} |
      Seedable(pb, {0, 3}, n) && Routes(pb, T.Only({0}), n, s)
      ensures OwnedBy(pb, {0}, s)
    {
      LaidStays(pb, n, s);
      LaidKnown(pb, n, s);
    }
  }

  // ----- the canonical order puts the callee before the step

  lemma KindFirst(l: Label, m: Label)
    requires |l.kind| < |m.kind| < TWO_64
    ensures Less(LabelBytes(l), LabelBytes(m))
  {
    hide U64, Less;
    var x, y := l.kind + Text(l.text) + Text(l.fqn) + Text(l.decl), m.kind + Text(m.text) + Text(m.fqn) + Text(m.decl);
    assert LabelBytes(l) == U64(|l.kind|) + x;
    assert LabelBytes(m) == U64(|m.kind|) + y;
    U64Monotone(|l.kind|, |m.kind|, x, y);
  }

  lemma RejoinedApart()
    ensures LabelsApart(Content(Rejoined()))
  {
    hide Ascii, Content;
    RejoinedLabels();
    RejoinedLengths();
  }

  lemma RejoinedOrder(sha: Bytes -> Bytes)
    requires Valid(Rejoined())
    ensures LabelsAscend(Content(Rejoined()), OrderOf(Rejoined(), sha))
  {
    hide Valid, Content, WellFormed, Winner, LabelsAscend, LabelsApart, Finishes, StatesAfter;
    var g := Rejoined();
    RejoinedApart();
    ApartStrong(g, 0, STATE_LIMIT, sha);
    ContentWellFormed(g);
    WinnerAscends(Content(g));
  }

  lemma RanksFollow(c: Graph, order: seq<nat>, u: nat, v: nat)
    requires LabelsAscend(c, order) && u in c.labels && v in c.labels && LabelBefore(c, u, v) && u != v
    ensures u in Ranks(order) && v in Ranks(order) && Ranks(order)[u] < Ranks(order)[v]
  {
    hide LabelBefore;
    var i, j := Position(order, u), Position(order, v);
    assert order[i] == u && order[j] == v;
  }

  lemma RejoinedRanks(sha: Bytes -> Bytes)
    requires Valid(Rejoined())
    ensures var r := Ranks(OrderOf(Rejoined(), sha)); 1 in r && 2 in r && r[1] < r[2]
  {
    hide Valid, Content, LabelsAscend, OrderOf, Ranks, LabelBytes, Less, Ascii;
    RejoinedLabels();
    RejoinedLengths();
    RejoinedOrder(sha);
    KindFirst(CALLEE, STEP);
    RanksFollow(Content(Rejoined()), OrderOf(Rejoined(), sha), 1, 2);
  }

  // ----- one seed

  lemma OneFact(g: Cpg, t: Bytes, v: nat) returns (f: nat)
    requires v in Texted(g) && Content(g).labels[v].text == t
    ensures v in SeedTable(Content(g), Ascending(Ids(g)), [t])
    ensures SeedTable(Content(g), Ascending(Ids(g)), [t])[v] == {f}
  {
    hide Content, SeedTable, Ascending, MatchesAny;
    IdsListed(g);
    SeedsApart(Content(g), Ascending(Ids(g)), [t], v);
    OneMatches(t, Content(g).labels[v]);
    assert [t][..0] == [] && CountMatches([], Content(g).labels[v]) == 0;
    assert CountMatches([t], Content(g).labels[v]) == 1;
    var facts := SeedTable(Content(g), Ascending(Ids(g)), [t])[v];
    f :| f in facts;
    assert |facts - {f}| == 0;
    assert facts == {f};
  }

  ghost function WatcherSeedTable(): (r: map<nat, set<nat>>) {
    SeedTable(Content(Rejoined()), Ascending(Ids(Rejoined())), [CALLER.text])
  }

  lemma ZeroOnly(v: nat)
    requires v in WatcherSeedTable()
    ensures v == 0
  {
    hide Content, SeedTable, MatchesAny, Ascii, Rejoined, Ascending, Ids;
    var g := Rejoined();
    RejoinedLabels();
    IdsListed(g);
    SeedsAt(g, [CALLER.text], v);
    OneMatches(CALLER.text, Content(g).labels[v]);
  }

  lemma WatcherTable(order: seq<nat>) returns (f: nat)
    requires WellFormed(Content(Rejoined())) && CompleteOrder(Content(Rejoined()), order)
    ensures ProblemOf(Rejoined(), order, Watcher()).seeds == map[0 := {f}]
  {
    hide Content, SeedTable, MatchesAny, Ascii, Rejoined, Ascending, Ids, Owners, CfgTable, CallTable, Ranks,
      WellFormed, CompleteOrder;
    RejoinedLabels();
    RejoinedTexted();
    f := OneFact(Rejoined(), CALLER.text, 0);
    var seeds := WatcherSeedTable();
    assert ProblemOf(Rejoined(), order, Watcher()).seeds == seeds;
    hide ProblemOf, WatcherSeedTable;
    forall v | v in seeds ensures v == 0 { ZeroOnly(v); }
    assert seeds == map[0 := {f}];
  }

  lemma LoneSeed(pb: T.Problem, s: T.Scope, f: nat)
    requires pb.seeds == map[0 := {f}] && T.NodeInScope(pb, s, 0)
    ensures T.SeedItems(pb, s) == {T.Item(0, f)}
  {
  }

  lemma WatcherSeeds(order: seq<nat>) returns (f: nat)
    requires WellFormed(Content(Rejoined())) && CompleteOrder(Content(Rejoined()), order)
    ensures var pb := ProblemOf(Rejoined(), order, Watcher());
            && T.SeedItems(pb, T.Everywhere) == {T.Item(0, f)} && T.SeedItems(pb, T.Only({0})) == {T.Item(0, f)}
            && pb.sanitised == {} && 3 in pb.sinks
  {
    hide Content, WellFormed, CompleteOrder, ProblemOf, T.SeedItems, Ascii, Rejoined;
    f := WatcherTable(order);
    var pb := ProblemOf(Rejoined(), order, Watcher());
    RejoinedLaid(order, Watcher());
    LoneSeed(pb, T.Everywhere, f);
    LoneSeed(pb, T.Only({0}), f);
    RejoinedTexted();
    Unsanitised(Rejoined(), order, 0, 3);
    var again := AimedSeeds(Rejoined(), order, 0, [], 3);
  }

  lemma LaidSuccessors(pb: T.Problem, f: nat)
    requires T.WellFormed(pb) && Laid(pb) && pb.sanitised == {}
    ensures T.Successors(pb, T.Everywhere, T.Item(0, f)) == {T.Item(1, f), T.Item(2, f)}
    ensures T.Successors(pb, T.Only({0}), T.Item(0, f)) == {T.Item(2, f)}
    ensures T.Item(3, f) in T.Successors(pb, T.Everywhere, T.Item(1, f))
    ensures T.Item(3, f) in T.Successors(pb, T.Only({0}), T.Item(2, f))
  {
    hide T.WellFormed;
    assert Onward(0, 2) && Onward(1, 3) && Onward(2, 3) && Calling(0, 1);
  }

  lemma FoundApart(pb: T.Problem, f: nat)
    requires T.WellFormed(pb) && Laid(pb) && pb.sanitised == {}
    requires 1 in pb.rank && 2 in pb.rank && pb.rank[1] < pb.rank[2]
    requires T.SeedItems(pb, T.Everywhere) == {T.Item(0, f)} && T.SeedItems(pb, T.Only({0})) == {T.Item(0, f)}
    ensures var full, part, x := T.Tabulated(pb, T.Everywhere).pred, T.Tabulated(pb, T.Only({0})).pred, T.Item(3, f);
            x in full && full[x] == T.From(T.Item(1, f)) && x in part && part[x] == T.From(T.Item(2, f))
  {
    LaidSuccessors(pb, f);
    LaidRanked(pb);
    hide T.Tabulated, T.Successors, T.SeedItems, T.WellFormed, Laid, T.IsFirst;
    EarlierFirst(pb, T.Item(1, f), T.Item(2, f));
    FoundThrough(pb, T.Everywhere, T.Item(0, f), {T.Item(1, f), T.Item(2, f)}, T.Item(1, f), T.Item(3, f));
    T.LoneFirst(pb, T.Item(2, f));
    FoundThrough(pb, T.Only({0}), T.Item(0, f), {T.Item(2, f)}, T.Item(2, f), T.Item(3, f));
  }

  lemma LaidRanked(pb: T.Problem)
    requires T.WellFormed(pb) && Laid(pb)
    ensures 0 in pb.rank && 1 in pb.rank && 2 in pb.rank
  {
    hide Onward, Calling;
  }

  lemma EarlierFirst(pb: T.Problem, a: T.Item, b: T.Item)
    requires a.node in pb.rank && b.node in pb.rank && pb.rank[a.node] < pb.rank[b.node]
    ensures T.IsFirst(pb, {a, b}, a)
  {
  }

  // ----- nothing calls the source method

  lemma {:induction false} NeverCalled(c: Graph, owners: map<nat, nat>, es: seq<Edge>, q: nat)
    requires forall e :: e in es ==> e.dst != q
    ensures CallersOf(c, owners, es, q) == {}
  {
    if es != [] {
      assert es[|es| - 1] in es;
      NeverCalled(c, owners, es[..|es| - 1], q);
    }
  }

  lemma LastCall(callers: map<nat, set<nat>>, p: nat, chain: seq<nat>, q: nat) returns (a: nat)
    requires CallChain(callers, {q}, p, chain)
    ensures DirectCaller(callers, a, q)
  {
    a := chain[|chain| - 2];
    assert DirectCaller(callers, chain[|chain| - 2], chain[|chain| - 2 + 1]);
  }

  lemma RejoinedClosure(order: seq<nat>)
    ensures IsClosure(Rejoined(), order, {0}, {0})
  {
    hide Content, Owners, Ascii, CallersOf;
    var g := Rejoined();
    NeverCalled(Content(g), Owners(Content(g), order), g.edges, 0);
    forall p ensures !CallsInto(CallerTable(g, order), {0}, p) {
      if chain :| CallChain(CallerTable(g, order), {0}, p, chain) {
        var a := LastCall(CallerTable(g, order), p, chain, 0);
      }
    }
  }

  lemma LaidRejoins(pb: T.Problem)
    requires T.WellFormed(pb) && Laid(pb)
    ensures Rejoins(pb, {0, 3}, {0})
  {
    hide T.WellFormed, Routes, Hop;
    LaidRoute(pb, T.Only({0}));
    RoutesSelf(pb, T.Only({0}), 0);
    RoutesSelf(pb, T.Everywhere, 1);
    LaidHop(pb, T.Everywhere, 1, 3);
    RoutesHop(pb, T.Everywhere, 1, 1, 3);
    assert Calling(0, 1);
    assert RejoinAt(pb, {0, 3}, {0}, 0, 0, 1, 3);
  }

  /** A call leaves and comes back; all three conditions hold, both solves find the sink, and they report different
      witnesses for it. */
  lemma RejoinedFlowDiffers(version: Bytes, env: Bytes, sha: Bytes -> Bytes) returns (full: Solution, part: Solution)
    requires Pinned(version, env)
    ensures Valid(Rejoined()) && Runs(Rejoined(), Watcher(), version, env, sha, {0}, {0}, full, part)
    ensures Separated(TablesOf(Rejoined(), sha), Texted(Rejoined()), {0})
    ensures Rejoins(TablesOf(Rejoined(), sha), Texted(Rejoined()), {0})
    ensures part.findings != full.findings
  {
    hide Valid, Content, WellFormed, CompleteOrder, ProblemOf, T.WellFormed, T.Tabulated, T.SeedItems, SolvedBoth,
      OrderOf, IsClosure, StampFor, Texted, Runs, Laid, Separated, Rejoins, Ranks, OutcomeOf, Rejoined;
    RejoinedValid();
    var g, order, det := Rejoined(), OrderOf(Rejoined(), sha), Watcher();
    var stamp, pb := StampFor(g, det, version, env, sha), ProblemOf(g, order, det);
    RejoinedClosure(order);
    ProblemWellFormed(g, order, det);
    full, part := SolvedSomehow(pb, {0}, stamp);
    RunsOn(g, det, version, env, sha, {0}, {0}, full, part);
    RejoinedLaid(order, det);
    RejoinedRanks(sha);
    var f := WatcherSeeds(order);
    FoundApart(pb, f);
    DifferentWitness(pb, {0}, stamp, full, part, T.Item(3, f), T.Item(1, f), T.Item(2, f));
    SeparatedHere(sha);
  }

  lemma SeparatedHere(sha: Bytes -> Bytes)
    requires Valid(Rejoined())
    ensures Separated(TablesOf(Rejoined(), sha), Texted(Rejoined()), {0})
    ensures Rejoins(TablesOf(Rejoined(), sha), Texted(Rejoined()), {0})
  {
    hide Valid, Content, WellFormed, CompleteOrder, T.WellFormed, Texted, Laid, Separated, Rejoins, OutcomeOf,
      ProblemOf, Ranks;
    var order := OrderOf(Rejoined(), sha);
    RejoinedTexted();
    RejoinedLaid(order, SILENT);
    LaidSeparated(TablesOf(Rejoined(), sha));
    LaidRejoins(TablesOf(Rejoined(), sha));
  }
}
