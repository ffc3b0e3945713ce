/** Two procedures joined by a CFG edge: a graph on which the incremental solve
    drops a finding, or visits a procedure it was not asked to recompute. */
module CrossedFlows {
  import opened ByteStrings
  import opened Graphs
  import opened Encoding
  import opened Cpgs
  import opened Supergraphs
  import opened SupergraphRuns
  import opened Incremental
  import opened Boundaries
  import opened Solutions
  import opened Readings
  import opened IncrementalSolves
  import opened DetectorBounds
  import T = Tabulation

  const SOURCE := Label(METHOD, [120], [97], [])
  const SINK := Label(METHOD, [121], [98], [])

  function Crossed(): (g: Cpg)
    ensures Ids(g) == {0, 1}
  {
    var g := Cpg([Node(0, SOURCE, []), Node(1, SINK, [])], [Edge(0, 1, CFG)]);
    assert g.nodes[0].id == 0 && g.nodes[1].id == 1;
    g
  }

  function Lookout(): (det: Detector) {
    Aimed(Crossed(), 0, [], 1)
  }

  lemma CrossedValid()
    ensures Valid(Crossed()) && Content(Crossed()).labels == map[0 := SOURCE, 1 := SINK] && Texted(Crossed()) == {0, 1}
  {
    hide Ids;
    var g := Crossed();
    assert |METHOD| == 6 && |CFG| == 3;
    assert g.nodes == [Node(0, SOURCE, []), Node(1, SINK, [])] && g.edges == [Edge(0, 1, CFG)];
    ContentLabel(g, g.nodes[0]);
    ContentLabel(g, g.nodes[1]);
  }

  lemma CrossedOwners(order: seq<nat>)
    ensures Owners(Content(Crossed()), order) == map[0 := 0, 1 := 1]
  {
    hide Content, ProcNamed, Valid, Ids;
    CrossedValid();
  }

  lemma CrossedCfg(order: seq<nat>)
    requires WellFormed(Content(Crossed())) && CompleteOrder(Content(Crossed()), order)
    ensures 0 in CfgTable(Crossed(), order) && 1 in CfgTable(Crossed(), order)[0]
  {
    hide Content, WellFormed, CompleteOrder, Ranks, SortByRank;
    var g := Crossed();
    assert g.edges[..0] == [];
    assert CfgTargets(g.edges, 0) == [1];
    TargetsRanked(g, order);
    SortByRankMembers(CfgTargets(g.edges, 0), Ranks(order), 1);
  }

  lemma CrossedTables(order: seq<nat>)
    requires WellFormed(Content(Crossed())) && CompleteOrder(Content(Crossed()), order)
    ensures var tb := Tables(Crossed(), order);
            tb.nodes == {0, 1} && tb.procOf == map[0 := 0, 1 := 1] && 1 in tb.cfg[0]
  {
    hide Content, WellFormed, CompleteOrder, SeedTable, CfgTable, CallTable, Ranks, MatchesAny, Owners, Crossed;
    CrossedOwners(order);
    CrossedCfg(order);
  }

  lemma CrossedRoute(order: seq<nat>)
    requires WellFormed(Content(Crossed())) && CompleteOrder(Content(Crossed()), order)
    ensures forall s :: Routes(Tables(Crossed(), order), s, 0, 1)
  {
    hide Content, WellFormed, CompleteOrder, Tables, Routes;
    var tb := Tables(Crossed(), order);
    CrossedTables(order);
    forall s ensures Routes(tb, s, 0, 1) {
      RoutesSelf(tb, s, 0);
      RoutesHop(tb, s, 0, 0, 1);
    }
  }

  /** Nothing calls anything. */
  lemma CrossedClosure(order: seq<nat>, affected: set<nat>)
    ensures IsClosure(Crossed(), order, affected, affected)
  {
    hide Content, Owners;
    var g := Crossed();
    assert g.edges[..0] == [];
    assert CFG[0] != CALL[1] || CFG[1] != CALL[1];
    assert CFG != CALL;
    forall q ensures CallersOf(Content(g), Owners(Content(g), order), g.edges, q) == {} { }
    forall p ensures !CallsInto(CallerTable(g, order), affected, p) {
      if chain :| CallChain(CallerTable(g, order), affected, p, chain) {
        assert DirectCaller(CallerTable(g, order), chain[0], chain[0 + 1]);
      }
    }
  }

  /** Recomputing the procedure of the sink loses the only finding. */
  lemma CrossedFlowLoses(version: Bytes, env: Bytes, sha: Bytes -> Bytes) returns (full: Solution, part: Solution)
    requires Pinned(version, env)
    ensures Valid(Crossed()) && Runs(Crossed(), Lookout(), version, env, sha, {1}, {1}, full, part)
    ensures full.findings != {} && part.findings == {}
  {
    hide Valid, Content, WellFormed, CompleteOrder, ProblemOf, Tables, Routes, T.WellFormed, Readable, T.Tabulated,
      T.SeedItems, SolvedBoth, OrderOf, IsClosure, StampFor, Texted, Runs;
    CrossedValid();
    var g, order, det := Crossed(), OrderOf(Crossed(), sha), Lookout();
    var stamp := StampFor(g, det, version, env, sha);
    CrossedClosure(order, {1});
    ProblemWellFormed(g, order, det);
    full, part := SolvedSomehow(ProblemOf(g, order, det), {1}, stamp);
    RunsOn(g, det, version, env, sha, {1}, {1}, full, part);
    CrossedTables(order);
    CrossedRoute(order);
    TablesShared(g, order, det);
    var f := AimedReaches(g, order, T.Everywhere, 0, 1, 1);
    ReportedFully(ProblemOf(g, order, det), {1}, stamp, full, part, T.Item(1, f));
    forall x ensures x !in Reports(part.findings) {
      NothingReported(order, stamp, full, part, x);
    }
    NoFindings(part.findings);
  }

  lemma NoFindings(fs: set<Finding>)
    ensures (forall x :: x !in Reports(fs)) ==> fs == {}
  {
    forall h | h in fs ensures T.Item(h.sink, h.fact) in Reports(fs) { }
  }

  lemma NothingReported(order: seq<nat>, stamp: Stamp, full: Solution, part: Solution, x: T.Item)
    requires WellFormed(Content(Crossed())) && CompleteOrder(Content(Crossed()), order)
    requires T.WellFormed(ProblemOf(Crossed(), order, Lookout()))
    requires SolvedBoth(ProblemOf(Crossed(), order, Lookout()), {1}, stamp, full, part)
    ensures x !in Reports(part.findings)
  {
    hide WellFormed, CompleteOrder, ProblemOf, Tables, Content, T.WellFormed, T.Tabulated, T.SeedItems, SolvedBoth,
      Reports, T.Reachable, Routes, MatchesAny;
    var g, det := Crossed(), Lookout();
    var pb := ProblemOf(g, order, det);
    ReportedPartly(pb, {1}, stamp, full, part, x);
    CrossedValid();
    CrossedTables(order);
    TablesShared(g, order, det);
    if x in PartItems(pb, {1}) {
      PartItemsExact(pb, {1}, x);
      var n := SeedOf(pb, T.Only({1}), x);
      SeedMeans(pb, T.Only({1}), T.Item(n, x.fact));
      OnlySource(order, n);
    }
    if x.node in pb.sinks { OnlySink(order, x.node); }
  }

  lemma OnlySource(order: seq<nat>, n: nat)
    requires WellFormed(Content(Crossed())) && CompleteOrder(Content(Crossed()), order)
    requires n in ProblemOf(Crossed(), order, Lookout()).seeds
    ensures n == 0
  {
    hide WellFormed, CompleteOrder, Owners, CfgTable, CallTable, SeedTable, Ranks, MatchesAny, Content;
    CrossedValid();
    assert n in Ids(Crossed()) by { IdsListed(Crossed()); }
    SeedsAt(Crossed(), [SOURCE.text], n);
    OneMatches(SOURCE.text, Content(Crossed()).labels[n]);
  }

  lemma OnlySink(order: seq<nat>, n: nat)
    requires WellFormed(Content(Crossed())) && CompleteOrder(Content(Crossed()), order)
    requires n in ProblemOf(Crossed(), order, Lookout()).sinks
    ensures n == 1
  {
    hide WellFormed, CompleteOrder, Owners, CfgTable, CallTable, SeedTable, Ranks, MatchesAny, Content;
    CrossedValid();
    OneMatches(SINK.text, Content(Crossed()).labels[n]);
  }

  /** Recomputing the procedure of the source visits the other one. */
  lemma CrossedFlowVisits(version: Bytes, env: Bytes, sha: Bytes -> Bytes) returns (full: Solution, part: Solution)
    requires Pinned(version, env)
    ensures Valid(Crossed()) && Runs(Crossed(), Lookout(), version, env, sha, {0}, {0}, full, part)
    ensures 1 in part.visited
  {
    hide Valid, Content, WellFormed, CompleteOrder, ProblemOf, Tables, Routes, T.WellFormed, Readable, T.Tabulated,
      T.SeedItems, OrderOf, IsClosure, StampFor, Texted, Runs, FindingsOf, Hashes, Kept;
    CrossedValid();
    var g, order, det := Crossed(), OrderOf(Crossed(), sha), Lookout();
    var stamp := StampFor(g, det, version, env, sha);
    CrossedClosure(order, {0});
    ProblemWellFormed(g, order, det);
    full, part := SolvedSomehow(ProblemOf(g, order, det), {0}, stamp);
    RunsOn(g, det, version, env, sha, {0}, {0}, full, part);
    CrossedTables(order);
    CrossedRoute(order);
    TablesShared(g, order, det);
    var f := AimedReaches(g, order, T.Only({0}), 0, 1, 1);
    assert T.Item(1, f).node == 1;
  }
}
