/** What a solve reports, read on the labels and edges of the graph alone. */
module ReportedFlows {
  import opened ByteStrings
  import opened FiniteSets
  import opened Graphs
  import opened Encoding
  import opened Cells
  import opened Cpgs
  import opened CanonicalOrders
  import opened Supergraphs
  import opened Readings
  import opened Incremental
  import opened Solver
  import opened Solutions
  import opened Boundaries
  import opened SupergraphRuns
  import opened TabulationRuns
  import opened IncrementalSolves
  import opened DetectorBounds
  import W = Witnesses
  import T = Tabulation

  const METHOD_KIND: Bytes := [77, 69, 84, 72, 79, 68]
  const FLOW_KIND: Bytes := [67, 70, 71]
  const CALL_KIND: Bytes := [67, 65, 76, 76]

  lemma KindsSpelt()
    ensures METHOD == METHOD_KIND && CFG == FLOW_KIND && CALL == CALL_KIND
  {
  }

  // ----- who owns a node

  /** A METHOD goes by its qualified name, or by its declaration if it has none. */
  predicate Named(l: Label, d: Bytes) {
    l.kind == METHOD_KIND && (l.fqn == d || (l.fqn == [] && l.decl == d))
  }

  lemma NamedIs(c: Graph, v: nat, d: Bytes)
    requires d != [] && v in c.labels
    ensures Named(c.labels[v], d) <==> IsMethod(c, v) && MethodName(c.labels[v]) == d
  {
    hide Ascii;
    KindsSpelt();
  }

  /** Position `i` holds the last METHOD of that name. */
  ghost predicate LastAt(c: Graph, order: seq<nat>, d: Bytes, i: nat) {
    && i < |order| && order[i] in c.labels && Named(c.labels[order[i]], d)
    && forall j :: i < j < |order| && order[j] in c.labels ==> !Named(c.labels[order[j]], d)
  }

  lemma {:induction false} LastNamed(c: Graph, order: seq<nat>, d: Bytes)
    requires d != [] && forall v :: v in order ==> v in c.labels
    ensures ProcNamed(c, order, d).None? ==> forall v :: v in order ==> !Named(c.labels[v], d)
    ensures ProcNamed(c, order, d).Some? ==>
              exists i: nat :: LastAt(c, order, d, i) && ProcNamed(c, order, d) == Some(order[i])
  {
    hide Named, IsMethod, MethodName;
    if order != [] {
      var front, v := order[..|order| - 1], order[|order| - 1];
      NamedIs(c, v, d);
      LastNamed(c, front, d);
      if Named(c.labels[v], d) {
        assert LastAt(c, order, d, |order| - 1);
      } else if ProcNamed(c, front, d).Some? {
        var i: nat :| LastAt(c, front, d, i) && ProcNamed(c, front, d) == Some(front[i]);
        assert LastAt(c, order, d, i);
      }
    }
  }

  /** A METHOD owns itself. Any other node belongs to a METHOD of the name of its declaration:
      of several, to the last in canonical order. */
  lemma OwnerExactly(c: Graph, order: seq<nat>, v: nat)
    requires CompleteOrder(c, order) && v in c.labels
    ensures c.labels[v].kind == METHOD_KIND ==> v in Owners(c, order) && Owners(c, order)[v] == v
    ensures c.labels[v].kind != METHOD_KIND ==>
              (v in Owners(c, order) <==>
                 c.labels[v].decl != [] && exists m :: m in c.labels && Named(c.labels[m], c.labels[v].decl))
    ensures c.labels[v].kind != METHOD_KIND && v in Owners(c, order) ==>
              exists i: nat :: LastAt(c, order, c.labels[v].decl, i) && Owners(c, order)[v] == order[i]
  {
    hide Ascii, ProcNamed, Distinct, Named;
    KindsSpelt();
    var d := c.labels[v].decl;
    if c.labels[v].kind != METHOD_KIND && d != [] { LastNamed(c, order, d); }
  }

  // ----- a tainted path

  /** Along a CFG edge, or a CALL edge into a METHOD in scope. */
  ghost predicate Step(g: Cpg, s: T.Scope, u: nat, v: nat) {
    exists e :: e in g.edges && e.src == u && e.dst == v && v in Content(g).labels &&
      (|| e.kind == FLOW_KIND
       || (e.kind == CALL_KIND && Content(g).labels[v].kind == METHOD_KIND && (s.Everywhere? || v in s.procs)))
  }

  /** The text of the node is one of the patterns, and not empty. */
  predicate Reads(g: Cpg, ps: seq<Bytes>, v: nat) {
    v in Content(g).labels && Content(g).labels[v].text != [] && Content(g).labels[v].text in ps
  }

  /** The node belongs to a procedure in scope. */
  predicate Home(g: Cpg, order: seq<nat>, s: T.Scope, n: nat) {
    n in Owners(Content(g), order) && (s.Everywhere? || Owners(Content(g), order)[n] in s.procs)
  }

  /** From a source in scope to a sink, with no sanitiser before the last node. */
  ghost predicate Tainted(g: Cpg, order: seq<nat>, det: Detector, s: T.Scope, p: seq<nat>, n: nat, x: nat) {
    && p != [] && p[0] == n && p[|p| - 1] == x
    && Home(g, order, s, n) && Reads(g, det.sources, n) && Reads(g, det.sinks, x)
    && forall i :: 0 <= i < |p| - 1 ==> Step(g, s, p[i], p[i + 1]) && !Reads(g, det.sanitizers, p[i])
  }

  lemma ReadsMatches(g: Cpg, ps: seq<Bytes>, v: nat)
    requires v in Content(g).labels
    ensures Reads(g, ps, v) <==> MatchesAny(ps, Content(g).labels[v])
  {
    hide Content;
    if Reads(g, ps, v) {
      var i :| 0 <= i < |ps| && ps[i] == Content(g).labels[v].text;
      assert Matches(ps[i], Content(g).labels[v]);
    }
  }

  lemma {:induction false} CfgTargetListed(es: seq<Edge>, e: Edge)
    requires e in es && e.kind == CFG
    ensures e.dst in CfgTargets(es, e.src)
  {
    if e in es[..|es| - 1] { CfgTargetListed(es[..|es| - 1], e); }
  }

  lemma {:induction false} CallTargetListed(c: Graph, es: seq<Edge>, e: Edge)
    requires e in es && e.kind == CALL && IsMethod(c, e.dst)
    ensures e.dst in CallTargets(c, es, e.src)
  {
    if e in es[..|es| - 1] { CallTargetListed(c, es[..|es| - 1], e); }
  }

  lemma StepTargets(g: Cpg, s: T.Scope, u: nat, v: nat)
    requires WellFormed(Content(g))
    ensures Step(g, s, u, v) <==>
              v in CfgTargets(g.edges, u) || (v in CallTargets(Content(g), g.edges, u) && T.InScope(s, v))
  {
    hide CfgTargets, CallTargets, Ascii;
    KindsSpelt();
    if v in CfgTargets(g.edges, u) { CfgTargetIsEdge(g.edges, u, v); }
    if v in CallTargets(Content(g), g.edges, u) { CallTargetIsEdge(Content(g), g.edges, u, v); }
    if Step(g, s, u, v) {
      var e :| e in g.edges && e.src == u && e.dst == v && v in Content(g).labels &&
        (|| e.kind == FLOW_KIND
         || (e.kind == CALL_KIND && Content(g).labels[v].kind == METHOD_KIND && (s.Everywhere? || v in s.procs)));
      if e.kind == FLOW_KIND { CfgTargetListed(g.edges, e); } else { CallTargetListed(Content(g), g.edges, e); }
    }
  }

  lemma StepIsHop(g: Cpg, order: seq<nat>, det: Detector, s: T.Scope, u: nat, v: nat)
    requires WellFormed(Content(g)) && CompleteOrder(Content(g), order) && T.WellFormed(ProblemOf(g, order, det))
    requires u in Ids(g)
    ensures Hop(ProblemOf(g, order, det), s, u, v) <==> Step(g, s, u, v)
  {
    hide WellFormed, CompleteOrder, Content, Step, Owners, SeedTable, MatchesAny, Ranks, SortByRank, T.WellFormed;
    TargetsRanked(g, order);
    StepTargets(g, s, u, v);
    SortByRankMembers(CfgTargets(g.edges, u), Ranks(order), v);
    SortByRankMembers(CallTargets(Content(g), g.edges, u), Ranks(order), v);
  }

  lemma StepInside(g: Cpg, s: T.Scope, u: nat, v: nat)
    requires WellFormed(Content(g)) && Step(g, s, u, v)
    ensures u in Ids(g) && v in Ids(g)
  {
  }

  lemma SeededHere(g: Cpg, order: seq<nat>, det: Detector, s: T.Scope, n: nat)
    requires WellFormed(Content(g)) && CompleteOrder(Content(g), order)
    ensures (exists f :: T.Item(n, f) in T.SeedItems(ProblemOf(g, order, det), s)) <==>
              Home(g, order, s, n) && Reads(g, det.sources, n)
  {
    hide Content, SeedTable, MatchesAny, Ascending, CfgTable, CallTable, Ranks, WellFormed, CompleteOrder, Reads,
      Owners;
    var pb := ProblemOf(g, order, det);
    IdsListed(g);
    if n in Ids(g) {
      SeedsAt(g, det.sources, n);
      ReadsMatches(g, det.sources, n);
      if n in pb.seeds && T.NodeInScope(pb, s, n) {
        var f :| f in pb.seeds[n];
        assert T.Item(n, f) in T.SeedItems(pb, s);
      }
    } else {
      NotReads(g, det.sources, n);
    }
    if f :| T.Item(n, f) in T.SeedItems(pb, s) { assert n in pb.seeds && n in pb.procOf; }
  }

  lemma NotReads(g: Cpg, ps: seq<Bytes>, n: nat)
    requires n !in Ids(g)
    ensures !Reads(g, ps, n)
  {
  }

  // ----- what is reported

  /** The finding runs from `n` to `x`. */
  ghost predicate Joins(f: Finding, n: nat, x: nat) {
    f.trail != [] && f.trail[0] == n && f.trail[|f.trail| - 1] == x && f.sink == x
  }

  lemma FollowsIsStep(g: Cpg, order: seq<nat>, det: Detector, s: T.Scope, u: nat, v: nat)
    requires WellFormed(Content(g)) && CompleteOrder(Content(g), order) && T.WellFormed(ProblemOf(g, order, det))
    ensures W.Follows(ProblemOf(g, order, det), s, u, v) <==> Step(g, s, u, v) && !Reads(g, det.sanitizers, u)
  {
    hide Content, SeedTable, MatchesAny, CfgTable, CallTable, Ranks, WellFormed, CompleteOrder, Reads, Owners, Step,
      T.WellFormed;
    var pb := ProblemOf(g, order, det);
    if u in Ids(g) {
      StepIsHop(g, order, det, s, u, v);
      ReadsMatches(g, det.sanitizers, u);
    } else if Step(g, s, u, v) {
      StepInside(g, s, u, v);
    }
  }

  lemma SinkIs(g: Cpg, order: seq<nat>, det: Detector, x: nat)
    requires WellFormed(Content(g)) && CompleteOrder(Content(g), order)
    ensures x in ProblemOf(g, order, det).sinks <==> Reads(g, det.sinks, x)
  {
    hide Content, SeedTable, MatchesAny, CfgTable, CallTable, Ranks, WellFormed, CompleteOrder, Reads, Owners;
    if x in Ids(g) { ReadsMatches(g, det.sinks, x); } else { NotReads(g, det.sinks, x); }
  }

  /** Every witness is a tainted path without repeated nodes. */
  lemma WitnessTainted(g: Cpg, order: seq<nat>, det: Detector, s: T.Scope, stamp: Stamp, f: Finding)
    requires WellFormed(Content(g)) && CompleteOrder(Content(g), order) && T.WellFormed(ProblemOf(g, order, det))
    requires f in FindingsOf(ProblemOf(g, order, det), s, stamp)
    ensures f.trail != [] && Tainted(g, order, det, s, f.trail, f.trail[0], f.sink)
    ensures forall i, j :: 0 <= i < j < |f.trail| ==> f.trail[i] != f.trail[j]
  {
    hide Content, ProblemOf, WellFormed, CompleteOrder, Reads, Home, Step, T.WellFormed, FindingsOf, T.SeedItems,
      W.Follows;
    var pb, t := ProblemOf(g, order, det), f.trail;
    FindingRealised(pb, s, stamp, f);
    SeededHere(g, order, det, s, t[0]);
    SinkIs(g, order, det, f.sink);
    forall i | 0 <= i < |t| - 1 ensures Step(g, s, t[i], t[i + 1]) && !Reads(g, det.sanitizers, t[i]) {
      FollowsIsStep(g, order, det, s, t[i], t[i + 1]);
    }
  }

  lemma {:induction false} TaintSpreads(g: Cpg, order: seq<nat>, det: Detector, s: T.Scope, p: seq<nat>, f: nat, i: nat)
    requires WellFormed(Content(g)) && CompleteOrder(Content(g), order) && T.WellFormed(ProblemOf(g, order, det))
    requires p != [] && i < |p| && T.Item(p[0], f) in T.SeedItems(ProblemOf(g, order, det), s)
    requires forall k :: 0 <= k < |p| - 1 ==> Step(g, s, p[k], p[k + 1]) && !Reads(g, det.sanitizers, p[k])
    ensures T.Reachable(ProblemOf(g, order, det), s, T.Item(p[i], f))
  {
    hide Content, ProblemOf, WellFormed, CompleteOrder, Reads, Step, T.WellFormed, T.SeedItems, T.Reachable;
    var pb := ProblemOf(g, order, det);
    if i == 0 {
      T.ReachableSeed(pb, s, T.Item(p[0], f));
    } else {
      TaintSpreads(g, order, det, s, p, f, i - 1);
      assert Step(g, s, p[i - 1], p[i - 1 + 1]);
      FollowsIsStep(g, order, det, s, p[i - 1], p[i]);
      FollowedIsSuccessor(pb, s, p[i - 1], p[i], f);
      T.ReachableNext(pb, s, T.Item(p[i - 1], f), T.Item(p[i], f));
    }
  }

  lemma FollowedIsSuccessor(pb: T.Problem, s: T.Scope, u: nat, v: nat, f: nat)
    requires T.WellFormed(pb) && W.Follows(pb, s, u, v)
    ensures T.Item(v, f) in T.Successors(pb, s, T.Item(u, f))
  {
  }

  /** The witness of a fact seeded at one node starts there. */
  lemma TrailStarts(g: Cpg, order: seq<nat>, det: Detector, s: T.Scope, stamp: Stamp, n: nat, f: Finding)
    requires WellFormed(Content(g)) && CompleteOrder(Content(g), order) && T.WellFormed(ProblemOf(g, order, det))
    requires f in FindingsOf(ProblemOf(g, order, det), s, stamp)
    requires T.Item(n, f.fact) in T.SeedItems(ProblemOf(g, order, det), s)
    ensures f.trail != [] && f.trail[0] == n && f.trail[|f.trail| - 1] == f.sink
  {
    hide Content, ProblemOf, WellFormed, CompleteOrder, T.WellFormed, FindingsOf, W.Follows, Texted;
    var pb := ProblemOf(g, order, det);
    FindingRealised(pb, s, stamp, f);
    ProblemReadable(g, order, det);
    SeedMeans(pb, s, T.Item(n, f.fact));
    SeedMeans(pb, s, T.Item(f.trail[0], f.fact));
  }

  lemma TaintReported(g: Cpg, order: seq<nat>, det: Detector, s: T.Scope, stamp: Stamp, p: seq<nat>, n: nat, x: nat)
    returns (f: Finding)
    requires WellFormed(Content(g)) && CompleteOrder(Content(g), order) && T.WellFormed(ProblemOf(g, order, det))
    requires Tainted(g, order, det, s, p, n, x)
    ensures f in FindingsOf(ProblemOf(g, order, det), s, stamp) && Joins(f, n, x)
  {
    hide Content, ProblemOf, WellFormed, CompleteOrder, Reads, Home, Step, T.WellFormed, FindingsOf, T.SeedItems,
      T.Reachable, T.Tabulated, FindingAt, T.Timed, T.Origins;
    var pb := ProblemOf(g, order, det);
    SeededHere(g, order, det, s, n);
    var k :| T.Item(n, k) in T.SeedItems(pb, s);
    TaintSpreads(g, order, det, s, p, k, |p| - 1);
    var time := T.TabulationExact(pb, s);
    SinkIs(g, order, det, x);
    ItemFinding(pb, s, stamp, T.Item(x, k));
    f := FindingAt(pb, s, T.Item(x, k), stamp);
    TrailStarts(g, order, det, s, stamp, n, f);
  }

  ghost predicate Reported(fs: set<Finding>, n: nat, x: nat) {
    exists f :: f in fs && Joins(f, n, x)
  }

  ghost predicate TaintedPair(g: Cpg, order: seq<nat>, det: Detector, s: T.Scope, n: nat, x: nat) {
    exists p :: Tainted(g, order, det, s, p, n, x)
  }

  lemma FindingsExactly(g: Cpg, order: seq<nat>, det: Detector, s: T.Scope, stamp: Stamp)
    requires WellFormed(Content(g)) && CompleteOrder(Content(g), order) && T.WellFormed(ProblemOf(g, order, det))
    ensures var fs := FindingsOf(ProblemOf(g, order, det), s, stamp);
            && (forall n, x :: Reported(fs, n, x) <==> TaintedPair(g, order, det, s, n, x))
            && (forall f :: f in fs ==> f.trail != [] && Tainted(g, order, det, s, f.trail, f.trail[0], f.sink))
            && forall f :: f in fs ==> f.stamp == stamp
  {
    hide Content, ProblemOf, WellFormed, CompleteOrder, T.WellFormed, FindingsOf, Tainted, T.Tabulated;
    var fs := FindingsOf(ProblemOf(g, order, det), s, stamp);
    forall f | f in fs
      ensures f.trail != [] && Tainted(g, order, det, s, f.trail, f.trail[0], f.sink) && f.stamp == stamp
    {
      WitnessTainted(g, order, det, s, stamp, f);
      FindingItem(ProblemOf(g, order, det), s, stamp, f);
    }
    forall n, x ensures Reported(fs, n, x) <==> TaintedPair(g, order, det, s, n, x) {
      if p :| Tainted(g, order, det, s, p, n, x) { var f := TaintReported(g, order, det, s, stamp, p, n, x); }
    }
  }

  /** The provenance of a finding: the detector, the pinned parameters, and the text and class
      of the canonical order under the default budget. */
  ghost predicate Stamped(g: Cpg, det: Detector, version: Bytes, env: Bytes, sha: Bytes -> Bytes, f: Finding) {
    var o := OutcomeOf(g, 0, 65536, sha);
    && (o.Strong? || o.Weak?)
    && f.stamp.spec == det.id && f.stamp.engine == det.engine && f.stamp.version == version && f.stamp.env == env
    && f.stamp.order == Preimage(o) && (f.stamp.strong <==> o.Strong?)
  }

  /** A full solve reports a source and a sink exactly if a tainted path joins them in the
      graph, gives such a path, and stamps every finding with its provenance. */
  lemma ReportedExactly(g: Cpg, det: Detector, version: Bytes, env: Bytes, sha: Bytes -> Bytes, sol: Solution)
    requires Valid(g) && SolvedFully(g, det, version, env, sha, sol)
    ensures WellFormed(Content(g)) && CompleteOrder(Content(g), OrderOf(g, sha))
    ensures forall n, x :: Reported(sol.findings, n, x) <==> TaintedPair(g, OrderOf(g, sha), det, T.Everywhere, n, x)
    ensures forall f :: f in sol.findings ==>
              f.trail != [] && Tainted(g, OrderOf(g, sha), det, T.Everywhere, f.trail, f.trail[0], f.sink)
    ensures forall f :: f in sol.findings ==> Stamped(g, det, version, env, sha, f)
  {
    hide Valid, Content, ProblemOf, WellFormed, CompleteOrder, T.WellFormed, FindingsOf, Tainted, OutcomeOf,
      T.Tabulated, T.Touched, Hashes, Preimage, Reported, TaintedPair;
    OutcomeEncodes(g, 0, STATE_LIMIT, sha);
    ContentWellFormed(g);
    var o := OutcomeOf(g, 0, STATE_LIMIT, sha);
    ProblemWellFormed(g, o.order, det);
    FindingsExactly(g, o.order, det, T.Everywhere, StampOf(det, version, env, o));
    assert sol.findings == FindingsOf(ProblemOf(g, o.order, det), T.Everywhere, StampOf(det, version, env, o));
  }

  lemma KeptIs(g: Cpg, order: seq<nat>, det: Detector, c: set<nat>, prior: set<Finding>)
    requires WellFormed(Content(g)) && CompleteOrder(Content(g), order)
    ensures Kept(ProblemOf(g, order, det), c, prior) == set f | f in prior && !Home(g, order, T.Only(c), f.sink)
  {
    hide Content, WellFormed, CompleteOrder, Owners, CfgTable, CallTable, SeedTable, MatchesAny, Ranks;
  }

  /** The result of an incremental solve: prior findings whose sink belongs to no recomputed
      procedure, and a finding for exactly the tainted paths that stay in scope. */
  lemma IncrementalReportsExactly(g: Cpg, det: Detector, version: Bytes, env: Bytes, sha: Bytes -> Bytes,
                                  affected: set<nat>, prior: set<Finding>, c: set<nat>, sol: Solution)
    returns (found: set<Finding>)
    requires Valid(g) && SolvedIncrementally(g, det, version, env, sha, affected, prior, c, sol)
    ensures WellFormed(Content(g)) && CompleteOrder(Content(g), OrderOf(g, sha))
    ensures sol.findings == found + set f | f in prior && !Home(g, OrderOf(g, sha), T.Only(c), f.sink)
    ensures forall n, x :: Reported(found, n, x) <==> TaintedPair(g, OrderOf(g, sha), det, T.Only(c), n, x)
    ensures forall f :: f in found ==>
              f.trail != [] && Tainted(g, OrderOf(g, sha), det, T.Only(c), f.trail, f.trail[0], f.sink)
    ensures forall f :: f in found ==> Stamped(g, det, version, env, sha, f)
  {
    hide Valid, Content, WellFormed, CompleteOrder, T.WellFormed, FindingsOf, Tainted, OutcomeOf, T.Tabulated,
      T.Touched, Hashes, Preimage, Reported, TaintedPair, ProblemOf, Kept, Home, IsClosure;
    OutcomeEncodes(g, 0, STATE_LIMIT, sha);
    ContentWellFormed(g);
    var o := OutcomeOf(g, 0, STATE_LIMIT, sha);
    ProblemWellFormed(g, o.order, det);
    FindingsExactly(g, o.order, det, T.Only(c), StampOf(det, version, env, o));
    KeptIs(g, o.order, det, c, prior);
    found := FindingsOf(ProblemOf(g, o.order, det), T.Only(c), StampOf(det, version, env, o));
  }

  // ----- what is visited and summarised

  /** From a source in scope to any node, with no sanitiser before the last. */
  ghost predicate Spreads(g: Cpg, order: seq<nat>, det: Detector, s: T.Scope, p: seq<nat>, x: nat) {
    && p != [] && p[|p| - 1] == x && Home(g, order, s, p[0]) && Reads(g, det.sources, p[0])
    && forall i :: 0 <= i < |p| - 1 ==> Step(g, s, p[i], p[i + 1]) && !Reads(g, det.sanitizers, p[i])
  }

  lemma ReachedSpreads(g: Cpg, order: seq<nat>, det: Detector, s: T.Scope, x: nat)
    requires WellFormed(Content(g)) && CompleteOrder(Content(g), order) && T.WellFormed(ProblemOf(g, order, det))
    ensures (exists f :: T.Item(x, f) in T.Tabulated(ProblemOf(g, order, det), s).pred) <==>
              exists p :: Spreads(g, order, det, s, p, x)
  {
    hide Content, ProblemOf, WellFormed, CompleteOrder, Reads, Home, Step, T.WellFormed, T.SeedItems, T.Reachable,
      T.Tabulated, T.Timed, T.Origins, W.Follows;
    var pb := ProblemOf(g, order, det);
    var time := T.TabulationExact(pb, s);
    if f :| T.Item(x, f) in T.Tabulated(pb, s).pred {
      W.TrailRealises(pb, s, T.Tabulated(pb, s).pred, time, T.Item(x, f));
      var t := W.Trail(T.Tabulated(pb, s).pred, time, T.Item(x, f));
      SeededHere(g, order, det, s, t[0]);
      forall i | 0 <= i < |t| - 1 ensures Step(g, s, t[i], t[i + 1]) && !Reads(g, det.sanitizers, t[i]) {
        FollowsIsStep(g, order, det, s, t[i], t[i + 1]);
      }
      assert Spreads(g, order, det, s, t, x);
    }
    if p :| Spreads(g, order, det, s, p, x) {
      SeededHere(g, order, det, s, p[0]);
      var k :| T.Item(p[0], k) in T.SeedItems(pb, s);
      TaintSpreads(g, order, det, s, p, k, |p| - 1);
    }
  }

  /** The visited procedures are the owners of the nodes that taint reaches. */
  lemma VisitedExactly(g: Cpg, order: seq<nat>, det: Detector, s: T.Scope, q: nat)
    requires WellFormed(Content(g)) && CompleteOrder(Content(g), order) && T.WellFormed(ProblemOf(g, order, det))
    ensures q in T.Touched(ProblemOf(g, order, det), T.Tabulated(ProblemOf(g, order, det), s).pred) <==>
              exists p, x :: Spreads(g, order, det, s, p, x) && x in Owners(Content(g), order)
                  && Owners(Content(g), order)[x] == q
  {
    hide Content, WellFormed, CompleteOrder, T.WellFormed, T.Tabulated, Spreads, Owners, CfgTable, CallTable,
      SeedTable, MatchesAny, Ranks;
    var pb := ProblemOf(g, order, det);
    if q in T.Touched(pb, T.Tabulated(pb, s).pred) {
      var y :| y in T.Tabulated(pb, s).pred && y.node in pb.procOf && pb.procOf[y.node] == q;
      assert y == T.Item(y.node, y.fact);
      ReachedSpreads(g, order, det, s, y.node);
    }
    if p, x :| Spreads(g, order, det, s, p, x) && x in Owners(Content(g), order) && Owners(Content(g), order)[x] == q {
      ReachedSpreads(g, order, det, s, x);
      var f :| T.Item(x, f) in T.Tabulated(pb, s).pred;
      assert T.Item(x, f).node in pb.procOf;
    }
  }

  /** A summary maps every fact that reaches the entry to all the facts found in the procedure. */
  lemma SummaryExactly(pb: T.Problem, s: T.Scope, procs: set<nat>, made: Summaries, q: nat, f: nat, h: nat)
    requires T.WellFormed(pb) && Recorded(pb, T.Tabulated(pb, s).pred, procs, made) && q in procs
    ensures q in made && (f in made[q] <==> T.Reachable(pb, s, T.Item(q, f)))
    ensures f in made[q] ==>
              (h in made[q][f] <==>
                 exists v :: v in pb.procOf && pb.procOf[v] == q && T.Reachable(pb, s, T.Item(v, h)))
  {
    hide T.WellFormed, T.Tabulated, T.Reachable, T.Timed, T.Origins;
    var pred := T.Tabulated(pb, s).pred;
    var time := T.TabulationExact(pb, s);
    if h in FactsIn(pb, pred, q) {
      var y :| y in pred && y.node in pb.procOf && pb.procOf[y.node] == q && y.fact == h;
      assert y == T.Item(y.node, h);
    }
    if v :| v in pb.procOf && pb.procOf[v] == q && T.Reachable(pb, s, T.Item(v, h)) {
      assert T.Item(v, h) in pred && T.Item(v, h).node == v;
    }
  }

  /** Parameters must be given, and prior findings must come from a run with the same ones. */
  lemma ParametersAre(version: Bytes, env: Bytes, f: Finding)
    ensures Pinned(version, env) <==> |version| > 0 && |env| > 0
    ensures SameRun(version, env, f) <==> f.stamp.version == version && f.stamp.env == env
  {
  }

  // ----- the closure

  /** A node of `p` calls the METHOD `q`. */
  ghost predicate Calls(g: Cpg, order: seq<nat>, p: nat, q: nat) {
    exists e :: e in g.edges && e.kind == CALL_KIND && e.dst == q && q in Content(g).labels
      && Content(g).labels[q].kind == METHOD_KIND && e.src in Owners(Content(g), order)
      && Owners(Content(g), order)[e.src] == p
  }

  ghost predicate CallsDown(g: Cpg, order: seq<nat>, affected: set<nat>, p: nat, chain: seq<nat>) {
    && chain != [] && chain[0] == p && chain[|chain| - 1] in affected
    && forall i :: 0 <= i < |chain| - 1 ==> Calls(g, order, chain[i], chain[i + 1])
  }

  lemma {:induction false} CallersAre(c: Graph, owners: map<nat, nat>, es: seq<Edge>, q: nat, p: nat)
    ensures p in CallersOf(c, owners, es, q) <==>
              exists e :: e in es && e.kind == CALL && e.dst == q && IsMethod(c, q) && e.src in owners
                  && owners[e.src] == p
  {
    hide Ascii;
    if es != [] {
      var front, d := es[..|es| - 1], es[|es| - 1];
      CallersAre(c, owners, front, q, p);
      assert es == front + [d];
      if e :| e in front && e.kind == CALL && e.dst == q && IsMethod(c, q) && e.src in owners && owners[e.src] == p {
        assert e in es;
      }
    }
  }

  lemma CallerIs(g: Cpg, order: seq<nat>, p: nat, q: nat)
    ensures DirectCaller(CallerTable(g, order), p, q) <==> Calls(g, order, p, q)
  {
    hide Ascii, CallersOf, Owners;
    KindsSpelt();
    CallersAre(Content(g), Owners(Content(g), order), g.edges, q, p);
  }

  /** The recomputed procedures are the affected ones and all that call down to one of them. */
  lemma ClosureExactly(g: Cpg, order: seq<nat>, affected: set<nat>, c: set<nat>, p: nat)
    requires IsClosure(g, order, affected, c)
    ensures p in c <==> exists chain :: CallsDown(g, order, affected, p, chain)
  {
    hide Calls, DirectCaller, CallerTable;
    var table := CallerTable(g, order);
    forall chain: seq<nat>, i | 0 <= i < |chain| - 1
      ensures DirectCaller(table, chain[i], chain[i + 1]) <==> Calls(g, order, chain[i], chain[i + 1])
    {
      CallerIs(g, order, chain[i], chain[i + 1]);
    }
    if p in affected { assert CallsDown(g, order, affected, p, [p]); }
    if chain :| CallChain(table, affected, p, chain) { assert CallsDown(g, order, affected, p, chain); }
    if chain :| CallsDown(g, order, affected, p, chain) {
      if |chain| >= 2 { assert CallChain(table, affected, p, chain); }
    }
  }

  // ----- facts

  /** The engines that are taken. */
  lemma EnginesAre(det: Detector)
    ensures Distributive(det) <==> det.engine == [105, 102, 100, 115] || det.engine == [105, 100, 101]
  {
    assert IFDS == [105, 102, 100, 115] && IDE == [105, 100, 101];
  }

  /** Facts are numbered from zero along ascending ids. */
  lemma {:induction false} SeedsAscend(c: Graph, ids: seq<nat>, sources: seq<Bytes>, i: nat, j: nat, a: nat, b: nat)
    requires Distinct(ids) && i < j < |ids|
    requires ids[i] in SeedTable(c, ids, sources) && a in SeedTable(c, ids, sources)[ids[i]]
    requires ids[j] in SeedTable(c, ids, sources) && b in SeedTable(c, ids, sources)[ids[j]]
    ensures a < b
  {
    hide FactCount, Below;
    var front := ids[..|ids| - 1];
    if j < |ids| - 1 {
      assert front[i] == ids[i] && front[j] == ids[j];
      SeedsAscend(c, front, sources, i, j, a, b);
    } else {
      assert front[i] == ids[i];
      SeedsBelow(c, front, sources, ids[i], a);
    }
  }

  lemma {:induction false} SeedsBelow(c: Graph, ids: seq<nat>, sources: seq<Bytes>, v: nat, a: nat)
    requires v in SeedTable(c, ids, sources) && a in SeedTable(c, ids, sources)[v]
    ensures a < FactCount(c, ids, sources)
  {
    var front := ids[..|ids| - 1];
    if v in SeedTable(c, front, sources) && a in SeedTable(c, front, sources)[v] {
      SeedsBelow(c, front, sources, v, a);
    }
  }
}
