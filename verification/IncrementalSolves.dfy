/** `incremental_solve`, and its agreement with `solve` on an unchanged graph. */
module IncrementalSolves {
  import opened FiniteSets
  import opened ByteStrings
  import opened Graphs
  import opened Encoding
  import opened Cpgs
  import opened CanonicalOrders
  import opened Supergraphs
  import opened SupergraphRuns
  import opened Incremental
  import opened Boundaries
  import opened TabulationRuns
  import opened Findings
  import opened Solver
  import opened Solutions
  import opened Readings
  import T = Tabulation

  // ----- the closure that is recomputed

  function CallerTable(g: Cpg, order: seq<nat>): (r: map<nat, set<nat>>) {
    map q | q in Methods(g) :: CallersOf(Content(g), Owners(Content(g), order), g.edges, q)
  }

  /** The affected procedures and everything that can transitively call them. */
  ghost predicate IsClosure(g: Cpg, order: seq<nat>, affected: set<nat>, c: set<nat>) {
    forall p :: p in c <==> p in affected || CallsInto(CallerTable(g, order), affected, p)
  }

  lemma {:induction false} CallersOnlyOfMethods(c: Graph, owners: map<nat, nat>, es: seq<Edge>, q: nat, p: nat)
    requires p in CallersOf(c, owners, es, q)
    ensures IsMethod(c, q)
  {
    hide IsMethod;
    if p in CallersOf(c, owners, es[..|es| - 1], q) { CallersOnlyOfMethods(c, owners, es[..|es| - 1], q, p); }
  }

  lemma ClosureCallerClosed(g: Cpg, order: seq<nat>, det: Detector, affected: set<nat>, c: set<nat>)
    requires WellFormed(Content(g)) && CompleteOrder(Content(g), order) && IsClosure(g, order, affected, c)
    ensures T.WellFormed(ProblemOf(g, order, det)) && CallerClosed(ProblemOf(g, order, det), c)
  {
    hide Content, Owners, CallersOf, CallsInto, WellFormed, CompleteOrder, ProblemOf, CallerClosed, IsMethod;
    forall q, p | q in c && p in CallersOf(Content(g), Owners(Content(g), order), g.edges, q) ensures p in c {
      CallersOnlyOfMethods(Content(g), Owners(Content(g), order), g.edges, q, p);
      MethodIsNode(Content(g), q);
      assert DirectCaller(CallerTable(g, order), p, q);
      CallsIntoSeed(CallerTable(g, order), affected, p, q);
    }
    CallersCover(g, order, det, c);
  }

  // ----- prior findings

  ghost function Kept(pb: T.Problem, c: set<nat>, prior: set<Finding>): (r: set<Finding>) {
    set f | f in prior && Preserved(pb, c, f)
  }

  method KeepOutside(pb: T.Problem, c: set<nat>, prior: set<Finding>) returns (kept: seq<Finding>)
    ensures Lists(kept, Kept(pb, c, prior))
  {
    hide Preserved, Lists;
    kept := [];
    assert Lists(kept, Kept(pb, c, prior - prior)) by { NothingKept(pb, c, prior); }
    var rest := prior;
    while rest != {}
      invariant rest <= prior && Lists(kept, Kept(pb, c, prior - rest))
      decreases rest
    {
      var f :| f in rest;
      assert f !in Kept(pb, c, prior - rest);
      ListMore(kept, Kept(pb, c, prior - rest), f);
      KeptMore(pb, c, prior, rest, f);
      rest := rest - {f};
      if Preserved(pb, c, f) { kept := kept + [f]; }
    }
    assert prior - rest == prior;
  }

  lemma NothingKept(pb: T.Problem, c: set<nat>, prior: set<Finding>)
    ensures Lists([], Kept(pb, c, prior - prior))
  {
  }

  lemma KeptMore(pb: T.Problem, c: set<nat>, prior: set<Finding>, rest: set<Finding>, f: Finding)
    requires f in rest && rest <= prior
    ensures Kept(pb, c, prior - (rest - {f})) ==
            if Preserved(pb, c, f) then Kept(pb, c, prior - rest) + {f} else Kept(pb, c, prior - rest)
  {
    hide Preserved;
  }

  predicate SameRun(version: Bytes, env: Bytes, f: Finding) {
    f.stamp.version == version && f.stamp.env == env
  }

  method AllSameRun(version: Bytes, env: Bytes, prior: set<Finding>) returns (ok: bool)
    ensures ok <==> forall f :: f in prior ==> SameRun(version, env, f)
  {
    var rest := prior;
    while rest != {}
      invariant rest <= prior && forall f :: f in prior - rest ==> SameRun(version, env, f)
      decreases rest
    {
      var f :| f in rest;
      if !SameRun(version, env, f) { return false; }
      rest := rest - {f};
    }
    ok := true;
  }

  // ----- the incremental solve

  ghost predicate SolvedIncrementally(g: Cpg, det: Detector, version: Bytes, env: Bytes, sha: Bytes -> Bytes,
                                      affected: set<nat>, prior: set<Finding>, c: set<nat>, sol: Solution)
    requires Valid(g)
  {
    var o := OutcomeOf(g, 0, STATE_LIMIT, sha);
    OutcomeEncodes(g, 0, STATE_LIMIT, sha);
    ProblemWellFormed(g, o.order, det);
    var pb := ProblemOf(g, o.order, det);
    IsClosure(g, o.order, affected, c)
        && IsSolution(pb, T.Only(c), Kept(pb, c, prior), StampOf(det, version, env, o), sol)
  }

  /** Whatever the prior cache holds, the result depends only on its header. */
  method IncrementalSolve(g: Cpg, det: Detector, affected: set<nat>, before: SummaryCache, version: Bytes, env: Bytes,
                          prior: set<Finding>, sha: Bytes -> Bytes)
    returns (r: SolveOutcome, cache: SummaryCache?, ghost c: set<nat>, ghost made: Summaries)
    ensures r.Unpinned? <==> !Pinned(version, env)
    ensures r.NonDistributive? <==> Pinned(version, env) && !Distributive(det)
    ensures r.StaleSummaries? <==> Pinned(version, env) && Distributive(det) && before.header != (version, env)
    ensures r.Malformed? ==> !Valid(g)
    ensures r.StaleFindings? ==> exists f :: f in prior && !SameRun(version, env, f)
    ensures r.Solved? ==> forall f :: f in prior ==> SameRun(version, env, f)
    ensures r.Solved? ==> Valid(g) && SolvedIncrementally(g, det, version, env, sha, affected, prior, c, r.solution)
    ensures r.Solved? ==> cache != null && fresh(cache) && cache.header == (version, env)
    ensures r.Solved? ==> cache.summaries == before.summaries - c + made
    ensures r.Solved? ==> cache.visited == before.visited - c + r.solution.visited
    ensures r.Solved? ==> Summarised(g, det, sha, T.Only(c), r.solution.visited, made)
  {
    hide Valid, OutcomeOf, ProblemOf, Content, WellFormed, CompleteOrder, SolvedIncrementally, Summarised, Ascii,
      Encode, SameRun;
    cache, c, made := null, {}, map[];
    if version == [] || env == [] { return Unpinned, null, {}, map[]; }
    if det.engine != IFDS && det.engine != IDE { return NonDistributive, null, {}, map[]; }
    if before.header != (version, env) { return StaleSummaries, null, {}, map[]; }
    var o := CanonicalOrder(g, STATE_LIMIT, sha);
    if o == Deadline { return Late, null, {}, map[]; }
    OutcomeRejected(g, sha);
    if o == Rejected { return Malformed, null, {}, map[]; }
    OutcomeEncodes(g, 0, STATE_LIMIT, sha);
    var ok := AllSameRun(version, env, prior);
    if !ok { return StaleFindings, null, {}, map[]; }
    var sol;
    sol, cache, c, made := SolveWithin(g, det, affected, before, version, env, prior, sha, o);
    r := Solved(sol);
  }

  method SolveWithin(g: Cpg, det: Detector, affected: set<nat>, before: SummaryCache, version: Bytes, env: Bytes,
                     prior: set<Finding>, ghost sha: Bytes -> Bytes, o: Outcome)
    returns (sol: Solution, cache: SummaryCache, ghost c: set<nat>, ghost made: Summaries)
    requires before.header == (version, env)
    requires Valid(g) && o == OutcomeOf(g, 0, STATE_LIMIT, sha) && (o.Strong? || o.Weak?)
    requires CompleteOrder(Content(g), o.order)
    ensures SolvedIncrementally(g, det, version, env, sha, affected, prior, c, sol)
    ensures fresh(cache) && cache.header == (version, env)
    ensures cache.summaries == before.summaries - c + made && cache.visited == before.visited - c + sol.visited
    ensures Summarised(g, det, sha, T.Only(c), sol.visited, made)
  {
    hide Valid, OutcomeOf, ProblemOf, Content, WellFormed, CompleteOrder, T.WellFormed, Partitioned, Ordered,
      IsSolution, Preimage, Summarised, Recorded, SolvedIncrementally, T.Tabulated, Ascii, Kept, Distinct, Elements,
      IsClosure, Describes;
    var pb, sg := Prepare(g, det, o.order);
    var callers := TransitiveCallers(sg.callers, affected);
    var closure := affected + callers;
    c := closure;
    ClosureFound(g, o.order, sg, affected, callers);
    cache := before.Copy();
    cache.Invalidate(closure);
    var kept := KeepOutside(pb, closure, prior);
    sol, made := Conclude(pb, sg.procs, o.order, T.Only(closure), cache, kept, StampOf(det, version, env, o));
    SummariesFound(g, det, sha, T.Only(closure), pb, sol.visited, made);
    PartSolution(g, det, version, env, sha, affected, prior, closure, pb, sol);
  }

  lemma ClosureFound(g: Cpg, order: seq<nat>, sg: Supergraph, affected: set<nat>, callers: set<nat>)
    requires WellFormed(Content(g)) && CompleteOrder(Content(g), order) && Describes(g, order, sg)
    requires forall p :: p in callers <==> CallsInto(sg.callers, affected, p)
    ensures IsClosure(g, order, affected, affected + callers)
  {
    hide Content, Owners, CallersOf, CallsInto, WellFormed, CompleteOrder, CfgTable, CallTable, ProcsDescribed,
      Mirrored;
    assert sg.callers == CallerTable(g, order);
  }

  lemma PartSolution(g: Cpg, det: Detector, version: Bytes, env: Bytes, sha: Bytes -> Bytes, affected: set<nat>,
                     prior: set<Finding>, c: set<nat>, pb: T.Problem, sol: Solution)
    requires Valid(g) && WellFormed(Content(g))
    requires var o := OutcomeOf(g, 0, STATE_LIMIT, sha);
             && (o.Strong? || o.Weak?) && CompleteOrder(Content(g), o.order) && pb == ProblemOf(g, o.order, det)
             && T.WellFormed(pb) && IsClosure(g, o.order, affected, c)
             && IsSolution(pb, T.Only(c), Kept(pb, c, prior), StampOf(det, version, env, o), sol)
    ensures SolvedIncrementally(g, det, version, env, sha, affected, prior, c, sol)
  {
    hide Valid, OutcomeOf, ProblemOf, Content, WellFormed, CompleteOrder, T.WellFormed, IsSolution, StampOf,
      IsClosure, Kept;
  }

  // ----- agreement with the full solve

  lemma FullKeysApart(pb: T.Problem, s: T.Scope, stamp: Stamp)
    requires T.WellFormed(pb)
    ensures KeysApart(pb.rank, FindingsOf(pb, s, stamp))
  {
    hide T.Tabulated, FindingsOf, FindingAt;
    forall f, h | f in FindingsOf(pb, s, stamp) && h in FindingsOf(pb, s, stamp)
                  && AtMost(pb.rank, f, h) && AtMost(pb.rank, h, f)
      ensures f == h
    {
      FindingItem(pb, s, stamp, f);
      FindingItem(pb, s, stamp, h);
      assert pb.rank[f.sink] == pb.rank[h.sink];
    }
  }

  lemma JoinOnce(pb: T.Problem, c: set<nat>, stamp: Stamp, a: seq<Finding>, b: seq<Finding>, prior: set<Finding>)
    requires T.WellFormed(pb) && SinksInside(pb, c)
    requires Lists(a, FindingsOf(pb, T.Only(c), stamp)) && Lists(b, Kept(pb, c, prior))
    ensures Distinct(a + b) && Elements(a + b) == FindingsOf(pb, T.Only(c), stamp) + Kept(pb, c, prior)
  {
    hide T.Tabulated, FindingsOf, T.WellFormed, FindingAt;
    forall i, j | 0 <= i < |a| && 0 <= j < |b| ensures a[i] != b[j] {
      assert a[i] in Elements(a) && b[j] in Elements(b);
      FindingItem(pb, T.Only(c), stamp, a[i]);
      assert T.Item(a[i].sink, a[i].fact).node == a[i].sink;
    }
    assert Elements(a + b) == Elements(a) + Elements(b);
  }

  lemma SameHash(pb: T.Problem, c: set<nat>, stamp: Stamp, full: Bytes, part: Bytes)
    requires T.WellFormed(pb) && SinksInside(pb, c)
    requires var all := FindingsOf(pb, T.Everywhere, stamp);
             && Hashes(pb.rank, all, {}, full)
             && Hashes(pb.rank, FindingsOf(pb, T.Only(c), stamp), Kept(pb, c, all), part)
             && FindingsOf(pb, T.Only(c), stamp) + Kept(pb, c, all) == all
    ensures full == part
  {
    hide T.WellFormed, FindingsOf, SinksInside, Kept, KeysApart, SortFindings, SolutionBytes;
    var all := FindingsOf(pb, T.Everywhere, stamp);
    var a, b :| Lists(a, all) && Lists(b, {}) && full == SolutionBytes(SortFindings(pb.rank, a + b));
    var d, e :| Lists(d, FindingsOf(pb, T.Only(c), stamp)) && Lists(e, Kept(pb, c, all))
                && part == SolutionBytes(SortFindings(pb.rank, d + e));
    NothingListed(b);
    assert a + b == a;
    JoinOnce(pb, c, stamp, d, e, all);
    FullKeysApart(pb, T.Everywhere, stamp);
    SortedOnce(pb.rank, a, d + e);
  }

  /** The two solutions have the same findings and hashed bytes, and the second
      touched only procedures of `c`. */
  predicate Reproduces(c: set<nat>, full: Solution, part: Solution) {
    part.findings == full.findings && part.hashed == full.hashed && part.visited <= c
  }

  lemma SolutionsAgree(pb: T.Problem, lit: set<nat>, c: set<nat>, stamp: Stamp, full: Solution, part: Solution)
    requires T.WellFormed(pb) && Readable(pb, lit) && Separated(pb, lit, c) && !Rejoins(pb, lit, c)
    requires IsSolution(pb, T.Everywhere, {}, stamp, full)
    requires IsSolution(pb, T.Only(c), Kept(pb, c, full.findings), stamp, part)
    ensures Reproduces(c, full, part)
  {
    hide T.WellFormed, FindingsOf, Hashes, T.Tabulated, T.Touched, Covered, Contained, Housed, Rejoins, Readable,
      Splits, PartItems, SinksKept, SinksInside;
    assert full.findings == FindingsOf(pb, T.Everywhere, stamp);
    SplitsApart(pb, lit, c);
    CoveredKeepsSinks(pb, lit, c);
    IncrementalEqualsFull(pb, c, PartItems(pb, c), stamp);
    ContainedStays(pb, lit, c);
    HousedSinks(pb, lit, c);
    SameHash(pb, c, stamp, full.hashed, part.hashed);
  }

  /** The tables of the graph in the order both solves walk it. */
  ghost function TablesOf(g: Cpg, sha: Bytes -> Bytes): (pb: T.Problem)
    requires Valid(g)
    ensures T.WellFormed(pb)
  {
    OutcomeEncodes(g, 0, STATE_LIMIT, sha);
    Tables(g, OutcomeOf(g, 0, STATE_LIMIT, sha).order)
  }

  /** Fed a full solve's findings over the same graph, an incremental solve returns
      the same findings with the same witnesses and the same hashed bytes, touching
      only the recomputed procedures; and it is never refused for stale findings. */
  lemma IncrementalReproducesFull(g: Cpg, det: Detector, version: Bytes, env: Bytes, sha: Bytes -> Bytes,
                                  affected: set<nat>, full: Solution, c: set<nat>, part: Solution)
    requires Valid(g) && Separated(TablesOf(g, sha), Texted(g), c) && !Rejoins(TablesOf(g, sha), Texted(g), c)
    requires SolvedFully(g, det, version, env, sha, full)
    requires SolvedIncrementally(g, det, version, env, sha, affected, full.findings, c, part)
    ensures Reproduces(c, full, part)
    ensures forall f :: f in full.findings ==> SameRun(version, env, f)
  {
    hide Valid, OutcomeOf, ProblemOf, Content, WellFormed, CompleteOrder, T.WellFormed, IsSolution, IsClosure, Kept,
      FindingsOf, Preimage, Covered, Contained, Housed, Rejoins, Readable, SameSkeleton, Tables, Texted;
    var o := OutcomeOf(g, 0, STATE_LIMIT, sha);
    OutcomeEncodes(g, 0, STATE_LIMIT, sha);
    var pb := ProblemOf(g, o.order, det);
    TablesShared(g, o.order, det);
    ProblemReadable(g, o.order, det);
    ConditionsSame(Tables(g, o.order), pb, Texted(g), c);
    SolutionsAgree(pb, Texted(g), c, StampOf(det, version, env, o), full, part);
    FindingsStamped(pb, StampOf(det, version, env, o), full);
  }

  /** Where control flow stays inside procedures, this holds for every affected set. */
  lemma ClosureReproducesFull(g: Cpg, det: Detector, version: Bytes, env: Bytes, sha: Bytes -> Bytes,
                              affected: set<nat>, full: Solution, c: set<nat>, part: Solution)
    requires Valid(g) && Intraprocedural(TablesOf(g, sha))
    requires SolvedFully(g, det, version, env, sha, full)
    requires SolvedIncrementally(g, det, version, env, sha, affected, full.findings, c, part)
    ensures Reproduces(c, full, part)
    ensures IsClosure(g, OutcomeOf(g, 0, STATE_LIMIT, sha).order, affected, c)
  {
    hide Valid, OutcomeOf, ProblemOf, Content, WellFormed, CompleteOrder, T.WellFormed, IsSolution, IsClosure, Kept,
      CallerClosed, Intraprocedural, Covered, Contained, Housed, Rejoins, Preimage, Texted;
    var o := OutcomeOf(g, 0, STATE_LIMIT, sha);
    OutcomeEncodes(g, 0, STATE_LIMIT, sha);
    ClosureCallerClosed(g, o.order, SILENT, affected, c);
    IntraproceduralSeparates(TablesOf(g, sha), Texted(g), c);
    IncrementalReproducesFull(g, det, version, env, sha, affected, full, c, part);
  }

  lemma FindingsStamped(pb: T.Problem, stamp: Stamp, full: Solution)
    requires T.WellFormed(pb) && IsSolution(pb, T.Everywhere, {}, stamp, full)
    ensures forall f :: f in full.findings ==> SameRun(stamp.version, stamp.env, f)
  {
    hide T.WellFormed, FindingsOf, Hashes, T.Tabulated, FindingAt;
    forall f | f in full.findings ensures SameRun(stamp.version, stamp.env, f) {
      FindingItem(pb, T.Everywhere, stamp, f);
    }
  }
}
