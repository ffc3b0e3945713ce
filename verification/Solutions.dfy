/** Seeding, the tables of one run, and `solve`, the full solve. */
module Solutions {
  import opened ByteStrings
  import opened FiniteSets
  import opened Graphs
  import opened Encoding
  import opened Cells
  import opened Cpgs
  import opened Canonicality
  import opened CanonicalOrders
  import opened Slices
  import opened Supergraphs
  import opened SupergraphRuns
  import opened Incremental
  import opened TabulationRuns
  import opened Findings
  import opened Solver
  import T = Tabulation

  // ----- seeding

  ghost function Grant(table: map<nat, set<nat>>, v: nat, lo: nat, hi: nat): (r: map<nat, set<nat>>) {
    if lo == hi then table else table[v := Below(hi) - Below(lo)]
  }

  lemma GrantNext(table: map<nat, set<nat>>, v: nat, lo: nat, hi: nat)
    requires v !in table && lo <= hi
    ensures var t := Grant(table, v, lo, hi);
            Grant(table, v, lo, hi + 1) == t[v := (if v in t then t[v] else {}) + {hi}]
  {
    Span(lo, hi);
  }

  lemma GrantNothing(table: map<nat, set<nat>>, v: nat, lo: nat)
    ensures Grant(table, v, lo, lo) == table
  {
  }

  method SeedNode(table: map<nat, set<nat>>, sources: seq<Bytes>, v: nat, l: Label, first: nat)
    returns (seeded: map<nat, set<nat>>, next: nat)
    requires v !in table
    ensures next == first + CountMatches(sources, l) && seeded == Grant(table, v, first, next)
  {
    hide Matches, CountMatches, Grant;
    seeded, next := table, first;
    assert CountMatches(sources[..0], l) == 0 by { NoMatches(sources, l); }
    assert seeded == Grant(table, v, first, next) by { GrantNothing(table, v, first); }
    for j := 0 to |sources|
      invariant next == first + CountMatches(sources[..j], l) && seeded == Grant(table, v, first, next)
    {
      CountNext(sources, j, l);
      if Matches(sources[j], l) {
        GrantNext(table, v, first, next);
        seeded := seeded[v := (if v in seeded then seeded[v] else {}) + {next}];
        next := next + 1;
      }
    }
    assert sources[..|sources|] == sources;
  }

  lemma NoMatches(sources: seq<Bytes>, l: Label)
    ensures CountMatches(sources[..0], l) == 0
  {
  }

  lemma NoneSeeded(c: Graph, ids: seq<nat>, sources: seq<Bytes>)
    ensures FactCount(c, ids[..0], sources) == 0 && SeedTable(c, ids[..0], sources) == map[]
  {
  }

  lemma SeedNext(c: Graph, ids: seq<nat>, sources: seq<Bytes>, i: nat)
    requires i < |ids| && ids[i] in c.labels && ids[i] !in ids[..i]
    ensures var lo, hi := FactCount(c, ids[..i], sources), FactCount(c, ids[..i + 1], sources);
            && hi == lo + CountMatches(sources, c.labels[ids[i]])
            && ids[i] !in SeedTable(c, ids[..i], sources)
            && SeedTable(c, ids[..i + 1], sources) == Grant(SeedTable(c, ids[..i], sources), ids[i], lo, hi)
  {
    hide CountMatches;
    assert ids[..i + 1][..i] == ids[..i];
  }

  /** `_seed_sources`: one new fact per node and matching source clause. */
  method SeedSources(g: Cpg, sources: seq<Bytes>) returns (seeded: map<nat, set<nat>>)
    ensures seeded == SeedTable(Content(g), Ascending(Ids(g)), sources)
  {
    hide CountMatches, Ascending, Content, Ids, SeedTable, FactCount, Grant;
    var c := Content(g);
    var ids := SortFound(Ids(g));
    seeded := map[];
    var next := 0;
    NoneSeeded(c, ids, sources);
    for i := 0 to |ids|
      invariant next == FactCount(c, ids[..i], sources) && seeded == SeedTable(c, ids[..i], sources)
    {
      assert ids[i] in c.labels;
      SeedNext(c, ids, sources, i);
      seeded, next := SeedNode(seeded, sources, ids[i], c.labels[ids[i]], next);
    }
    assert ids[..|ids|] == ids;
  }

  lemma CountNext(sources: seq<Bytes>, j: nat, l: Label)
    requires j < |sources|
    ensures CountMatches(sources[..j + 1], l) == CountMatches(sources[..j], l) + if Matches(sources[j], l) then 1 else 0
  {
    assert sources[..j + 1][..j] == sources[..j];
  }

  lemma Span(lo: nat, next: nat)
    requires lo <= next
    ensures Below(next + 1) - Below(lo) == (Below(next) - Below(lo)) + {next}
    ensures lo == next ==> Below(next + 1) - Below(lo) == {next}
  {
  }

  /** Facts of different nodes are different, and each node carries exactly as
      many as it has matching clauses. */
  lemma {:induction false} SeedsApart(c: Graph, ids: seq<nat>, sources: seq<Bytes>, v: nat)
    requires Distinct(ids) && forall u :: u in ids ==> u in c.labels
    requires v in ids
    ensures var table := SeedTable(c, ids, sources);
            && (v in table <==> MatchesAny(sources, c.labels[v]))
            && (v in table ==> |table[v]| == CountMatches(sources, c.labels[v]))
            && (v in table ==> table[v] <= Below(FactCount(c, ids, sources)))
            && (forall u :: u in table && v in table && u != v ==> table[u] !! table[v])
  {
    hide CountMatches, MatchesAny, SeedTable, FactCount, Below;
    CountPositive(sources, c.labels[v]);
    var u, front := ids[|ids| - 1], ids[..|ids| - 1];
    assert ids[..|ids| - 1 + 1] == ids;
    assert u !in front;
    SeedsBelow(c, front, sources);
    SeedNext(c, ids, sources, |ids| - 1);
    SpanSize(FactCount(c, front, sources), FactCount(c, ids, sources));
    if u != v { SeedsApart(c, front, sources, v); }
  }

  lemma {:induction false} CountPositive(sources: seq<Bytes>, l: Label)
    ensures CountMatches(sources, l) > 0 <==> MatchesAny(sources, l)
  {
    hide Matches;
    if sources != [] {
      var front := sources[..|sources| - 1];
      CountPositive(front, l);
      if MatchesAny(front, l) {
        var i :| 0 <= i < |front| && Matches(front[i], l);
        assert Matches(sources[i], l);
      }
      if MatchesAny(sources, l) && !Matches(sources[|sources| - 1], l) {
        var i :| 0 <= i < |sources| && Matches(sources[i], l);
        assert Matches(front[i], l);
      }
    }
  }

  lemma SpanSize(lo: nat, hi: nat)
    requires lo <= hi
    ensures |Below(hi) - Below(lo)| == hi - lo
  {
    assert Below(lo) <= Below(hi);
    assert |Below(hi) - Below(lo)| == |Below(hi)| - |Below(lo)|;
  }

  lemma {:induction false} SeedsBelow(c: Graph, ids: seq<nat>, sources: seq<Bytes>)
    ensures forall u :: u in SeedTable(c, ids, sources) ==>
              SeedTable(c, ids, sources)[u] <= Below(FactCount(c, ids, sources))
  {
    if ids != [] { SeedsBelow(c, ids[..|ids| - 1], sources); }
  }

  // ----- the tables of one run

  lemma {:induction false} MembersComplete(c: Graph, order: seq<nat>, ns: seq<Node>, p: nat, v: nat)
    requires exists n :: n in ns && n.id == v
    requires v in c.labels && !IsMethod(c, v) && Owner(c, order, v) == Some(p)
    ensures v in Members(c, order, ns, p)
  {
    hide Owner, IsMethod;
    var n :| n in ns && n.id == v;
    if n != ns[|ns| - 1] {
      assert n in ns[..|ns| - 1];
      MembersComplete(c, order, ns[..|ns| - 1], p, v);
    }
  }

  /** A procedure's entry and body are exactly the nodes it owns. */
  lemma BodyExact(g: Cpg, order: seq<nat>, procs: map<nat, Procedure>, p: nat, v: nat)
    requires ProcsDescribed(g, order, procs) && p in procs
    ensures InProcedure(procs, p, v) <==> v in Owners(Content(g), order) && Owners(Content(g), order)[v] == p
  {
    hide Owner, Content, IsMethod, RanksAscend, Members, MethodName;
    assert v in procs[p].body <==> v in multiset(procs[p].body);
    if v in procs[p].body {
      assert v in multiset(Members(Content(g), order, g.nodes, p));
      MembersAreNodes(Content(g), order, g.nodes, p, v);
    }
    if v in Ids(g) && IsMethod(Content(g), v) { MethodOwnsItself(Content(g), order, v); }
    if v in Owners(Content(g), order) && Owners(Content(g), order)[v] == p && v != p {
      MembersComplete(Content(g), order, g.nodes, p, v);
      assert v in multiset(Members(Content(g), order, g.nodes, p));
    }
  }

  lemma PartitionHolds(g: Cpg, order: seq<nat>, det: Detector, procs: map<nat, Procedure>)
    requires WellFormed(Content(g)) && CompleteOrder(Content(g), order) && ProcsDescribed(g, order, procs)
    ensures Partitioned(ProblemOf(g, order, det), procs)
  {
    hide Owners, Content, Methods, WellFormed, CompleteOrder, SeedTable, CfgTable, CallTable, Ranks, MatchesAny;
    OwnersAreMethods(g, order);
    assert procs.Keys == Methods(g);
    var pb := ProblemOf(g, order, det);
    hide InProcedure, ProcsDescribed;
    forall p, v | p in procs ensures InProcedure(procs, p, v) <==> v in pb.procOf && pb.procOf[v] == p {
      BodyExact(g, order, procs, p, v);
    }
  }

  lemma RanksOrdered(g: Cpg, order: seq<nat>, det: Detector)
    requires WellFormed(Content(g)) && CompleteOrder(Content(g), order)
    ensures Ordered(ProblemOf(g, order, det), order)
  {
    hide WellFormed, SeedTable, CfgTable, CallTable, Owners, MatchesAny;
  }

  method Prepare(g: Cpg, det: Detector, order: seq<nat>) returns (pb: T.Problem, sg: Supergraph)
    requires Valid(g) && CompleteOrder(Content(g), order)
    ensures WellFormed(Content(g)) && Describes(g, order, sg) && pb == ProblemOf(g, order, det)
    ensures T.WellFormed(pb) && Partitioned(pb, sg.procs) && Ordered(pb, order)
  {
    hide Valid, Content, CompleteOrder, WellFormed, Owners, CfgTable, CallTable, CallGraphUpTo, ProcsDescribed,
      SeedTable, MatchesAny, Ranks;
    sg := BuildSupergraph(g, order);
    var seeded := SeedSources(g, det.sources);
    pb := T.Problem(Ids(g), sg.procOf, sg.cfg, sg.calls, Ranks(order), seeded,
                    set v | v in Ids(g) && MatchesAny(det.sanitizers, Content(g).labels[v]),
                    set v | v in Ids(g) && MatchesAny(det.sinks, Content(g).labels[v]));
    ProblemWellFormed(g, order, det);
    PartitionHolds(g, order, det, sg.procs);
    RanksOrdered(g, order, det);
  }

  // ----- results

  datatype Solution = Solution(findings: set<Finding>, hashed: Bytes, visited: set<nat>)

  datatype SolveOutcome =
    | Unpinned
    | NonDistributive
    | StaleSummaries
    | Malformed
    | Late
    | StaleFindings
    | Solved(solution: Solution)

  ghost predicate Lists(fs: seq<Finding>, s: set<Finding>) {
    Distinct(fs) && Elements(fs) == s
  }

  lemma ListMore(kept: seq<Finding>, s: set<Finding>, f: Finding)
    requires Lists(kept, s) && f !in s
    ensures Lists(kept + [f], s + {f})
  {
    assert f in kept ==> f in Elements(kept);
    assert Elements(kept + [f]) == Elements(kept) + {f};
  }

  lemma NothingListed(b: seq<Finding>)
    ensures Elements(b) == {} ==> b == []
  {
    if b != [] { assert b[0] in Elements(b); }
  }

  /** The fresh findings in some order, then the kept ones in some order, are
      sorted and written out. */
  ghost predicate Hashes(rank: map<nat, nat>, found: set<Finding>, kept: set<Finding>, h: Bytes) {
    exists a, b :: Lists(a, found) && Lists(b, kept) && h == SolutionBytes(SortFindings(rank, a + b))
  }

  ghost predicate IsSolution(pb: T.Problem, s: T.Scope, kept: set<Finding>, stamp: Stamp, sol: Solution)
    requires T.WellFormed(pb)
  {
    && sol.findings == FindingsOf(pb, s, stamp) + kept
    && sol.visited == T.Touched(pb, T.Tabulated(pb, s).pred)
    && Hashes(pb.rank, FindingsOf(pb, s, stamp), kept, sol.hashed)
  }

  function StampOf(det: Detector, version: Bytes, env: Bytes, o: Outcome): (r: Stamp)
    requires o.Strong? || o.Weak?
  {
    Stamp(det.id, det.engine, version, env, Preimage(o), o.Strong?)
  }

  lemma InOrderOnce(rank: map<nat, nat>, fs: seq<Finding>)
    requires InHashOrder(rank, fs)
    ensures Distinct(fs)
  {
  }

  /** Tabulate, read out, and hash: the part both entry points share. */
  method Conclude(pb: T.Problem, procs: map<nat, Procedure>, order: seq<nat>, s: T.Scope, cache: SummaryCache,
                  kept: seq<Finding>, stamp: Stamp)
    returns (sol: Solution, ghost made: Summaries)
    requires T.WellFormed(pb) && Partitioned(pb, procs) && Ordered(pb, order) && Invalidated(s, cache.summaries)
    requires Distinct(kept)
    modifies cache`summaries, cache`visited
    ensures IsSolution(pb, s, Elements(kept), stamp, sol)
    ensures Recorded(pb, T.Tabulated(pb, s).pred, sol.visited, made)
    ensures cache.summaries == old(cache.summaries) + made && cache.visited == old(cache.visited) + sol.visited
  {
    hide T.WellFormed, T.Tabulated, Partitioned, Ordered, Invalidated, Recorded, FindingsOf, InHashOrder, Distinct,
      Queue, NoRepeat, FactsMatch, T.Touched, SortFindings, SolutionBytes;
    var p;
    p, made := Tabulate(pb, procs, s, cache);
    var fs := BuildFindings(pb, s, p, order, stamp);
    InOrderOnce(pb.rank, fs);
    var h := HashedBytes(fs + kept, pb.rank);
    assert Lists(fs, FindingsOf(pb, s, stamp)) && Lists(kept, Elements(kept));
    sol := Solution((set f | f in fs) + (set f | f in kept), h, p.visited);
  }

  // ----- the full solve

  ghost predicate SolvedFully(g: Cpg, det: Detector, version: Bytes, env: Bytes, sha: Bytes -> Bytes, sol: Solution)
    requires Valid(g)
  {
    var o := OutcomeOf(g, 0, STATE_LIMIT, sha);
    OutcomeEncodes(g, 0, STATE_LIMIT, sha);
    ProblemWellFormed(g, o.order, det);
    IsSolution(ProblemOf(g, o.order, det), T.Everywhere, {}, StampOf(det, version, env, o), sol)
  }

  /** One summary per visited procedure, as the run in that scope found its facts. */
  ghost predicate Summarised(g: Cpg, det: Detector, sha: Bytes -> Bytes, s: T.Scope, visited: set<nat>, made: Summaries)
    requires Valid(g)
  {
    var o := OutcomeOf(g, 0, STATE_LIMIT, sha);
    OutcomeEncodes(g, 0, STATE_LIMIT, sha);
    ProblemWellFormed(g, o.order, det);
    var pb := ProblemOf(g, o.order, det);
    Recorded(pb, T.Tabulated(pb, s).pred, visited, made)
  }

  lemma SummariesFound(g: Cpg, det: Detector, sha: Bytes -> Bytes, s: T.Scope, pb: T.Problem, visited: set<nat>,
                       made: Summaries)
    requires Valid(g) && WellFormed(Content(g))
    requires var o := OutcomeOf(g, 0, STATE_LIMIT, sha);
             && (o.Strong? || o.Weak?) && CompleteOrder(Content(g), o.order) && pb == ProblemOf(g, o.order, det)
             && T.WellFormed(pb) && Recorded(pb, T.Tabulated(pb, s).pred, visited, made)
    ensures Summarised(g, det, sha, s, visited, made)
  {
    hide Valid, OutcomeOf, ProblemOf, Content, WellFormed, CompleteOrder, T.WellFormed, Recorded, T.Tabulated;
  }

  predicate Pinned(version: Bytes, env: Bytes) {
    version != [] && env != []
  }

  predicate Distributive(det: Detector) {
    det.engine == IFDS || det.engine == IDE
  }

  method Solve(g: Cpg, det: Detector, version: Bytes, env: Bytes, sha: Bytes -> Bytes)
    returns (r: SolveOutcome, cache: SummaryCache?)
    ensures r.Unpinned? <==> !Pinned(version, env)
    ensures r.NonDistributive? <==> Pinned(version, env) && !Distributive(det)
    ensures r.Malformed? ==> !Valid(g)
    ensures r.Unpinned? || r.NonDistributive? || r.Malformed? || r.Late? || r.Solved?
    ensures r.Solved? ==> Valid(g) && SolvedFully(g, det, version, env, sha, r.solution)
    ensures r.Solved? ==> cache != null && fresh(cache) && cache.header == (version, env)
    ensures r.Solved? ==> cache.visited == r.solution.visited
    ensures r.Solved? ==> Summarised(g, det, sha, T.Everywhere, r.solution.visited, cache.summaries)
  {
    hide Valid, OutcomeOf, ProblemOf, Content, WellFormed, CompleteOrder, SolvedFully, Summarised, Ascii, Encode;
    cache := null;
    if version == [] || env == [] { return Unpinned, null; }
    if det.engine != IFDS && det.engine != IDE { return NonDistributive, null; }
    var o := CanonicalOrder(g, STATE_LIMIT, sha);
    if o == Deadline { return Late, null; }
    if o == Rejected {
      OutcomeRejected(g, sha);
      return Malformed, null;
    }
    OutcomeRejected(g, sha);
    OutcomeEncodes(g, 0, STATE_LIMIT, sha);
    var sol;
    sol, cache := SolveInOrder(g, det, version, env, sha, o);
    r := Solved(sol);
  }

  method SolveInOrder(g: Cpg, det: Detector, version: Bytes, env: Bytes, ghost sha: Bytes -> Bytes, o: Outcome)
    returns (sol: Solution, cache: SummaryCache)
    requires Valid(g) && o == OutcomeOf(g, 0, STATE_LIMIT, sha) && (o.Strong? || o.Weak?)
    requires CompleteOrder(Content(g), o.order)
    ensures SolvedFully(g, det, version, env, sha, sol)
    ensures fresh(cache) && cache.header == (version, env) && cache.visited == sol.visited
    ensures Summarised(g, det, sha, T.Everywhere, sol.visited, cache.summaries)
  {
    hide Valid, OutcomeOf, ProblemOf, Content, WellFormed, CompleteOrder, Describes, T.WellFormed, Partitioned,
      Ordered, IsSolution, Preimage, Summarised, Recorded, SolvedFully, T.Tabulated, Ascii;
    var pb, sg := Prepare(g, det, o.order);
    cache := new SummaryCache(version, env, map[], {});
    assert Elements<Finding>([]) == {};
    ghost var made;
    sol, made := Conclude(pb, sg.procs, o.order, T.Everywhere, cache, [], StampOf(det, version, env, o));
    FullSolution(g, det, version, env, sha, pb, sol);
    assert map[] + made == made;
    SummariesFound(g, det, sha, T.Everywhere, pb, sol.visited, made);
  }

  lemma FullSolution(g: Cpg, det: Detector, version: Bytes, env: Bytes, sha: Bytes -> Bytes, pb: T.Problem,
                     sol: Solution)
    requires Valid(g) && WellFormed(Content(g))
    requires var o := OutcomeOf(g, 0, STATE_LIMIT, sha);
             && (o.Strong? || o.Weak?) && CompleteOrder(Content(g), o.order) && pb == ProblemOf(g, o.order, det)
             && T.WellFormed(pb) && IsSolution(pb, T.Everywhere, {}, StampOf(det, version, env, o), sol)
    ensures SolvedFully(g, det, version, env, sha, sol)
  {
    hide Valid, OutcomeOf, ProblemOf, Content, WellFormed, CompleteOrder, T.WellFormed, IsSolution, StampOf;
  }

  lemma OutcomeRejected(g: Cpg, sha: Bytes -> Bytes)
    ensures OutcomeOf(g, 0, STATE_LIMIT, sha) == Rejected <==> !Valid(g)
    ensures OutcomeOf(g, 0, STATE_LIMIT, sha) != Deadline
  {
    hide Valid, Content, WellFormed, Encode, WeakOrders.WeakOrder, Winner, Finishes, StatesAfter;
  }
}
