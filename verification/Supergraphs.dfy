/** `build_supergraph`, `_seed_sources` and the clause readings: from a graph, a
    node order and a detector to the tables the solver walks. */
module Supergraphs {
  import opened ByteStrings
  import opened FiniteSets
  import opened Graphs
  import opened Encoding
  import opened Cells
  import opened Cpgs
  import T = Tabulation
  import B = Boundaries

  datatype Detector = Detector(id: Bytes, engine: Bytes, sources: seq<Bytes>, sanitizers: seq<Bytes>, sinks: seq<Bytes>)

  const METHOD := Ascii("METHOD")
  const CFG := Ascii("CFG")
  const CALL := Ascii("CALL")

  // ----- procedures

  predicate IsMethod(c: Graph, v: nat) {
    v in c.labels && c.labels[v].kind == METHOD
  }

  function MethodName(l: Label): (r: Bytes) {
    if l.fqn != [] then l.fqn else l.decl
  }

  /** Of several methods with one name, the last in canonical order owns it. */
  function ProcNamed(c: Graph, order: seq<nat>, name: Bytes): (r: Option<nat>)
    ensures r.Some? ==> r.value in order && IsMethod(c, r.value)
  {
    if order == [] then None
    else
      var v := order[|order| - 1];
      if IsMethod(c, v) && MethodName(c.labels[v]) == name then Some(v)
      else ProcNamed(c, order[..|order| - 1], name)
  }

  function Owner(c: Graph, order: seq<nat>, v: nat): (r: Option<nat>)
    requires v in c.labels
  {
    if IsMethod(c, v) then Some(v)
    else if c.labels[v].decl == [] then None
    else ProcNamed(c, order, c.labels[v].decl)
  }

  function Owners(c: Graph, order: seq<nat>): (r: map<nat, nat>) {
    map v | v in c.labels && Owner(c, order, v).Some? :: Owner(c, order, v).value
  }

  // ----- adjacency

  function CfgTargets(es: seq<Edge>, v: nat): (r: seq<nat>) {
    if es == [] then []
    else
      var e := es[|es| - 1];
      CfgTargets(es[..|es| - 1], v) + if e.kind == CFG && e.src == v then [e.dst] else []
  }

  function CallTargets(c: Graph, es: seq<Edge>, v: nat): (r: seq<nat>) {
    if es == [] then []
    else
      var e := es[|es| - 1];
      CallTargets(c, es[..|es| - 1], v) + if e.kind == CALL && e.src == v && IsMethod(c, e.dst) then [e.dst] else []
  }

  /** The procedures with a call site that targets `q`. */
  function CallersOf(c: Graph, owners: map<nat, nat>, es: seq<Edge>, q: nat): (r: set<nat>) {
    if es == [] then {}
    else
      var e := es[|es| - 1];
      CallersOf(c, owners, es[..|es| - 1], q) +
      if e.kind == CALL && e.dst == q && IsMethod(c, e.dst) && e.src in owners then {owners[e.src]} else {}
  }

  lemma {:induction false} CfgTargetIsEdge(es: seq<Edge>, v: nat, n: nat)
    requires n in CfgTargets(es, v)
    ensures Edge(v, n, CFG) in es
  {
    var e := es[|es| - 1];
    if n in CfgTargets(es[..|es| - 1], v) {
      CfgTargetIsEdge(es[..|es| - 1], v, n);
    } else {
      assert e == Edge(v, n, CFG);
    }
  }

  lemma {:induction false} CallTargetIsEdge(c: Graph, es: seq<Edge>, v: nat, n: nat)
    requires n in CallTargets(c, es, v)
    ensures Edge(v, n, CALL) in es && IsMethod(c, n)
  {
    if n in CallTargets(c, es[..|es| - 1], v) {
      CallTargetIsEdge(c, es[..|es| - 1], v, n);
    } else {
      assert es[|es| - 1] == Edge(v, n, CALL);
    }
  }

  lemma {:induction false} CallerListed(c: Graph, owners: map<nat, nat>, es: seq<Edge>, v: nat, q: nat)
    requires q in CallTargets(c, es, v) && v in owners
    ensures owners[v] in CallersOf(c, owners, es, q)
  {
    if q in CallTargets(c, es[..|es| - 1], v) { CallerListed(c, owners, es[..|es| - 1], v, q); }
  }

  // ----- sorting adjacency by canonical position

  function InsertByRank(x: nat, s: seq<nat>, rank: map<nat, nat>): (r: seq<nat>)
    requires x in rank && forall y :: y in s ==> y in rank
    ensures multiset(r) == multiset(s) + multiset{x}
  {
    if s == [] then [x]
    else
      assert s == s[..|s| - 1] + [s[|s| - 1]];
      if rank[s[|s| - 1]] <= rank[x] then s + [x]
      else InsertByRank(x, s[..|s| - 1], rank) + [s[|s| - 1]]
  }

  function SortByRank(s: seq<nat>, rank: map<nat, nat>): (r: seq<nat>)
    requires forall y :: y in s ==> y in rank
    ensures multiset(r) == multiset(s)
  {
    if s == [] then []
    else
      assert s == s[..|s| - 1] + [s[|s| - 1]];
      var front := SortByRank(s[..|s| - 1], rank);
      assert forall y :: y in front ==> y in multiset(front);
      InsertByRank(s[|s| - 1], front, rank)
  }

  lemma SortByRankMembers(s: seq<nat>, rank: map<nat, nat>, x: nat)
    requires forall y :: y in s ==> y in rank
    ensures x in SortByRank(s, rank) <==> x in s
  {
    assert x in SortByRank(s, rank) <==> x in multiset(SortByRank(s, rank));
    assert x in s <==> x in multiset(s);
  }

  // ----- clause readings

  predicate Matches(pattern: Bytes, l: Label) {
    pattern == l.text && l.text != []
  }

  predicate MatchesAny(patterns: seq<Bytes>, l: Label) {
    exists i :: 0 <= i < |patterns| && Matches(patterns[i], l)
  }

  function CountMatches(patterns: seq<Bytes>, l: Label): (n: nat) {
    if patterns == [] then 0
    else CountMatches(patterns[..|patterns| - 1], l) + if Matches(patterns[|patterns| - 1], l) then 1 else 0
  }

  /** Facts are numbered along ascending node ids, one per matching source clause. */
  function FactCount(c: Graph, ids: seq<nat>, sources: seq<Bytes>): (n: nat) {
    if ids == [] then 0
    else
      var v := ids[|ids| - 1];
      FactCount(c, ids[..|ids| - 1], sources) + if v in c.labels then CountMatches(sources, c.labels[v]) else 0
  }

  ghost function SeedTable(c: Graph, ids: seq<nat>, sources: seq<Bytes>): (r: map<nat, set<nat>>)
    ensures forall v :: v in r ==> v in ids
  {
    if ids == [] then map[]
    else
      var v, front := ids[|ids| - 1], ids[..|ids| - 1];
      var lo, hi := FactCount(c, front, sources), FactCount(c, ids, sources);
      if lo == hi then SeedTable(c, front, sources) else SeedTable(c, front, sources)[v := Below(hi) - Below(lo)]
  }

  // ----- the problem

  function CfgTable(g: Cpg, order: seq<nat>): (r: map<nat, seq<nat>>)
    requires WellFormed(Content(g)) && CompleteOrder(Content(g), order)
  {
    TargetsRanked(g, order);
    map v | v in Ids(g) :: SortByRank(CfgTargets(g.edges, v), Ranks(order))
  }

  function CallTable(g: Cpg, order: seq<nat>): (r: map<nat, seq<nat>>)
    requires WellFormed(Content(g)) && CompleteOrder(Content(g), order)
  {
    TargetsRanked(g, order);
    map v | v in Ids(g) :: SortByRank(CallTargets(Content(g), g.edges, v), Ranks(order))
  }

  ghost function ProblemOf(g: Cpg, order: seq<nat>, det: Detector): (pb: T.Problem)
    requires WellFormed(Content(g)) && CompleteOrder(Content(g), order)
  {
    var c := Content(g);
    T.Problem(
      Ids(g), Owners(c, order),
      CfgTable(g, order),
      CallTable(g, order),
      Ranks(order),
      SeedTable(c, Ascending(Ids(g)), det.sources),
      set v | v in Ids(g) && MatchesAny(det.sanitizers, c.labels[v]),
      set v | v in Ids(g) && MatchesAny(det.sinks, c.labels[v]))
  }

  lemma TargetsRanked(g: Cpg, order: seq<nat>)
    requires WellFormed(Content(g)) && CompleteOrder(Content(g), order)
    ensures forall v, n {:trigger n in CfgTargets(g.edges, v)} :: n in CfgTargets(g.edges, v) ==> n in Ranks(order)
    ensures forall v, n {:trigger n in CallTargets(Content(g), g.edges, v)} ::
              n in CallTargets(Content(g), g.edges, v) ==> n in Ranks(order)
  {
    forall v, n | n in CfgTargets(g.edges, v) ensures n in Ranks(order) {
      CfgTargetIsEdge(g.edges, v, n);
    }
    forall v, n | n in CallTargets(Content(g), g.edges, v) ensures n in Ranks(order) {
      CallTargetIsEdge(Content(g), g.edges, v, n);
    }
  }

  lemma SortedCfgInside(g: Cpg, order: seq<nat>, n: nat, t: nat)
    requires WellFormed(Content(g)) && CompleteOrder(Content(g), order)
    requires forall y :: y in CfgTargets(g.edges, n) ==> y in Ranks(order)
    requires t in SortByRank(CfgTargets(g.edges, n), Ranks(order))
    ensures t in Ids(g)
  {
    SortByRankMembers(CfgTargets(g.edges, n), Ranks(order), t);
    CfgTargetIsEdge(g.edges, n, t);
  }

  lemma SortedCallOwned(g: Cpg, order: seq<nat>, n: nat, q: nat)
    requires WellFormed(Content(g)) && CompleteOrder(Content(g), order)
    requires forall y :: y in CallTargets(Content(g), g.edges, n) ==> y in Ranks(order)
    requires q in SortByRank(CallTargets(Content(g), g.edges, n), Ranks(order))
    ensures q in Owners(Content(g), order) && Owners(Content(g), order)[q] == q
    ensures q in CallTargets(Content(g), g.edges, n)
  {
    SortByRankMembers(CallTargets(Content(g), g.edges, n), Ranks(order), q);
    CallTargetIsEdge(Content(g), g.edges, n, q);
  }

  lemma CfgTableInside(g: Cpg, order: seq<nat>, det: Detector, n: nat, s: nat)
    requires WellFormed(Content(g)) && CompleteOrder(Content(g), order)
    requires n in Ids(g) && s in ProblemOf(g, order, det).cfg[n]
    ensures s in Ids(g)
  {
    hide SeedTable, Ranks, CfgTargets, CallTargets, SortByRank, Owner, MatchesAny, CompleteOrder, WellFormed;
    TargetsRanked(g, order);
    SortedCfgInside(g, order, n, s);
  }

  lemma CallTableOwned(g: Cpg, order: seq<nat>, det: Detector, n: nat, q: nat)
    requires WellFormed(Content(g)) && CompleteOrder(Content(g), order)
    requires n in Ids(g) && q in ProblemOf(g, order, det).calls[n]
    ensures q in ProblemOf(g, order, det).procOf && ProblemOf(g, order, det).procOf[q] == q
  {
    hide SeedTable, Ranks, CfgTargets, CallTargets, SortByRank, Owner, MatchesAny, CompleteOrder, WellFormed;
    TargetsRanked(g, order);
    SortedCallOwned(g, order, n, q);
  }

  lemma ProblemTables(g: Cpg, order: seq<nat>, det: Detector)
    requires WellFormed(Content(g)) && CompleteOrder(Content(g), order)
    ensures var pb := ProblemOf(g, order, det);
            && pb.nodes == Ids(g) && pb.rank == Ranks(order) && pb.procOf.Keys <= pb.nodes && pb.cfg.Keys == pb.nodes
            && pb.calls.Keys == pb.nodes && pb.rank.Keys == pb.nodes && pb.seeds.Keys <= pb.nodes
            && pb.sinks <= pb.nodes
  {
    hide SeedTable, Ranks, CfgTargets, CallTargets, SortByRank, Owner, MatchesAny, CompleteOrder, WellFormed;
    RanksKeys(Content(g), order);
  }

  lemma ProblemWellFormed(g: Cpg, order: seq<nat>, det: Detector)
    requires WellFormed(Content(g)) && CompleteOrder(Content(g), order)
    ensures T.WellFormed(ProblemOf(g, order, det))
  {
    hide ProblemOf, Ranks, Content, WellFormed, CompleteOrder, Ids;
    var pb := ProblemOf(g, order, det);
    ProblemTables(g, order, det);
    forall n, s | n in pb.nodes && s in pb.cfg[n] ensures s in pb.nodes {
      CfgTableInside(g, order, det, n, s);
    }
    forall n, q | n in pb.nodes && q in pb.calls[n] ensures q in pb.procOf && pb.procOf[q] == q {
      CallTableOwned(g, order, det, n, q);
    }
    forall m, n {:trigger pb.rank[m], pb.rank[n]} | m in pb.nodes && n in pb.nodes && pb.rank[m] == pb.rank[n]
      ensures m == n
    {
      RanksApart(order, m, n);
    }
  }

  lemma RanksApart(order: seq<nat>, m: nat, n: nat)
    requires m in Ranks(order) && n in Ranks(order) && Ranks(order)[m] == Ranks(order)[n]
    ensures m == n
  {
    RanksInjective(order);
  }

  lemma RanksKeys(c: Graph, order: seq<nat>)
    requires CompleteOrder(c, order)
    ensures Ranks(order).Keys == c.labels.Keys
  {
  }

  /** The call graph the closure is taken over covers every call the solver follows. */
  lemma CallersCover(g: Cpg, order: seq<nat>, det: Detector, s: set<nat>)
    requires WellFormed(Content(g)) && CompleteOrder(Content(g), order)
    requires forall q, p :: q in s && p in CallersOf(Content(g), Owners(Content(g), order), g.edges, q) ==> p in s
    ensures T.WellFormed(ProblemOf(g, order, det)) && B.CallerClosed(ProblemOf(g, order, det), s)
  {
    hide SeedTable, CfgTargets, SortByRank, Content, Owners, CallersOf;
    var c, pb := Content(g), ProblemOf(g, order, det);
    ProblemWellFormed(g, order, det);
    TargetsRanked(g, order);
    forall n, q | n in pb.nodes && n in pb.procOf && q in pb.calls[n] && q in s ensures pb.procOf[n] in s {
      SortByRankMembers(CallTargets(c, g.edges, n), Ranks(order), q);
      CallerListed(c, pb.procOf, g.edges, n, q);
    }
  }
}
