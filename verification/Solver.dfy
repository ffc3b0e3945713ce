/** `_tabulate` with the summary cache it fills, and the cache's invalidation. */
module Solver {
  import opened ByteStrings
  import opened Encoding
  import opened SupergraphRuns
  import opened TabulationRuns
  import T = Tabulation

  const STATE_LIMIT := 65536
  const IFDS := Ascii("ifds")
  const IDE := Ascii("ide")

  // ----- the summary cache

  class SummaryCache {
    var header: (Bytes, Bytes)
    var summaries: Summaries
    var visited: set<nat>

    constructor (version: Bytes, env: Bytes, kept: Summaries, seen: set<nat>)
      ensures header == (version, env) && summaries == kept && visited == seen
    {
      header, summaries, visited := (version, env), kept, seen;
    }

    method Copy() returns (c: SummaryCache)
      ensures fresh(c) && c.header == header && c.summaries == summaries && c.visited == visited
    {
      c := new SummaryCache(header.0, header.1, summaries, visited);
    }

    method Invalidate(procs: set<nat>)
      modifies this`summaries, this`visited
      ensures summaries == old(summaries) - procs && visited == old(visited) - procs
    {
      var rest := procs;
      while rest != {}
        invariant rest <= procs && summaries == old(summaries) - (procs - rest)
        invariant visited == old(visited) - (procs - rest)
        decreases rest
      {
        var p :| p in rest;
        rest := rest - {p};
        summaries, visited := summaries - {p}, visited - {p};
      }
    }
  }

  // ----- what a tabulation records about each procedure

  ghost function FactsIn(pb: T.Problem, pred: map<T.Item, T.Origin>, p: nat): (r: set<nat>) {
    set x | x in pred && x.node in pb.procOf && pb.procOf[x.node] == p :: x.fact
  }

  /** Every fact at the entry is mapped to the facts found anywhere in the procedure. */
  ghost predicate Summarises(pb: T.Problem, pred: map<T.Item, T.Origin>, p: nat, m: map<nat, set<nat>>) {
    && (forall f :: f in m <==> T.Item(p, f) in pred)
    && (forall f :: f in m ==> m[f] == FactsIn(pb, pred, p))
  }

  /** The procedure partition the tables are indexed by. */
  ghost predicate Partitioned(pb: T.Problem, procs: map<nat, Procedure>) {
    && (forall v :: v in pb.procOf ==> pb.procOf[v] in procs)
    && (forall p, v :: p in procs ==> (InProcedure(procs, p, v) <==> v in pb.procOf && pb.procOf[v] == p))
  }

  predicate InProcedure(procs: map<nat, Procedure>, p: nat, v: nat) {
    p in procs && (v == p || v in procs[p].body)
  }

  function FactsOver(facts: map<nat, set<nat>>, ns: seq<nat>): (r: set<nat>)
    requires forall n :: n in ns ==> n in facts
  {
    set n, f | n in ns && f in facts[n] :: f
  }

  lemma BodyInside(pb: T.Problem, procs: map<nat, Procedure>, p: Progress, q: nat)
    requires T.WellFormed(pb) && Tracks(pb, p) && Partitioned(pb, procs) && q in procs
    ensures forall n :: n in [q] + procs[q].body ==> n in p.facts
  {
    hide NoRepeat, T.Touched, Queue, FactsMatch;
    forall n | n in [q] + procs[q].body ensures n in p.facts {
      assert InProcedure(procs, q, n);
    }
  }

  method Summarise(pb: T.Problem, procs: map<nat, Procedure>, p: Progress, q: nat) returns (m: map<nat, set<nat>>)
    requires T.WellFormed(pb) && Tracks(pb, p) && Partitioned(pb, procs) && q in procs
    ensures Summarises(pb, p.pred, q, m)
  {
    hide T.WellFormed, Tracks, Partitioned, FactsIn;
    BodyInside(pb, procs, p, q);
    var body := [q] + procs[q].body;
    var reach: set<nat> := {};
    for i := 0 to |body|
      invariant reach == FactsOver(p.facts, body[..i])
    {
      assert body[..i + 1] == body[..i] + [body[i]];
      reach := reach + p.facts[body[i]];
    }
    assert body[..|body|] == body;
    m := map f | f in p.facts[q] :: reach;
    forall f ensures f in m <==> T.Item(q, f) in p.pred {
      assert q in body;
      EntryFact(pb, p, q, f);
    }
    BodyFacts(pb, procs, p, q, body);
  }

  lemma EntryFact(pb: T.Problem, p: Progress, q: nat, f: nat)
    requires Tracks(pb, p) && q in p.facts
    ensures f in p.facts[q] <==> T.Item(q, f) in p.pred
  {
    hide NoRepeat, T.Touched, Queue;
  }

  lemma BodyFacts(pb: T.Problem, procs: map<nat, Procedure>, p: Progress, q: nat, body: seq<nat>)
    requires Tracks(pb, p) && Partitioned(pb, procs) && q in procs && body == [q] + procs[q].body
    requires forall n :: n in body ==> n in p.facts
    ensures FactsOver(p.facts, body) == FactsIn(pb, p.pred, q)
  {
    hide NoRepeat, T.Touched, Queue;
    forall f | f in FactsOver(p.facts, body) ensures f in FactsIn(pb, p.pred, q) {
      var n :| n in body && f in p.facts[n];
      assert InProcedure(procs, q, n);
      assert T.Item(n, f) in p.pred;
    }
    forall f | f in FactsIn(pb, p.pred, q) ensures f in FactsOver(p.facts, body) {
      var x :| x in p.pred && x.node in pb.procOf && pb.procOf[x.node] == q && x.fact == f;
      FactAt(p, x);
      assert InProcedure(procs, q, x.node);
    }
  }

  ghost predicate Recorded(pb: T.Problem, pred: map<T.Item, T.Origin>, procs: set<nat>, made: Summaries) {
    made.Keys == procs && forall q :: q in made ==> Summarises(pb, pred, q, made[q])
  }

  method SummariseAll(pb: T.Problem, procs: map<nat, Procedure>, p: Progress) returns (made: Summaries)
    requires T.WellFormed(pb) && Tracks(pb, p) && Partitioned(pb, procs)
    ensures Recorded(pb, p.pred, p.visited, made)
  {
    hide T.WellFormed, Tracks, Partitioned, Summarises;
    VisitedProcs(pb, procs, p);
    made := map[];
    var rest := p.visited;
    while rest != {}
      invariant rest <= p.visited && Recorded(pb, p.pred, p.visited - rest, made)
      decreases rest
    {
      var q :| q in rest;
      var m := Summarise(pb, procs, p, q);
      rest, made := rest - {q}, made[q := m];
    }
  }

  /** `_tabulate`: the discovered facts, and one new summary per procedure touched. */
  method Tabulate(pb: T.Problem, procs: map<nat, Procedure>, s: T.Scope, cache: SummaryCache)
    returns (p: Progress, ghost made: Summaries)
    requires T.WellFormed(pb) && Partitioned(pb, procs)
    modifies cache`summaries, cache`visited
    ensures Tracks(pb, p) && forall x :: x in p.pred <==> Attained(pb, s, old(cache.summaries), x)
    ensures Invalidated(s, old(cache.summaries)) ==> p.pred == T.Tabulated(pb, s).pred
    ensures Recorded(pb, p.pred, p.visited, made)
    ensures cache.summaries == old(cache.summaries) + made && cache.visited == old(cache.visited) + p.visited
  {
    hide T.WellFormed, Tracks, Partitioned, Recorded, T.Tabulated, Attained, OriginHolds, Invalidated;
    p := Saturate(pb, s, cache.summaries);
    var built := SummariseAll(pb, procs, p);
    made := built;
    cache.summaries, cache.visited := cache.summaries + built, cache.visited + p.visited;
  }

  lemma VisitedProcs(pb: T.Problem, procs: map<nat, Procedure>, p: Progress)
    requires Tracks(pb, p) && Partitioned(pb, procs)
    ensures p.visited <= procs.Keys
  {
    hide NoRepeat, Queue, FactsMatch;
  }
}
