/** Reading findings out of a finished tabulation, and the bytes the solution
    hash is taken over. */
module Findings {
  import opened FiniteSets
  import opened ByteStrings
  import opened Encoding
  import opened Cells
  import opened Slices
  import opened Tabulation
  import opened Witnesses
  import opened Incremental
  import opened TabulationRuns

  const UNRANKED := 0x4000_0000

  // ----- the order findings are hashed in

  function Key(rank: map<nat, nat>, f: Finding): (k: nat) {
    if f.sink in rank then rank[f.sink] else UNRANKED
  }

  predicate AtMost(rank: map<nat, nat>, f: Finding, g: Finding) {
    Key(rank, f) < Key(rank, g) || (Key(rank, f) == Key(rank, g) && f.fact <= g.fact)
  }

  predicate Earlier(rank: map<nat, nat>, f: Finding, g: Finding) {
    Key(rank, f) < Key(rank, g) || (Key(rank, f) == Key(rank, g) && f.fact < g.fact)
  }

  ghost predicate InHashOrder(rank: map<nat, nat>, fs: seq<Finding>) {
    forall i, j :: 0 <= i < j < |fs| ==> Earlier(rank, fs[i], fs[j])
  }

  /** No two findings share both sink rank and fact. */
  ghost predicate KeysApart(rank: map<nat, nat>, s: set<Finding>) {
    forall f, g :: f in s && g in s && AtMost(rank, f, g) && AtMost(rank, g, f) ==> f == g
  }

  function InsertFinding(rank: map<nat, nat>, f: Finding, fs: seq<Finding>): (r: seq<Finding>)
    ensures |r| == |fs| + 1 && forall g :: g in r <==> g == f || g in fs
  {
    if fs == [] then [f]
    else if AtMost(rank, fs[|fs| - 1], f) then fs + [f]
    else InsertFinding(rank, f, fs[..|fs| - 1]) + [fs[|fs| - 1]]
  }

  function SortFindings(rank: map<nat, nat>, fs: seq<Finding>): (r: seq<Finding>)
    ensures |r| == |fs| && forall g :: g in r <==> g in fs
  {
    if fs == [] then [] else InsertFinding(rank, fs[|fs| - 1], SortFindings(rank, fs[..|fs| - 1]))
  }

  lemma {:induction false} InsertInOrder(rank: map<nat, nat>, f: Finding, fs: seq<Finding>)
    requires InHashOrder(rank, fs) && forall g :: g in fs ==> !(AtMost(rank, f, g) && AtMost(rank, g, f))
    ensures InHashOrder(rank, InsertFinding(rank, f, fs))
  {
    if fs != [] {
      var last := fs[|fs| - 1];
      assert last in fs;
      if AtMost(rank, last, f) {
        forall i | 0 <= i < |fs| ensures Earlier(rank, fs[i], f) {
          assert i < |fs| - 1 ==> Earlier(rank, fs[i], last);
        }
      } else {
        InsertInOrder(rank, f, fs[..|fs| - 1]);
        var r := InsertFinding(rank, f, fs[..|fs| - 1]);
        forall i | 0 <= i < |r| ensures Earlier(rank, r[i], last) {
          assert r[i] in r;
          if r[i] != f {
            var k :| 0 <= k < |fs| - 1 && fs[k] == r[i];
          }
        }
      }
    }
  }

  lemma {:induction false} SortInOrder(rank: map<nat, nat>, fs: seq<Finding>)
    requires Distinct(fs) && KeysApart(rank, Elements(fs))
    ensures InHashOrder(rank, SortFindings(rank, fs))
  {
    hide AtMost;
    if fs != [] {
      var front, last := fs[..|fs| - 1], fs[|fs| - 1];
      forall f | f in Elements(front) ensures f in Elements(fs) { }
      SortInOrder(rank, front);
      forall g | g in SortFindings(rank, front) ensures !(AtMost(rank, last, g) && AtMost(rank, g, last)) {
        assert g in front && g != last;
        assert g in Elements(fs) && last in Elements(fs);
      }
      InsertInOrder(rank, last, SortFindings(rank, front));
    }
  }

  lemma {:induction false} HashOrderUnique(rank: map<nat, nat>, fs: seq<Finding>, gs: seq<Finding>)
    requires InHashOrder(rank, fs) && InHashOrder(rank, gs) && Elements(fs) == Elements(gs)
    ensures fs == gs
  {
    assert |gs| > 0 ==> gs[0] in Elements(gs);
    if fs != [] {
      assert fs[0] in Elements(gs);
      assert gs != [];
      HeadsAgree(rank, fs, gs);
      TailsAgree(rank, fs, gs);
      HashOrderUnique(rank, fs[1..], gs[1..]);
    }
  }

  lemma HeadFirst(rank: map<nat, nat>, fs: seq<Finding>, f: Finding)
    requires InHashOrder(rank, fs) && f in fs
    ensures fs[0] == f || Earlier(rank, fs[0], f)
  {
  }

  lemma HeadsAgree(rank: map<nat, nat>, fs: seq<Finding>, gs: seq<Finding>)
    requires InHashOrder(rank, fs) && InHashOrder(rank, gs) && Elements(fs) == Elements(gs) && fs != [] && gs != []
    ensures fs[0] == gs[0]
  {
    hide InHashOrder;
    assert fs[0] in Elements(gs) && gs[0] in Elements(fs);
    HeadFirst(rank, fs, gs[0]);
    HeadFirst(rank, gs, fs[0]);
  }

  lemma TailsAgree(rank: map<nat, nat>, fs: seq<Finding>, gs: seq<Finding>)
    requires InHashOrder(rank, fs) && InHashOrder(rank, gs) && Elements(fs) == Elements(gs)
    requires fs != [] && gs != [] && fs[0] == gs[0]
    ensures Elements(fs[1..]) == Elements(gs[1..])
  {
    TailSet(rank, fs);
    TailSet(rank, gs);
  }

  lemma TailSet(rank: map<nat, nat>, fs: seq<Finding>)
    requires InHashOrder(rank, fs) && fs != []
    ensures Elements(fs[1..]) == Elements(fs) - {fs[0]}
  {
  }

  lemma SortedSet(rank: map<nat, nat>, fs: seq<Finding>)
    ensures Elements(SortFindings(rank, fs)) == Elements(fs)
  {
  }

  /** Whatever order two runs list the same findings in, they hash the same list. */
  lemma SortedOnce(rank: map<nat, nat>, fs: seq<Finding>, gs: seq<Finding>)
    requires Distinct(fs) && Distinct(gs) && Elements(fs) == Elements(gs) && KeysApart(rank, Elements(fs))
    ensures SortFindings(rank, fs) == SortFindings(rank, gs)
  {
    hide KeysApart, Distinct, InHashOrder;
    SortInOrder(rank, fs);
    SortInOrder(rank, gs);
    SortedSet(rank, fs);
    SortedSet(rank, gs);
    HashOrderUnique(rank, SortFindings(rank, fs), SortFindings(rank, gs));
  }

  // ----- the hashed bytes

  const BAR := Ascii("|")

  function TrailBytes(t: seq<nat>): (r: Bytes) {
    if t == [] then [] else TrailBytes(t[..|t| - 1]) + U64(t[|t| - 1])
  }

  function SolutionBytes(fs: seq<Finding>): (r: Bytes) {
    if fs == [] then []
    else
      var f := fs[|fs| - 1];
      SolutionBytes(fs[..|fs| - 1]) + U64(f.sink) + U64(f.fact) + TrailBytes(f.trail) + BAR
  }

  method HashedBytes(fs: seq<Finding>, rank: map<nat, nat>) returns (h: Bytes)
    ensures h == SolutionBytes(SortFindings(rank, fs))
  {
    hide SortFindings, U64, Ascii;
    var sorted := SortFindings(rank, fs);
    h := [];
    for i := 0 to |sorted|
      invariant h == SolutionBytes(sorted[..i])
    {
      var f := sorted[i];
      h := h + U64(f.sink) + U64(f.fact);
      ghost var before := h;
      for k := 0 to |f.trail|
        invariant h == before + TrailBytes(f.trail[..k])
      {
        assert f.trail[..k + 1][..k] == f.trail[..k];
        h := h + U64(f.trail[k]);
      }
      assert f.trail[..|f.trail|] == f.trail;
      h := h + BAR;
      assert sorted[..i + 1][..i] == sorted[..i];
    }
    assert sorted[..|sorted|] == sorted;
  }

  // ----- the read-out

  ghost function FindingsAmong(pb: Problem, s: Scope, ns: seq<nat>, stamp: Stamp): (r: set<Finding>)
    requires WellFormed(pb)
  {
    set x | x in Tabulated(pb, s).pred && x.node in pb.sinks && x.node in ns :: FindingAt(pb, s, x, stamp)
  }

  method FindingsAtNode(pb: Problem, ghost s: Scope, p: Progress, n: nat, stamp: Stamp) returns (fs: seq<Finding>)
    requires WellFormed(pb) && Tracks(pb, p) && p.pred == Tabulated(pb, s).pred && n in pb.sinks
    ensures InHashOrder(pb.rank, fs) && Elements(fs) == FindingsAmong(pb, s, [n], stamp)
    ensures forall f :: f in fs ==> f.sink == n
  {
    hide Tabulated, Ascending, NoRepeat, Touched, Queue, Timed;
    fs := [];
    SinkKnown(pb, n);
    hide WellFormed;
    var facts := SortFound(p.facts[n]);
    forall k | 0 <= k < |facts| ensures Item(n, facts[k]) in p.pred { assert facts[k] in p.facts[n]; }
    for k := 0 to |facts|
      invariant |fs| == k && forall j :: 0 <= j < k ==> fs[j] == FindingAt(pb, s, Item(n, facts[j]), stamp)
    {
      var trail := Witness(p.pred, Times(pb, s), Item(n, facts[k]));
      fs := fs + [Finding(n, facts[k], trail, stamp)];
    }
    FindingsListed(pb, s, p, n, facts, stamp, fs);
  }

  lemma SinkKnown(pb: Problem, n: nat)
    requires WellFormed(pb) && n in pb.sinks
    ensures n in pb.nodes && n in pb.rank
  {
  }

  lemma FindingsListed(pb: Problem, s: Scope, p: Progress, n: nat, facts: seq<nat>, stamp: Stamp, fs: seq<Finding>)
    requires WellFormed(pb) && Tracks(pb, p) && p.pred == Tabulated(pb, s).pred && n in pb.sinks && n in p.facts
    requires facts == Ascending(p.facts[n]) && |fs| == |facts|
    requires forall k :: 0 <= k < |facts| ==> Item(n, facts[k]) in p.pred
    requires forall j :: 0 <= j < |fs| ==> fs[j] == FindingAt(pb, s, Item(n, facts[j]), stamp)
    ensures InHashOrder(pb.rank, fs) && Elements(fs) == FindingsAmong(pb, s, [n], stamp)
    ensures forall f :: f in fs ==> f.sink == n
  {
    hide Tabulated, Ascending, NoRepeat, Touched, Queue, Timed, WellFormed;
    hide FactsMatch;
    forall f | f in FindingsAmong(pb, s, [n], stamp) ensures f in fs {
      var x :| x in Tabulated(pb, s).pred && x.node in pb.sinks && x.node in [n] && f == FindingAt(pb, s, x, stamp);
      FactAt(p, x);
      var k :| 0 <= k < |facts| && facts[k] == x.fact;
      assert fs[k] == f;
    }
    forall f | f in fs ensures f in FindingsAmong(pb, s, [n], stamp) {
      var k :| 0 <= k < |fs| && fs[k] == f;
      assert Item(n, facts[k]).node in [n];
    }
  }

  ghost predicate Ordered(pb: Problem, order: seq<nat>) {
    && (forall v :: v in order <==> v in pb.nodes)
    && forall i :: 0 <= i < |order| ==> order[i] in pb.rank && pb.rank[order[i]] == i
  }

  method BuildFindings(pb: Problem, ghost s: Scope, p: Progress, order: seq<nat>, stamp: Stamp)
    returns (fs: seq<Finding>)
    requires WellFormed(pb) && Tracks(pb, p) && p.pred == Tabulated(pb, s).pred && Ordered(pb, order)
    ensures InHashOrder(pb.rank, fs) && Elements(fs) == FindingsOf(pb, s, stamp)
  {
    hide WellFormed, Tracks, Tabulated, FindingsAmong, InHashOrder, FindingsOf;
    fs := [];
    NothingRead(pb, s, order, stamp);
    for i := 0 to |order|
      invariant InHashOrder(pb.rank, fs) && Elements(fs) == FindingsAmong(pb, s, order[..i], stamp)
    {
      var n := order[i];
      FindingsNext(pb, s, order, i, stamp);
      if n in pb.sinks {
        var here := FindingsAtNode(pb, s, p, n, stamp);
        EarlierSinks(pb, s, order, i, stamp);
        JoinInOrder(pb, order, i, fs, here);
        assert Elements(fs + here) == Elements(fs) + Elements(here);
        fs := fs + here;
      }
    }
    assert order[..|order|] == order;
    FindingsAll(pb, s, order, stamp);
  }

  lemma NothingRead(pb: Problem, s: Scope, order: seq<nat>, stamp: Stamp)
    requires WellFormed(pb)
    ensures FindingsAmong(pb, s, order[..0], stamp) == {} && InHashOrder(pb.rank, [])
  {
  }

  lemma FindingsNext(pb: Problem, s: Scope, order: seq<nat>, i: nat, stamp: Stamp)
    requires WellFormed(pb) && i < |order|
    ensures FindingsAmong(pb, s, order[..i + 1], stamp) ==
            FindingsAmong(pb, s, order[..i], stamp) +
            if order[i] in pb.sinks then FindingsAmong(pb, s, [order[i]], stamp) else {}
  {
    hide WellFormed, Tabulated, FindingAt;
    assert order[..i + 1] == order[..i] + [order[i]];
  }

  lemma FindingsAll(pb: Problem, s: Scope, order: seq<nat>, stamp: Stamp)
    requires WellFormed(pb) && Ordered(pb, order)
    ensures FindingsAmong(pb, s, order, stamp) == FindingsOf(pb, s, stamp)
  {
    hide Tabulated, FindingAt;
  }

  lemma EarlierSinks(pb: Problem, s: Scope, order: seq<nat>, i: nat, stamp: Stamp)
    requires WellFormed(pb) && i <= |order|
    ensures forall f :: f in FindingsAmong(pb, s, order[..i], stamp) ==> f.sink in order[..i]
  {
    hide WellFormed, Tabulated;
  }

  lemma JoinInOrder(pb: Problem, order: seq<nat>, i: nat, fs: seq<Finding>, gs: seq<Finding>)
    requires Ordered(pb, order) && i < |order| && InHashOrder(pb.rank, fs) && InHashOrder(pb.rank, gs)
    requires (forall f :: f in Elements(fs) ==> f.sink in order[..i]) && forall g :: g in gs ==> g.sink == order[i]
    ensures InHashOrder(pb.rank, fs + gs)
  {
    forall a, b | 0 <= a < |fs| && 0 <= b < |gs| ensures Earlier(pb.rank, fs[a], gs[b]) {
      assert fs[a] in Elements(fs);
      var k :| 0 <= k < i && order[..i][k] == fs[a].sink;
    }
  }
}
