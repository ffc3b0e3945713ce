/** Re-tabulating some procedures and keeping the other prior findings: when the
    restricted run is the full run with everything else left out. */
module Incremental {
  import opened ByteStrings
  import opened Tabulation
  import opened Witnesses

  predicate OwnedBy(pb: Problem, c: set<nat>, n: nat) {
    n in pb.procOf && pb.procOf[n] in c
  }

  // ----- one run seen through a filter

  function Filter(k: set<Item>, st: State): (r: State) {
    State(map x | x in st.pred && x in k :: st.pred[x], st.work * k)
  }

  /** From an item in `k` the restricted run goes on exactly to the full
      successors in `k`; from any other item the full run never enters `k`. */
  ghost predicate SplitsAt(pb: Problem, c: set<nat>, k: set<Item>, x: Item)
    requires WellFormed(pb)
  {
    if x in k then Successors(pb, Only(c), x) == Successors(pb, Everywhere, x) * k
    else Successors(pb, Everywhere, x) !! k
  }

  ghost predicate Splits(pb: Problem, c: set<nat>, k: set<Item>)
    requires WellFormed(pb)
  {
    && SeedItems(pb, Only(c)) == SeedItems(pb, Everywhere) * k
    && forall x :: Reachable(pb, Everywhere, x) ==> SplitsAt(pb, c, k, x)
  }

  lemma StepOutside(pb: Problem, c: set<nat>, k: set<Item>, st: State, x: Item)
    requires WellFormed(pb) && SplitsAt(pb, c, k, x) && x !in k
    ensures Filter(k, StepOn(pb, Everywhere, st, x)) == Filter(k, st)
  {
    hide Successors, WellFormed;
  }

  lemma StepInside(pb: Problem, c: set<nat>, k: set<Item>, st: State, x: Item)
    requires WellFormed(pb) && SplitsAt(pb, c, k, x) && x in k
    ensures Filter(k, StepOn(pb, Everywhere, st, x)) == StepOn(pb, Only(c), Filter(k, st), x)
  {
    hide Successors, WellFormed;
    var full, part := StepOn(pb, Everywhere, st, x), StepOn(pb, Only(c), Filter(k, st), x);
    assert Filter(k, full).pred == part.pred;
    assert Filter(k, full).work == part.work;
  }

  lemma FirstInside(pb: Problem, k: set<Item>, st: State)
    requires WellFormed(pb) && Within(pb, st) && st.work != {}
    requires (forall y :: y in st.work ==> y.node in pb.rank) && First(pb, st.work) in k
    ensures Filter(k, st).work != {}
    ensures First(pb, Filter(k, st).work) == First(pb, st.work)
  {
    hide Within;
    var x, part := First(pb, st.work), Filter(k, st).work;
    assert x in part;
    forall y | y in part ensures y.node in pb.rank && Sooner(pb, x, y) {
      assert y in st.work;
    }
    assert IsFirst(pb, part, x);
    FirstUnique(pb, part, First(pb, part), x);
  }

  lemma FilterWithin(pb: Problem, k: set<Item>, st: State)
    requires Within(pb, st)
    ensures Within(pb, Filter(k, st))
  {
  }

  lemma FilterEmpty(k: set<Item>, st: State)
    requires st.work == {}
    ensures Filter(k, st).work == {}
  {
  }

  lemma WorkReachable(pb: Problem, s: Scope, st: State, x: Item)
    requires WellFormed(pb) && Invariant(pb, s, st) && x in st.work
    ensures Reachable(pb, s, x)
  {
  }

  lemma SplitsHere(pb: Problem, c: set<nat>, k: set<Item>, x: Item)
    requires WellFormed(pb) && Splits(pb, c, k) && Reachable(pb, Everywhere, x)
    ensures SplitsAt(pb, c, k, x)
  {
  }

  /** The restricted run is the full run with everything outside left out: the
      same items in the same order with the same discoverers. */
  lemma {:induction false} RunFiltered(pb: Problem, c: set<nat>, k: set<Item>, st: State)
    requires WellFormed(pb) && Splits(pb, c, k) && Within(pb, st) && Invariant(pb, Everywhere, st)
    ensures Within(pb, Filter(k, st))
    ensures Filter(k, Run(pb, Everywhere, st)) == Run(pb, Only(c), Filter(k, st))
    decreases Universe(pb) - st.pred.Keys, st.work
  {
    hide Successors, WellFormed, Splits, SplitsAt, Universe, StepOn, Filter, Invariant, Within, Reachable;
    FilterWithin(pb, k, st);
    if st.work == {} {
      FilterEmpty(k, st);
    } else {
      WorkRanked(pb, st);
      var x := First(pb, st.work);
      var next := StepOn(pb, Everywhere, st, x);
      WorkReachable(pb, Everywhere, st, x);
      SplitsHere(pb, c, k, x);
      StepWithin(pb, Everywhere, st, x);
      StepInvariant(pb, Everywhere, st, x);
      RunFiltered(pb, c, k, next);
      if x in k {
        StepInside(pb, c, k, st, x);
        FirstInside(pb, k, st);
        WorkRanked(pb, Filter(k, st));
        StepWithin(pb, Only(c), Filter(k, st), x);
      } else {
        StepOutside(pb, c, k, st, x);
      }
    }
  }

  lemma FilterStart(pb: Problem, c: set<nat>, k: set<Item>)
    requires WellFormed(pb) && Splits(pb, c, k)
    ensures Filter(k, Start(pb, Everywhere)) == Start(pb, Only(c))
  {
    hide WellFormed, SplitsAt, SeedItems;
    var a, b := Filter(k, Start(pb, Everywhere)), Start(pb, Only(c));
    assert a.pred == b.pred;
    assert a.work == b.work;
  }

  lemma TabulatedFiltered(pb: Problem, c: set<nat>, k: set<Item>)
    requires WellFormed(pb) && Splits(pb, c, k)
    ensures Tabulated(pb, Only(c)) == Filter(k, Tabulated(pb, Everywhere))
  {
    hide Run, Start, Filter, WellFormed, Splits, Invariant;
    StartWithin(pb, Everywhere);
    StartInvariant(pb, Everywhere);
    FilterStart(pb, c, k);
    RunFiltered(pb, c, k, Start(pb, Everywhere));
  }

  // ----- findings

  /** The provenance every finding carries; `order` is what the order hash is taken over. */
  datatype Stamp = Stamp(spec: Bytes, engine: Bytes, version: Bytes, env: Bytes, order: Bytes, strong: bool)

  datatype Finding = Finding(sink: nat, fact: nat, trail: seq<nat>, stamp: Stamp)

  ghost function Times(pb: Problem, s: Scope): (time: map<Item, nat>)
    requires WellFormed(pb)
    ensures Timed(Tabulated(pb, s).pred, time)
  {
    assert exists time :: Timed(Tabulated(pb, s).pred, time) by {
      var time := TabulationExact(pb, s);
    }
    var time :| Timed(Tabulated(pb, s).pred, time);
    time
  }

  ghost function FindingAt(pb: Problem, s: Scope, x: Item, stamp: Stamp): (f: Finding)
    requires WellFormed(pb) && x in Tabulated(pb, s).pred
  {
    Finding(x.node, x.fact, Trail(Tabulated(pb, s).pred, Times(pb, s), x), stamp)
  }

  /** One finding per discovered item at a sink. */
  ghost function FindingsOf(pb: Problem, s: Scope, stamp: Stamp): (r: set<Finding>)
    requires WellFormed(pb)
  {
    set x | x in Tabulated(pb, s).pred && x.node in pb.sinks :: FindingAt(pb, s, x, stamp)
  }

  lemma FindingItem(pb: Problem, s: Scope, stamp: Stamp, f: Finding)
    requires WellFormed(pb) && f in FindingsOf(pb, s, stamp)
    ensures f.stamp == stamp && f.sink in pb.sinks && f.sink in pb.nodes
    ensures Item(f.sink, f.fact) in Tabulated(pb, s).pred
    ensures f == FindingAt(pb, s, Item(f.sink, f.fact), stamp)
  {
    hide Tabulated;
    var x :| x in Tabulated(pb, s).pred && x.node in pb.sinks && f == FindingAt(pb, s, x, stamp);
    assert x == Item(f.sink, f.fact);
  }

  lemma ItemFinding(pb: Problem, s: Scope, stamp: Stamp, x: Item)
    requires WellFormed(pb) && x in Tabulated(pb, s).pred && x.node in pb.sinks
    ensures FindingAt(pb, s, x, stamp) in FindingsOf(pb, s, stamp)
    ensures FindingAt(pb, s, x, stamp).sink == x.node && FindingAt(pb, s, x, stamp).fact == x.fact
  {
    hide Tabulated;
  }

  /** Every reported witness runs from a seed of its fact to the sink along unsanitised
      CFG or call edges and visits no node twice. */
  lemma FindingRealised(pb: Problem, s: Scope, stamp: Stamp, f: Finding)
    requires WellFormed(pb) && f in FindingsOf(pb, s, stamp)
    ensures f.sink in pb.sinks && f.trail != [] && f.trail[|f.trail| - 1] == f.sink
    ensures Item(f.trail[0], f.fact) in SeedItems(pb, s)
    ensures forall i :: 0 <= i < |f.trail| - 1 ==> Follows(pb, s, f.trail[i], f.trail[i + 1])
    ensures forall i, j :: 0 <= i < j < |f.trail| ==> f.trail[i] != f.trail[j]
  {
    hide Tabulated, WellFormed, Follows, SeedItems, Timed, Origins, Reachable;
    var x :| x in Tabulated(pb, s).pred && x.node in pb.sinks && f == FindingAt(pb, s, x, stamp);
    var time := TabulationExact(pb, s);
    var pred := Tabulated(pb, s).pred;
    TrailRealises(pb, s, pred, Times(pb, s), x);
    forall i, j | 0 <= i < j < |f.trail| ensures f.trail[i] != f.trail[j] {
      TrailSimple(pb, s, pred, Times(pb, s), x, i, j);
    }
  }

  predicate Preserved(pb: Problem, c: set<nat>, f: Finding) {
    !OwnedBy(pb, c, f.sink)
  }

  lemma SameFinding(pb: Problem, c: set<nat>, k: set<Item>, x: Item, stamp: Stamp)
    requires WellFormed(pb) && Splits(pb, c, k) && x in Tabulated(pb, Only(c)).pred
    ensures x in Tabulated(pb, Everywhere).pred
    ensures FindingAt(pb, Only(c), x, stamp) == FindingAt(pb, Everywhere, x, stamp)
  {
    hide WellFormed, Splits, Tabulated;
    TabulatedFiltered(pb, c, k);
    TrailRestricted(Tabulated(pb, Everywhere).pred, Times(pb, Everywhere),
                    Tabulated(pb, Only(c)).pred, Times(pb, Only(c)), x);
  }

  /** Every item the full run finds at a sink inside is one the restricted run finds. */
  ghost predicate SinksKept(pb: Problem, c: set<nat>)
    requires WellFormed(pb)
  {
    forall x :: x in Tabulated(pb, Everywhere).pred && x.node in pb.sinks && OwnedBy(pb, c, x.node) ==>
      x in Tabulated(pb, Only(c)).pred
  }

  /** Fed a full solve's findings, the incremental solve then returns exactly them,
      with the same witnesses. */
  lemma IncrementalEqualsFull(pb: Problem, c: set<nat>, k: set<Item>, stamp: Stamp)
    requires WellFormed(pb) && Splits(pb, c, k) && SinksKept(pb, c)
    ensures var full, part := FindingsOf(pb, Everywhere, stamp), FindingsOf(pb, Only(c), stamp);
            && part + (set f | f in full && Preserved(pb, c, f)) == full
            && forall f :: f in full && !Preserved(pb, c, f) ==> f in part
  {
    hide WellFormed, Splits, Tabulated, FindingAt, FindingsOf;
    var full, part := FindingsOf(pb, Everywhere, stamp), FindingsOf(pb, Only(c), stamp);
    forall f | f in part ensures f in full {
      FindingItem(pb, Only(c), stamp, f);
      SameFinding(pb, c, k, Item(f.sink, f.fact), stamp);
      ItemFinding(pb, Everywhere, stamp, Item(f.sink, f.fact));
    }
    forall f | f in full && !Preserved(pb, c, f) ensures f in part {
      FindingItem(pb, Everywhere, stamp, f);
      SameFinding(pb, c, k, Item(f.sink, f.fact), stamp);
      ItemFinding(pb, Only(c), stamp, Item(f.sink, f.fact));
    }
  }
}
