/** The taint tabulation of the IFDS solver: a worklist over (node, fact) items
    with a write-once predecessor map. */
module Tabulation {

  datatype Item = Item(node: nat, fact: nat)

  /** Who discovered an item first; a seeded source has no discoverer. */
  datatype Origin = Seed | From(item: Item)

  /** Which procedures are (re)tabulated. */
  datatype Scope = Everywhere | Only(procs: set<nat>)

  /** The supergraph tables and the three readings of the detector spec. */
  datatype Problem = Problem(
    nodes: set<nat>,
    procOf: map<nat, nat>,
    cfg: map<nat, seq<nat>>,
    calls: map<nat, seq<nat>>,
    rank: map<nat, nat>,
    seeds: map<nat, set<nat>>,
    sanitised: set<nat>,
    sinks: set<nat>)

  predicate InScope(s: Scope, p: nat) {
    s.Everywhere? || p in s.procs
  }

  predicate NodeInScope(pb: Problem, s: Scope, n: nat) {
    n in pb.procOf && InScope(s, pb.procOf[n])
  }

  ghost predicate WellFormed(pb: Problem) {
    && pb.procOf.Keys <= pb.nodes && pb.cfg.Keys == pb.nodes && pb.calls.Keys == pb.nodes
    && pb.rank.Keys == pb.nodes && pb.seeds.Keys <= pb.nodes && pb.sinks <= pb.nodes
    && (forall n, s :: n in pb.nodes && s in pb.cfg[n] ==> s in pb.nodes)
    && (forall n, c :: n in pb.nodes && c in pb.calls[n] ==> c in pb.procOf && pb.procOf[c] == c)
    && (forall m, n {:trigger pb.rank[m], pb.rank[n]} ::
          m in pb.nodes && n in pb.nodes && pb.rank[m] == pb.rank[n] ==> m == n)
  }

  // ----- one step

  function SeedItems(pb: Problem, s: Scope): (r: set<Item>) {
    set n, f | n in pb.seeds && f in pb.seeds[n] && NodeInScope(pb, s, n) :: Item(n, f)
  }

  /** Where a fact goes from an item: along CFG edges and into the entries of
      callees in scope, unless the node sanitises it. */
  function Successors(pb: Problem, s: Scope, x: Item): (r: set<Item>)
    requires WellFormed(pb)
  {
    if x.node !in pb.nodes || x.node in pb.sanitised then {}
    else
      var along := set n | n in pb.cfg[x.node] :: Item(n, x.fact);
      var into := set c | c in pb.calls[x.node] && InScope(s, c) :: Item(c, x.fact);
      along + into
  }

  /** Discovered items with their origin, and those still to be processed. */
  datatype State = State(pred: map<Item, Origin>, work: set<Item>)

  function Start(pb: Problem, s: Scope): (r: State) {
    State(map x | x in SeedItems(pb, s) :: Seed, SeedItems(pb, s))
  }

  function StepOn(pb: Problem, s: Scope, st: State, x: Item): (r: State)
    requires WellFormed(pb)
  {
    var news := Successors(pb, s, x) - st.pred.Keys;
    State(st.pred + map y | y in news :: From(x), st.work - {x} + news)
  }

  // ----- what holds after every step, whichever item is taken

  ghost predicate Linked(pb: Problem, s: Scope, p: seq<Item>)
    requires WellFormed(pb)
  {
    && p != [] && p[0] in SeedItems(pb, s)
    && forall i :: 0 <= i < |p| - 1 ==> p[i + 1] in Successors(pb, s, p[i])
  }

  ghost predicate Reachable(pb: Problem, s: Scope, x: Item)
    requires WellFormed(pb)
  {
    exists p :: Leads(pb, s, p, x)
  }

  ghost predicate Leads(pb: Problem, s: Scope, p: seq<Item>, x: Item)
    requires WellFormed(pb)
  {
    Linked(pb, s, p) && p[|p| - 1] == x
  }

  lemma ReachableSeed(pb: Problem, s: Scope, x: Item)
    requires WellFormed(pb) && x in SeedItems(pb, s)
    ensures Reachable(pb, s, x)
  {
    assert Leads(pb, s, [x], x);
  }

  lemma ReachableNext(pb: Problem, s: Scope, x: Item, y: Item)
    requires WellFormed(pb) && Reachable(pb, s, x) && y in Successors(pb, s, x)
    ensures Reachable(pb, s, y)
  {
    hide Successors;
    var p :| Leads(pb, s, p, x);
    assert Leads(pb, s, p + [y], y);
  }

  ghost predicate Origins(pb: Problem, s: Scope, pred: map<Item, Origin>)
    requires WellFormed(pb)
  {
    forall x :: x in pred ==>
      match pred[x]
      case Seed => x in SeedItems(pb, s)
      case From(y) => y in pred && x in Successors(pb, s, y)
  }

  ghost predicate Invariant(pb: Problem, s: Scope, st: State)
    requires WellFormed(pb)
  {
    && st.work <= st.pred.Keys && SeedItems(pb, s) <= st.pred.Keys
    && (forall x :: x in st.pred ==> Reachable(pb, s, x))
    && (forall x :: x in st.pred && x !in st.work ==> Successors(pb, s, x) <= st.pred.Keys)
    && Origins(pb, s, st.pred)
  }

  lemma StartInvariant(pb: Problem, s: Scope)
    requires WellFormed(pb)
    ensures Invariant(pb, s, Start(pb, s))
  {
    hide SeedItems;
    forall x | x in Start(pb, s).pred ensures Reachable(pb, s, x) {
      ReachableSeed(pb, s, x);
    }
  }

  lemma StepInvariant(pb: Problem, s: Scope, st: State, x: Item)
    requires WellFormed(pb) && Invariant(pb, s, st) && x in st.work
    ensures Invariant(pb, s, StepOn(pb, s, st, x))
  {
    hide Successors, SeedItems, Reachable;
    var next := StepOn(pb, s, st, x);
    forall y | y in next.pred ensures Reachable(pb, s, y) {
      if y !in st.pred { ReachableNext(pb, s, x, y); }
    }
  }

  /** An empty worklist means exactly the reachable items were discovered, in
      whatever order they were taken. */
  lemma EmptyWorkExact(pb: Problem, s: Scope, st: State, x: Item)
    requires WellFormed(pb) && Invariant(pb, s, st) && st.work == {}
    ensures x in st.pred <==> Reachable(pb, s, x)
  {
    hide Successors, SeedItems, Origins;
    if Reachable(pb, s, x) {
      var p :| Leads(pb, s, p, x);
      ClosedHolds(pb, s, st, p, |p| - 1);
    }
  }

  lemma {:induction false} ClosedHolds(pb: Problem, s: Scope, st: State, p: seq<Item>, i: nat)
    requires WellFormed(pb) && Invariant(pb, s, st) && st.work == {} && Linked(pb, s, p) && i < |p|
    ensures p[i] in st.pred
  {
    hide Successors, SeedItems, Reachable;
    if i > 0 {
      ClosedHolds(pb, s, st, p, i - 1);
      assert p[i - 1 + 1] in Successors(pb, s, p[i - 1]);
    }
  }

  // ----- discovery times

  /** Every discoverer was itself discovered strictly earlier. */
  ghost predicate Timed(pred: map<Item, Origin>, time: map<Item, nat>) {
    && time.Keys == pred.Keys
    && forall x :: x in pred && pred[x].From? ==> pred[x].item in pred && time[pred[x].item] < time[x]
  }

  /** The step number as discovery time keeps predecessor chains strictly decreasing. */
  lemma StepTimed(pb: Problem, s: Scope, st: State, x: Item, time: map<Item, nat>, clock: nat)
    returns (later: map<Item, nat>)
    requires WellFormed(pb) && Timed(st.pred, time) && x in st.pred && forall y :: y in time ==> time[y] <= clock
    ensures Timed(StepOn(pb, s, st, x).pred, later)
    ensures forall y :: y in later ==> later[y] <= clock + 1
    ensures forall y :: y in time ==> y in later && later[y] == time[y]
  {
    hide Successors;
    var news := Successors(pb, s, x) - st.pred.Keys;
    later := time + map y | y in news :: clock + 1;
  }

  /** The procedures that own a discovered node. */
  ghost function Touched(pb: Problem, pred: map<Item, Origin>): (r: set<nat>) {
    set x | x in pred && x.node in pb.procOf :: pb.procOf[x.node]
  }

  // ----- termination

  function Facts(pb: Problem): (r: set<nat>) {
    set n, f | n in pb.seeds && f in pb.seeds[n] :: f
  }

  function Universe(pb: Problem): (r: set<Item>) {
    set n, f | n in pb.nodes && f in Facts(pb) :: Item(n, f)
  }

  ghost predicate Within(pb: Problem, st: State) {
    st.work <= st.pred.Keys <= Universe(pb)
  }

  lemma StartWithin(pb: Problem, s: Scope)
    requires WellFormed(pb)
    ensures Within(pb, Start(pb, s))
  {
    forall x | x in SeedItems(pb, s) ensures x in Universe(pb) {
      assert x.fact in Facts(pb);
    }
  }

  lemma SuccessorsWithin(pb: Problem, s: Scope, x: Item)
    requires WellFormed(pb) && x in Universe(pb)
    ensures Successors(pb, s, x) <= Universe(pb)
  {
    forall y | y in Successors(pb, s, x) ensures y in Universe(pb) {
      assert y.fact == x.fact && x.fact in Facts(pb);
    }
  }

  lemma StepWithin(pb: Problem, s: Scope, st: State, x: Item)
    requires WellFormed(pb) && Within(pb, st) && x in st.work
    ensures var next := StepOn(pb, s, st, x);
            && Within(pb, next) && Universe(pb) - next.pred.Keys <= Universe(pb) - st.pred.Keys
            && (Universe(pb) - next.pred.Keys == Universe(pb) - st.pred.Keys ==> next.work == st.work - {x})
  {
    hide Successors, Universe;
    SuccessorsWithin(pb, s, x);
    var next := StepOn(pb, s, st, x);
    var news := Successors(pb, s, x) - st.pred.Keys;
    assert news <= Universe(pb) - st.pred.Keys && news !! Universe(pb) - next.pred.Keys;
    if Universe(pb) - next.pred.Keys == Universe(pb) - st.pred.Keys {
      assert news == {};
    }
  }

  // ----- the deterministic run

  predicate Sooner(pb: Problem, x: Item, y: Item)
    requires x.node in pb.rank && y.node in pb.rank
  {
    pb.rank[x.node] < pb.rank[y.node] || (pb.rank[x.node] == pb.rank[y.node] && x.fact <= y.fact)
  }

  ghost predicate IsFirst(pb: Problem, work: set<Item>, x: Item) {
    && x in work && (forall y :: y in work ==> y.node in pb.rank)
    && forall y :: y in work ==> Sooner(pb, x, y)
  }

  lemma {:induction false} FirstExists(pb: Problem, work: set<Item>) returns (x: Item)
    requires work != {} && forall y :: y in work ==> y.node in pb.rank
    ensures IsFirst(pb, work, x)
  {
    var a :| a in work;
    if work == {a} {
      x := a;
    } else {
      assert work - {a} != {};
      var b := FirstExists(pb, work - {a});
      x := if Sooner(pb, a, b) then a else b;
      assert forall y :: y in work ==> y == a || y in work - {a};
    }
  }

  ghost function First(pb: Problem, work: set<Item>): (x: Item)
    requires work != {} && forall y :: y in work ==> y.node in pb.rank
    ensures IsFirst(pb, work, x)
  {
    assert exists x :: IsFirst(pb, work, x) by {
      var x := FirstExists(pb, work);
    }
    var x :| IsFirst(pb, work, x);
    x
  }

  lemma LoneFirst(pb: Problem, x: Item)
    requires x.node in pb.rank
    ensures IsFirst(pb, {x}, x)
  {
  }

  lemma FirstUnique(pb: Problem, work: set<Item>, x: Item, y: Item)
    requires WellFormed(pb) && IsFirst(pb, work, x) && IsFirst(pb, work, y)
    ensures x == y
  {
    assert Sooner(pb, x, y) && Sooner(pb, y, x);
  }

  lemma WorkRanked(pb: Problem, st: State)
    requires WellFormed(pb) && Within(pb, st)
    ensures forall y :: y in st.work ==> y.node in pb.rank
  {
  }

  /** The canonical-minimum item is taken until none is left. */
  ghost function Run(pb: Problem, s: Scope, st: State): (r: State)
    requires WellFormed(pb) && Within(pb, st)
    ensures r.work == {}
    decreases Universe(pb) - st.pred.Keys, st.work
  {
    if st.work == {} then st
    else
      WorkRanked(pb, st);
      var x := First(pb, st.work);
      StepWithin(pb, s, st, x);
      Run(pb, s, StepOn(pb, s, st, x))
  }

  ghost function Tabulated(pb: Problem, s: Scope): (r: State)
    requires WellFormed(pb)
    ensures r.work == {}
  {
    StartWithin(pb, s);
    Run(pb, s, Start(pb, s))
  }

  lemma {:induction false} RunInvariant(pb: Problem, s: Scope, st: State)
    requires WellFormed(pb) && Within(pb, st) && Invariant(pb, s, st)
    ensures Invariant(pb, s, Run(pb, s, st))
    decreases Universe(pb) - st.pred.Keys, st.work
  {
    hide Successors, SeedItems, Reachable, Universe, Invariant, StepOn;
    if st.work != {} {
      WorkRanked(pb, st);
      var x := First(pb, st.work);
      StepWithin(pb, s, st, x);
      StepInvariant(pb, s, st, x);
      RunInvariant(pb, s, StepOn(pb, s, st, x));
    }
  }

  lemma {:induction false} RunTimed(pb: Problem, s: Scope, st: State, time: map<Item, nat>, clock: nat)
    returns (later: map<Item, nat>)
    requires WellFormed(pb) && Within(pb, st) && Timed(st.pred, time) && forall y :: y in time ==> time[y] <= clock
    ensures Timed(Run(pb, s, st).pred, later)
    decreases Universe(pb) - st.pred.Keys, st.work
  {
    hide Successors, Universe, Timed, StepOn;
    if st.work == {} {
      later := time;
    } else {
      WorkRanked(pb, st);
      var x := First(pb, st.work);
      StepWithin(pb, s, st, x);
      var next := StepTimed(pb, s, st, x, time, clock);
      later := RunTimed(pb, s, StepOn(pb, s, st, x), next, clock + 1);
    }
  }

  lemma StartTimed(pb: Problem, s: Scope) returns (time: map<Item, nat>)
    ensures Timed(Start(pb, s).pred, time) && forall y :: y in time ==> time[y] <= 0
  {
    hide SeedItems;
    time := map x | x in SeedItems(pb, s) :: 0;
  }

  /** Facts hold exactly at the items reachable from in-scope seeds, and
      predecessor chains strictly decrease in discovery time. */
  lemma TabulationExact(pb: Problem, s: Scope) returns (time: map<Item, nat>)
    requires WellFormed(pb)
    ensures forall x :: x in Tabulated(pb, s).pred <==> Reachable(pb, s, x)
    ensures Origins(pb, s, Tabulated(pb, s).pred)
    ensures Timed(Tabulated(pb, s).pred, time)
  {
    hide Successors, SeedItems, Reachable, Run, Universe, Within, WellFormed, Timed;
    StartWithin(pb, s);
    StartInvariant(pb, s);
    RunInvariant(pb, s, Start(pb, s));
    var r := Tabulated(pb, s);
    forall x ensures x in r.pred <==> Reachable(pb, s, x) {
      EmptyWorkExact(pb, s, r, x);
    }
    hide Invariant, Origins;
    var zero := StartTimed(pb, s);
    time := RunTimed(pb, s, Start(pb, s), zero, 0);
  }
}
