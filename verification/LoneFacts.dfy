/** Facts do not disturb each other: what a run discovers of one fact, and through
    what, is what a run seeded with that fact alone discovers. */
module LoneFacts {
  import opened Tabulation
  import opened Witnesses
  import opened Boundaries

  /** The same tables and sanitised nodes, with one fact at one node. */
  ghost function Lone(pb: Problem, n: nat): (r: Problem) {
    pb.(seeds := map[n := {0}], sinks := {})
  }

  lemma LoneWellFormed(pb: Problem, n: nat)
    requires WellFormed(pb) && n in pb.nodes
    ensures WellFormed(Lone(pb, n))
  {
  }

  function Down(o: Origin): (r: Origin) {
    match o
    case Seed => Seed
    case From(y) => From(Item(y.node, 0))
  }

  /** The items of one fact, as items of fact 0. */
  ghost function Picked(xs: set<Item>, f: nat): (r: set<Item>) {
    set x | x in xs && x.fact == f :: Item(x.node, 0)
  }

  lemma PickedMeans(xs: set<Item>, f: nat, x: Item)
    ensures x in Picked(xs, f) <==> x.fact == 0 && Item(x.node, f) in xs
  {
    if x.fact == 0 && Item(x.node, f) in xs { assert x == Item(Item(x.node, f).node, 0); }
    if x in Picked(xs, f) {
      var y :| y in xs && y.fact == f && x == Item(y.node, 0);
      assert y == Item(x.node, f);
    }
  }

  ghost function PickedPred(pred: map<Item, Origin>, f: nat): (r: map<Item, Origin>)
    ensures r.Keys == Picked(pred.Keys, f)
  {
    assert forall x :: x in Picked(pred.Keys, f) ==> Item(x.node, f) in pred by {
      forall x | x in Picked(pred.Keys, f) ensures Item(x.node, f) in pred { PickedMeans(pred.Keys, f, x); }
    }
    map x | x in Picked(pred.Keys, f) :: Down(pred[Item(x.node, f)])
  }

  ghost function Project(st: State, f: nat): (r: State) {
    State(PickedPred(st.pred, f), Picked(st.work, f))
  }

  // ----- one step

  lemma NextMeans(pb: Problem, s: Scope, x: Item, y: Item)
    requires WellFormed(pb)
    ensures y in Successors(pb, s, x) <==>
              y.fact == x.fact && x.node !in pb.sanitised && Hop(pb, s, x.node, y.node)
  {
    hide WellFormed;
    if y in Successors(pb, s, x) { SuccessorHop(pb, s, x, y); }
    if y.fact == x.fact && x.node !in pb.sanitised && Hop(pb, s, x.node, y.node) {
      HopSuccessor(pb, s, x.node, y.node, x.fact);
      assert x == Item(x.node, x.fact) && y == Item(y.node, x.fact);
    }
  }

  lemma LoneHop(pb: Problem, n: nat, s: Scope, u: nat, v: nat)
    requires WellFormed(pb) && WellFormed(Lone(pb, n))
    ensures Hop(Lone(pb, n), s, u, v) <==> Hop(pb, s, u, v)
  {
    hide WellFormed;
  }

  lemma NextPicked(pb: Problem, n: nat, s: Scope, x: Item)
    requires WellFormed(pb) && WellFormed(Lone(pb, n))
    ensures Picked(Successors(pb, s, x), x.fact) == Successors(Lone(pb, n), s, Item(x.node, 0))
    ensures forall e :: e != x.fact ==> Picked(Successors(pb, s, x), e) == {}
  {
    hide WellFormed, Successors, Hop, Picked;
    var l := Lone(pb, n);
    forall y ensures y in Picked(Successors(pb, s, x), x.fact) <==> y in Successors(l, s, Item(x.node, 0)) {
      PickedMeans(Successors(pb, s, x), x.fact, y);
      NextMeans(pb, s, x, Item(y.node, x.fact));
      NextMeans(l, s, Item(x.node, 0), y);
      LoneHop(pb, n, s, x.node, y.node);
    }
    forall e, y | e != x.fact ensures y !in Picked(Successors(pb, s, x), e) {
      PickedMeans(Successors(pb, s, x), e, y);
      NextMeans(pb, s, x, Item(y.node, e));
    }
  }

  lemma StepOther(pb: Problem, s: Scope, st: State, x: Item, f: nat)
    requires WellFormed(pb) && x.fact != f && Picked(Successors(pb, s, x), f) == {}
    ensures Project(StepOn(pb, s, st, x), f) == Project(st, f)
  {
    hide WellFormed, Successors, Picked;
    var next := StepOn(pb, s, st, x);
    forall y ensures y in Picked(next.pred.Keys, f) <==> y in Picked(st.pred.Keys, f) {
      PickedMeans(next.pred.Keys, f, y);
      PickedMeans(st.pred.Keys, f, y);
      PickedMeans(Successors(pb, s, x), f, Item(y.node, 0));
    }
    forall y ensures y in Picked(next.work, f) <==> y in Picked(st.work, f) {
      PickedMeans(next.work, f, y);
      PickedMeans(st.work, f, y);
      PickedMeans(Successors(pb, s, x), f, Item(y.node, 0));
    }
    forall y | y in Picked(st.pred.Keys, f)
      ensures Item(y.node, f) in st.pred && Item(y.node, f) in next.pred
      ensures next.pred[Item(y.node, f)] == st.pred[Item(y.node, f)]
    {
      PickedMeans(st.pred.Keys, f, y);
      PickedMeans(Successors(pb, s, x), f, Item(y.node, 0));
    }
    assert Project(next, f).pred == Project(st, f).pred;
    assert Project(next, f).work == Project(st, f).work;
  }

  lemma StepPred(pb: Problem, n: nat, s: Scope, st: State, x: Item, y: Item)
    requires WellFormed(pb) && WellFormed(Lone(pb, n))
    requires Picked(Successors(pb, s, x), x.fact) == Successors(Lone(pb, n), s, Item(x.node, 0))
    ensures var a, b := Project(StepOn(pb, s, st, x), x.fact),
                        StepOn(Lone(pb, n), s, Project(st, x.fact), Item(x.node, 0));
            && (y in a.pred <==> y in b.pred) && (y in a.pred ==> a.pred[y] == b.pred[y])
            && (y in a.work <==> y in b.work)
  {
    hide WellFormed, Successors, Picked;
    var f, next := x.fact, StepOn(pb, s, st, x);
    PickedMeans(next.pred.Keys, f, y);
    PickedMeans(st.pred.Keys, f, y);
    PickedMeans(next.work, f, y);
    PickedMeans(st.work, f, y);
    PickedMeans(Successors(pb, s, x), f, y);
    assert Item(y.node, f) == x <==> y.node == x.node by { assert x == Item(x.node, f); }
    assert y.fact == 0 ==> (y == Item(x.node, 0) <==> y.node == x.node);
  }

  lemma StepSame(pb: Problem, n: nat, s: Scope, st: State, x: Item)
    requires WellFormed(pb) && WellFormed(Lone(pb, n))
    ensures Project(StepOn(pb, s, st, x), x.fact) == StepOn(Lone(pb, n), s, Project(st, x.fact), Item(x.node, 0))
  {
    hide WellFormed, Successors, Picked, Project, StepOn;
    NextPicked(pb, n, s, x);
    var a, b := Project(StepOn(pb, s, st, x), x.fact), StepOn(Lone(pb, n), s, Project(st, x.fact), Item(x.node, 0));
    forall y ensures (y in a.pred <==> y in b.pred) && (y in a.pred ==> a.pred[y] == b.pred[y])
                     && (y in a.work <==> y in b.work) {
      StepPred(pb, n, s, st, x, y);
    }
    assert a.pred == b.pred && a.work == b.work;
  }

  // ----- the whole run

  lemma ProjectWithin(pb: Problem, n: nat, st: State, f: nat)
    requires Within(pb, st)
    ensures Within(Lone(pb, n), Project(st, f))
  {
    hide Picked;
    var l := Lone(pb, n);
    assert n in l.seeds && 0 in l.seeds[n];
    assert 0 in Facts(l);
    forall y | y in Picked(st.pred.Keys, f) ensures y in Universe(l) {
      PickedMeans(st.pred.Keys, f, y);
      assert Item(y.node, f) in Universe(pb);
      assert y == Item(y.node, 0);
    }
    forall y | y in Picked(st.work, f) ensures y in Picked(st.pred.Keys, f) {
      PickedMeans(st.work, f, y);
      PickedMeans(st.pred.Keys, f, y);
    }
  }

  lemma FirstPicked(pb: Problem, n: nat, st: State, x: Item)
    requires WellFormed(pb) && WellFormed(Lone(pb, n)) && IsFirst(pb, st.work, x)
    ensures IsFirst(Lone(pb, n), Picked(st.work, x.fact), Item(x.node, 0))
  {
    hide WellFormed, Picked;
    PickedMeans(st.work, x.fact, Item(x.node, 0));
    assert x == Item(x.node, x.fact);
    forall y | y in Picked(st.work, x.fact)
      ensures y.node in pb.rank && Sooner(Lone(pb, n), Item(x.node, 0), y)
    {
      PickedMeans(st.work, x.fact, y);
      assert Sooner(pb, x, Item(y.node, x.fact));
    }
  }

  lemma NothingPicked(f: nat)
    ensures Picked({}, f) == {}
  {
  }

  lemma {:induction false} RunProjected(pb: Problem, n: nat, s: Scope, st: State, f: nat)
    requires WellFormed(pb) && WellFormed(Lone(pb, n)) && Within(pb, st)
    ensures Within(Lone(pb, n), Project(st, f))
    ensures Project(Run(pb, s, st), f) == Run(Lone(pb, n), s, Project(st, f))
    decreases Universe(pb) - st.pred.Keys, st.work
  {
    hide WellFormed, Successors, Picked, StepOn, Universe, Within, PickedPred;
    ProjectWithin(pb, n, st, f);
    if st.work == {} {
      NothingPicked(f);
    } else {
      WorkRanked(pb, st);
      var x := First(pb, st.work);
      StepWithin(pb, s, st, x);
      RunProjected(pb, n, s, StepOn(pb, s, st, x), f);
      if x.fact == f {
        FirstPicked(pb, n, st, x);
        StepSame(pb, n, s, st, x);
        RunOne(Lone(pb, n), s, Project(st, f), Item(x.node, 0));
      } else {
        NextPicked(pb, n, s, x);
        StepOther(pb, s, st, x, f);
      }
    }
  }

  lemma RunOne(pb: Problem, s: Scope, st: State, x: Item)
    requires WellFormed(pb) && Within(pb, st) && IsFirst(pb, st.work, x)
    ensures Within(pb, StepOn(pb, s, st, x)) && Run(pb, s, st) == Run(pb, s, StepOn(pb, s, st, x))
  {
    hide Successors, Universe;
    WorkRanked(pb, st);
    FirstUnique(pb, st.work, x, First(pb, st.work));
    StepWithin(pb, s, st, x);
  }

  /** The fact is seeded at `n`, in scope, and nowhere else. */
  ghost predicate SeededAt(pb: Problem, s: Scope, n: nat, f: nat) {
    forall x :: x in SeedItems(pb, s) && x.fact == f <==> x == Item(n, f)
  }

  lemma StartProjected(pb: Problem, s: Scope, n: nat, f: nat)
    requires WellFormed(pb) && SeededAt(pb, s, n, f) && n in pb.nodes
    ensures Project(Start(pb, s), f) == Start(Lone(pb, n), s)
  {
    hide WellFormed, Picked, SeedItems;
    var a, b := Project(Start(pb, s), f), Start(Lone(pb, n), s);
    assert Item(n, f) in SeedItems(pb, s);
    SeedMeans(pb, s, Item(n, f));
    forall y ensures y in Picked(SeedItems(pb, s), f) <==> y == Item(n, 0) {
      PickedMeans(SeedItems(pb, s), f, y);
    }
    forall y ensures y in SeedItems(Lone(pb, n), s) <==> y == Item(n, 0) { SeedMeans(Lone(pb, n), s, y); }
    assert Start(pb, s).pred.Keys == SeedItems(pb, s);
    assert a.pred == b.pred;
    assert a.work == b.work;
  }

  /** What is discovered of a fact seeded at one node is the run from that node alone. */
  lemma TabulatedProjected(pb: Problem, s: Scope, n: nat, f: nat)
    requires WellFormed(pb) && SeededAt(pb, s, n, f) && n in pb.nodes
    ensures WellFormed(Lone(pb, n)) && Project(Tabulated(pb, s), f) == Tabulated(Lone(pb, n), s)
  {
    hide WellFormed, Run, Start, Project, SeededAt;
    LoneWellFormed(pb, n);
    StartWithin(pb, s);
    StartProjected(pb, s, n, f);
    RunProjected(pb, n, s, Start(pb, s), f);
  }

  // ----- witnesses

  lemma {:induction false} TrailProjected(pb: Problem, s: Scope, pred: map<Item, Origin>, time: map<Item, nat>,
                                          low: map<Item, Origin>, late: map<Item, nat>, x: Item)
    requires WellFormed(pb) && Origins(pb, s, pred) && Timed(pred, time) && Timed(low, late)
    requires x in pred && low == PickedPred(pred, x.fact)
    ensures Item(x.node, 0) in low && Trail(low, late, Item(x.node, 0)) == Trail(pred, time, x)
    decreases time[x]
  {
    hide WellFormed, Successors, Picked, SeedItems, Hop;
    PickedMeans(pred.Keys, x.fact, Item(x.node, 0));
    assert x == Item(x.node, x.fact);
    if pred[x].From? {
      var y := pred[x].item;
      SuccessorHop(pb, s, y, x);
      TrailProjected(pb, s, pred, time, low, late, y);
    }
  }
}
