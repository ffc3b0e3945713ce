/** Witness paths read back from the predecessor map. */
module Witnesses {
  import opened Tabulation

  /** The nodes from the seed to an item. */
  ghost function Trail(pred: map<Item, Origin>, time: map<Item, nat>, x: Item): (r: seq<nat>)
    requires Timed(pred, time) && x in pred
    ensures r != [] && r[|r| - 1] == x.node
    decreases time[x]
  {
    match pred[x]
    case Seed => [x.node]
    case From(y) => Trail(pred, time, y) + [x.node]
  }

  /** Consecutive nodes follow a CFG edge or enter a callee, and only from nodes
      that do not sanitise. */
  ghost predicate Follows(pb: Problem, s: Scope, m: nat, n: nat)
    requires WellFormed(pb)
  {
    && m in pb.nodes && m !in pb.sanitised
    && (n in pb.cfg[m] || (n in pb.calls[m] && InScope(s, n)))
  }

  lemma SuccessorFollows(pb: Problem, s: Scope, x: Item, y: Item)
    requires WellFormed(pb) && y in Successors(pb, s, x)
    ensures y.fact == x.fact && Follows(pb, s, x.node, y.node)
  {
  }

  /** A witness starts at a seed of its fact, ends at its item, and follows
      unsanitised edges throughout. */
  lemma {:induction false} TrailRealises(pb: Problem, s: Scope, pred: map<Item, Origin>, time: map<Item, nat>, x: Item)
    requires WellFormed(pb) && Origins(pb, s, pred) && Timed(pred, time) && x in pred
    ensures var t := Trail(pred, time, x);
            && Item(t[0], x.fact) in SeedItems(pb, s)
            && (forall i :: 0 <= i < |t| - 1 ==> Follows(pb, s, t[i], t[i + 1]))
    decreases time[x]
  {
    hide Successors, SeedItems, Follows, WellFormed;
    if pred[x].From? {
      var y := pred[x].item;
      TrailRealises(pb, s, pred, time, y);
      SuccessorFollows(pb, s, y, x);
    }
  }

  lemma {:induction false} TrailDiscovered(pb: Problem, s: Scope, pred: map<Item, Origin>, time: map<Item, nat>,
                                           x: Item, i: nat)
    requires WellFormed(pb) && Origins(pb, s, pred) && Timed(pred, time) && x in pred
    requires i < |Trail(pred, time, x)|
    ensures var y := Item(Trail(pred, time, x)[i], x.fact);
            y in pred && time[y] <= time[x] && (i < |Trail(pred, time, x)| - 1 ==> time[y] < time[x])
    decreases time[x]
  {
    hide Successors, SeedItems, Follows, WellFormed;
    if pred[x].From? && i < |Trail(pred, time, x)| - 1 {
      var y := pred[x].item;
      SuccessorFollows(pb, s, y, x);
      TrailDiscovered(pb, s, pred, time, y, i);
    }
  }

  /** A witness visits no node twice. */
  lemma {:induction false} TrailSimple(pb: Problem, s: Scope, pred: map<Item, Origin>, time: map<Item, nat>, x: Item,
                                       i: nat, j: nat)
    requires WellFormed(pb) && Origins(pb, s, pred) && Timed(pred, time) && x in pred
    requires i < j < |Trail(pred, time, x)|
    ensures Trail(pred, time, x)[i] != Trail(pred, time, x)[j]
    decreases time[x]
  {
    hide Successors, SeedItems, Follows, WellFormed;
    if pred[x].From? {
      var y := pred[x].item;
      SuccessorFollows(pb, s, y, x);
      if j == |Trail(pred, time, x)| - 1 {
        TrailDiscovered(pb, s, pred, time, x, i);
      } else {
        TrailSimple(pb, s, pred, time, y, i, j);
      }
    }
  }

  /** Chains of one fact live in `Only(c)` when every discoverer does. */
  lemma {:induction false} TrailRestricted(pred: map<Item, Origin>, time: map<Item, nat>, sub: map<Item, Origin>,
                                           late: map<Item, nat>, x: Item)
    requires Timed(pred, time) && Timed(sub, late) && x in sub
    requires forall y :: y in sub ==> y in pred && sub[y] == pred[y]
    ensures Trail(sub, late, x) == Trail(pred, time, x)
    decreases time[x]
  {
    if sub[x].From? { TrailRestricted(pred, time, sub, late, sub[x].item); }
  }

  /** `_witness`: walk the predecessor map back to a seed, then reverse. The guard
      against revisiting an item never fires. */
  method Witness(pred: map<Item, Origin>, ghost time: map<Item, nat>, x: Item) returns (path: seq<nat>)
    requires Timed(pred, time) && x in pred
    ensures path == Trail(pred, time, x)
  {
    path := [];
    var seen: set<Item> := {};
    var cur := x;
    var more := true;
    while more && cur !in seen
      invariant more ==> cur in pred && Trail(pred, time, cur) + path == Trail(pred, time, x)
      invariant !more ==> path == Trail(pred, time, x)
      invariant more ==> forall y :: y in seen ==> y in pred && time[cur] < time[y]
      decreases more, if more then time[cur] else 0
    {
      seen := seen + {cur};
      path := [cur.node] + path;
      match pred[cur] {
        case Seed => more := false;
        case From(y) =>
          assert Trail(pred, time, cur) == Trail(pred, time, y) + [cur.node];
          cur := y;
      }
    }
  }
}
