/** The fingerprint as it is computed: a counter over the canonical order of the
    anonymised slice, two searches on one budget, and a deadline anywhere. */
module FingerprintRuns {
  import opened ByteStrings
  import opened FiniteSets
  import opened Graphs
  import opened Encoding
  import opened Cpgs
  import opened Rebuilds
  import opened Slices
  import opened SliceLaws
  import opened Normalisation
  import opened Budgets
  import opened CanonicalOrders
  import opened Fingerprints

  // ----- numbering locals

  lemma {:induction false} CountStep(c: Graph, order: seq<nat>, i: nat)
    requires i < |order| && order[i] in c.labels
    ensures CountLocals(c, order[..i + 1]) == CountLocals(c, order[..i]) + if IsLocal(c.labels[order[i]]) then 1 else 0
  {
    assert order[..i + 1][..i] == order[..i];
  }

  /** One pass over the order numbers the locals it meets from 0. */
  method NumberLocals(c: Graph, order: seq<nat>) returns (counter: map<nat, nat>)
    requires CompleteOrder(c, order)
    ensures forall v :: v in counter <==> v in c.labels && IsLocal(c.labels[v])
    ensures forall v :: v in counter ==> v in order && counter[v] == CountLocals(c, order[..Position(order, v)])
  {
    counter := map[];
    var next := 0;
    for i := 0 to |order|
      invariant next == CountLocals(c, order[..i])
      invariant forall v :: v in counter ==> v in order[..i] && v in c.labels && IsLocal(c.labels[v])
      invariant forall k :: 0 <= k < i && IsLocal(c.labels[order[k]]) ==> order[k] in counter
      invariant forall k :: 0 <= k < i && order[k] in counter ==> counter[order[k]] == CountLocals(c, order[..k])
    {
      var v := order[i];
      assert v in order;
      CountStep(c, order, i);
      if IsLocal(c.labels[v]) {
        counter := counter[v := next];
        next := next + 1;
      }
    }
    forall v | v in counter ensures v in order && counter[v] == CountLocals(c, order[..Position(order, v)]) {
      assert order[Position(order, v)] == v;
    }
  }

  function ByCounter(counter: map<nat, nat>): (f: Node -> Label) {
    (n: Node) => if n.id in counter then n.fields.(text := LocalName(counter[n.id])) else n.fields
  }

  lemma CounterRenames(s: Cpg, order: seq<nat>, counter: map<nat, nat>)
    requires UniqueIds(s.nodes) && EdgesInside(s) && CompleteOrder(Content(s), order)
    requires forall v :: v in counter <==> v in Content(s).labels && IsLocal(Content(s).labels[v])
    requires forall v :: v in counter ==>
               v in order && counter[v] == CountLocals(Content(s), order[..Position(order, v)])
    ensures Rebuild(s, ByCounter(counter)) == NumberedCopy(s, order)
  {
    hide LocalName, CountLocals, Remap, MoveAll;
    var a, b := Rebuild(s, ByCounter(counter)), NumberedCopy(s, order);
    forall i | 0 <= i < |s.nodes| ensures a.nodes[i] == b.nodes[i] {
      assert s.nodes[i] in s.nodes;
      ContentLabel(s, s.nodes[i]);
    }
    assert a.nodes == b.nodes;
  }

  lemma ReadBackAt(s: Cpg, order: seq<nat>, r: seq<nat>)
    requires UniqueIds(s.nodes) && (forall v :: v in order ==> v in Below(|s.nodes|)) && |r| == |order|
    requires forall i :: 0 <= i < |order| ==> order[i] < |s.nodes| && r[i] == s.nodes[order[i]].id
    ensures r == ReadBack(s, order)
  {
    hide Remap;
    RemapBijective(s);
    var f, back := Remap(s), Inverse(Remap(s), Below(|s.nodes|));
    forall i | 0 <= i < |order| ensures r[i] == ReadBack(s, order)[i] {
      RemapAt(s, order[i]);
      assert back[f[r[i]]] == r[i];
    }
  }

  // ----- the passes

  method AnyLocal(s: Cpg) returns (any: bool)
    requires UniqueIds(s.nodes)
    ensures any == HasLocals(Content(s))
  {
    hide Content, IsLocal;
    any := false;
    for i := 0 to |s.nodes|
      invariant forall k :: 0 <= k < i ==> !IsLocal(s.nodes[k].fields)
    {
      if IsLocal(s.nodes[i].fields) {
        assert s.nodes[i] in s.nodes;
        ContentLabel(s, s.nodes[i]);
        return true;
      }
    }
    LocalsListed(s);
  }

  lemma LocalsListed(s: Cpg)
    requires UniqueIds(s.nodes)
    ensures HasLocals(Content(s)) ==> exists k :: 0 <= k < |s.nodes| && IsLocal(s.nodes[k].fields)
  {
    hide Content, IsLocal, NodeOf;
    if v :| v in Content(s).labels && IsLocal(Content(s).labels[v]) {
      var n := Find(s, v);
      ContentLabel(s, n);
    }
  }

  datatype NormalRun = Late | Done(result: Normal)

  lemma SoundParts(s: Cpg)
    requires Valid(s)
    ensures EdgesInside(s) && UniqueIds(s.nodes)
  {
    ValidSound(s);
  }

  /** `_normalise` on a valid slice. */
  method Normalise(s: Cpg, budget: Budget, sha: Bytes -> Bytes) returns (r: NormalRun)
    requires Valid(s) && EdgesInside(s) && UniqueIds(s.nodes) && budget.Valid()
    modifies budget
    ensures budget.Valid()
    ensures r.Done? ==> r.result == NormalOf(s, old(budget.states), budget.limit, sha)
    ensures r.Done? && (r.result.Ready? || r.result.Spent?) ==> budget.states == r.result.states
  {
    hide Valid, Content, OutcomeOf, Rebuild, CompleteOrder, ReadBack, UniqueIds, EdgesInside, HasLocals, Below, Encode;
    var late := budget.Check();
    if late { return Late; }
    var any := AnyLocal(s);
    if !any { return Done(Ready(Rebuild(s, CollapseNode()), budget.states)); }
    BlindCopyValid(s);
    var ordering := CanonicalOrderWithin(Rebuild(s, BlindNode()), budget, sha);
    if ordering.Deadline? { return Late; }
    OutcomeEncodes(BlindCopy(s), old(budget.states), budget.limit, sha);
    if ordering.Weak? { return Done(Spent(ordering.states)); }
    ReadBackEncodes(s, ordering.order);
    var numbered := Number(s, ordering.order);
    RebuildSelfNumbered(s, RenameNode(Content(s), ReadBack(s, ordering.order)));
    r := Done(Ready(Rebuild(numbered, CollapseNode()), ordering.states));
  }

  method Number(s: Cpg, order: seq<nat>) returns (numbered: Cpg)
    requires UniqueIds(s.nodes) && EdgesInside(s) && forall v :: v in order ==> v in Below(|s.nodes|)
    requires CompleteOrder(Nameless(Content(s)), ReadBack(s, order))
    ensures numbered == NumberedCopy(s, ReadBack(s, order))
  {
    hide Content, Rebuild, ReadBack, UniqueIds, EdgesInside;
    assert forall i :: 0 <= i < |order| ==> order[i] in order && order[i] in Below(|s.nodes|);
    var original := seq(|order|, i requires 0 <= i < |order| && order[i] < |s.nodes| => s.nodes[order[i]].id);
    ReadBackAt(s, order, original);
    var counter := NumberLocals(Content(s), original);
    CounterRenames(s, original, counter);
    numbered := Rebuild(s, ByCounter(counter));
  }

  /** Only the deadline can keep a run from the fingerprint its input determines. */
  method ComputeSliceFingerprint(g: Cpg, w: seq<nat>, b: int, sha: Bytes -> Bytes) returns (r: Fingerprint)
    ensures r == TooLate || r == FingerprintOf(g, w, if b <= 0 then 0 else b, sha)
  {
    hide OutcomeOf, NormalOf, SliceOf, Content, Encode;
    if b <= 0 { return Refused; }
    var budget := new Budget(b);
    if !Valid(g) { return Refused; }
    hide Valid, EdgesInside, UniqueIds;
    SoundParts(g);
    var sliced := Slice(g, w);
    match sliced {
      case EmptyWitness => return NoWitness;
      case StrayWitness => return StrayNode;
      case Sliced(s, trail) =>
        SliceValid(g, w);
        SliceSelfNumbered(g, w);
        SoundParts(s);
        r := NormaliseAndFinish(s, trail, budget, sha);
    }
    var late := budget.Check();
    if late { r := TooLate; }
  }

  method NormaliseAndFinish(s: Cpg, trail: seq<nat>, budget: Budget, sha: Bytes -> Bytes) returns (r: Fingerprint)
    requires Valid(s) && EdgesInside(s) && UniqueIds(s.nodes) && budget.Valid() && budget.states == 0
    modifies budget
    ensures r == TooLate || r == Finish(NormalOf(s, 0, budget.limit, sha), trail, budget.limit, sha)
  {
    hide OutcomeOf, NormalOf, Content, Encode, Valid, EdgesInside, UniqueIds;
    var run := Normalise(s, budget, sha);
    if run.Late? { return TooLate; }
    match run.result {
      case Failed => return Refused;
      case Spent(states) => return WeakSlice(trail, states);
      case Ready(c, used) =>
        var ordering := CanonicalOrderWithin(c, budget, sha);
        match ordering {
          case Deadline => return TooLate;
          case Rejected => return Refused;
          case Weak(_, _, states) => return WeakSlice(trail, states);
          case Strong(_, code, states) => return StrongSlice(code, states);
        }
    }
  }
}
