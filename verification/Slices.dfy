/** `_backward_interprocedural_slice`: the witness together with everything that
    reaches its last node over dataflow edges, and all edges among those nodes. */
module Slices {
  import opened ByteStrings
  import opened FiniteSets
  import opened Graphs
  import opened Encoding
  import opened Cells
  import opened Cpgs
  import opened Rebuilds

  datatype SliceResult = EmptyWitness | StrayWitness | Sliced(cpg: Cpg, trail: seq<nat>)

  predicate Dataflow(kind: Bytes) {
    kind == Ascii("CFG") || kind == Ascii("CALL") || kind == Ascii("PDG")
  }

  // ----- reachability

  predicate Flows(es: seq<Edge>, u: nat, v: nat) {
    exists e :: e in es && e.src == u && e.dst == v && Dataflow(e.kind)
  }

  ghost predicate IsPath(es: seq<Edge>, p: seq<nat>) {
    p != [] && forall i :: 0 <= i < |p| - 1 ==> Flows(es, p[i], p[i + 1])
  }

  ghost predicate Connects(es: seq<Edge>, p: seq<nat>, u: nat, v: nat) {
    IsPath(es, p) && p[0] == u && p[|p| - 1] == v
  }

  ghost predicate Reaches(es: seq<Edge>, u: nat, v: nat) {
    exists p :: Connects(es, p, u, v)
  }

  lemma ReachesItself(es: seq<Edge>, v: nat)
    ensures Reaches(es, v, v)
  {
    assert Connects(es, [v], v, v);
  }

  lemma ReachesBefore(es: seq<Edge>, u: nat, v: nat, w: nat)
    requires Flows(es, u, v) && Reaches(es, v, w)
    ensures Reaches(es, u, w)
  {
    var p :| Connects(es, p, v, w);
    assert Connects(es, [u] + p, u, w);
  }

  /** A set that holds the target and all predecessors of its members holds
      everything that reaches the target. */
  lemma {:induction false} ClosedHoldsPath(es: seq<Edge>, s: set<nat>, p: seq<nat>)
    requires IsPath(es, p) && p[|p| - 1] in s
    requires forall u, v :: v in s && Flows(es, u, v) ==> u in s
    ensures p[0] in s
  {
    if |p| > 1 {
      assert Flows(es, p[0], p[1]);
      forall i | 0 <= i < |p[1..]| - 1 ensures Flows(es, p[1..][i], p[1..][i + 1]) {
        assert Flows(es, p[i + 1], p[i + 2]);
      }
      ClosedHoldsPath(es, s, p[1..]);
    }
  }

  // ----- what the slice is

  /** Exactly the witness and the backward cone of its last node. */
  ghost function SliceSet(g: Cpg, w: seq<nat>): (s: set<nat>)
    requires w != []
  {
    set v | v in Ids(g) && (v in w || Reaches(g.edges, v, w[|w| - 1]))
  }

  function KeepEdges(es: seq<Edge>, s: set<nat>): (r: seq<Edge>)
    ensures forall e :: e in r ==> e in es && e.src in s && e.dst in s
  {
    if es == [] then []
    else (if es[0].src in s && es[0].dst in s then [es[0]] else []) + KeepEdges(es[1..], s)
  }

  function PickNodes(g: Cpg, order: seq<nat>): (r: seq<Node>)
    requires forall v :: v in order ==> v in Ids(g)
  {
    seq(|order|, i requires 0 <= i < |order| => Find(g, order[i]))
  }

  /** The induced sub-graph, nodes listed by ascending id. */
  function Part(g: Cpg, order: seq<nat>): (r: Cpg)
    requires forall v :: v in order ==> v in Ids(g)
  {
    Cpg(PickNodes(g, order), KeepEdges(g.edges, Elements(order)))
  }

  function SameFields(): (f: Node -> Label) {
    (n: Node) => n.fields
  }

  lemma PartShape(g: Cpg, order: seq<nat>)
    requires (forall v :: v in order ==> v in Ids(g)) && Distinct(order)
    ensures Ids(Part(g, order)) == Elements(order)
    ensures UniqueIds(Part(g, order).nodes) && EdgesInside(Part(g, order))
  {
    var r := Part(g, order);
    forall v | v in order ensures v in Ids(r) {
      var i :| 0 <= i < |order| && order[i] == v;
      assert r.nodes[i].id == v && r.nodes[i] in r.nodes;
    }
    forall v | v in Ids(r) ensures v in order {
      var n :| n in r.nodes && n.id == v;
      var i :| 0 <= i < |r.nodes| && r.nodes[i] == n;
      assert order[i] == v;
    }
  }

  lemma AscendingDistinct(s: set<nat>)
    ensures Distinct(Ascending(s)) && Elements(Ascending(s)) == s
  {
  }

  ghost function SliceOf(g: Cpg, w: seq<nat>): (r: SliceResult) {
    if w == [] then EmptyWitness
    else if exists v :: v in w && v !in Ids(g) then StrayWitness
    else
      var order := Ascending(SliceSet(g, w));
      AscendingDistinct(SliceSet(g, w));
      PartShape(g, order);
      var part := Part(g, order);
      assert forall v :: v in w ==> v in SliceSet(g, w);
      Sliced(Rebuild(part, SameFields()), MoveOrder(Remap(part), w))
  }

  // ----- the worklist

  ghost predicate Explored(es: seq<Edge>, found: set<nat>, done: set<nat>, stack: seq<nat>) {
    forall u, v :: v in done && Flows(es, u, v) ==> u in found && (u in done || u in stack)
  }

  ghost predicate Sound(g: Cpg, w: seq<nat>, s: set<nat>)
    requires w != []
  {
    forall v :: v in s ==> v in SliceSet(g, w)
  }

  ghost predicate AllReach(g: Cpg, vs: seq<nat>, sink: nat) {
    forall v :: v in vs ==> v in Ids(g) && Reaches(g.edges, v, sink)
  }

  method Predecessors(g: Cpg) returns (preds: map<nat, seq<nat>>)
    requires EdgesInside(g)
    ensures preds.Keys == Ids(g)
    ensures forall u, v :: v in preds ==> (u in preds[v] <==> Flows(g.edges, u, v))
  {
    preds := map v | v in Ids(g) :: [];
    for i := 0 to |g.edges|
      invariant preds.Keys == Ids(g)
      invariant forall u, v :: v in preds ==> (u in preds[v] <==> Flows(g.edges[..i], u, v))
    {
      var e := g.edges[i];
      assert e in g.edges;
      assert g.edges[..i + 1] == g.edges[..i] + [e];
      ghost var before := preds;
      if Dataflow(e.kind) { preds := preds[e.dst := preds[e.dst] + [e.src]]; }
      forall u, v | v in preds ensures u in preds[v] <==> Flows(g.edges[..i + 1], u, v) {
        FlowsLast(g.edges[..i], e, u, v);
        assert u in before[v] <==> Flows(g.edges[..i], u, v);
      }
    }
    assert g.edges[..|g.edges|] == g.edges;
  }

  lemma FlowsLast(es: seq<Edge>, e: Edge, u: nat, v: nat)
    ensures Flows(es + [e], u, v) <==> Flows(es, u, v) || (e.src == u && e.dst == v && Dataflow(e.kind))
  {
    hide Dataflow;
    if Flows(es, u, v) {
      var d :| d in es && d.src == u && d.dst == v && Dataflow(d.kind);
      assert d in es + [e];
    }
    if e.src == u && e.dst == v && Dataflow(e.kind) { assert e in es + [e]; }
  }

  /** The loop computes exactly the backward cone, united with the witness. */
  method Cone(g: Cpg, w: seq<nat>) returns (found: set<nat>)
    requires EdgesInside(g) && w != [] && forall v :: v in w ==> v in Ids(g)
    ensures found == SliceSet(g, w)
  {
    hide Flows, Reaches;
    var preds := Predecessors(g);
    var sink := w[|w| - 1];
    found := Elements(w);
    var done: set<nat>, stack: seq<nat> := {}, [sink];
    ReachesItself(g.edges, sink);
    while stack != []
      invariant Elements(w) <= found && Sound(g, w, found) && done <= found && done <= Ids(g)
      invariant AllReach(g, stack, sink) && Elements(stack) <= found && Explored(g.edges, found, done, stack)
      invariant sink in done || sink in stack
      decreases Ids(g) - done, |stack|
    {
      var cur := stack[|stack| - 1];
      assert cur in stack;
      ghost var old_stack := stack;
      stack := stack[..|stack| - 1];
      assert forall v :: v in old_stack ==> v == cur || v in stack;
      if cur !in done {
        ghost var before := done;
        done := done + {cur};
        found, stack := Visit(g, w, preds[cur], cur, found, done, stack);
        forall u, v | v in done && Flows(g.edges, u, v) ensures u in found && (u in done || u in stack) {
          if v == cur { assert u in preds[cur]; }
        }
      }
    }
    forall u, v | v in done && Flows(g.edges, u, v) ensures u in done {
    }
    forall v | v in SliceSet(g, w) ensures v in found {
      if v !in w { ConeClosed(g.edges, done, v, sink); }
    }
  }

  lemma ConeClosed(es: seq<Edge>, s: set<nat>, v: nat, sink: nat)
    requires sink in s && Reaches(es, v, sink)
    requires forall u, v :: v in s && Flows(es, u, v) ==> u in s
    ensures v in s
  {
    hide Flows;
    var p :| Connects(es, p, v, sink);
    ClosedHoldsPath(es, s, p);
  }

  method Visit(g: Cpg, ghost w: seq<nat>, ps: seq<nat>, cur: nat, found: set<nat>, done: set<nat>, stack: seq<nat>)
    returns (found': set<nat>, stack': seq<nat>)
    requires EdgesInside(g) && w != [] && Sound(g, w, found) && cur in Ids(g)
    requires Reaches(g.edges, cur, w[|w| - 1]) && AllReach(g, stack, w[|w| - 1]) && Elements(stack) <= found
    requires forall u :: u in ps ==> Flows(g.edges, u, cur)
    ensures found <= found' && Sound(g, w, found') && AllReach(g, stack', w[|w| - 1])
    ensures forall v :: v in stack ==> v in stack'
    ensures forall u :: u in ps ==> u in found' && (u in done || u in stack')
    ensures Elements(stack') <= found'
  {
    hide Flows, Reaches;
    found', stack' := found, stack;
    for i := 0 to |ps|
      invariant found <= found' && Elements(stack') <= found' && Sound(g, w, found') && AllReach(g, stack', w[|w| - 1])
      invariant forall v :: v in stack ==> v in stack'
      invariant forall k :: 0 <= k < i ==> ps[k] in found' && (ps[k] in done || ps[k] in stack')
    {
      var u := ps[i];
      assert u in ps;
      FlowInside(g, u, cur);
      ReachesBefore(g.edges, u, cur, w[|w| - 1]);
      found' := found' + {u};
      if u !in done { stack' := stack' + [u]; }
    }
  }

  lemma FlowInside(g: Cpg, u: nat, v: nat)
    requires EdgesInside(g) && Flows(g.edges, u, v)
    ensures u in Ids(g)
  {
  }

  /** `sorted(on_slice)`. */
  method SortFound(s: set<nat>) returns (r: seq<nat>)
    ensures r == Ascending(s)
  {
    r := [];
    var rest := s;
    while rest != {}
      invariant rest <= s && Elements(r) == s - rest
      invariant forall p, q :: 0 <= p < q < |r| ==> r[p] < r[q]
      decreases rest
    {
      var v :| v in rest;
      assert v !in Elements(r);
      r, rest := InsertId(r, v), rest - {v};
    }
    AscendingUnique(r, s);
  }

  method Slice(g: Cpg, w: seq<nat>) returns (r: SliceResult)
    requires EdgesInside(g)
    ensures r == SliceOf(g, w)
  {
    hide SliceSet, Ascending, Rebuild, Remap;
    if w == [] { return EmptyWitness; }
    for i := 0 to |w|
      invariant forall k :: 0 <= k < i ==> w[k] in Ids(g)
    {
      if w[i] !in Ids(g) {
        assert w[i] in w;
        return StrayWitness;
      }
    }
    var found := Cone(g, w);
    var order := SortFound(found);
    SliceSetInside(g, w);
    AscendingDistinct(found);
    PartShape(g, order);
    var part := Part(g, order);
    r := Sliced(Rebuild(part, SameFields()), MoveOrder(Remap(part), w));
  }

  lemma SliceSetInside(g: Cpg, w: seq<nat>)
    requires w != []
    ensures SliceSet(g, w) <= Ids(g)
    ensures (forall v :: v in w ==> v in Ids(g)) ==> forall v :: v in w ==> v in SliceSet(g, w)
  {
  }

  // ----- the slice is the induced sub-graph

  function Induced(c: Graph, s: set<nat>): (r: Graph)
    requires s <= c.labels.Keys
    ensures r.labels.Keys == s
  {
    Graph(map v | v in s :: c.labels[v], KeepEdges(c.edges, s))
  }

  lemma {:induction false} KeepEdgesCount(es: seq<Edge>, s: set<nat>, e: Edge)
    ensures multiset(KeepEdges(es, s))[e] == if e.src in s && e.dst in s then multiset(es)[e] else 0
  {
    if es != [] {
      assert es == [es[0]] + es[1..];
      KeepEdgesCount(es[1..], s, e);
    }
  }

  lemma PartLabel(g: Cpg, order: seq<nat>, v: nat)
    requires UniqueIds(g.nodes) && Distinct(order) && (forall u :: u in order ==> u in Ids(g)) && v in order
    ensures v in Ids(Part(g, order)) && v in Content(g).labels
    ensures Relabelled(Part(g, order), SameFields()).labels[v] == Content(g).labels[v]
  {
    PartShape(g, order);
    var r := Part(g, order);
    var i :| 0 <= i < |order| && order[i] == v;
    var n := Find(g, v);
    assert r.nodes[i] == n;
    assert r.nodes[i] in r.nodes;
    NodeOfNode(r.nodes, n);
    ContentLabel(g, n);
  }

  lemma PartContent(g: Cpg, order: seq<nat>)
    requires UniqueIds(g.nodes) && Distinct(order) && forall v :: v in order ==> v in Ids(g)
    ensures Ids(Part(g, order)) == Elements(order) && Elements(order) <= Content(g).labels.Keys
    ensures Relabelled(Part(g, order), SameFields()) == Induced(Content(g), Elements(order))
  {
    hide Relabelled, Content, UniqueIds, Distinct, PickNodes, Ids;
    PartShape(g, order);
    forall v | v in Elements(order)
      ensures Relabelled(Part(g, order), SameFields()).labels[v] == Content(g).labels[v]
    {
      PartLabel(g, order, v);
    }
  }

  /** The order in which the slice lists its nodes. */
  ghost function SliceOrder(g: Cpg, w: seq<nat>): (r: seq<nat>)
    requires w != []
    ensures forall v :: v in r ==> v in Ids(g)
    ensures Distinct(r) && Elements(r) == SliceSet(g, w)
  {
    AscendingDistinct(SliceSet(g, w));
    Ascending(SliceSet(g, w))
  }

  /** The slice keeps every edge among its nodes, with multiplicity, and every label. */
  lemma SliceInduced(g: Cpg, w: seq<nat>)
    requires UniqueIds(g.nodes) && SliceOf(g, w).Sliced?
    ensures SliceSet(g, w) <= Content(g).labels.Keys
    ensures Isomorphism(Induced(Content(g), SliceSet(g, w)), Content(SliceOf(g, w).cpg),
                        Remap(Part(g, SliceOrder(g, w))))
  {
    hide SliceSet, Ascending, Rebuild, Remap, Isomorphism, Induced, Content, Part;
    var order := SliceOrder(g, w);
    PartShape(g, order);
    PartContent(g, order);
    RebuildIsomorphic(Part(g, order), SameFields());
  }

  lemma PartSound(g: Cpg, order: seq<nat>)
    requires SoundExceptLabels(g) && Distinct(order) && forall v :: v in order ==> v in Ids(g)
    ensures SoundExceptLabels(Part(g, order))
  {
    var r := Part(g, order);
    PartShape(g, order);
    DistinctSize(order);
    IdsSize(g.nodes);
    SubsetSize(Elements(order), Ids(g));
    KeepEdgesLength(g.edges, Elements(order));
    forall n | n in r.nodes ensures n.id < TWO_64 && |n.path| < TWO_64 {
      var i :| 0 <= i < |order| && r.nodes[i] == n;
      assert n in g.nodes;
    }
    forall e | e in r.edges ensures FitsEdge(r, e) {
      assert FitsEdge(g, e);
    }
  }

  lemma {:induction false} KeepEdgesLength(es: seq<Edge>, s: set<nat>)
    ensures |KeepEdges(es, s)| <= |es|
  {
    if es != [] { KeepEdgesLength(es[1..], s); }
  }

  // ----- the cone, on the edges of the graph

  /** An edge of one of the three kinds CFG, CALL and PDG. */
  ghost predicate FlowEdge(g: Cpg, u: nat, v: nat) {
    exists e :: e in g.edges && e.src == u && e.dst == v &&
      (e.kind == [67, 70, 71] || e.kind == [67, 65, 76, 76] || e.kind == [80, 68, 71])
  }

  ghost predicate FlowPath(g: Cpg, p: seq<nat>, u: nat, v: nat) {
    && p != [] && p[0] == u && p[|p| - 1] == v
    && forall i :: 0 <= i < |p| - 1 ==> FlowEdge(g, p[i], p[i + 1])
  }

  ghost predicate FlowsTo(g: Cpg, u: nat, v: nat) {
    exists p :: FlowPath(g, p, u, v)
  }

  lemma FlowKinds(g: Cpg, u: nat, v: nat)
    ensures Flows(g.edges, u, v) <==> FlowEdge(g, u, v)
  {
    assert Ascii("CFG") == [67, 70, 71] && Ascii("CALL") == [67, 65, 76, 76] && Ascii("PDG") == [80, 68, 71];
  }

  /** A node is in the slice exactly if it is on the witness or such edges lead from it to
      the witness's last node. */
  lemma SliceSetIs(g: Cpg, w: seq<nat>, v: nat)
    requires w != []
    ensures v in SliceSet(g, w) <==> v in Ids(g) && (v in w || FlowsTo(g, v, w[|w| - 1]))
  {
    hide Flows, FlowEdge;
    var sink := w[|w| - 1];
    forall p ensures Connects(g.edges, p, v, sink) <==> FlowPath(g, p, v, sink) {
      forall i | 0 <= i < |p| - 1 ensures Flows(g.edges, p[i], p[i + 1]) <==> FlowEdge(g, p[i], p[i + 1]) {
        FlowKinds(g, p[i], p[i + 1]);
      }
    }
  }
}
