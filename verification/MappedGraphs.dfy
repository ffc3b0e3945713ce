/** What the mapper emits, read on the export: which nodes, which edges, and where the
    declaration, the file and the path of a node come from. */
module MappedGraphs {
  import opened FiniteSets
  import opened ByteStrings
  import opened Arcs
  import opened KeyedOrders
  import opened MapperWalks
  import opened MapperTrees
  import opened Mappers

  const AST_KIND: Bytes := [65, 83, 84]
  const CFG_KIND: Bytes := [67, 70, 71]
  const PDG_KIND: Bytes := [80, 68, 71]
  const CDG_KIND: Bytes := [67, 68, 71]
  const REACHING_KIND: Bytes := [82, 69, 65, 67, 72, 73, 78, 71, 95, 68, 69, 70]

  // ----- refused

  ghost predicate IsListed(x: Export, v: Text) {
    exists n :: n in x.nodes && n.id == v
  }

  /** Of another kind, or with an end that is not listed. */
  ghost predicate BadEdge(x: Export, e: RawEdge) {
    || (e.kind != AST_KIND && e.kind != CFG_KIND && e.kind != CDG_KIND && e.kind != REACHING_KIND)
    || !IsListed(x, e.src) || !IsListed(x, e.dst)
  }

  lemma ListedIs(x: Export, v: Text)
    ensures v in TableOf(x.nodes) <==> IsListed(x, v)
  {
    hide TableOf;
    TableKeys(x.nodes, v);
    if i :| 0 <= i < |x.nodes| && x.nodes[i].id == v { assert x.nodes[i] in x.nodes; }
  }

  /** An export is refused exactly for a bad edge. */
  lemma RefusedExactly(x: Export)
    requires Walkable(x)
    ensures MapOf(x).Failed? <==> exists e :: e in x.edges && BadEdge(x, e)
  {
    hide AllInfo, KinFrom, TableOf, Terminates, IsListed, Emission, EdgesOut, RanksDiffer;
    forall e ensures BadEdge(x, e) <==> !(EndsKnown(TableOf(x.nodes), e) && KnownKind(e.kind)) {
      ListedIs(x, e.src);
      ListedIs(x, e.dst);
    }
  }

  // ----- edges

  /** How many edges of the export run from one node to another. */
  function RawCount(es: seq<RawEdge>, kind: Bytes, u: Text, v: Text): (n: nat) {
    multiset(es)[RawEdge(kind, u, v)]
  }

  /** How many edges of the graph run between two positions. */
  function OutCount(arcs: seq<Arc>, kind: Bytes, i: nat, j: nat): (n: nat) {
    multiset(arcs)[Arc(kind, i, j)]
  }

  lemma PositionOf(order: seq<Text>, i: nat)
    requires Distinct(order) && i < |order|
    ensures PositionIn(order, order[i]) == i
  {
    var k := PositionIn(order, order[i]);
  }

  lemma EdgeOutIs(order: seq<Text>, e: RawEdge, i: nat, j: nat, kind: Bytes)
    requires Distinct(order) && e.src in order && e.dst in order && i < |order| && j < |order| && KnownKind(e.kind)
    ensures EdgeOut(order, e) == Arc(kind, i, j) <==>
              && e.src == order[i] && e.dst == order[j]
              && (|| (kind == AST_KIND && e.kind == AST_KIND) || (kind == CFG_KIND && e.kind == CFG_KIND)
                  || (kind == PDG_KIND && (e.kind == CDG_KIND || e.kind == REACHING_KIND)))
  {
    hide PositionIn, Distinct;
    PositionOf(order, i);
    PositionOf(order, j);
    KindsDiffer();
  }

  lemma KindsDiffer()
    ensures AST_KIND != CFG_KIND && AST_KIND != PDG_KIND && CFG_KIND != PDG_KIND && CDG_KIND != REACHING_KIND
    ensures CDG_KIND != AST_KIND && CDG_KIND != CFG_KIND && REACHING_KIND != AST_KIND && REACHING_KIND != CFG_KIND
  {
    assert AST_KIND[0] == 65 && CFG_KIND[1] == 70 && PDG_KIND[0] == 80 && CDG_KIND[1] == 68 && |REACHING_KIND| == 12;
  }

  lemma {:induction false} EdgesCounted(order: seq<Text>, es: seq<RawEdge>, i: nat, j: nat)
    requires Distinct(order) && EndsListed(order, es) && i < |order| && j < |order|
    requires forall e :: e in es ==> KnownKind(e.kind)
    ensures OutCount(EdgesOut(order, es), AST_KIND, i, j) == RawCount(es, AST_KIND, order[i], order[j])
    ensures OutCount(EdgesOut(order, es), CFG_KIND, i, j) == RawCount(es, CFG_KIND, order[i], order[j])
    ensures OutCount(EdgesOut(order, es), PDG_KIND, i, j) ==
            RawCount(es, CDG_KIND, order[i], order[j]) + RawCount(es, REACHING_KIND, order[i], order[j])
  {
    hide EdgeOut, KnownKind, Distinct;
    if es != [] {
      var e, rest := es[0], es[1..];
      assert es == [e] + rest && e in es;
      EdgesCounted(order, rest, i, j);
      EdgeOutIs(order, e, i, j, AST_KIND);
      EdgeOutIs(order, e, i, j, CFG_KIND);
      EdgeOutIs(order, e, i, j, PDG_KIND);
      KindsDiffer();
      assert EdgesOut(order, es) == [EdgeOut(order, e)] + EdgesOut(order, rest);
    }
  }

  lemma {:induction false} EdgesInside(order: seq<Text>, es: seq<RawEdge>, x: Arc)
    requires EndsListed(order, es) && x in EdgesOut(order, es)
    ensures x.a < |order| && x.b < |order| && (x.kind == AST_KIND || x.kind == CFG_KIND || x.kind == PDG_KIND)
  {
    if x != EdgeOut(order, es[0]) { EdgesInside(order, es[1..], x); }
  }

  // ----- nodes

  predicate LastAt(ns: seq<Listed>, v: Text, k: nat) {
    k < |ns| && ns[k].id == v && forall j :: k < j < |ns| ==> ns[j].id != v
  }

  /** The record that stands for an id: the last one listed. */
  ghost predicate LastRecord(ns: seq<Listed>, v: Text, n: RawNode) {
    exists k: nat :: LastAt(ns, v, k) && ns[k].node == n
  }

  lemma {:induction false} TableLast(ns: seq<Listed>, v: Text)
    requires v in TableOf(ns)
    ensures LastRecord(ns, v, TableOf(ns)[v])
  {
    var front, last := ns[..|ns| - 1], ns[|ns| - 1];
    if last.id == v {
      assert LastAt(ns, v, |ns| - 1);
    } else {
      TableLast(front, v);
      var k: nat :| LastAt(front, v, k) && front[k].node == TableOf(front)[v];
      assert LastAt(ns, v, k);
    }
  }

  predicate StartsAsOperator(name: Text) {
    |name| >= 11 && name[..11] == [60, 111, 112, 101, 114, 97, 116, 111, 114, 62, 46]
  }

  /** The fields of an emitted node that its own record decides. */
  ghost predicate ShowsRecord(m: MappedNode, n: RawNode) {
    && m.kind == n.kind
    && m.operator == (if n.kind == [76, 73, 84, 69, 82, 65, 76] then n.code
                      else if n.kind == [67, 65, 76, 76] && StartsAsOperator(n.name) then n.name else [])
    && m.fqn == (if n.kind == [67, 65, 76, 76] then n.callee
                 else if n.kind == [77, 69, 84, 72, 79, 68] then n.fullName
                 else if n.kind == [84, 89, 80, 69, 95, 68, 69, 67, 76] then n.fullName
                 else [])
  }

  lemma NodeShows(n: RawNode, i: Info)
    ensures ShowsRecord(NodeOut(n, i), n)
  {
  }

  /** Earlier by file, then line, then column. */
  ghost predicate NotLater(p: Place, q: Place) {
    && !Less(q.file, p.file) && (p.file == q.file ==> p.line <= q.line)
    && (p.file == q.file && p.line == q.line ==> p.col <= q.col)
  }

  lemma EmissionDistinct(t: Table, info: map<Text, Info>)
    requires info.Keys == t.Keys && RanksDiffer(info)
    ensures Distinct(Emission(t, info)) && Ascends(EmitKeys(t, info), Emission(t, info))
  {
    hide RanksDiffer;
    EmitKeysApart(t, info);
    var keys, r := EmitKeys(t, info), Emission(t, info);
    forall i, j | 0 <= i < j < |r| ensures r[i] != r[j] { KeyLessTotal(keys[r[i]], keys[r[j]]); }
  }

  /** Every id once, with the fields of its last record and its own place, in the order of
      places and then of visits. */
  ghost predicate EmitsNodes(x: Export, info: map<Text, Info>, order: seq<Text>, r: Outcome)
    requires r.Mapped?
  {
    && Distinct(order) && (forall v :: v in order <==> exists i :: 0 <= i < |x.nodes| && x.nodes[i].id == v)
    && |r.nodes| == |order| && |r.places| == |order|
    && (forall i :: 0 <= i < |order| ==> EmitsNode(x, info, order[i], r.nodes[i], r.places[i]))
    && (forall i, j {:trigger order[i], order[j]} :: 0 <= i < j < |order| ==>
          NotLater(r.places[i], r.places[j]) && (r.places[i] == r.places[j] ==> Visited(info, order[i], order[j])))
  }

  ghost predicate EmitsNode(x: Export, info: map<Text, Info>, v: Text, m: MappedNode, p: Place) {
    && v in info && m.decl == info[v].decl && m.path == info[v].path && p.file == info[v].file
    && exists n :: LastRecord(x.nodes, v, n) && ShowsRecord(m, n) && p.line == n.line && p.col == n.col
  }

  predicate Visited(info: map<Text, Info>, u: Text, v: Text) {
    u in info && v in info && info[u].rank < info[v].rank
  }

  ghost predicate EmitsEdges(x: Export, order: seq<Text>, arcs: seq<Arc>) {
    && (forall i: nat, j: nat {:trigger order[i], order[j]} :: i < |order| && j < |order| ==>
          && OutCount(arcs, AST_KIND, i, j) == RawCount(x.edges, AST_KIND, order[i], order[j])
          && OutCount(arcs, CFG_KIND, i, j) == RawCount(x.edges, CFG_KIND, order[i], order[j])
          && OutCount(arcs, PDG_KIND, i, j) ==
             RawCount(x.edges, CDG_KIND, order[i], order[j]) + RawCount(x.edges, REACHING_KIND, order[i], order[j]))
    && forall a :: a in arcs ==>
         a.a < |order| && a.b < |order| && (a.kind == AST_KIND || a.kind == CFG_KIND || a.kind == PDG_KIND)
  }

  lemma EmittedEdges(x: Export, t: Table, info: map<Text, Info>)
    requires info.Keys == t.Keys && RanksDiffer(info) && EdgesFine(t, x.edges)
    ensures EmitsEdges(x, Emission(t, info), Emitted(t, info, x.edges).edges)
  {
    hide RanksDiffer, Emission, EdgesOut, Distinct, EmittedNode, EmittedPlace, Sort, Ascends;
    var order := Emission(t, info);
    EmissionDistinct(t, info);
    EndsInEmission(t, info, x.edges);
    var out := EdgesOut(order, x.edges);
    var arcs := Sort(out);
    forall i: nat, j: nat {:trigger order[i], order[j]} | i < |order| && j < |order|
      ensures OutCount(arcs, AST_KIND, i, j) == RawCount(x.edges, AST_KIND, order[i], order[j])
      ensures OutCount(arcs, CFG_KIND, i, j) == RawCount(x.edges, CFG_KIND, order[i], order[j])
      ensures OutCount(arcs, PDG_KIND, i, j) ==
              RawCount(x.edges, CDG_KIND, order[i], order[j]) + RawCount(x.edges, REACHING_KIND, order[i], order[j])
    {
      EdgesCounted(order, x.edges, i, j);
    }
    forall a | a in arcs
      ensures a.a < |order| && a.b < |order| && (a.kind == AST_KIND || a.kind == CFG_KIND || a.kind == PDG_KIND)
    {
      SameMembers(arcs, out, a);
      EdgesInside(order, x.edges, a);
    }
  }

  lemma EmittedNodes(x: Export, t: Table, info: map<Text, Info>)
    requires t == TableOf(x.nodes) && info.Keys == t.Keys && RanksDiffer(info) && EdgesFine(t, x.edges)
    ensures EmitsNodes(x, info, Emission(t, info), Emitted(t, info, x.edges))
  {
    hide RanksDiffer, Emission, EdgesOut, TableOf, Sort, ShowsRecord, LastRecord, EdgesFine;
    var order, r := Emission(t, info), Emitted(t, info, x.edges);
    EmissionDistinct(t, info);
    forall v ensures v in order <==> exists i :: 0 <= i < |x.nodes| && x.nodes[i].id == v {
      assert v in order <==> v in Elements(order);
      TableKeys(x.nodes, v);
    }
    forall i | 0 <= i < |order| ensures EmitsNode(x, info, order[i], r.nodes[i], r.places[i]) {
      assert order[i] in Elements(order);
      TableLast(x.nodes, order[i]);
      NodeShows(t[order[i]], info[order[i]]);
    }
    forall i, j {:trigger order[i], order[j]} | 0 <= i < j < |order|
      ensures NotLater(r.places[i], r.places[j]) && (r.places[i] == r.places[j] ==> Visited(info, order[i], order[j]))
    {
      PlacesAscend(t, info, order, i, j);
    }
  }

  lemma PlacesAscend(t: Table, info: map<Text, Info>, order: seq<Text>, i: nat, j: nat)
    requires info.Keys == t.Keys && Ascends(EmitKeys(t, info), order) && i < j < |order|
    ensures order[i] in t && order[j] in t
    ensures var p, q := PlaceOut(t[order[i]], info[order[i]]), PlaceOut(t[order[j]], info[order[j]]);
            NotLater(p, q) && (p == q ==> Visited(info, order[i], order[j]))
  {
    assert order[i] in order && order[j] in order;
    var a, b := EmitKeys(t, info)[order[i]], EmitKeys(t, info)[order[j]];
    assert KeyLess(a, b);
    LessOneWay(a.file, b.file);
    assert a.last == [info[order[i]].rank] && b.last == [info[order[j]].rank];
    LoneLess(info[order[i]].rank, info[order[j]].rank);
  }

  lemma LoneLess(m: nat, n: nat)
    ensures Less([m], [n]) <==> m < n
  {
    assert [m][1..] == [] && [n][1..] == [];
  }

  lemma LessOneWay(a: seq<int>, b: seq<int>)
    ensures !(Less(a, b) && Less(b, a)) && !Less(a, a)
  {
    LessIrreflexive(a);
    if Less(a, b) && Less(b, a) { LessTransitive(a, b, a); }
  }

  /** The mapped graph: its nodes, its edges counted kind by kind, and their order. */
  lemma MapsExactly(x: Export)
    requires Walkable(x) && MapOf(x).Mapped?
    ensures Terminates(TableOf(x.nodes), KinFrom(x.edges))
    ensures exists order ::
              && EmitsNodes(x, AllInfo(TableOf(x.nodes), KinFrom(x.edges)), order, MapOf(x))
              && EmitsEdges(x, order, MapOf(x).edges)
  {
    hide TableOf, KinFrom, AllInfo, RanksDiffer, EmitsNodes, EmitsEdges, EdgesFine, Emitted, Terminates, Emission;
    var t, kin := TableOf(x.nodes), KinFrom(x.edges);
    FineEnds(t, x.edges);
    var info := AllInfo(t, kin);
    EmittedNodes(x, t, info);
    EmittedEdges(x, t, info);
  }
}
