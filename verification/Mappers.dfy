/** `map_export_with_locations`: from unordered node and edge arrays to a graph
    and a location table that do not depend on the order of the arrays. */
module Mappers {
  import opened FiniteSets
  import opened ByteStrings
  import opened Arcs
  import opened KeyedOrders
  import opened MapperWalks
  import opened MapperTrees
  import opened MapperForests

  datatype RawEdge = RawEdge(kind: Bytes, src: Text, dst: Text)
  datatype Listed = Listed(id: Text, node: RawNode)
  datatype Export = Export(nodes: seq<Listed>, edges: seq<RawEdge>)

  datatype MappedNode = MappedNode(kind: Text, operator: Text, fqn: Text, decl: Text, path: seq<nat>)
  datatype Place = Place(file: Text, line: int, col: int)
  datatype Outcome = Failed | Mapped(nodes: seq<MappedNode>, edges: seq<Arc>, places: seq<Place>)

  const AST: Bytes := [65, 83, 84]
  const CFG: Bytes := [67, 70, 71]
  const CDG: Bytes := [67, 68, 71]
  const REACHING_DEF: Bytes := [82, 69, 65, 67, 72, 73, 78, 71, 95, 68, 69, 70]
  const PDG: Bytes := [80, 68, 71]

  predicate KnownKind(k: Bytes) {
    k == AST || k == CFG || k == CDG || k == REACHING_DEF
  }

  function MappedKind(k: Bytes): (r: Bytes) {
    if k == AST then AST else if k == CFG then CFG else PDG
  }

  // ----- the inputs, order forgotten

  /** An id listed twice is listed with the same record. */
  predicate Consistent(ns: seq<Listed>) {
    forall i, j {:trigger ns[i], ns[j]} :: 0 <= i < j < |ns| && ns[i].id == ns[j].id ==> ns[i] == ns[j]
  }

  /** No node is the target of two AST edges. */
  predicate OneParent(es: seq<RawEdge>) {
    forall i, j {:trigger es[i], es[j]} :: 0 <= i < j < |es| && es[i].kind == AST && es[j].kind == AST ==>
          es[i].dst != es[j].dst
  }

  function TableOf(ns: seq<Listed>): (t: Table) {
    if ns == [] then map[] else TableOf(ns[..|ns| - 1])[ns[|ns| - 1].id := ns[|ns| - 1].node]
  }

  function ParentsOf(es: seq<RawEdge>): (p: Parents) {
    if es == [] then map[]
    else
      var e, front := es[|es| - 1], ParentsOf(es[..|es| - 1]);
      if e.kind == AST then front[e.dst := e.src] else front
  }

  /** Every AST edge counted. */
  function KinFrom(es: seq<RawEdge>): (kin: Kin) {
    if es == [] then map[]
    else
      var e, front := es[|es| - 1], KinFrom(es[..|es| - 1]);
      if e.kind == AST then front[e.src := KinOf(front, e.src) + multiset{e.dst}] else front
  }

  predicate EndsKnown(t: Table, e: RawEdge) {
    e.src in t && e.dst in t
  }

  ghost predicate AstEndsKnown(t: Table, es: seq<RawEdge>) {
    forall e :: e in es && e.kind == AST ==> EndsKnown(t, e)
  }

  predicate EdgesFine(t: Table, es: seq<RawEdge>) {
    forall e :: e in es ==> EndsKnown(t, e) && KnownKind(e.kind)
  }

  lemma {:induction false} TableHas(ns: seq<Listed>, i: nat)
    requires Consistent(ns) && i < |ns|
    ensures ns[i].id in TableOf(ns) && TableOf(ns)[ns[i].id] == ns[i].node
  {
    if i < |ns| - 1 {
      TableHas(ns[..|ns| - 1], i);
      assert ns[i].id == ns[|ns| - 1].id ==> ns[i] == ns[|ns| - 1];
    }
  }

  lemma {:induction false} TableKeys(ns: seq<Listed>, v: Text)
    ensures v in TableOf(ns) <==> exists i :: 0 <= i < |ns| && ns[i].id == v
  {
    if ns != [] {
      var front := ns[..|ns| - 1];
      TableKeys(front, v);
      if i :| 0 <= i < |ns| && ns[i].id == v {
        if i < |front| { assert front[i].id == v; }
      }
      if i :| 0 <= i < |front| && front[i].id == v { assert ns[i].id == v; }
      if ns[|ns| - 1].id == v { assert ns[|ns| - 1].id == v; }
    }
  }

  lemma {:induction false} ParentsHas(es: seq<RawEdge>, i: nat)
    requires OneParent(es) && i < |es| && es[i].kind == AST
    ensures es[i].dst in ParentsOf(es) && ParentsOf(es)[es[i].dst] == es[i].src
  {
    if i < |es| - 1 {
      ParentsHas(es[..|es| - 1], i);
      assert es[|es| - 1].kind == AST ==> es[i].dst != es[|es| - 1].dst;
    }
  }

  lemma {:induction false} ParentsFrom(es: seq<RawEdge>, c: Text) returns (i: nat)
    requires c in ParentsOf(es)
    ensures i < |es| && es[i] == RawEdge(AST, ParentsOf(es)[c], c)
  {
    var e := es[|es| - 1];
    if e.kind == AST && e.dst == c {
      i := |es| - 1;
    } else {
      i := ParentsFrom(es[..|es| - 1], c);
    }
  }

  lemma SameTable(ns: seq<Listed>, ms: seq<Listed>)
    requires Consistent(ns) && Consistent(ms) && multiset(ns) == multiset(ms)
    ensures TableOf(ns) == TableOf(ms)
  {
    hide TableOf, Consistent;
    forall v | v in TableOf(ns) ensures v in TableOf(ms) && TableOf(ms)[v] == TableOf(ns)[v] { TableInto(ns, ms, v); }
    forall v | v in TableOf(ms) ensures v in TableOf(ns) && TableOf(ms)[v] == TableOf(ns)[v] { TableInto(ms, ns, v); }
  }

  lemma TableInto(ns: seq<Listed>, ms: seq<Listed>, v: Text)
    requires Consistent(ns) && Consistent(ms) && multiset(ns) == multiset(ms) && v in TableOf(ns)
    ensures v in TableOf(ms) && TableOf(ms)[v] == TableOf(ns)[v]
  {
    hide TableOf, Consistent;
    TableKeys(ns, v);
    var i :| 0 <= i < |ns| && ns[i].id == v;
    assert ns[i] in multiset(ms);
    var j :| 0 <= j < |ms| && ms[j] == ns[i];
    TableHas(ns, i);
    TableHas(ms, j);
  }

  lemma {:induction false} KinCount(es: seq<RawEdge>, p: Text, c: Text)
    ensures KinOf(KinFrom(es), p)[c] == multiset(es)[RawEdge(AST, p, c)]
  {
    if es != [] {
      KinCount(es[..|es| - 1], p, c);
      assert es == es[..|es| - 1] + [es[|es| - 1]];
    }
  }

  lemma {:induction false} KinKeys(es: seq<RawEdge>, p: Text)
    ensures p in KinFrom(es) <==> exists e :: e in es && e.kind == AST && e.src == p
  {
    if es != [] {
      KinKeys(es[..|es| - 1], p);
      assert es == es[..|es| - 1] + [es[|es| - 1]];
    }
  }

  lemma SameKin(es: seq<RawEdge>, fs: seq<RawEdge>)
    requires multiset(es) == multiset(fs)
    ensures KinFrom(es) == KinFrom(fs)
  {
    hide KinFrom;
    forall p ensures p in KinFrom(es) <==> p in KinFrom(fs) {
      KinKeys(es, p);
      KinKeys(fs, p);
      forall e ensures e in es <==> e in fs { SameMembers(es, fs, e); }
    }
    forall p | p in KinFrom(es) ensures KinFrom(es)[p] == KinFrom(fs)[p] {
      forall c ensures KinFrom(es)[p][c] == KinFrom(fs)[p][c] {
        KinCount(es, p, c);
        KinCount(fs, p, c);
      }
    }
  }

  lemma KinInside(t: Table, es: seq<RawEdge>)
    requires AstEndsKnown(t, es)
    ensures Inside(t, KinFrom(es))
  {
    hide KinFrom;
    forall p, c | IsKin(KinFrom(es), p, c) ensures p in t && c in t {
      KinCount(es, p, c);
      assert RawEdge(AST, p, c) in multiset(es);
      assert RawEdge(AST, p, c) in es;
    }
  }

  /** With at most one AST edge into each node, the edges are the parent relation. */
  lemma OneParentKindred(es: seq<RawEdge>)
    requires OneParent(es)
    ensures Kindred(ParentsOf(es), KinFrom(es))
  {
    hide KinFrom, ParentsOf, OneParent;
    forall p ensures KinOf(KinFrom(es), p) == multiset(Kids(ParentsOf(es), p)) {
      forall c ensures KinOf(KinFrom(es), p)[c] == multiset(Kids(ParentsOf(es), p))[c] {
        KinCount(es, p, c);
        EdgeOnce(es, p, c);
      }
    }
  }

  lemma {:induction false} EdgeOnce(es: seq<RawEdge>, p: Text, c: Text)
    requires OneParent(es)
    ensures multiset(es)[RawEdge(AST, p, c)] == if c in ParentsOf(es) && ParentsOf(es)[c] == p then 1 else 0
  {
    if es != [] {
      var front, e := es[..|es| - 1], es[|es| - 1];
      assert es == front + [e];
      EdgeOnce(front, p, c);
      if e.kind == AST && e.dst == c { ParentNew(es, |es| - 1); }
    }
  }

  lemma ForestParents(t: Table, es: seq<RawEdge>)
    requires AstEndsKnown(t, es)
    ensures Forest(t, ParentsOf(es))
  {
    forall c | c in ParentsOf(es) ensures c in t && ParentsOf(es)[c] in t {
      var i := ParentsFrom(es, c);
      assert EndsKnown(t, es[i]);
    }
  }

  // ----- nodes the walk does not reach

  function OrphanInfo(t: Table, v: Text, rank: nat): (r: Info)
    requires v in t
  {
    Info(rank, [], [], t[v].filename, Nowhere)
  }

  ghost function Orphans(t: Table, out: map<Text, Info>): (r: seq<Text>) {
    ChildKeysApart(t, [], t.Keys - out.Keys);
    OrderBy(ChildKeys(t, []), t.Keys - out.Keys)
  }

  predicate AllIn(t: Table, vs: seq<Text>) {
    forall v :: v in vs ==> v in t
  }

  /** Nodes the walk did not reach are numbered on from its last visit. */
  function WithOrphans(t: Table, out: map<Text, Info>, vs: seq<Text>, n: nat): (r: map<Text, Info>)
    requires AllIn(t, vs)
  {
    if vs == [] then out
    else
      var last := |vs| - 1;
      WithOrphans(t, out, vs[..last], n)[vs[last] := OrphanInfo(t, vs[last], n + last)]
  }

  /** Different nodes of the table, none of them recorded. */
  ghost predicate Strays(t: Table, out: map<Text, Info>, vs: seq<Text>) {
    AllIn(t, vs) && Distinct(vs) && forall v :: v in vs ==> v !in out
  }

  lemma LastListed(vs: seq<Text>)
    requires vs != []
    ensures Elements(vs) == Elements(vs[..|vs| - 1]) + {vs[|vs| - 1]}
  {
    assert vs == vs[..|vs| - 1] + [vs[|vs| - 1]];
  }

  lemma FrontIn(t: Table, vs: seq<Text>)
    requires AllIn(t, vs) && vs != []
    ensures AllIn(t, vs[..|vs| - 1]) && vs[|vs| - 1] in t
  {
  }

  lemma NoOrphans(t: Table, out: map<Text, Info>, n: nat)
    ensures WithOrphans(t, out, [], n) == out && Elements<Text>([]) == {}
  {
  }

  lemma OrphanNext(t: Table, out: map<Text, Info>, vs: seq<Text>, n: nat)
    requires vs != [] && AllIn(t, vs) && AllIn(t, vs[..|vs| - 1]) && vs[|vs| - 1] in t
    ensures WithOrphans(t, out, vs, n) ==
            WithOrphans(t, out, vs[..|vs| - 1], n)[vs[|vs| - 1] := OrphanInfo(t, vs[|vs| - 1], n + |vs| - 1)]
  {
    hide AllIn, OrphanInfo;
  }

  lemma {:induction false} OrphanKeys(t: Table, out: map<Text, Info>, vs: seq<Text>, n: nat)
    requires AllIn(t, vs)
    ensures WithOrphans(t, out, vs, n).Keys == out.Keys + Elements(vs)
  {
    hide OrphanInfo, WithOrphans, AllIn, Elements;
    if vs == [] {
      NoOrphans(t, out, n);
    } else {
      FrontIn(t, vs);
      OrphanKeys(t, out, vs[..|vs| - 1], n);
      OrphanNext(t, out, vs, n);
      LastListed(vs);
    }
  }

  lemma {:induction false} OrphansRanked(t: Table, out: map<Text, Info>, vs: seq<Text>, n: nat)
    requires RanksApart(out, n) && AllIn(t, vs)
    ensures RanksApart(WithOrphans(t, out, vs, n), n + |vs|)
  {
    hide RanksApart, OrphanInfo, AllIn, WithOrphans;
    if vs == [] {
      NoOrphans(t, out, n);
    } else {
      FrontIn(t, vs);
      OrphansRanked(t, out, vs[..|vs| - 1], n);
      OrphanNext(t, out, vs, n);
      OneOrphan(t, WithOrphans(t, out, vs[..|vs| - 1], n), vs[|vs| - 1], n + |vs| - 1);
    }
  }

  lemma OneOrphan(t: Table, r: map<Text, Info>, v: Text, n: nat)
    requires RanksApart(r, n) && v in t
    ensures RanksApart(r[v := OrphanInfo(t, v, n)], n + 1)
  {
  }

  lemma OrphansFacts(t: Table, out: map<Text, Info>)
    ensures AllIn(t, Orphans(t, out)) && Strays(t, out, Orphans(t, out))
    ensures Elements(Orphans(t, out)) == t.Keys - out.Keys
  {
    ChildKeysApart(t, [], t.Keys - out.Keys);
    var vs, keys := Orphans(t, out), ChildKeys(t, []);
    forall v | v in vs ensures v in t && v !in out { assert v in Elements(vs); }
    forall i, j | 0 <= i < j < |vs| ensures vs[i] != vs[j] { KeyLessTotal(keys[vs[i]], keys[vs[j]]); }
  }

  /** One record for every node of the export. */
  ghost function AllInfo(t: Table, kin: Kin): (r: map<Text, Info>)
    requires Terminates(t, kin)
    ensures r.Keys == t.Keys && RanksDiffer(r)
  {
    hide Terminates, Orphans, RanksDiffer, Record;
    var fs := Visits(t, kin);
    var out := Record(t, fs);
    RecordRanks(t, fs);
    OrphansFacts(t, out);
    OrphansRanked(t, out, Orphans(t, out), |fs|);
    OrphanKeys(t, out, Orphans(t, out), |fs|);
    assert out.Keys + (t.Keys - out.Keys) == t.Keys;
    WithOrphans(t, out, Orphans(t, out), |fs|)
  }

  // ----- emission

  function EmitKeys(t: Table, info: map<Text, Info>): (r: Keys)
    requires info.Keys == t.Keys
    ensures r.Keys == t.Keys
  {
    map v | v in t :: Key(info[v].file, t[v].line, t[v].col, [info[v].rank])
  }

  lemma EmitKeysApart(t: Table, info: map<Text, Info>)
    requires info.Keys == t.Keys && RanksDiffer(info)
    ensures Apart(EmitKeys(t, info), t.Keys)
  {
    var keys := EmitKeys(t, info);
    forall u, v {:trigger keys[u], keys[v]} | u in t && v in t && keys[u] == keys[v] ensures u == v {
      assert keys[u].last[0] == info[u].rank && keys[v].last[0] == info[v].rank;
    }
  }

  ghost function Emission(t: Table, info: map<Text, Info>): (r: seq<Text>)
    requires info.Keys == t.Keys && RanksDiffer(info)
    ensures Elements(r) == t.Keys
  {
    EmitKeysApart(t, info);
    OrderBy(EmitKeys(t, info), t.Keys)
  }

  const LITERAL: Text := [76, 73, 84, 69, 82, 65, 76]
  const CALL: Text := [67, 65, 76, 76]
  const OPERATOR: Text := [60, 111, 112, 101, 114, 97, 116, 111, 114, 62, 46]

  /** `_operator_or_literal`: the text of a literal, the name of an operator. */
  function OperatorOf(n: RawNode): (r: Text) {
    if n.kind == LITERAL then n.code
    else if n.kind == CALL && |n.name| >= |OPERATOR| && n.name[..|OPERATOR|] == OPERATOR then n.name
    else []
  }

  /** `_resolved_fqn`: the callee of a call, the name of a declaration. */
  function FqnOf(n: RawNode): (r: Text) {
    if n.kind == CALL then n.callee else if IsDecl(n) then n.fullName else []
  }

  function NodeOut(n: RawNode, i: Info): (r: MappedNode) {
    MappedNode(n.kind, OperatorOf(n), FqnOf(n), i.decl, i.path)
  }

  function PlaceOut(n: RawNode, i: Info): (r: Place) {
    Place(i.file, n.line, n.col)
  }

  function PositionIn(order: seq<Text>, v: Text): (r: nat)
    requires v in order
    ensures r < |order| && order[r] == v
  {
    if order[0] == v then 0 else 1 + PositionIn(order[1..], v)
  }

  function EdgeOut(order: seq<Text>, e: RawEdge): (r: Arc)
    requires e.src in order && e.dst in order
  {
    Arc(MappedKind(e.kind), PositionIn(order, e.src), PositionIn(order, e.dst))
  }

  function EdgesOut(order: seq<Text>, es: seq<RawEdge>): (r: seq<Arc>)
    requires EndsListed(order, es)
  {
    if es == [] then [] else [EdgeOut(order, es[0])] + EdgesOut(order, es[1..])
  }

  lemma {:induction false} EdgesOutAppend(order: seq<Text>, a: seq<RawEdge>, b: seq<RawEdge>)
    requires EndsListed(order, a) && EndsListed(order, b)
    ensures EdgesOut(order, a + b) == EdgesOut(order, a) + EdgesOut(order, b)
  {
    hide EdgeOut;
    if a == [] {
      assert a + b == b;
    } else {
      assert (a + b)[1..] == a[1..] + b;
      EdgesOutAppend(order, a[1..], b);
    }
  }

  predicate EndsListed(order: seq<Text>, es: seq<RawEdge>) {
    forall e :: e in es ==> e.src in order && e.dst in order
  }

  lemma {:induction false} EdgesOutPermuted(order: seq<Text>, es: seq<RawEdge>, fs: seq<RawEdge>)
    requires multiset(es) == multiset(fs) && EndsListed(order, es) && EndsListed(order, fs)
    ensures multiset(EdgesOut(order, es)) == multiset(EdgesOut(order, fs))
    decreases |es|
  {
    hide EdgeOut, EdgesOut, EndsListed;
    assert |es| == |multiset(es)| == |multiset(fs)| == |fs|;
    if es == [] {
      assert fs == [];
    } else {
      assert es[0] in multiset(fs);
      var j :| 0 <= j < |fs| && fs[j] == es[0];
      RemoveAt(fs, j);
      RemoveAt(es, 0);
      EdgesOutSplit(order, fs, j);
      EdgesOutSplit(order, es, 0);
      RestShorter(es, fs, j);
      EdgesOutPermuted(order, es[..0] + es[1..], fs[..j] + fs[j + 1..]);
    }
  }

  lemma RestShorter(es: seq<RawEdge>, fs: seq<RawEdge>, j: nat)
    requires es != [] && j < |fs|
    ensures |es[..0] + es[1..]| < |es| && |fs[..j] + fs[j + 1..]| < |fs|
  {
  }

  lemma EdgesOutSplit(order: seq<Text>, fs: seq<RawEdge>, j: nat)
    requires j < |fs| && EndsListed(order, fs)
    ensures EndsListed(order, fs[..j] + fs[j + 1..])
    ensures multiset(EdgesOut(order, fs)) ==
            multiset(EdgesOut(order, fs[..j] + fs[j + 1..])) + multiset{EdgeOut(order, fs[j])}
  {
    hide EdgeOut;
    var a, m, b := fs[..j], [fs[j]], fs[j + 1..];
    assert fs == a + (m + b);
    EdgesOutAppend(order, a, m + b);
    EdgesOutAppend(order, m, b);
    EdgesOutAppend(order, a, b);
    assert m[1..] == [];
    assert EdgesOut(order, m) == [EdgeOut(order, fs[j])];
  }

  // ----- the whole mapping

  ghost function Emitted(t: Table, info: map<Text, Info>, es: seq<RawEdge>): (r: Outcome)
    requires info.Keys == t.Keys && RanksDiffer(info) && EdgesFine(t, es)
  {
    var order := Emission(t, info);
    EndsInEmission(t, info, es);
    Mapped(seq(|order|, i requires 0 <= i < |order| => EmittedNode(t, info, order, i)),
           Sort(EdgesOut(order, es)),
           seq(|order|, i requires 0 <= i < |order| => EmittedPlace(t, info, order, i)))
  }

  ghost function EmittedNode(t: Table, info: map<Text, Info>, order: seq<Text>, i: nat): (r: MappedNode)
    requires info.Keys == t.Keys && Elements(order) == t.Keys && i < |order|
  {
    assert order[i] in Elements(order);
    NodeOut(t[order[i]], info[order[i]])
  }

  ghost function EmittedPlace(t: Table, info: map<Text, Info>, order: seq<Text>, i: nat): (r: Place)
    requires info.Keys == t.Keys && Elements(order) == t.Keys && i < |order|
  {
    assert order[i] in Elements(order);
    PlaceOut(t[order[i]], info[order[i]])
  }

  lemma EndsInEmission(t: Table, info: map<Text, Info>, es: seq<RawEdge>)
    requires info.Keys == t.Keys && RanksDiffer(info) && EdgesFine(t, es)
    ensures EndsListed(Emission(t, info), es)
  {
    hide RanksDiffer, Emission;
    var order := Emission(t, info);
    forall e | e in es ensures e.src in order && e.dst in order {
      assert EndsKnown(t, e);
      assert e.src in Elements(order) && e.dst in Elements(order);
    }
  }

  /** Known ends of AST edges and a walk that ends: otherwise there is no result. */
  ghost predicate Walkable(x: Export) {
    AstEndsKnown(TableOf(x.nodes), x.edges) ==> Terminates(TableOf(x.nodes), KinFrom(x.edges))
  }

  ghost function MapOf(x: Export): (r: Outcome)
    requires Walkable(x)
  {
    var t := TableOf(x.nodes);
    if !EdgesFine(t, x.edges) then Failed
    else
      FineEnds(t, x.edges);
      Emitted(t, AllInfo(t, KinFrom(x.edges)), x.edges)
  }

  lemma FineEnds(t: Table, es: seq<RawEdge>)
    requires EdgesFine(t, es)
    ensures AstEndsKnown(t, es)
  {
  }

  ghost predicate Permuted(x: Export, y: Export) {
    multiset(x.nodes) == multiset(y.nodes) && multiset(x.edges) == multiset(y.edges)
  }

  lemma FinePermuted(t: Table, es: seq<RawEdge>, fs: seq<RawEdge>)
    requires multiset(es) == multiset(fs) && EdgesFine(t, es)
    ensures EdgesFine(t, fs)
  {
    forall e | e in fs ensures EndsKnown(t, e) && KnownKind(e.kind) { assert e in multiset(es); }
  }

  lemma EmittedPermuted(t: Table, info: map<Text, Info>, es: seq<RawEdge>, fs: seq<RawEdge>)
    requires info.Keys == t.Keys && RanksDiffer(info) && EdgesFine(t, es) && EdgesFine(t, fs)
    requires multiset(es) == multiset(fs)
    ensures Emitted(t, info, es) == Emitted(t, info, fs)
  {
    hide RanksDiffer, Emission, EdgesOut, Sort, EdgesFine;
    var order := Emission(t, info);
    EndsInEmission(t, info, es);
    EndsInEmission(t, info, fs);
    EdgesOutPermuted(order, es, fs);
    SortCanonical(EdgesOut(order, es), EdgesOut(order, fs));
  }

  lemma EndsPermuted(t: Table, es: seq<RawEdge>, fs: seq<RawEdge>)
    requires multiset(es) == multiset(fs) && AstEndsKnown(t, fs)
    ensures AstEndsKnown(t, es)
  {
    forall e | e in es && e.kind == AST ensures EndsKnown(t, e) { SameMembers(es, fs, e); }
  }

  /** Any order of the two arrays gives the same graph and the same locations. */
  lemma MapDeterministic(x: Export, y: Export)
    requires Consistent(x.nodes) && Consistent(y.nodes) && Permuted(x, y) && Walkable(x)
    ensures Walkable(y) && MapOf(x) == MapOf(y)
  {
    hide TableOf, KinFrom, Consistent, EdgesFine, Emitted, AllInfo, Terminates, AstEndsKnown;
    SameTable(x.nodes, y.nodes);
    SameKin(x.edges, y.edges);
    var t := TableOf(x.nodes);
    if AstEndsKnown(t, y.edges) { EndsPermuted(t, x.edges, y.edges); }
    if EdgesFine(t, x.edges) {
      FinePermuted(t, x.edges, y.edges);
      FineEnds(t, x.edges);
      EmittedPermuted(t, AllInfo(t, KinFrom(x.edges)), x.edges, y.edges);
    } else if EdgesFine(t, y.edges) {
      FinePermuted(t, y.edges, x.edges);
    }
  }

  /** One node and no edges: the graph shows the record of that node. */
  lemma LoneMapped(v: Text, x: Export)
    requires x.edges == [] && TableOf(x.nodes).Keys == {v}
    ensures Walkable(x) && MapOf(x).Mapped? && MapOf(x).nodes != []
    ensures MapOf(x).nodes[0].kind == TableOf(x.nodes)[v].kind
  {
    hide TableOf, AllInfo, Terminates, KinFrom, Emission, RanksDiffer;
    ForestWalkable(x);
    FineEnds(TableOf(x.nodes), x.edges);
    var t, info := TableOf(x.nodes), AllInfo(TableOf(x.nodes), KinFrom(x.edges));
    var order := Emission(t, info);
    assert v in Elements(order);
    assert order[0] in Elements(order);
    assert MapOf(x) == Emitted(t, info, x.edges);
    assert MapOf(x).nodes[0] == EmittedNode(t, info, order, 0);
  }

  /** Two different records for one id: the last one wins, so array order shows. */
  lemma RepeatedIdShows(v: Text, a: RawNode, b: RawNode)
    requires a.kind != b.kind
    ensures var x, y := Export([Listed(v, a), Listed(v, b)], []), Export([Listed(v, b), Listed(v, a)], []);
            Permuted(x, y) && Walkable(x) && Walkable(y) && MapOf(x) != MapOf(y)
  {
    hide MapOf, Walkable, TableOf;
    var x, y := Export([Listed(v, a), Listed(v, b)], []), Export([Listed(v, b), Listed(v, a)], []);
    PairTable(v, a, b);
    PairTable(v, b, a);
    LoneMapped(v, x);
    LoneMapped(v, y);
    assert multiset(x.nodes) == multiset(y.nodes);
  }

  lemma PairTable(v: Text, a: RawNode, b: RawNode)
    ensures TableOf([Listed(v, a), Listed(v, b)]) == map[v := b]
  {
    var ns := [Listed(v, a), Listed(v, b)];
    assert ns[..1] == [Listed(v, a)] && ns[..1][..0] == [];
    assert TableOf(ns[..1]) == map[v := a];
  }

  /** An export whose AST edges form a forest is always mapped or refused. */
  lemma ForestWalkable(x: Export)
    requires OneParent(x.edges)
    ensures Walkable(x)
  {
    hide KinFrom, TableOf, OneParent, Terminates;
    var t := TableOf(x.nodes);
    if AstEndsKnown(t, x.edges) {
      KinInside(t, x.edges);
      OneParentKindred(x.edges);
      ForestParents(t, x.edges);
      ForestWalked(t, ParentsOf(x.edges), KinFrom(x.edges));
    }
  }

  // ----- as it runs

  lemma ParentNew(es: seq<RawEdge>, i: nat)
    requires OneParent(es) && i < |es| && es[i].kind == AST
    ensures es[i].dst !in ParentsOf(es[..i])
  {
    hide ParentsOf;
    if es[i].dst in ParentsOf(es[..i]) {
      var k := ParentsFrom(es[..i], es[i].dst);
    }
  }

  function WithEdge(children: map<Text, seq<Text>>, e: RawEdge): (r: map<Text, seq<Text>>) {
    if e.kind != AST then children
    else children[e.src := (if e.src in children then children[e.src] else []) + [e.dst]]
  }

  lemma KinNext(es: seq<RawEdge>, i: nat, children: map<Text, seq<Text>>)
    requires i < |es| && ChildrenAre(KinFrom(es[..i]), children)
    ensures ChildrenAre(KinFrom(es[..i + 1]), WithEdge(children, es[i]))
  {
    assert es[..i + 1][..i] == es[..i];
    var more, e := WithEdge(children, es[i]), es[i];
    forall p ensures KinOf(KinFrom(es[..i + 1]), p) == multiset(if p in more then more[p] else []) {
      assert KinOf(KinFrom(es[..i]), p) == multiset(if p in children then children[p] else []);
    }
  }

  method CollectAst(t: Table, es: seq<RawEdge>) returns (ok: bool, children: map<Text, seq<Text>>)
    ensures ok <==> AstEndsKnown(t, es)
    ensures ok ==> ChildrenAre(KinFrom(es), children)
  {
    hide ChildrenAre, KinFrom;
    ok, children := false, map[];
    assert ChildrenAre(KinFrom(es[..0]), children) by { NoChildren(es); }
    for i := 0 to |es|
      invariant ChildrenAre(KinFrom(es[..i]), children)
      invariant forall k :: 0 <= k < i && es[k].kind == AST ==> EndsKnown(t, es[k])
    {
      var e := es[i];
      KinNext(es, i, children);
      if e.kind == AST && !EndsKnown(t, e) {
        assert e in es;
        return;
      }
      children := WithEdge(children, e);
    }
    assert es[..|es|] == es;
    ok := true;
  }

  lemma NoChildren(es: seq<RawEdge>)
    ensures ChildrenAre(KinFrom(es[..0]), map[])
  {
  }

  lemma TableNext(ns: seq<Listed>, i: nat)
    requires i < |ns|
    ensures TableOf(ns[..i + 1]) == TableOf(ns[..i])[ns[i].id := ns[i].node]
  {
    assert ns[..i + 1][..i] == ns[..i];
  }

  /** The table of the nodes, where the last record of an id wins, and its keys. */
  method ReadNodes(ns: seq<Listed>) returns (t: Table, ids: seq<Text>)
    ensures t == TableOf(ns) && Elements(ids) == t.Keys && Distinct(ids)
  {
    hide TableOf;
    t, ids := map[], [];
    assert TableOf(ns[..0]) == map[] by { NoNodes(ns); }
    for i := 0 to |ns|
      invariant t == TableOf(ns[..i]) && Elements(ids) == t.Keys && Distinct(ids)
    {
      TableNext(ns, i);
      var v := ns[i].id;
      if v !in t {
        assert v !in Elements(ids);
        assert Elements(ids + [v]) == Elements(ids) + {v};
        ids := ids + [v];
      }
      t := t[v := ns[i].node];
    }
    assert ns[..|ns|] == ns;
  }

  lemma NoNodes(ns: seq<Listed>)
    ensures TableOf(ns[..0]) == map[]
  {
  }

  /** The listed names that are not among the given ones, in list order. */
  method Without(list: seq<Text>, gone: set<Text>) returns (r: seq<Text>)
    requires Distinct(list)
    ensures Elements(r) == Elements(list) - gone && Distinct(r)
  {
    r := [];
    for i := 0 to |list|
      invariant Elements(r) == Elements(list[..i]) - gone && Distinct(r)
    {
      assert Elements(list[..i + 1]) == Elements(list[..i]) + {list[i]};
      assert list[i] !in Elements(list[..i]) && forall v :: v in r ==> v in Elements(r);
      if list[i] !in gone {
        assert Elements(r + [list[i]]) == Elements(r) + {list[i]};
        r := r + [list[i]];
      }
    }
    assert list[..|list|] == list;
  }

  method CheckEdges(t: Table, es: seq<RawEdge>) returns (ok: bool)
    ensures ok <==> EdgesFine(t, es)
  {
    for i := 0 to |es|
      invariant forall k :: 0 <= k < i ==> EndsKnown(t, es[k]) && KnownKind(es[k].kind)
    {
      assert es[i] in es;
      if !KnownKind(es[i].kind) || !EndsKnown(t, es[i]) { return false; }
    }
    ok := true;
  }

  function Targets(es: seq<RawEdge>): (r: set<Text>) {
    set e | e in es && e.kind == AST :: e.dst
  }

  lemma TopsAre(t: Table, es: seq<RawEdge>)
    ensures t.Keys - Targets(es) == TopsOf(t, KinFrom(es))
  {
    hide KinFrom;
    forall v | v in t ensures v in Targets(es) <==> exists p :: IsKin(KinFrom(es), p, v) {
      if v in Targets(es) {
        var e :| e in es && e.kind == AST && e.dst == v;
        KinCount(es, e.src, v);
        assert e == RawEdge(AST, e.src, v) && e in multiset(es);
        assert IsKin(KinFrom(es), e.src, v);
      }
      if p :| IsKin(KinFrom(es), p, v) {
        KinCount(es, p, v);
        assert RawEdge(AST, p, v) in multiset(es);
      }
    }
  }

  method RecordAll(t: Table, es: seq<RawEdge>, ids: seq<Text>, children: map<Text, seq<Text>>)
    returns (info: map<Text, Info>)
    requires Terminates(t, KinFrom(es)) && Elements(ids) == t.Keys && Distinct(ids)
    requires ChildrenAre(KinFrom(es), children)
    ensures info == AllInfo(t, KinFrom(es))
  {
    hide ChildrenAre, Terminates, Distinct, Elements, KinFrom, TopsOf, Targets, RanksDiffer, Visits, Record;
    var roots := Without(ids, Targets(es));
    TopsAre(t, es);
    var out, counter := WalkAst(t, KinFrom(es), children, roots);
    var stray := Without(ids, out.Keys);
    ChildKeysApart(t, [], t.Keys - out.Keys);
    DistinctMeans(stray);
    var sorted := SortNames(ChildKeys(t, []), stray);
    assert sorted == Orphans(t, out);
    OrphansFacts(t, out);
    info := WithOrphans(t, out, sorted, counter);
  }

  lemma DistinctMeans(s: seq<Text>)
    requires Distinct(s)
    ensures forall i, j :: 0 <= i < j < |s| ==> s[i] != s[j]
  {
  }

  /** `map_export_with_locations`, wherever its walk ends. */
  method MapExport(x: Export) returns (r: Outcome)
    requires Walkable(x)
    ensures r == MapOf(x)
  {
    hide TableOf, KinFrom, EdgesFine, RanksDiffer, ChildrenAre, Elements, Distinct, AllInfo, EdgesOut, Sort, EmitKeys,
      Terminates;
    var t, ids := ReadNodes(x.nodes);
    var known, children := CollectAst(t, x.edges);
    if !known {
      UnknownEnd(t, x.edges);
      return Failed;
    }
    var info := RecordAll(t, x.edges, ids, children);
    var fine := CheckEdges(t, x.edges);
    if !fine { return Failed; }
    EmitKeysApart(t, info);
    DistinctMeans(ids);
    var order := SortNames(EmitKeys(t, info), ids);
    EndsInEmission(t, info, x.edges);
    assert order == Emission(t, info);
    forall i | 0 <= i < |order| ensures order[i] in t { OrderKnown(t, order, i); }
    r := Mapped(seq(|order|, i requires 0 <= i < |order| => NodeOut(t[order[i]], info[order[i]])),
                Sort(EdgesOut(order, x.edges)),
                seq(|order|, i requires 0 <= i < |order| => PlaceOut(t[order[i]], info[order[i]])));
    assert r == Emitted(t, info, x.edges) by { SameEmission(t, info, x.edges, order, r); }
  }

  lemma OrderKnown(t: Table, order: seq<Text>, i: nat)
    requires Elements(order) == t.Keys && i < |order|
    ensures order[i] in t
  {
    assert order[i] in Elements(order);
  }

  lemma UnknownEnd(t: Table, es: seq<RawEdge>)
    requires !AstEndsKnown(t, es)
    ensures !EdgesFine(t, es)
  {
  }

  lemma SameEmission(t: Table, info: map<Text, Info>, es: seq<RawEdge>, order: seq<Text>, r: Outcome)
    requires info.Keys == t.Keys && RanksDiffer(info) && EdgesFine(t, es) && order == Emission(t, info) && r.Mapped?
    requires EndsListed(order, es) && r.edges == Sort(EdgesOut(order, es)) && |r.nodes| == |order| == |r.places|
    requires forall i :: 0 <= i < |order| ==>
               order[i] in t && r.nodes[i] == NodeOut(t[order[i]], info[order[i]])
                   && r.places[i] == PlaceOut(t[order[i]], info[order[i]])
    ensures r == Emitted(t, info, es)
  {
    hide Emission, Sort, EdgesOut, RanksDiffer, EdgesFine, NodeOut, PlaceOut;
    var e := Emitted(t, info, es);
    assert r.nodes == e.nodes;
    assert r.places == e.places;
  }
}
