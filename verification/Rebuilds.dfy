/** Graph copies made by adding nodes one by one: every copy renumbers its nodes
    by position, may rewrite their label fields, and carries the edges along. */
module Rebuilds {
  import opened ByteStrings
  import opened FiniteSets
  import opened Graphs
  import opened Encoding
  import opened Cpgs

  predicate EdgesInside(g: Cpg) {
    forall e :: e in g.edges ==> e.src in Ids(g) && e.dst in Ids(g)
  }

  /** Old id to new id: the position in the node list. */
  function Remap(g: Cpg): (f: map<nat, nat>)
    ensures f.Keys == Ids(g)
  {
    IdListComplete(g);
    Ranks(IdList(g))
  }

  function Rebuild(g: Cpg, relabel: Node -> Label): (r: Cpg)
    requires EdgesInside(g)
  {
    Cpg(seq(|g.nodes|, i requires 0 <= i < |g.nodes| => Node(i, relabel(g.nodes[i]), g.nodes[i].path)),
        MoveAll(Remap(g), g.edges))
  }

  /** The content of a graph after rewriting its labels in place. */
  function Relabelled(g: Cpg, relabel: Node -> Label): (r: Graph)
    ensures r.labels.Keys == Ids(g) && r.edges == g.edges
  {
    Graph(map v | v in Ids(g) :: relabel(NodeOf(g.nodes, v)), g.edges)
  }

  lemma RemapAt(g: Cpg, i: nat)
    requires UniqueIds(g.nodes) && i < |g.nodes|
    ensures g.nodes[i].id in Remap(g) && Remap(g)[g.nodes[i].id] == i
  {
    var ids := IdList(g);
    assert ids[i] == g.nodes[i].id;
    assert ids[i] in ids;
    var j := Position(ids, ids[i]);
    assert ids[j] == ids[i];
  }

  lemma RebuildIds(g: Cpg, relabel: Node -> Label)
    requires EdgesInside(g)
    ensures UniqueIds(Rebuild(g, relabel).nodes)
    ensures Ids(Rebuild(g, relabel)) == Below(|g.nodes|)
  {
    var r := Rebuild(g, relabel);
    forall i | i in Below(|g.nodes|) ensures i in Ids(r) {
      assert r.nodes[i].id == i && r.nodes[i] in r.nodes;
    }
  }

  lemma RemapBijective(g: Cpg)
    requires UniqueIds(g.nodes)
    ensures Bijection(Remap(g), Ids(g), Below(|g.nodes|))
  {
    var f, ids := Remap(g), IdList(g);
    RanksInjective(ids);
    forall v | v in f ensures Lands(f, v, Below(|g.nodes|)) {
      var n := NodeOf(g.nodes, v);
      var i :| 0 <= i < |g.nodes| && g.nodes[i] == n;
      RemapAt(g, i);
    }
    forall i | i in Below(|g.nodes|) ensures Hit(f, i) {
      RemapAt(g, i);
    }
  }

  lemma RemapInjective(g: Cpg)
    ensures Injective(Remap(g))
  {
    RanksInjective(IdList(g));
  }

  lemma RebuildLabel(g: Cpg, relabel: Node -> Label, v: nat)
    requires EdgesInside(g) && UniqueIds(g.nodes) && v in Ids(g)
    ensures v in Remap(g) && SameLabel(Relabelled(g, relabel), v, Content(Rebuild(g, relabel)), Remap(g)[v])
  {
    var r := Rebuild(g, relabel);
    var n := NodeOf(g.nodes, v);
    var i :| 0 <= i < |g.nodes| && g.nodes[i] == n;
    RemapAt(g, i);
    RebuildIds(g, relabel);
    assert r.nodes[i] in r.nodes;
    ContentLabel(r, r.nodes[i]);
  }

  /** A copy is isomorphic to its original with the labels rewritten. */
  lemma RebuildIsomorphic(g: Cpg, relabel: Node -> Label)
    requires EdgesInside(g) && UniqueIds(g.nodes)
    ensures Isomorphism(Relabelled(g, relabel), Content(Rebuild(g, relabel)), Remap(g))
  {
    hide Remap, SameLabel, PreservesEdges, Content, Relabelled, UniqueIds, Multiplicity, Bijection;
    var a, b, f := Relabelled(g, relabel), Content(Rebuild(g, relabel)), Remap(g);
    RebuildIds(g, relabel);
    RemapBijective(g);
    forall v | v in f ensures SameLabel(a, v, b, f[v]) {
      RebuildLabel(g, relabel, v);
    }
    assert Covers(f, a.edges);
    RemapInjective(g);
    MovedEdgesPreserve(a, b, f);
  }

  lemma {:induction false} MoveAllKinds(f: map<nat, nat>, es: seq<Edge>, e: Edge)
    requires Covers(f, es) && e in MoveAll(f, es)
    ensures exists d :: d in es && d.kind == e.kind
  {
    assert es[0] in es;
    if e != Move(f, es[0]) {
      MoveAllKinds(f, es[1..], e);
      var d :| d in es[1..] && d.kind == e.kind;
      assert d in es;
    }
  }

  lemma {:induction false} MoveAllLength(f: map<nat, nat>, es: seq<Edge>)
    requires Covers(f, es)
    ensures |MoveAll(f, es)| == |es|
  {
    if es != [] {
      assert es[0] in es;
      MoveAllLength(f, es[1..]);
    }
  }

  /** Everything `validate_cpg` asks of a graph except the length of its label fields. */
  predicate SoundExceptLabels(g: Cpg) {
    && |g.nodes| < TWO_64 && |g.edges| < TWO_64 && UniqueIds(g.nodes)
    && (forall n :: n in g.nodes ==> n.id < TWO_64 && |n.path| < TWO_64)
    && (forall e :: e in g.edges ==> FitsEdge(g, e))
  }

  lemma ValidSound(g: Cpg)
    requires Valid(g)
    ensures SoundExceptLabels(g) && EdgesInside(g)
  {
    forall n | n in g.nodes ensures n.id < TWO_64 && |n.path| < TWO_64 { assert FitsNode(n); }
    forall e | e in g.edges ensures e.src in Ids(g) && e.dst in Ids(g) { assert FitsEdge(g, e); }
  }

  lemma RebuildEdgeFits(g: Cpg, relabel: Node -> Label, e: Edge)
    requires SoundExceptLabels(g) && EdgesInside(g) && e in Rebuild(g, relabel).edges
    ensures FitsEdge(Rebuild(g, relabel), e)
  {
    hide Remap, UniqueIds, MoveAll, NodeOf;
    var f := Remap(g);
    RebuildIds(g, relabel);
    RemapBijective(g);
    BijectionLands(f, Ids(g), Below(|g.nodes|));
    hide Bijection;
    assert Covers(f, g.edges);
    MoveAllRange(f, g.edges, Below(|g.nodes|), e);
    MoveAllKinds(f, g.edges, e);
    var d :| d in g.edges && d.kind == e.kind;
    assert FitsEdge(g, d);
  }

  lemma RebuildNodesFit(g: Cpg, relabel: Node -> Label)
    requires SoundExceptLabels(g) && EdgesInside(g)
    ensures |Rebuild(g, relabel).edges| == |g.edges| && |Rebuild(g, relabel).nodes| == |g.nodes|
    ensures forall n :: n in Rebuild(g, relabel).nodes ==> n.id < TWO_64 && |n.path| < TWO_64
  {
    hide MoveAll, FitsEdge, UniqueIds;
    var r, f := Rebuild(g, relabel), Remap(g);
    assert Covers(f, g.edges);
    MoveAllLength(f, g.edges);
    hide Remap, Ids;
    forall n | n in r.nodes ensures n.id < TWO_64 && |n.path| < TWO_64 {
      var i :| 0 <= i < |r.nodes| && r.nodes[i] == n;
      assert g.nodes[i] in g.nodes;
    }
  }

  lemma RebuildSound(g: Cpg, relabel: Node -> Label)
    requires SoundExceptLabels(g) && EdgesInside(g)
    ensures SoundExceptLabels(Rebuild(g, relabel))
  {
    hide Remap, MoveAll, FitsEdge, UniqueIds, Below;
    var r := Rebuild(g, relabel);
    RebuildIds(g, relabel);
    RebuildNodesFit(g, relabel);
    hide Ids;
    forall e | e in r.edges ensures FitsEdge(r, e) {
      RebuildEdgeFits(g, relabel, e);
    }
  }

  lemma ValidIffLabelsFit(g: Cpg)
    requires SoundExceptLabels(g)
    ensures Valid(g) <==> forall v :: v in Content(g).labels ==> FitsLabel(Content(g).labels[v])
  {
    if Valid(g) {
      ContentWellFormed(g);
    }
    if forall v :: v in Content(g).labels ==> FitsLabel(Content(g).labels[v]) {
      forall n | n in g.nodes ensures FitsNode(n) {
        ContentLabel(g, n);
      }
    }
  }

  /** Isomorphic graphs are valid together. */
  lemma ValidTogether(g: Cpg, h: Cpg, f: map<nat, nat>)
    requires SoundExceptLabels(g) && SoundExceptLabels(h) && Isomorphism(Content(g), Content(h), f)
    ensures Valid(g) <==> Valid(h)
  {
    hide Content, SoundExceptLabels, Valid, FitsLabel, PreservesEdges;
    ValidIffLabelsFit(g);
    ValidIffLabelsFit(h);
    var a, b := Content(g), Content(h);
    IsomorphismLands(a, b, f);
    if forall v :: v in a.labels ==> FitsLabel(a.labels[v]) {
      forall w | w in b.labels ensures FitsLabel(b.labels[w]) {
        var v := PreimageOf(f, a.labels.Keys, b.labels.Keys, w);
        assert SameLabel(a, v, b, f[v]);
      }
    }
    if forall v :: v in b.labels ==> FitsLabel(b.labels[v]) {
      forall v | v in a.labels ensures FitsLabel(a.labels[v]) {
        assert SameLabel(a, v, b, f[v]);
      }
    }
  }
}
