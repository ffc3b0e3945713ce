/** Slicing twice changes nothing, and slicing follows isomorphisms. */
module SliceLaws {
  import opened ByteStrings
  import opened FiniteSets
  import opened Graphs
  import opened Encoding
  import opened Cells
  import opened Cpgs
  import opened Rebuilds
  import opened Slices

  // ----- paths under renaming and restriction

  lemma {:induction false} MovedMember(f: map<nat, nat>, es: seq<Edge>, e: Edge)
    requires Covers(f, es) && e in es
    ensures Move(f, e) in MoveAll(f, es)
  {
    assert es[0] in es;
    if e != es[0] { MovedMember(f, es[1..], e); }
  }

  lemma FlowsMoved(f: map<nat, nat>, es: seq<Edge>, u: nat, v: nat)
    requires Covers(f, es) && Flows(es, u, v)
    ensures u in f && v in f && Flows(MoveAll(f, es), f[u], f[v])
  {
    hide Dataflow;
    var e :| e in es && e.src == u && e.dst == v && Dataflow(e.kind);
    MovedMember(f, es, e);
  }

  lemma FlowsKept(es: seq<Edge>, s: set<nat>, u: nat, v: nat)
    requires Flows(es, u, v) && u in s && v in s
    ensures Flows(KeepEdges(es, s), u, v)
  {
    hide Dataflow;
    var e :| e in es && e.src == u && e.dst == v && Dataflow(e.kind);
    KeepEdgesCount(es, s, e);
    assert e in multiset(KeepEdges(es, s));
  }

  /** A path inside a kept set is carried edge by edge into the copy. */
  lemma {:induction false} PathMoved(f: map<nat, nat>, es: seq<Edge>, s: set<nat>, p: seq<nat>)
    requires Covers(f, KeepEdges(es, s)) && s <= f.Keys
    requires IsPath(es, p) && forall i :: 0 <= i < |p| ==> p[i] in s
    ensures Reaches(MoveAll(f, KeepEdges(es, s)), f[p[0]], f[p[|p| - 1]])
  {
    hide Flows, Reaches, KeepEdges, MoveAll;
    var moved := MoveAll(f, KeepEdges(es, s));
    if |p| == 1 {
      ReachesItself(moved, f[p[0]]);
    } else {
      var q := p[1..];
      forall i | 0 <= i < |q| - 1 ensures Flows(es, q[i], q[i + 1]) {
        assert Flows(es, p[i + 1], p[i + 2]);
      }
      PathMoved(f, es, s, q);
      assert Flows(es, p[0], p[1]);
      FlowsKept(es, s, p[0], p[1]);
      FlowsMoved(f, KeepEdges(es, s), p[0], p[1]);
      ReachesBefore(moved, f[p[0]], f[p[1]], f[p[|p| - 1]]);
    }
  }

  lemma {:induction false} PathInSlice(g: Cpg, w: seq<nat>, p: seq<nat>)
    requires EdgesInside(g) && w != [] && IsPath(g.edges, p) && p[|p| - 1] == w[|w| - 1] && p[0] in Ids(g)
    ensures forall i :: 0 <= i < |p| ==> p[i] in SliceSet(g, w)
  {
    hide Flows, Reaches;
    assert Connects(g.edges, p, p[0], w[|w| - 1]);
    ReachesBy(g.edges, p, p[0], w[|w| - 1]);
    if |p| > 1 {
      var q := p[1..];
      forall i | 0 <= i < |q| - 1 ensures Flows(g.edges, q[i], q[i + 1]) {
        assert Flows(g.edges, p[i + 1], p[i + 2]);
      }
      assert Flows(g.edges, p[0], p[1]);
      FlowInsideTo(g, p[0], p[1]);
      PathInSlice(g, w, q);
      forall i | 0 <= i < |p| ensures p[i] in SliceSet(g, w) {
        if i > 0 { assert q[i - 1] == p[i]; }
      }
    }
  }

  lemma ReachesBy(es: seq<Edge>, p: seq<nat>, u: nat, v: nat)
    requires Connects(es, p, u, v)
    ensures Reaches(es, u, v)
  {
  }

  lemma FlowInsideTo(g: Cpg, u: nat, v: nat)
    requires EdgesInside(g) && Flows(g.edges, u, v)
    ensures v in Ids(g)
  {
  }

  // ----- slicing a slice

  function UpTo(k: nat): (r: seq<nat>) {
    seq(k, i => i)
  }

  lemma AscendingBelow(k: nat)
    ensures Ascending(Below(k)) == UpTo(k)
  {
    assert Elements(UpTo(k)) == Below(k) by {
      forall i | i in Below(k) ensures i in Elements(UpTo(k)) { assert UpTo(k)[i] == i; }
    }
    AscendingUnique(UpTo(k), Below(k));
  }

  ghost predicate SelfNumbered(r: Cpg) {
    && Ids(r) == Below(|r.nodes|) && UniqueIds(r.nodes) && EdgesInside(r)
    && forall i :: 0 <= i < |r.nodes| ==> r.nodes[i].id == i
  }

  lemma RebuildSelfNumbered(g: Cpg, relabel: Node -> Label)
    requires EdgesInside(g) && UniqueIds(g.nodes)
    ensures SelfNumbered(Rebuild(g, relabel))
  {
    RebuildIds(g, relabel);
    RemapBijective(g);
    var r, f := Rebuild(g, relabel), Remap(g);
    BijectionLands(f, Ids(g), Below(|g.nodes|));
    forall e | e in r.edges ensures e.src in Ids(r) && e.dst in Ids(r) {
      MoveAllRange(f, g.edges, Below(|g.nodes|), e);
    }
  }

  lemma {:induction false} KeepAll(es: seq<Edge>, s: set<nat>)
    requires forall e :: e in es ==> e.src in s && e.dst in s
    ensures KeepEdges(es, s) == es
  {
    if es != [] {
      assert es[0] in es;
      KeepAll(es[1..], s);
      assert es == [es[0]] + es[1..];
    }
  }

  lemma {:induction false} MoveNothing(f: map<nat, nat>, es: seq<Edge>)
    requires Covers(f, es) && forall v :: v in f ==> f[v] == v
    ensures MoveAll(f, es) == es
  {
    if es != [] {
      assert es[0] in es;
      MoveNothing(f, es[1..]);
      assert es == [es[0]] + es[1..];
    }
  }

  lemma SelfNumberedRemap(r: Cpg)
    requires SelfNumbered(r)
    ensures forall v :: v in Remap(r) ==> Remap(r)[v] == v
  {
    forall v | v in Remap(r) ensures Remap(r)[v] == v {
      RemapAt(r, v);
    }
  }

  lemma PartOfWhole(r: Cpg)
    requires SelfNumbered(r)
    ensures forall v :: v in UpTo(|r.nodes|) ==> v in Ids(r)
    ensures Part(r, UpTo(|r.nodes|)) == r
  {
    var order := UpTo(|r.nodes|);
    assert Elements(order) == Ids(r) by {
      forall i | i in Below(|r.nodes|) ensures i in Elements(order) { assert order[i] == i; }
    }
    KeepAll(r.edges, Elements(order));
    forall i | 0 <= i < |order| ensures PickNodes(r, order)[i] == r.nodes[i] {
      NodeOfNode(r.nodes, r.nodes[i]);
    }
    assert PickNodes(r, order) == r.nodes;
  }

  lemma RebuildWhole(r: Cpg)
    requires SelfNumbered(r)
    ensures Rebuild(r, SameFields()) == r
  {
    SelfNumberedRemap(r);
    MoveNothing(Remap(r), r.edges);
    var t := Rebuild(r, SameFields());
    forall i | 0 <= i < |r.nodes| ensures t.nodes[i] == r.nodes[i] {
    }
    assert t.nodes == r.nodes;
  }

  lemma WholeSlice(r: Cpg, w: seq<nat>)
    requires SelfNumbered(r) && w != [] && (forall v :: v in w ==> v in Ids(r)) && SliceSet(r, w) == Ids(r)
    ensures SliceOf(r, w) == Sliced(r, w)
  {
    hide SliceSet, Ascending, Rebuild, Remap, Part;
    AscendingBelow(|r.nodes|);
    PartOfWhole(r);
    RebuildWhole(r);
    SelfNumberedRemap(r);
    assert MoveOrder(Remap(r), w) == w;
  }

  lemma SliceCoversItself(g: Cpg, w: seq<nat>, v: nat)
    requires UniqueIds(g.nodes) && EdgesInside(g) && SliceOf(g, w).Sliced? && v in SliceSet(g, w)
    ensures var part := Part(g, SliceOrder(g, w)); var r := SliceOf(g, w);
            v in Remap(part)
                && (Remap(part)[v] in r.trail || Reaches(r.cpg.edges, Remap(part)[v], r.trail[|r.trail| - 1]))
  {
    hide Flows, Reaches, Remap, Ascending, PickNodes, KeepEdges, MoveAll;
    var order := SliceOrder(g, w);
    var part := Part(g, order);
    PartShape(g, order);
    var f := Remap(part);
    if v in w {
      var i :| 0 <= i < |w| && w[i] == v;
      assert SliceOf(g, w).trail[i] == f[v];
    } else {
      var p := PathFrom(g.edges, v, w[|w| - 1]);
      PathInSlice(g, w, p);
      PathMoved(f, g.edges, SliceSet(g, w), p);
    }
  }

  lemma PathFrom(es: seq<Edge>, u: nat, v: nat) returns (p: seq<nat>)
    requires Reaches(es, u, v)
    ensures Connects(es, p, u, v)
  {
    p :| Connects(es, p, u, v);
  }

  /** Slicing the slice by its own witness returns the same graph and witness. */
  lemma SliceIdempotent(g: Cpg, w: seq<nat>)
    requires UniqueIds(g.nodes) && EdgesInside(g) && SliceOf(g, w).Sliced?
    ensures SliceOf(SliceOf(g, w).cpg, SliceOf(g, w).trail) == SliceOf(g, w)
  {
    hide Reaches, Remap, Ascending, Part, Rebuild;
    var order := SliceOrder(g, w);
    var part := Part(g, order);
    PartShape(g, order);
    RebuildSelfNumbered(part, SameFields());
    RemapBijective(part);
    var r, t, f := SliceOf(g, w).cpg, SliceOf(g, w).trail, Remap(part);
    assert SliceOf(g, w) == Sliced(r, t) && r == Rebuild(part, SameFields()) && t == MoveOrder(f, w);
    RebuildIds(part, SameFields());
    BijectionLands(f, Ids(part), Below(|part.nodes|));
    forall i | i in Ids(r) ensures i in SliceSet(r, t) {
      var v := PreimageOf(f, Ids(part), Below(|part.nodes|), i);
      SliceCoversItself(g, w, v);
    }
    forall v | v in t ensures v in Ids(r) {
      var i :| 0 <= i < |t| && t[i] == v;
      assert w[i] in w && w[i] in SliceSet(g, w);
    }
    WholeSlice(r, t);
  }

  // ----- slicing follows isomorphisms

  function MapLabels(c: Graph, change: Label -> Label): (r: Graph)
    ensures r.labels.Keys == c.labels.Keys && r.edges == c.edges
  {
    Graph(map v | v in c.labels :: change(c.labels[v]), c.edges)
  }

  lemma MapLabelsIsomorphic(c: Graph, d: Graph, f: map<nat, nat>, change: Label -> Label)
    requires Isomorphism(c, d, f)
    ensures Isomorphism(MapLabels(c, change), MapLabels(d, change), f)
  {
    var a, b := MapLabels(c, change), MapLabels(d, change);
    forall v | v in f ensures SameLabel(a, v, b, f[v]) {
      assert SameLabel(c, v, d, f[v]);
    }
    forall s, e | s in f && e in f ensures SameParallelEdges(a, s, e, b, f[s], f[e]) {
      assert SameParallelEdges(c, s, e, d, f[s], f[e]);
      forall k ensures Multiplicity(a, s, e, k) == Multiplicity(b, f[s], f[e], k) {
        assert Multiplicity(c, s, e, k) == Multiplicity(d, f[s], f[e], k);
      }
    }
  }

  function Restrict(f: map<nat, nat>, s: set<nat>): (r: map<nat, nat>)
    requires s <= f.Keys
    ensures r.Keys == s
  {
    map v | v in s :: f[v]
  }

  lemma RestrictBijective(f: map<nat, nat>, a: set<nat>, b: set<nat>, s: set<nat>)
    requires Bijection(f, a, b) && s <= a
    ensures Bijection(Restrict(f, s), s, Image(f, s)) && Image(f, s) <= b
  {
    BijectionLands(f, a, b);
    var r := Restrict(f, s);
    forall x | x in r ensures Lands(r, x, Image(f, s)) {
    }
    forall y | y in Image(f, s) ensures Hit(r, y) {
      var x :| x in s && f[x] == y;
      assert r[x] == y;
    }
  }

  lemma InducedParallel(c: Graph, s: set<nat>, u: nat, v: nat, k: Bytes)
    requires s <= c.labels.Keys && u in s && v in s
    ensures Multiplicity(Induced(c, s), u, v, k) == Multiplicity(c, u, v, k)
  {
    KeepEdgesCount(c.edges, s, Edge(u, v, k));
  }

  lemma InducedCarried(c: Graph, d: Graph, f: map<nat, nat>, s: set<nat>)
    requires Isomorphism(c, d, f) && s <= c.labels.Keys
    ensures Image(f, s) <= d.labels.Keys
    ensures Isomorphism(Induced(c, s), Induced(d, Image(f, s)), Restrict(f, s))
  {
    hide Multiplicity;
    RestrictBijective(f, c.labels.Keys, d.labels.Keys, s);
    var t, r := Image(f, s), Restrict(f, s);
    var a, b := Induced(c, s), Induced(d, t);
    forall v | v in r ensures SameLabel(a, v, b, r[v]) {
      assert SameLabel(c, v, d, f[v]);
      assert f[v] in t;
    }
    forall u, v | u in r && v in r ensures SameParallelEdges(a, u, v, b, r[u], r[v]) {
      assert SameParallelEdges(c, u, v, d, f[u], f[v]);
      forall k ensures Multiplicity(a, u, v, k) == Multiplicity(b, r[u], r[v], k) {
        InducedParallel(c, s, u, v, k);
        InducedParallel(d, t, f[u], f[v], k);
        assert Multiplicity(c, u, v, k) == Multiplicity(d, f[u], f[v], k);
      }
    }
  }

  lemma FlowsCarried(c: Graph, d: Graph, f: map<nat, nat>, u: nat, v: nat)
    requires Isomorphism(c, d, f) && u in f && v in f && Flows(c.edges, u, v)
    ensures Flows(d.edges, f[u], f[v])
  {
    hide Dataflow;
    var e :| e in c.edges && e.src == u && e.dst == v && Dataflow(e.kind);
    assert SameParallelEdges(c, u, v, d, f[u], f[v]);
    assert Multiplicity(c, u, v, e.kind) == Multiplicity(d, f[u], f[v], e.kind);
    assert e in multiset(c.edges);
    assert Edge(f[u], f[v], e.kind) in multiset(d.edges);
  }

  lemma {:induction false} PathCarried(c: Graph, d: Graph, f: map<nat, nat>, p: seq<nat>)
    requires Isomorphism(c, d, f) && IsPath(c.edges, p) && forall i :: 0 <= i < |p| ==> p[i] in f
    ensures Reaches(d.edges, f[p[0]], f[p[|p| - 1]])
  {
    hide Flows, Reaches, Isomorphism;
    if |p| == 1 {
      ReachesItself(d.edges, f[p[0]]);
    } else {
      var q := p[1..];
      forall i | 0 <= i < |q| - 1 ensures Flows(c.edges, q[i], q[i + 1]) {
        assert Flows(c.edges, p[i + 1], p[i + 2]);
      }
      PathCarried(c, d, f, q);
      assert Flows(c.edges, p[0], p[1]);
      FlowsCarried(c, d, f, p[0], p[1]);
      ReachesBefore(d.edges, f[p[0]], f[p[1]], f[p[|p| - 1]]);
    }
  }

  /** Two graphs whose contents agree along `f` up to a change of labels. */
  ghost predicate AgreeUpTo(g: Cpg, h: Cpg, f: map<nat, nat>, change: Label -> Label) {
    Isomorphism(MapLabels(Content(g), change), MapLabels(Content(h), change), f)
  }

  lemma IsomorphismKeys(c: Graph, d: Graph, f: map<nat, nat>)
    requires Isomorphism(c, d, f)
    ensures f.Keys == c.labels.Keys
  {
  }

  lemma LandsAt(c: Graph, d: Graph, f: map<nat, nat>, v: nat)
    requires Isomorphism(c, d, f) && v in c.labels
    ensures v in f && f[v] in d.labels
  {
    IsomorphismLands(c, d, f);
    assert SameLabel(c, v, d, f[v]);
  }

  lemma SliceMemberCarried(g: Cpg, h: Cpg, f: map<nat, nat>, change: Label -> Label, w: seq<nat>, v: nat)
    requires EdgesInside(g) && EdgesInside(h) && AgreeUpTo(g, h, f, change)
    requires w != [] && (forall u :: u in w ==> u in f) && v in SliceSet(g, w)
    ensures v in f && f[v] in SliceSet(h, MoveOrder(f, w))
  {
    hide Reaches, Content, MapLabels, EdgesInside, Isomorphism;
    var c, d := MapLabels(Content(g), change), MapLabels(Content(h), change);
    LandsAt(c, d, f, v);
    var w' := MoveOrder(f, w);
    hide AgreeUpTo;
    if v in w {
      var i :| 0 <= i < |w| && w[i] == v;
      assert w'[i] == f[v];
    } else {
      var last := |w| - 1;
      assert w[last] in w && w'[last] == f[w[last]];
      ReachCarried(g, h, f, change, w, v);
    }
  }

  lemma ReachCarried(g: Cpg, h: Cpg, f: map<nat, nat>, change: Label -> Label, w: seq<nat>, v: nat)
    requires EdgesInside(g) && EdgesInside(h) && AgreeUpTo(g, h, f, change) && w != []
    requires v in Ids(g) && w[|w| - 1] in f && Reaches(g.edges, v, w[|w| - 1])
    ensures v in f && Reaches(h.edges, f[v], f[w[|w| - 1]])
  {
    hide Flows, PreservesEdges, Content, MapLabels, Bijection;
    var c, d := MapLabels(Content(g), change), MapLabels(Content(h), change);
    IsomorphismKeys(c, d, f);
    hide Isomorphism;
    var p := PathFrom(g.edges, v, w[|w| - 1]);
    PathInSlice(g, w, p);
    PathCarried(c, d, f, p);
  }

  lemma SliceSetCarried(g: Cpg, h: Cpg, f: map<nat, nat>, change: Label -> Label, w: seq<nat>)
    requires EdgesInside(g) && EdgesInside(h) && AgreeUpTo(g, h, f, change)
    requires w != [] && forall u :: u in w ==> u in f
    ensures SliceSet(g, w) <= f.Keys
    ensures SliceSet(h, MoveOrder(f, w)) == Image(f, SliceSet(g, w))
  {
    hide SliceSet, PreservesEdges, Content, MapLabels, SameLabel, Multiplicity;
    var c, d := MapLabels(Content(g), change), MapLabels(Content(h), change);
    var w' := MoveOrder(f, w);
    SliceSetInside(g, w);
    SliceSetInside(h, w');
    forall v | v in SliceSet(g, w) ensures f[v] in SliceSet(h, w') {
      SliceMemberCarried(g, h, f, change, w, v);
    }
    var back := Inverse(f, d.labels.Keys);
    IsomorphismInverse(c, d, f);
    IsomorphismLands(c, d, f);
    BijectionLands(back, d.labels.Keys, c.labels.Keys);
    assert MoveOrder(back, w') == w by {
      forall i | 0 <= i < |w| ensures MoveOrder(back, w')[i] == w[i] {
        assert back[f[w[i]]] == w[i];
      }
    }
    forall y | y in SliceSet(h, w') ensures y in Image(f, SliceSet(g, w)) {
      SliceMemberCarried(h, g, back, change, w', y);
      assert f[back[y]] == y;
    }
  }

  lemma InducedMapLabels(c: Graph, s: set<nat>, change: Label -> Label)
    requires s <= c.labels.Keys
    ensures Induced(MapLabels(c, change), s) == MapLabels(Induced(c, s), change)
  {
  }

  /** Slices of two graphs that agree up to labels agree up to labels. */
  lemma SlicesCarried(g: Cpg, h: Cpg, f: map<nat, nat>, change: Label -> Label, w: seq<nat>) returns (e: map<nat, nat>)
    requires UniqueIds(g.nodes) && UniqueIds(h.nodes) && EdgesInside(g) && EdgesInside(h)
    requires AgreeUpTo(g, h, f, change) && (forall u :: u in w ==> u in f) && w != []
    ensures SliceOf(g, w).Sliced? && SliceOf(h, MoveOrder(f, w)).Sliced?
    ensures AgreeUpTo(SliceOf(g, w).cpg, SliceOf(h, MoveOrder(f, w)).cpg, e, change)
  {
    var w' := MoveOrder(f, w);
    var s := SliceSet(g, w);
    SlicesExist(g, h, f, change, w);
    hide SliceSet, Isomorphism, Content, Induced, MapLabels, SliceOf;
    SliceSetCarried(g, h, f, change, w);
    SliceInduced(g, w);
    SliceInduced(h, w');
    var t := Image(f, s);
    var left, right := Remap(Part(g, SliceOrder(g, w))), Remap(Part(h, SliceOrder(h, w')));
    e := SquareUp(Content(g), Content(h), f, s, change,
                  Content(SliceOf(g, w).cpg), Content(SliceOf(h, w').cpg), left, right);
  }

  lemma SlicesExist(g: Cpg, h: Cpg, f: map<nat, nat>, change: Label -> Label, w: seq<nat>)
    requires AgreeUpTo(g, h, f, change) && (forall u :: u in w ==> u in f) && w != []
    ensures SliceOf(g, w).Sliced? && SliceOf(h, MoveOrder(f, w)).Sliced?
  {
    hide SliceSet, PreservesEdges, Ascending, Part, Rebuild;
    var c, d := MapLabels(Content(g), change), MapLabels(Content(h), change);
    IsomorphismLands(c, d, f);
    var w' := MoveOrder(f, w);
    forall v | v in w' ensures v in Ids(h) {
      var i :| 0 <= i < |w'| && w'[i] == v;
      assert w[i] in w && SameLabel(c, w[i], d, f[w[i]]);
    }
    forall v | v in w ensures v in Ids(g) {
      assert SameLabel(c, v, d, f[v]);
    }
  }

  lemma SquareUp(c: Graph, d: Graph, f: map<nat, nat>, s: set<nat>, change: Label -> Label, p: Graph, q: Graph,
                 left: map<nat, nat>, right: map<nat, nat>) returns (e: map<nat, nat>)
    requires Isomorphism(MapLabels(c, change), MapLabels(d, change), f) && s <= c.labels.Keys
    requires s <= f.Keys && Image(f, s) <= d.labels.Keys
    requires Isomorphism(Induced(c, s), p, left) && Isomorphism(Induced(d, Image(f, s)), q, right)
    ensures Isomorphism(MapLabels(p, change), MapLabels(q, change), e)
  {
    var t := Image(f, s);
    var a, b := MapLabels(Induced(c, s), change), MapLabels(Induced(d, t), change);
    var p', q' := MapLabels(p, change), MapLabels(q, change);
    InducedCarried(MapLabels(c, change), MapLabels(d, change), f, s);
    InducedMapLabels(c, s, change);
    InducedMapLabels(d, t, change);
    MapLabelsIsomorphic(Induced(c, s), p, left, change);
    MapLabelsIsomorphic(Induced(d, t), q, right, change);
    hide MapLabels, Induced, PreservesEdges;
    var back := Inverse(left, p'.labels.Keys);
    IsomorphismInverse(a, p', left);
    IsomorphismCompose(p', a, b, back, Restrict(f, s));
    e := Compose(Compose(back, Restrict(f, s)), right);
    IsomorphismCompose(p', b, q', Compose(back, Restrict(f, s)), right);
  }
}
