/** The content of a code property graph that identity depends on: the four label
    fields of each node and the multiset of directed typed edges. */
module Graphs {
  import opened ByteStrings
  import opened FiniteSets

  datatype Label = Label(kind: Bytes, text: Bytes, fqn: Bytes, decl: Bytes)
  datatype Edge = Edge(src: nat, dst: nat, kind: Bytes)
  datatype Graph = Graph(labels: map<nat, Label>, edges: seq<Edge>)

  predicate FitsLabel(l: Label) {
    |l.kind| < TWO_64 && |l.text| < TWO_64 && |l.fqn| < TWO_64 && |l.decl| < TWO_64
  }

  /** What `validate_cpg` and the 64-bit frames demand of a graph. */
  predicate WellFormed(g: Graph) {
    && |g.labels| < TWO_64 && |g.edges| < TWO_64
    && (forall v :: v in g.labels ==> FitsLabel(g.labels[v]))
    && (forall e :: e in g.edges ==>
          e.src in g.labels && e.dst in g.labels && |e.kind| < TWO_64)
  }

  /** How many parallel edges of one kind run from one node to another. */
  function Multiplicity(g: Graph, s: nat, d: nat, k: Bytes): nat {
    multiset(g.edges)[Edge(s, d, k)]
  }

  /** A node bijection preserving label fields and typed edges with multiplicity. */
  ghost predicate Isomorphism(g: Graph, h: Graph, f: map<nat, nat>) {
    && Bijection(f, g.labels.Keys, h.labels.Keys)
    && (forall v {:trigger SameLabel(g, v, h, f[v])} :: v in f ==> SameLabel(g, v, h, f[v]))
    && PreservesEdges(g, h, f)
  }

  predicate SameLabel(g: Graph, v: nat, h: Graph, w: nat) {
    v in g.labels && w in h.labels && g.labels[v] == h.labels[w]
  }

  ghost predicate PreservesEdges(g: Graph, h: Graph, f: map<nat, nat>) {
    forall s, d {:trigger SameParallelEdges(g, s, d, h, f[s], f[d])} ::
      s in f && d in f ==> SameParallelEdges(g, s, d, h, f[s], f[d])
  }

  ghost predicate SameParallelEdges(g: Graph, s: nat, d: nat, h: Graph, s': nat, d': nat) {
    forall k :: Multiplicity(g, s, d, k) == Multiplicity(h, s', d', k)
  }

  lemma IsomorphismLands(g: Graph, h: Graph, f: map<nat, nat>)
    requires Isomorphism(g, h, f)
    ensures forall v {:trigger f[v]} :: v in f ==> SameLabel(g, v, h, f[v])
  {
    BijectionLands(f, g.labels.Keys, h.labels.Keys);
  }

  ghost predicate Isomorphic(g: Graph, h: Graph) {
    exists f :: Isomorphism(g, h, f)
  }

  lemma IsomorphismInverse(g: Graph, h: Graph, f: map<nat, nat>)
    requires Isomorphism(g, h, f)
    ensures Isomorphism(h, g, Inverse(f, h.labels.Keys))
  {
    var r := Inverse(f, h.labels.Keys);
    BijectionLands(r, h.labels.Keys, g.labels.Keys);
    forall s, d | s in r && d in r ensures SameParallelEdges(h, s, d, g, r[s], r[d]) {
      assert f[r[s]] == s && f[r[d]] == d;
      assert SameParallelEdges(g, r[s], r[d], h, f[r[s]], f[r[d]]);
    }
    forall v | v in r ensures SameLabel(h, v, g, r[v]) {
      assert SameLabel(g, r[v], h, f[r[v]]);
    }
  }

  lemma IsomorphismCompose(g: Graph, h: Graph, i: Graph, f: map<nat, nat>, e: map<nat, nat>)
    requires Isomorphism(g, h, f) && Isomorphism(h, i, e)
    ensures Isomorphism(g, i, Compose(f, e))
  {
    ComposeBijection(f, e, g.labels.Keys, h.labels.Keys, i.labels.Keys);
    var c := Compose(f, e);
    IsomorphismLands(g, h, f);
    forall v | v in c ensures SameLabel(g, v, i, c[v]) {
      assert SameLabel(h, f[v], i, e[f[v]]);
    }
    forall s, d | s in c && d in c ensures SameParallelEdges(g, s, d, i, c[s], c[d]) {
      assert SameParallelEdges(g, s, d, h, f[s], f[d]);
      assert SameParallelEdges(h, f[s], f[d], i, e[f[s]], e[f[d]]);
    }
  }

  function Identity(s: set<nat>): (r: map<nat, nat>) {
    map v | v in s :: v
  }

  lemma IsomorphismIdentity(g: Graph)
    ensures Isomorphism(g, g, Identity(g.labels.Keys))
  {
    var f := Identity(g.labels.Keys);
    forall v | v in g.labels ensures Hit(f, v) {
      assert f[v] == v;
    }
  }

  // ----- moving an edge list along a bijection

  function Move(f: map<nat, nat>, e: Edge): (r: Edge)
    requires e.src in f && e.dst in f
  {
    Edge(f[e.src], f[e.dst], e.kind)
  }

  predicate Covers(f: map<nat, nat>, es: seq<Edge>) {
    forall e :: e in es ==> e.src in f && e.dst in f
  }

  function MoveAll(f: map<nat, nat>, es: seq<Edge>): (r: seq<Edge>)
    requires Covers(f, es)
  {
    if es == [] then [] else
    assert es[0] in es;
    [Move(f, es[0])] + MoveAll(f, es[1..])
  }

  lemma {:induction false} MoveAllCount(f: map<nat, nat>, es: seq<Edge>, e: Edge)
    requires Covers(f, es) && Injective(f) && e.src in f && e.dst in f
    ensures multiset(MoveAll(f, es))[Move(f, e)] == multiset(es)[e]
  {
    if es != [] {
      assert es == [es[0]] + es[1..];
      assert es[0] in es;
      MoveAllCount(f, es[1..], e);
    }
  }

  lemma {:induction false} MoveAllRange(f: map<nat, nat>, es: seq<Edge>, b: set<nat>, e: Edge)
    requires Covers(f, es) && e in MoveAll(f, es) && forall x :: x in f ==> f[x] in b
    ensures e.src in b && e.dst in b
  {
    assert es[0] in es;
    if e != Move(f, es[0]) { MoveAllRange(f, es[1..], b, e); }
  }

  /** Equal multiplicities everywhere are equal edge multisets. */
  lemma IsomorphismMovesEdges(g: Graph, h: Graph, f: map<nat, nat>)
    requires WellFormed(g) && WellFormed(h) && Isomorphism(g, h, f)
    ensures multiset(MoveAll(f, g.edges)) == multiset(h.edges)
  {
    BijectionLands(f, g.labels.Keys, h.labels.Keys);
    var moved := MoveAll(f, g.edges);
    forall e: Edge ensures multiset(moved)[e] == multiset(h.edges)[e] {
      if e.src in h.labels && e.dst in h.labels {
        var s := PreimageOf(f, g.labels.Keys, h.labels.Keys, e.src);
        var d := PreimageOf(f, g.labels.Keys, h.labels.Keys, e.dst);
        MoveAllCount(f, g.edges, Edge(s, d, e.kind));
        assert SameParallelEdges(g, s, d, h, f[s], f[d]);
        assert Multiplicity(g, s, d, e.kind) == Multiplicity(h, e.src, e.dst, e.kind);
      } else {
        if e in moved { MoveAllRange(f, g.edges, h.labels.Keys, e); }
        assert e !in moved;
        assert e !in h.edges;
      }
    }
  }

  lemma MovedEdgesPreserve(g: Graph, h: Graph, f: map<nat, nat>)
    requires Covers(f, g.edges) && Injective(f)
    requires multiset(MoveAll(f, g.edges)) == multiset(h.edges)
    ensures PreservesEdges(g, h, f)
  {
    forall s, d | s in f && d in f ensures SameParallelEdges(g, s, d, h, f[s], f[d]) {
      forall k ensures Multiplicity(g, s, d, k) == Multiplicity(h, f[s], f[d], k) {
        MoveAllCount(f, g.edges, Edge(s, d, k));
      }
    }
  }
}
