/** Colourings started from labels and markers, and how they travel along an
    isomorphism. */
module Individualisation {
  import opened ByteStrings
  import opened FiniteSets
  import opened Graphs
  import opened Arcs
  import opened Encoding
  import opened Refinement

  /** Marked nodes carry the distinct numbers 1..|m|; the others count as 0. */
  ghost predicate MarkersOf(g: Graph, m: Markers) {
    && m.Keys <= g.labels.Keys && Injective(m)
    && forall v :: v in m ==> 1 <= m[v] <= |m|
  }

  function Marker(m: Markers, v: nat): (r: nat) {
    if v in m then m[v] else 0
  }

  function StartSignatures(g: Graph, m: Markers): (r: map<nat, Bytes>) {
    map v | v in g.labels :: LabelBytes(g.labels[v]) + U64(Marker(m, v))
  }

  function Start(g: Graph, m: Markers): (c: Colours)
    ensures c.Keys == g.labels.Keys
  {
    Intern(StartSignatures(g, m))
  }

  lemma MarkersFit(g: Graph, m: Markers)
    requires WellFormed(g) && MarkersOf(g, m)
    ensures |m| <= |g.labels|
    ensures forall v :: Marker(m, v) < TWO_64
  {
    SubsetSize(m.Keys, g.labels.Keys);
    assert |m.Keys| == |m| && |g.labels.Keys| == |g.labels|;
  }

  /** The starting colours separate nodes exactly by label and marker. */
  lemma StartExact(g: Graph, m: Markers, v: nat, w: nat)
    requires WellFormed(g) && MarkersOf(g, m) && v in g.labels && w in g.labels
    ensures Start(g, m)[v] == Start(g, m)[w] <==>
              g.labels[v] == g.labels[w] && Marker(m, v) == Marker(m, w)
  {
    var sigs := StartSignatures(g, m);
    InternFaithful(sigs);
    MarkersFit(g, m);
    assert sigs[v] == LabelBytes(g.labels[v]) + U64(Marker(m, v));
    assert sigs[w] == LabelBytes(g.labels[w]) + U64(Marker(m, w));
    if sigs[v] == sigs[w] {
      LabelCancel(g.labels[v], g.labels[w], U64(Marker(m, v)), U64(Marker(m, w)));
      assert U64(Marker(m, v)) + [] == U64(Marker(m, w)) + [];
      U64Cancel(Marker(m, v), Marker(m, w), [], []);
    }
  }

  lemma StartDense(g: Graph, m: Markers)
    ensures Dense(Start(g, m))
  {
    InternDense(StartSignatures(g, m));
  }

  /** `refine(markers)`. */
  function ColoursOf(g: Graph, m: Markers): (c: Colours)
    requires WellFormed(g)
  {
    StartDense(g, m);
    Refine(g, Start(g, m))
  }

  lemma ColoursOfShape(g: Graph, m: Markers)
    requires WellFormed(g)
    ensures ColoursOf(g, m).Keys == g.labels.Keys && Dense(ColoursOf(g, m))
  {
    hide Refine, Start;
    StartDense(g, m);
    RefineShape(g, Start(g, m));
  }

  lemma ColoursOfStable(g: Graph, m: Markers)
    requires WellFormed(g)
    ensures Stable(g, ColoursOf(g, m)) && Finer(ColoursOf(g, m), Start(g, m))
    ensures KeepsOrder(Start(g, m), ColoursOf(g, m))
  {
    hide Refine, Start, Dense, Finer, KeepsOrder, Stable;
    StartDense(g, m);
    RefineStable(g, Start(g, m));
  }

  lemma ColoursOfSeparates(g: Graph, m: Markers, v: nat, w: nat)
    requires WellFormed(g) && MarkersOf(g, m) && v in g.labels && w in g.labels
    ensures v in ColoursOf(g, m) && w in ColoursOf(g, m)
    ensures ColoursOf(g, m)[v] == ColoursOf(g, m)[w] ==>
              g.labels[v] == g.labels[w] && Marker(m, v) == Marker(m, w)
  {
    hide ColoursOf, Start, Stable, KeepsOrder;
    ColoursOfShape(g, m);
    ColoursOfStable(g, m);
    StartExact(g, m, v, w);
  }

  /** `refine` returns the coarsest stable colouring that is finer than (label,
      marker), numbered 0.. without gaps and in the order of the start. */
  lemma ColoursOfCoarsestStable(g: Graph, m: Markers, d: Colours)
    requires WellFormed(g) && MarkersOf(g, m)
    requires d.Keys == g.labels.Keys && Stable(g, d)
    requires forall v, w :: v in d && w in d && d[v] == d[w] ==>
               g.labels[v] == g.labels[w] && Marker(m, v) == Marker(m, w)
    ensures Dense(ColoursOf(g, m)) && Stable(g, ColoursOf(g, m))
    ensures KeepsOrder(Start(g, m), ColoursOf(g, m))
    ensures Finer(d, ColoursOf(g, m))
  {
    hide Refine, Start, Dense, Stable, KeepsOrder;
    ColoursOfShape(g, m);
    ColoursOfStable(g, m);
    StartDense(g, m);
    var s := Start(g, m);
    forall v, w | v in d && w in d && d[v] == d[w] ensures s[v] == s[w] {
      StartExact(g, m, v, w);
    }
    RefineCoarsest(g, s, d);
  }

  /** A marked node is alone in its cell. */
  lemma MarkedAlone(g: Graph, m: Markers, v: nat, w: nat)
    requires WellFormed(g) && MarkersOf(g, m) && v in m && w in g.labels && v != w
    ensures v in ColoursOf(g, m) && w in ColoursOf(g, m)
    ensures ColoursOf(g, m)[v] != ColoursOf(g, m)[w]
  {
    hide ColoursOf;
    ColoursOfSeparates(g, m, v, w);
  }

  // ----- travel along an isomorphism

  ghost predicate Carries(f: map<nat, nat>, c: Colours, d: Colours) {
    Bijection(f, c.Keys, d.Keys) && forall v {:trigger f[v]} :: v in f ==> f[v] in d && d[f[v]] == c[v]
  }

  ghost predicate CarriesBytes(f: map<nat, nat>, p: map<nat, Bytes>, q: map<nat, Bytes>) {
    Bijection(f, p.Keys, q.Keys) && forall v {:trigger f[v]} :: v in f ==> f[v] in q && q[f[v]] == p[v]
  }

  ghost predicate CarriesMarkers(f: map<nat, nat>, m: Markers, n: Markers) {
    forall v {:trigger f[v]} :: v in f ==> Marker(n, f[v]) == Marker(m, v)
  }

  lemma CarriedValues(f: map<nat, nat>, c: Colours, d: Colours)
    requires Carries(f, c, d)
    ensures c.Values == d.Values
  {
    forall v | v in c ensures c[v] in d.Values { assert d[f[v]] == c[v]; }
    forall w | w in d ensures d[w] in c.Values {
      var v := PreimageOf(f, c.Keys, d.Keys, w);
    }
  }

  lemma InternCarried(f: map<nat, nat>, p: map<nat, Bytes>, q: map<nat, Bytes>)
    requires CarriesBytes(f, p, q)
    ensures Carries(f, Intern(p), Intern(q))
  {
    forall v | v in p ensures p[v] in q.Values { assert q[f[v]] == p[v]; }
    forall w | w in q ensures q[w] in p.Values {
      var v := PreimageOf(f, p.Keys, q.Keys, w);
    }
    assert p.Values == q.Values;
  }

  lemma NeighboursCarried(g: Graph, h: Graph, f: map<nat, nat>, c: Colours, d: Colours, v: nat)
    requires WellFormed(g) && WellFormed(h) && Isomorphism(g, h, f) && Carries(f, c, d) && v in f
    ensures multiset(Collect(g.edges, Incoming(v, c))) == multiset(Collect(h.edges, Incoming(f[v], d)))
    ensures multiset(Collect(g.edges, Outgoing(v, c))) == multiset(Collect(h.edges, Outgoing(f[v], d)))
  {
    hide Collect, PreservesEdges;
    CollectIsomorphic(g, h, f, Incoming(v, c), Incoming(f[v], d));
    CollectIsomorphic(g, h, f, Outgoing(v, c), Outgoing(f[v], d));
  }

  lemma SignatureCarried(g: Graph, h: Graph, f: map<nat, nat>, c: Colours, d: Colours, v: nat)
    requires WellFormed(g) && WellFormed(h) && Isomorphism(g, h, f) && Carries(f, c, d) && v in f
    ensures Signature(g, c, v) == Signature(h, d, f[v])
  {
    hide Sort, Collect, SignatureBytes, Isomorphism;
    NeighboursCarried(g, h, f, c, d, v);
    SortCanonical(Collect(g.edges, Incoming(v, c)), Collect(h.edges, Incoming(f[v], d)));
    SortCanonical(Collect(g.edges, Outgoing(v, c)), Collect(h.edges, Outgoing(f[v], d)));
  }

  lemma SignaturesTabulated(g: Graph, h: Graph, f: map<nat, nat>, c: Colours, d: Colours)
    requires Carries(f, c, d)
    requires forall v :: v in f ==> Signature(g, c, v) == Signature(h, d, f[v])
    ensures CarriesBytes(f, Signatures(g, c), Signatures(h, d))
  {
    hide Signature;
    var p, q := Signatures(g, c), Signatures(h, d);
    forall v | v in f ensures f[v] in q && q[f[v]] == p[v] {
    }
  }

  lemma SignaturesCarried(g: Graph, h: Graph, f: map<nat, nat>, c: Colours, d: Colours)
    requires WellFormed(g) && WellFormed(h) && Isomorphism(g, h, f) && Carries(f, c, d)
    ensures CarriesBytes(f, Signatures(g, c), Signatures(h, d))
  {
    hide Signature, Signatures;
    forall v | v in f ensures Signature(g, c, v) == Signature(h, d, f[v]) {
      SignatureCarried(g, h, f, c, d, v);
    }
    SignaturesTabulated(g, h, f, c, d);
  }

  lemma RoundCarried(g: Graph, h: Graph, f: map<nat, nat>, c: Colours, d: Colours)
    requires WellFormed(g) && WellFormed(h) && Isomorphism(g, h, f) && Carries(f, c, d)
    ensures Carries(f, Round(g, c), Round(h, d))
  {
    hide Signatures, Intern;
    SignaturesCarried(g, h, f, c, d);
    InternCarried(f, Signatures(g, c), Signatures(h, d));
  }

  lemma {:induction false} RefineCarried(g: Graph, h: Graph, f: map<nat, nat>, c: Colours, d: Colours)
    requires WellFormed(g) && WellFormed(h) && Isomorphism(g, h, f) && Carries(f, c, d)
    requires c.Keys == g.labels.Keys && Dense(c) && d.Keys == h.labels.Keys && Dense(d)
    ensures Carries(f, Refine(g, c), Refine(h, d))
    decreases |g.labels| - |c.Values|
  {
    hide Round;
    RoundCount(g, c);
    RoundCount(h, d);
    RoundCarried(g, h, f, c, d);
    CarriedValues(f, c, d);
    CarriedValues(f, Round(g, c), Round(h, d));
    if |Round(g, c).Values| != |c.Values| {
      RefineCarried(g, h, f, Round(g, c), Round(h, d));
    }
  }

  lemma StartSignaturesCarried(g: Graph, h: Graph, f: map<nat, nat>, m: Markers, n: Markers)
    requires Isomorphism(g, h, f) && CarriesMarkers(f, m, n)
    ensures CarriesBytes(f, StartSignatures(g, m), StartSignatures(h, n))
  {
    hide LabelBytes, U64, Marker, PreservesEdges;
    IsomorphismLands(g, h, f);
    var p, q := StartSignatures(g, m), StartSignatures(h, n);
    assert forall v {:trigger f[v]} :: v in f ==> f[v] in q && q[f[v]] == p[v];
  }

  lemma StartCarried(g: Graph, h: Graph, f: map<nat, nat>, m: Markers, n: Markers)
    requires Isomorphism(g, h, f) && CarriesMarkers(f, m, n)
    ensures Carries(f, Start(g, m), Start(h, n))
  {
    hide StartSignatures, Intern, Isomorphism;
    StartSignaturesCarried(g, h, f, m, n);
    InternCarried(f, StartSignatures(g, m), StartSignatures(h, n));
  }

  /** Refinement is equivariant: it commutes with every isomorphism. */
  lemma ColoursOfCarried(g: Graph, h: Graph, f: map<nat, nat>, m: Markers, n: Markers)
    requires WellFormed(g) && WellFormed(h) && Isomorphism(g, h, f) && CarriesMarkers(f, m, n)
    ensures Carries(f, ColoursOf(g, m), ColoursOf(h, n))
  {
    hide Refine, Start, Dense, Carries;
    StartCarried(g, h, f, m, n);
    StartDense(g, m);
    StartDense(h, n);
    RefineCarried(g, h, f, Start(g, m), Start(h, n));
  }
}
