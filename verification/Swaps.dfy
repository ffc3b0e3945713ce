/** `swap_is_automorphism`: an exact certificate that exchanging two nodes and
    fixing the rest is an automorphism. */
module Swaps {
  import opened FiniteSets
  import opened Graphs
  import opened Arcs

  // ----- the sorted kinds of the parallel edges between two nodes

  function Between(a: nat, b: nat): (f: Edge -> Choice) {
    (e: Edge) => if e.src == a && e.dst == b then Keep(Arc(e.kind, 0, 0)) else Skip
  }

  function Kinds(g: Graph, a: nat, b: nat): (r: seq<Arc>) {
    Sort(Collect(g.edges, Between(a, b)))
  }

  lemma {:induction false} BetweenCount(es: seq<Edge>, a: nat, b: nat, x: Arc)
    ensures multiset(Collect(es, Between(a, b)))[x]
         == if x.a == 0 && x.b == 0 then multiset(es)[Edge(a, b, x.kind)] else 0
  {
    if es != [] {
      assert es == [es[0]] + es[1..];
      BetweenCount(es[1..], a, b, x);
    }
  }

  lemma KindsExact(g: Graph, a: nat, b: nat, h: Graph, c: nat, d: nat)
    ensures Kinds(g, a, b) == Kinds(h, c, d) <==> SameParallelEdges(g, a, b, h, c, d)
  {
    var s, t := Collect(g.edges, Between(a, b)), Collect(h.edges, Between(c, d));
    SortCanonical(s, t);
    if multiset(s) == multiset(t) {
      forall k ensures Multiplicity(g, a, b, k) == Multiplicity(h, c, d, k) {
        BetweenCount(g.edges, a, b, Arc(k, 0, 0));
        BetweenCount(h.edges, c, d, Arc(k, 0, 0));
      }
    }
    if SameParallelEdges(g, a, b, h, c, d) {
      forall x: Arc ensures multiset(s)[x] == multiset(t)[x] {
        BetweenCount(g.edges, a, b, x);
        BetweenCount(h.edges, c, d, x);
        assert Multiplicity(g, a, b, x.kind) == Multiplicity(h, c, d, x.kind);
      }
    }
  }

  // ----- the certificate

  predicate SameOutside(g: Graph, a: nat, b: nat, o: nat) {
    Kinds(g, a, o) == Kinds(g, b, o) && Kinds(g, o, a) == Kinds(g, o, b)
  }

  predicate SwapCertified(g: Graph, a: nat, b: nat)
    requires a in g.labels && b in g.labels
  {
    && g.labels[a] == g.labels[b]
    && Kinds(g, a, a) == Kinds(g, b, b)
    && Kinds(g, a, b) == Kinds(g, b, a)
    && forall o {:trigger SameOutside(g, a, b, o)} ::
         o in g.labels && o != a && o != b ==> SameOutside(g, a, b, o)
  }

  function Swapped(a: nat, b: nat, v: nat): (r: nat) {
    if v == a then b else if v == b then a else v
  }

  /** The transposition of `a` and `b`. */
  function Swap(s: set<nat>, a: nat, b: nat): (f: map<nat, nat>) {
    map v | v in s :: Swapped(a, b, v)
  }

  lemma SwapBijective(s: set<nat>, a: nat, b: nat)
    requires a in s && b in s
    ensures Bijection(Swap(s, a, b), s, s)
  {
    var f := Swap(s, a, b);
    forall v | v in s ensures Hit(f, v) {
      assert f[Swapped(a, b, v)] == v;
    }
    forall x, y | x in f && y in f && f[x] == f[y] ensures x == y {
      assert x == Swapped(a, b, f[x]) && y == Swapped(a, b, f[y]);
    }
  }

  lemma CertifiedPairs(g: Graph, a: nat, b: nat, s: nat, d: nat)
    requires a in g.labels && b in g.labels && s in g.labels && d in g.labels
    requires SwapCertified(g, a, b)
    ensures Kinds(g, s, d) == Kinds(g, Swapped(a, b, s), Swapped(a, b, d))
  {
    if s != a && s != b {
      if d == a || d == b { assert SameOutside(g, a, b, s); }
    } else if d != a && d != b {
      assert SameOutside(g, a, b, d);
    }
  }

  lemma CertifiedParallel(g: Graph, a: nat, b: nat, s: nat, d: nat)
    requires a in g.labels && b in g.labels && s in g.labels && d in g.labels
    requires SwapCertified(g, a, b)
    ensures SameParallelEdges(g, s, d, g, Swapped(a, b, s), Swapped(a, b, d))
  {
    CertifiedPairs(g, a, b, s, d);
    KindsExact(g, s, d, g, Swapped(a, b, s), Swapped(a, b, d));
  }

  lemma CertifiedIsAutomorphism(g: Graph, a: nat, b: nat)
    requires a in g.labels && b in g.labels && SwapCertified(g, a, b)
    ensures Isomorphism(g, g, Swap(g.labels.Keys, a, b))
  {
    var f := Swap(g.labels.Keys, a, b);
    SwapBijective(g.labels.Keys, a, b);
    forall s, d | s in f && d in f ensures SameParallelEdges(g, s, d, g, f[s], f[d]) {
      CertifiedParallel(g, a, b, s, d);
    }
  }

  lemma AutomorphismOutside(g: Graph, a: nat, b: nat, o: nat)
    requires a in g.labels && b in g.labels && Isomorphism(g, g, Swap(g.labels.Keys, a, b))
    requires o in g.labels && o != a && o != b
    ensures SameOutside(g, a, b, o)
  {
    var f := Swap(g.labels.Keys, a, b);
    KindsCarried(g, g, f, a, o);
    KindsCarried(g, g, f, o, a);
  }

  lemma AutomorphismIsCertified(g: Graph, a: nat, b: nat)
    requires a in g.labels && b in g.labels && Isomorphism(g, g, Swap(g.labels.Keys, a, b))
    ensures SwapCertified(g, a, b)
  {
    var f := Swap(g.labels.Keys, a, b);
    KindsCarried(g, g, f, a, a);
    KindsCarried(g, g, f, a, b);
    assert SameLabel(g, a, g, f[a]);
    forall o | o in g.labels && o != a && o != b ensures SameOutside(g, a, b, o) {
      AutomorphismOutside(g, a, b, o);
    }
  }

  /** The certificate is exact. */
  lemma SwapExact(g: Graph, a: nat, b: nat)
    requires a in g.labels && b in g.labels
    ensures SwapCertified(g, a, b) <==> Isomorphism(g, g, Swap(g.labels.Keys, a, b))
  {
    if SwapCertified(g, a, b) { CertifiedIsAutomorphism(g, a, b); }
    if Isomorphism(g, g, Swap(g.labels.Keys, a, b)) { AutomorphismIsCertified(g, a, b); }
  }

  // ----- an equivalence that isomorphisms respect

  lemma SwapReflexive(g: Graph, a: nat)
    requires a in g.labels
    ensures SwapCertified(g, a, a)
  {
  }

  lemma SwapSymmetric(g: Graph, a: nat, b: nat)
    requires a in g.labels && b in g.labels && SwapCertified(g, a, b)
    ensures SwapCertified(g, b, a)
  {
    forall o | o in g.labels && o != a && o != b ensures SameOutside(g, b, a, o) {
      assert SameOutside(g, a, b, o);
    }
  }

  lemma ConjugateSwap(s: set<nat>, a: nat, b: nat, c: nat)
    requires a in s && b in s && c in s && a != b && b != c && a != c
    ensures Compose(Compose(Swap(s, a, b), Swap(s, b, c)), Swap(s, a, b)) == Swap(s, a, c)
  {
  }

  /** (a c) = (a b)(b c)(a b). */
  lemma AutomorphismTransitive(g: Graph, a: nat, b: nat, c: nat)
    requires a in g.labels && b in g.labels && c in g.labels && a != b && b != c && a != c
    requires Isomorphism(g, g, Swap(g.labels.Keys, a, b)) && Isomorphism(g, g, Swap(g.labels.Keys, b, c))
    ensures Isomorphism(g, g, Swap(g.labels.Keys, a, c))
  {
    var ab, bc := Swap(g.labels.Keys, a, b), Swap(g.labels.Keys, b, c);
    IsomorphismCompose(g, g, g, ab, bc);
    IsomorphismCompose(g, g, g, Compose(ab, bc), ab);
    ConjugateSwap(g.labels.Keys, a, b, c);
  }

  lemma SwapTransitive(g: Graph, a: nat, b: nat, c: nat)
    requires a in g.labels && b in g.labels && c in g.labels
    requires SwapCertified(g, a, b) && SwapCertified(g, b, c)
    ensures SwapCertified(g, a, c)
  {
    if a == c {
      SwapReflexive(g, a);
    } else if a != b && b != c {
      CertifiedIsAutomorphism(g, a, b);
      CertifiedIsAutomorphism(g, b, c);
      AutomorphismTransitive(g, a, b, c);
      AutomorphismIsCertified(g, a, c);
    }
  }

  lemma KindsCarried(g: Graph, h: Graph, f: map<nat, nat>, s: nat, d: nat)
    requires Isomorphism(g, h, f) && s in f && d in f
    ensures Kinds(g, s, d) == Kinds(h, f[s], f[d])
  {
    assert SameParallelEdges(g, s, d, h, f[s], f[d]);
    KindsExact(g, s, d, h, f[s], f[d]);
  }

  lemma OutsideCarried(g: Graph, h: Graph, f: map<nat, nat>, a: nat, b: nat, o: nat)
    requires Isomorphism(g, h, f) && a in f && b in f && o in f && SameOutside(g, a, b, o)
    ensures SameOutside(h, f[a], f[b], f[o])
  {
    KindsCarried(g, h, f, a, o);
    KindsCarried(g, h, f, b, o);
    KindsCarried(g, h, f, o, a);
    KindsCarried(g, h, f, o, b);
  }

  /** An isomorphism takes interchangeable nodes to interchangeable nodes. */
  lemma SwapCarried(g: Graph, h: Graph, f: map<nat, nat>, a: nat, b: nat)
    requires Isomorphism(g, h, f) && a in f && b in f && SwapCertified(g, a, b)
    ensures f[a] in h.labels && f[b] in h.labels && SwapCertified(h, f[a], f[b])
  {
    assert SameLabel(g, a, h, f[a]) && SameLabel(g, b, h, f[b]);
    KindsCarried(g, h, f, a, a);
    KindsCarried(g, h, f, b, b);
    KindsCarried(g, h, f, a, b);
    KindsCarried(g, h, f, b, a);
    forall y | y in h.labels && y != f[a] && y != f[b] ensures SameOutside(h, f[a], f[b], y) {
      var o := PreimageOf(f, g.labels.Keys, h.labels.Keys, y);
      assert SameOutside(g, a, b, o);
      OutsideCarried(g, h, f, a, b, o);
    }
  }
}
