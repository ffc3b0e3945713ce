/** `_intern` and `_GraphIndex.refine`: direction-aware colour refinement on
    exact framed signatures. */
module Refinement {
  import opened ByteStrings
  import opened FiniteSets
  import opened Graphs
  import opened Arcs

  type Colours = map<nat, nat>
  type Markers = map<nat, nat>

  // ----- bytewise ranks of signatures

  function Rank(s: Bytes, all: set<Bytes>): (r: nat) {
    |set t | t in all && Less(t, s)|
  }

  function Intern(sigs: map<nat, Bytes>): (c: Colours)
    ensures c.Keys == sigs.Keys
  {
    map v | v in sigs :: Rank(sigs[v], sigs.Values)
  }

  lemma RankMonotone(s: Bytes, t: Bytes, all: set<Bytes>)
    requires s in all && Less(s, t)
    ensures Rank(s, all) < Rank(t, all)
  {
    var a, b := set u | u in all && Less(u, s), set u | u in all && Less(u, t);
    forall u | u in a ensures u in b { LessTransitive(u, s, t); }
    LessIrreflexive(s);
    assert s in b && s !in a;
    SubsetSize(a, b);
  }

  lemma RankInjective(s: Bytes, t: Bytes, all: set<Bytes>)
    requires s in all && t in all
    ensures Rank(s, all) == Rank(t, all) ==> s == t
    ensures Rank(s, all) < Rank(t, all) ==> Less(s, t)
    ensures Rank(s, all) < |all|
  {
    LessTotal(s, t);
    if Less(s, t) { RankMonotone(s, t, all); }
    if Less(t, s) { RankMonotone(t, s, all); }
    var a := set u | u in all && Less(u, s);
    LessIrreflexive(s);
    SubsetSize(a, all);
  }

  /** Colours are exactly 0, 1, ..., k - 1. */
  ghost predicate Dense(c: Colours) {
    c.Values == Below(|c.Values|)
  }

  /** Interning keeps the order and the equality of signatures, and numbers the
      distinct ones from 0 without gaps. */
  lemma InternFaithful(sigs: map<nat, Bytes>)
    ensures forall v, w :: v in sigs && w in sigs ==>
              (Intern(sigs)[v] == Intern(sigs)[w] <==> sigs[v] == sigs[w])
    ensures forall v, w :: v in sigs && w in sigs ==>
              (Intern(sigs)[v] < Intern(sigs)[w] <==> Less(sigs[v], sigs[w]))
    ensures Dense(Intern(sigs)) && |Intern(sigs).Values| == |sigs.Values|
  {
    var c := Intern(sigs);
    forall v, w | v in sigs && w in sigs
      ensures c[v] == c[w] <==> sigs[v] == sigs[w]
      ensures c[v] < c[w] <==> Less(sigs[v], sigs[w])
    {
      RankInjective(sigs[v], sigs[w], sigs.Values);
      if Less(sigs[v], sigs[w]) { RankMonotone(sigs[v], sigs[w], sigs.Values); }
    }
    InternDense(sigs);
  }

  lemma InternDense(sigs: map<nat, Bytes>)
    ensures Dense(Intern(sigs)) && |Intern(sigs).Values| == |sigs.Values|
  {
    var c, all := Intern(sigs), sigs.Values;
    var rank := map s | s in all :: Rank(s, all);
    forall s | s in all ensures rank[s] in c.Values {
      var v :| v in sigs && sigs[v] == s;
      assert c[v] == rank[s];
    }
    forall s, t | s in all && t in all && rank[s] == rank[t] ensures s == t {
      RankInjective(s, t, all);
    }
    MatchSize(all, c.Values, rank);
    forall k | k in c.Values ensures k in Below(|all|) {
      var v :| v in c && c[v] == k;
      RankInjective(sigs[v], sigs[v], all);
    }
    SubsetSize(c.Values, Below(|all|));
  }

  // ----- signatures

  function Incoming(v: nat, c: Colours): (f: Edge -> Choice) {
    (e: Edge) => if e.dst == v && e.src in c then Keep(Arc(e.kind, c[e.src], 0)) else Skip
  }

  function Outgoing(v: nat, c: Colours): (f: Edge -> Choice) {
    (e: Edge) => if e.src == v && e.dst in c then Keep(Arc(e.kind, c[e.dst], 0)) else Skip
  }

  function NeighbourBlock(s: seq<Arc>): (r: Bytes) {
    if s == [] then [] else (Text(s[0].kind) + U64(s[0].a)) + NeighbourBlock(s[1..])
  }

  function Adjacency(s: seq<Arc>): (r: Bytes) {
    U64(|s|) + NeighbourBlock(s)
  }

  function SignatureBytes(colour: nat, ins: seq<Arc>, outs: seq<Arc>): (r: Bytes) {
    U64(colour) + (Adjacency(ins) + Adjacency(outs))
  }

  function Signature(g: Graph, c: Colours, v: nat): (r: Bytes)
    requires v in c
  {
    SignatureBytes(c[v], Sort(Collect(g.edges, Incoming(v, c))), Sort(Collect(g.edges, Outgoing(v, c))))
  }

  predicate FitsNeighbour(x: Arc) {
    |x.kind| < TWO_64 && x.a < TWO_64 && x.b == 0
  }

  lemma {:induction false} NeighbourBlockCancel(s: seq<Arc>, t: seq<Arc>, x: Bytes, y: Bytes)
    requires |s| == |t|
    requires forall a :: a in s ==> FitsNeighbour(a)
    requires forall a :: a in t ==> FitsNeighbour(a)
    requires NeighbourBlock(s) + x == NeighbourBlock(t) + y
    ensures s == t && x == y
  {
    if s == [] {
      assert NeighbourBlock(s) + x == x && NeighbourBlock(t) + y == y;
    } else {
      assert s[0] in s && t[0] in t;
      var u, v := NeighbourBlock(s[1..]) + x, NeighbourBlock(t[1..]) + y;
      Associative(Text(s[0].kind) + U64(s[0].a), NeighbourBlock(s[1..]), x);
      Associative(Text(t[0].kind) + U64(t[0].a), NeighbourBlock(t[1..]), y);
      Associative(Text(s[0].kind), U64(s[0].a), u);
      Associative(Text(t[0].kind), U64(t[0].a), v);
      TextCancel(s[0].kind, t[0].kind, U64(s[0].a) + u, U64(t[0].a) + v);
      U64Cancel(s[0].a, t[0].a, u, v);
      NeighbourBlockCancel(s[1..], t[1..], x, y);
      assert s == [s[0]] + s[1..] && t == [t[0]] + t[1..];
    }
  }

  lemma AdjacencyCancel(s: seq<Arc>, t: seq<Arc>, x: Bytes, y: Bytes)
    requires |s| < TWO_64 && |t| < TWO_64
    requires forall a :: a in s ==> FitsNeighbour(a)
    requires forall a :: a in t ==> FitsNeighbour(a)
    requires Adjacency(s) + x == Adjacency(t) + y
    ensures s == t && x == y
  {
    Associative(U64(|s|), NeighbourBlock(s), x);
    Associative(U64(|t|), NeighbourBlock(t), y);
    U64Cancel(|s|, |t|, NeighbourBlock(s) + x, NeighbourBlock(t) + y);
    NeighbourBlockCancel(s, t, x, y);
  }

  /** A colouring whose colours fit their 64-bit frames. */
  ghost predicate ColouringOf(g: Graph, c: Colours) {
    c.Keys == g.labels.Keys && forall v :: v in c ==> c[v] < TWO_64
  }

  lemma IncomingFit(g: Graph, c: Colours, v: nat)
    requires WellFormed(g) && ColouringOf(g, c)
    ensures |Sort(Collect(g.edges, Incoming(v, c)))| < TWO_64
    ensures forall a :: a in Sort(Collect(g.edges, Incoming(v, c))) ==> FitsNeighbour(a)
  {
    var f := Incoming(v, c);
    CollectLength(g.edges, f);
    forall a | a in Sort(Collect(g.edges, f)) ensures FitsNeighbour(a) {
      SortCollectMember(g.edges, f, a);
    }
  }

  lemma OutgoingFit(g: Graph, c: Colours, v: nat)
    requires WellFormed(g) && ColouringOf(g, c)
    ensures |Sort(Collect(g.edges, Outgoing(v, c)))| < TWO_64
    ensures forall a :: a in Sort(Collect(g.edges, Outgoing(v, c))) ==> FitsNeighbour(a)
  {
    var f := Outgoing(v, c);
    CollectLength(g.edges, f);
    forall a | a in Sort(Collect(g.edges, f)) ensures FitsNeighbour(a) {
      SortCollectMember(g.edges, f, a);
    }
  }

  /** Two nodes see the same (kind, neighbour colour) multisets in and out. */
  ghost predicate SeeAlike(g: Graph, c: Colours, v: nat, w: nat) {
    && multiset(Collect(g.edges, Incoming(v, c))) == multiset(Collect(g.edges, Incoming(w, c)))
    && multiset(Collect(g.edges, Outgoing(v, c))) == multiset(Collect(g.edges, Outgoing(w, c)))
  }

  lemma SignatureBytesCancel(k: nat, l: nat, iv: seq<Arc>, iw: seq<Arc>, ov: seq<Arc>, ow: seq<Arc>)
    requires k < TWO_64 && l < TWO_64
    requires |iv| < TWO_64 && |iw| < TWO_64 && |ov| < TWO_64 && |ow| < TWO_64
    requires forall a :: a in iv ==> FitsNeighbour(a)
    requires forall a :: a in iw ==> FitsNeighbour(a)
    requires forall a :: a in ov ==> FitsNeighbour(a)
    requires forall a :: a in ow ==> FitsNeighbour(a)
    requires SignatureBytes(k, iv, ov) == SignatureBytes(l, iw, ow)
    ensures k == l && iv == iw && ov == ow
  {
    U64Cancel(k, l, Adjacency(iv) + Adjacency(ov), Adjacency(iw) + Adjacency(ow));
    AdjacencyCancel(iv, iw, Adjacency(ov), Adjacency(ow));
    assert Adjacency(ov) + [] == Adjacency(ov) && Adjacency(ow) + [] == Adjacency(ow);
    AdjacencyCancel(ov, ow, [], []);
  }

  /** Signatures are exact: they agree iff colour and neighbourhood agree. */
  lemma SignatureExact(g: Graph, c: Colours, v: nat, w: nat)
    requires WellFormed(g) && ColouringOf(g, c) && v in c && w in c
    ensures Signature(g, c, v) == Signature(g, c, w) <==> c[v] == c[w] && SeeAlike(g, c, v, w)
  {
    var iv, iw := Sort(Collect(g.edges, Incoming(v, c))), Sort(Collect(g.edges, Incoming(w, c)));
    var ov, ow := Sort(Collect(g.edges, Outgoing(v, c))), Sort(Collect(g.edges, Outgoing(w, c)));
    SortCanonical(Collect(g.edges, Incoming(v, c)), Collect(g.edges, Incoming(w, c)));
    SortCanonical(Collect(g.edges, Outgoing(v, c)), Collect(g.edges, Outgoing(w, c)));
    if SignatureBytes(c[v], iv, ov) == SignatureBytes(c[w], iw, ow) {
      IncomingFit(g, c, v);
      IncomingFit(g, c, w);
      OutgoingFit(g, c, v);
      OutgoingFit(g, c, w);
      SignatureBytesCancel(c[v], c[w], iv, iw, ov, ow);
    }
  }

  lemma SignatureOrder(g: Graph, c: Colours, v: nat, w: nat)
    requires v in c && w in c && c[v] < c[w] < TWO_64
    ensures Less(Signature(g, c, v), Signature(g, c, w))
  {
    var iv, iw := Sort(Collect(g.edges, Incoming(v, c))), Sort(Collect(g.edges, Incoming(w, c)));
    var ov, ow := Sort(Collect(g.edges, Outgoing(v, c))), Sort(Collect(g.edges, Outgoing(w, c)));
    U64Monotone(c[v], c[w], Adjacency(iv) + Adjacency(ov), Adjacency(iw) + Adjacency(ow));
  }

  // ----- rounds

  function Signatures(g: Graph, c: Colours): (r: map<nat, Bytes>) {
    map v | v in c :: Signature(g, c, v)
  }

  function Round(g: Graph, c: Colours): (r: Colours)
    ensures r.Keys == c.Keys
  {
    Intern(Signatures(g, c))
  }

  ghost predicate Finer(d: Colours, c: Colours) {
    d.Keys == c.Keys
    && forall v, w {:trigger d[v], d[w]} :: v in d && w in d && d[v] == d[w] ==> c[v] == c[w]
  }

  ghost predicate KeepsOrder(c: Colours, d: Colours) {
    d.Keys == c.Keys
    && forall v, w {:trigger d[v], d[w]} {:trigger c[v], c[w]} :: v in c && w in c && c[v] < c[w] ==> d[v] < d[w]
  }

  lemma RoundSplits(g: Graph, c: Colours, v: nat, w: nat)
    requires WellFormed(g) && ColouringOf(g, c) && v in c && w in c
    ensures Round(g, c)[v] == Round(g, c)[w] <==> c[v] == c[w] && SeeAlike(g, c, v, w)
    ensures c[v] < c[w] ==> Round(g, c)[v] < Round(g, c)[w]
  {
    var sigs := Signatures(g, c);
    InternFaithful(sigs);
    SignatureExact(g, c, v, w);
    if c[v] < c[w] { SignatureOrder(g, c, v, w); }
    assert sigs[v] == Signature(g, c, v) && sigs[w] == Signature(g, c, w);
  }

  lemma RoundRefines(g: Graph, c: Colours)
    requires WellFormed(g) && ColouringOf(g, c)
    ensures Dense(Round(g, c)) && Finer(Round(g, c), c) && KeepsOrder(c, Round(g, c))
  {
    InternDense(Signatures(g, c));
    var next := Round(g, c);
    forall v, w | v in c && w in c
      ensures next[v] == next[w] ==> c[v] == c[w]
      ensures c[v] < c[w] ==> next[v] < next[w]
    {
      RoundSplits(g, c, v, w);
    }
  }

  lemma DenseFits(g: Graph, c: Colours)
    requires WellFormed(g) && c.Keys == g.labels.Keys && Dense(c)
    ensures ColouringOf(g, c) && |c.Values| <= |g.labels|
  {
    var pick := map k | k in c.Values :: var v :| v in c && c[v] == k; v;
    MatchSize(c.Values, c.Keys, pick);
    assert |c.Keys| == |g.labels.Keys| == |g.labels|;
    forall v | v in c ensures c[v] < TWO_64 {
      assert c[v] in c.Values;
    }
  }

  lemma FinerCount(d: Colours, c: Colours)
    requires Finer(d, c)
    ensures |c.Values| <= |d.Values|
  {
    var pick := map k | k in c.Values :: var v :| v in c && c[v] == k; d[v];
    forall k | k in c.Values ensures pick[k] in d.Values {
      var v :| v in c && c[v] == k && d[v] == pick[k];
    }
    forall k, l | k in c.Values && l in c.Values && pick[k] == pick[l] ensures k == l {
      var v :| v in c && c[v] == k && d[v] == pick[k];
      var w :| w in c && c[w] == l && d[w] == pick[l];
    }
    MatchSize(c.Values, d.Values, pick);
  }

  lemma RoundCount(g: Graph, c: Colours)
    requires WellFormed(g) && c.Keys == g.labels.Keys && Dense(c)
    ensures Dense(Round(g, c))
    ensures |c.Values| <= |Round(g, c).Values| <= |g.labels|
  {
    DenseFits(g, c);
    RoundRefines(g, c);
    FinerCount(Round(g, c), c);
    DenseFits(g, Round(g, c));
  }

  /** The loop of `refine`: rounds until the number of colours stops growing. */
  function Refine(g: Graph, c: Colours): (r: Colours)
    requires WellFormed(g) && c.Keys == g.labels.Keys && Dense(c)
    decreases |g.labels| - |c.Values|
  {
    var next := Round(g, c);
    RoundCount(g, c);
    if |next.Values| == |c.Values| then next else Refine(g, next)
  }

  // ----- what refinement returns

  lemma {:induction false} OrderBelow(c: Colours, d: Colours, v: nat)
    requires Dense(c) && KeepsOrder(c, d) && v in c
    ensures c[v] <= d[v]
    decreases c[v]
  {
    if c[v] > 0 {
      assert c[v] in c.Values;
      assert c[v] - 1 in c.Values;
      var w :| w in c && c[w] == c[v] - 1;
      OrderBelow(c, d, w);
    }
  }

  lemma {:induction false} OrderAbove(c: Colours, d: Colours, v: nat)
    requires Dense(c) && Dense(d) && KeepsOrder(c, d) && |c.Values| == |d.Values| && v in c
    ensures d[v] <= c[v] < |c.Values|
    decreases |c.Values| - c[v]
  {
    assert c[v] in c.Values && d[v] in d.Values;
    if c[v] + 1 < |c.Values| {
      assert c[v] + 1 in c.Values;
      var w :| w in c && c[w] == c[v] + 1;
      OrderAbove(c, d, w);
    }
  }

  lemma SameColours(c: Colours, d: Colours)
    requires Dense(c) && Dense(d) && KeepsOrder(c, d) && |c.Values| == |d.Values|
    ensures d == c
  {
    forall v | v in c ensures d[v] == c[v] {
      OrderBelow(c, d, v);
      OrderAbove(c, d, v);
    }
  }

  /** A round that adds no colour changes nothing at all. */
  lemma RoundFixed(g: Graph, c: Colours)
    requires WellFormed(g) && c.Keys == g.labels.Keys && Dense(c)
    requires |Round(g, c).Values| == |c.Values|
    ensures Round(g, c) == c
  {
    DenseFits(g, c);
    RoundRefines(g, c);
    SameColours(c, Round(g, c));
  }

  ghost predicate Stable(g: Graph, c: Colours) {
    forall v, w {:trigger SeeAlike(g, c, v, w)} ::
      v in c && w in c && c[v] == c[w] ==> SeeAlike(g, c, v, w)
  }

  lemma FixedStable(g: Graph, c: Colours)
    requires WellFormed(g) && ColouringOf(g, c) && Round(g, c) == c
    ensures Stable(g, c)
  {
    forall v, w | v in c && w in c && c[v] == c[w] ensures SeeAlike(g, c, v, w) {
      RoundSplits(g, c, v, w);
    }
  }

  lemma FinerTransitive(r: Colours, d: Colours, c: Colours)
    requires Finer(r, d) && Finer(d, c) && KeepsOrder(c, d) && KeepsOrder(d, r)
    ensures Finer(r, c) && KeepsOrder(c, r)
  {
  }

  /** The result is stable, numbered without gaps, refines the start and keeps its order. */
  lemma {:induction false} RefineStable(g: Graph, c: Colours)
    requires WellFormed(g) && c.Keys == g.labels.Keys && Dense(c)
    ensures Dense(Refine(g, c)) && Finer(Refine(g, c), c) && KeepsOrder(c, Refine(g, c))
    ensures Stable(g, Refine(g, c)) && Round(g, Refine(g, c)) == Refine(g, c)
    decreases |g.labels| - |c.Values|
  {
    var next := Round(g, c);
    RoundCount(g, c);
    if |next.Values| == |c.Values| {
      RoundFixed(g, c);
      DenseFits(g, c);
      FixedStable(g, c);
    } else {
      RefineStable(g, next);
      DenseFits(g, c);
      RoundRefines(g, c);
      FinerTransitive(Refine(g, next), next, c);
    }
  }

  lemma RefineShape(g: Graph, c: Colours)
    requires WellFormed(g) && c.Keys == g.labels.Keys && Dense(c)
    ensures Refine(g, c).Keys == g.labels.Keys && Dense(Refine(g, c))
  {
    hide Refine;
    RefineStable(g, c);
  }

  // ----- coarsest

  function Recolour(s: seq<Arc>, p: map<nat, nat>): (r: seq<Arc>)
    requires forall x :: x in s ==> x.a in p
  {
    if s == [] then [] else
    assert s[0] in s;
    [s[0].(a := p[s[0].a])] + Recolour(s[1..], p)
  }

  lemma {:induction false} RecolourPermuted(s: seq<Arc>, t: seq<Arc>, p: map<nat, nat>)
    requires multiset(s) == multiset(t)
    requires forall x :: x in s ==> x.a in p
    requires forall x :: x in t ==> x.a in p
    ensures multiset(Recolour(s, p)) == multiset(Recolour(t, p))
    decreases |s|
  {
    hide Recolour;
    assert |s| == |multiset(s)| == |multiset(t)| == |t|;
    if s == [] {
      assert t == [];
    } else {
      assert s[0] in multiset(t);
      var j :| 0 <= j < |t| && t[j] == s[0];
      RemoveAt(t, j);
      RemoveAt(s, 0);
      RecolourSplit(t, j, p);
      RecolourSplit(s, 0, p);
      RecolourPermuted(s[..0] + s[1..], t[..j] + t[j + 1..], p);
    }
  }

  lemma RecolourSplit(t: seq<Arc>, j: nat, p: map<nat, nat>)
    requires j < |t| && forall x :: x in t ==> x.a in p
    ensures |t[..j] + t[j + 1..]| == |t| - 1 && forall x :: x in t[..j] + t[j + 1..] ==> x.a in p
    ensures multiset(Recolour(t, p))
         == multiset(Recolour(t[..j] + t[j + 1..], p)) + multiset{t[j].(a := p[t[j].a])}
  {
    RemoveAt(t, j);
    RecolourAppend(t[..j], t[j + 1..], p);
    RecolourAppend(t[..j], [t[j]], p);
    RecolourAppend(t[..j] + [t[j]], t[j + 1..], p);
  }

  lemma {:induction false} RecolourAppend(s: seq<Arc>, t: seq<Arc>, p: map<nat, nat>)
    requires forall x :: x in s ==> x.a in p
    requires forall x :: x in t ==> x.a in p
    ensures Recolour(s + t, p) == Recolour(s, p) + Recolour(t, p)
  {
    if s == [] {
      assert s + t == t;
    } else {
      assert (s + t)[1..] == s[1..] + t;
      RecolourAppend(s[1..], t, p);
    }
  }

  lemma {:induction false} IncomingRecoloured(es: seq<Edge>, v: nat, d: Colours, c: Colours, p: map<nat, nat>)
    requires d.Keys == c.Keys && forall w :: w in d ==> d[w] in p && p[d[w]] == c[w]
    ensures forall x :: x in Collect(es, Incoming(v, d)) ==> x.a in p
    ensures Collect(es, Incoming(v, c)) == Recolour(Collect(es, Incoming(v, d)), p)
  {
    if es != [] {
      IncomingRecoloured(es[1..], v, d, c, p);
      var rest := Collect(es[1..], Incoming(v, d));
      if Incoming(v, d)(es[0]).Keep? {
        assert ([Incoming(v, d)(es[0]).arc] + rest)[1..] == rest;
      } else {
        assert [] + rest == rest;
      }
    }
  }

  lemma {:induction false} OutgoingRecoloured(es: seq<Edge>, v: nat, d: Colours, c: Colours, p: map<nat, nat>)
    requires d.Keys == c.Keys && forall w :: w in d ==> d[w] in p && p[d[w]] == c[w]
    ensures forall x :: x in Collect(es, Outgoing(v, d)) ==> x.a in p
    ensures Collect(es, Outgoing(v, c)) == Recolour(Collect(es, Outgoing(v, d)), p)
  {
    if es != [] {
      OutgoingRecoloured(es[1..], v, d, c, p);
      var rest := Collect(es[1..], Outgoing(v, d));
      if Outgoing(v, d)(es[0]).Keep? {
        assert ([Outgoing(v, d)(es[0]).arc] + rest)[1..] == rest;
      } else {
        assert [] + rest == rest;
      }
    }
  }

  lemma FinerSeesMore(g: Graph, d: Colours, c: Colours, v: nat, w: nat)
    requires Finer(d, c) && SeeAlike(g, d, v, w)
    ensures SeeAlike(g, c, v, w)
  {
    var p := map k | k in d.Values :: var x :| x in d && d[x] == k; c[x];
    forall x | x in d ensures d[x] in p && p[d[x]] == c[x] {
      assert d[x] in d.Values;
      var y :| y in d && d[y] == d[x] && c[y] == p[d[x]];
    }
    IncomingRecoloured(g.edges, v, d, c, p);
    IncomingRecoloured(g.edges, w, d, c, p);
    OutgoingRecoloured(g.edges, v, d, c, p);
    OutgoingRecoloured(g.edges, w, d, c, p);
    RecolourPermuted(Collect(g.edges, Incoming(v, d)), Collect(g.edges, Incoming(w, d)), p);
    RecolourPermuted(Collect(g.edges, Outgoing(v, d)), Collect(g.edges, Outgoing(w, d)), p);
  }

  lemma RoundCoarsest(g: Graph, c: Colours, d: Colours)
    requires WellFormed(g) && ColouringOf(g, c) && Finer(d, c) && Stable(g, d)
    ensures Finer(d, Round(g, c))
  {
    forall v, w | v in d && w in d && d[v] == d[w] ensures Round(g, c)[v] == Round(g, c)[w] {
      FinerSeesMore(g, d, c, v, w);
      RoundSplits(g, c, v, w);
    }
  }

  /** No stable colouring below the start is coarser than the result. */
  lemma {:induction false} RefineCoarsest(g: Graph, c: Colours, d: Colours)
    requires WellFormed(g) && c.Keys == g.labels.Keys && Dense(c)
    requires Finer(d, c) && Stable(g, d)
    ensures Finer(d, Refine(g, c))
    decreases |g.labels| - |c.Values|
  {
    var next := Round(g, c);
    RoundCount(g, c);
    DenseFits(g, c);
    RoundCoarsest(g, c, d);
    if |next.Values| != |c.Values| { RefineCoarsest(g, next, d); }
  }
}
