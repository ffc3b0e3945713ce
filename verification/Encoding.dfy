/** `encode_graph`: framed labels in a given node order, then the sorted typed
    edges with node positions in place of ids. Positions decode uniquely. */
module Encoding {
  import opened ByteStrings
  import opened FiniteSets
  import opened Graphs
  import opened Arcs

  function Ascii(s: string): (r: Bytes) {
    seq(|s|, i requires 0 <= i < |s| => s[i] as int % 256)
  }

  const MAGIC := Ascii("SCANIPY-CANONICAL-GRAPH/2\n")

  // ----- framed labels and edges

  function LabelBytes(l: Label): (r: Bytes) {
    Text(l.kind) + (Text(l.text) + (Text(l.fqn) + Text(l.decl)))
  }

  lemma LabelCancel(l: Label, m: Label, x: Bytes, y: Bytes)
    requires FitsLabel(l) && FitsLabel(m)
    requires LabelBytes(l) + x == LabelBytes(m) + y
    ensures l == m && x == y
  {
    LabelSplit(l, x);
    LabelSplit(m, y);
    var l3, m3 := Text(l.decl) + x, Text(m.decl) + y;
    var l2, m2 := Text(l.fqn) + l3, Text(m.fqn) + m3;
    var l1, m1 := Text(l.text) + l2, Text(m.text) + m2;
    TextCancel(l.kind, m.kind, l1, m1);
    TextCancel(l.text, m.text, l2, m2);
    TextCancel(l.fqn, m.fqn, l3, m3);
    TextCancel(l.decl, m.decl, x, y);
  }

  lemma LabelSplit(l: Label, x: Bytes)
    ensures LabelBytes(l) + x == Text(l.kind) + (Text(l.text) + (Text(l.fqn) + (Text(l.decl) + x)))
  {
    Associative(Text(l.kind), Text(l.text) + (Text(l.fqn) + Text(l.decl)), x);
    Associative(Text(l.text), Text(l.fqn) + Text(l.decl), x);
    Associative(Text(l.fqn), Text(l.decl), x);
  }

  function LabelBlock(ls: seq<Label>): (r: Bytes) {
    if ls == [] then [] else LabelBytes(ls[0]) + LabelBlock(ls[1..])
  }

  lemma {:induction false} LabelBlockCancel(ls: seq<Label>, ms: seq<Label>, x: Bytes, y: Bytes)
    requires |ls| == |ms|
    requires forall l :: l in ls ==> FitsLabel(l)
    requires forall m :: m in ms ==> FitsLabel(m)
    requires LabelBlock(ls) + x == LabelBlock(ms) + y
    ensures ls == ms && x == y
  {
    if ls == [] {
      assert LabelBlock(ls) + x == x && LabelBlock(ms) + y == y;
    } else {
      assert ls[0] in ls && ms[0] in ms;
      var u, v := LabelBlock(ls[1..]) + x, LabelBlock(ms[1..]) + y;
      Associative(LabelBytes(ls[0]), LabelBlock(ls[1..]), x);
      Associative(LabelBytes(ms[0]), LabelBlock(ms[1..]), y);
      LabelCancel(ls[0], ms[0], u, v);
      LabelBlockCancel(ls[1..], ms[1..], x, y);
      assert ls == [ls[0]] + ls[1..] && ms == [ms[0]] + ms[1..];
    }
  }

  predicate FitsArc(x: Arc) {
    |x.kind| < TWO_64 && x.a < TWO_64 && x.b < TWO_64
  }

  function EdgeBytes(x: Arc): (r: Bytes) {
    Text(x.kind) + (U64(x.a) + U64(x.b))
  }

  lemma EdgeCancel(p: Arc, q: Arc, x: Bytes, y: Bytes)
    requires FitsArc(p) && FitsArc(q)
    requires EdgeBytes(p) + x == EdgeBytes(q) + y
    ensures p == q && x == y
  {
    var p2, q2 := U64(p.b) + x, U64(q.b) + y;
    var p1, q1 := U64(p.a) + p2, U64(q.a) + q2;
    Associative(Text(p.kind), U64(p.a) + U64(p.b), x);
    Associative(U64(p.a), U64(p.b), x);
    Associative(Text(q.kind), U64(q.a) + U64(q.b), y);
    Associative(U64(q.a), U64(q.b), y);
    TextCancel(p.kind, q.kind, p1, q1);
    U64Cancel(p.a, q.a, p2, q2);
    U64Cancel(p.b, q.b, x, y);
  }

  function EdgeBlock(s: seq<Arc>): (r: Bytes) {
    if s == [] then [] else EdgeBytes(s[0]) + EdgeBlock(s[1..])
  }

  lemma {:induction false} EdgeBlockCancel(s: seq<Arc>, t: seq<Arc>, x: Bytes, y: Bytes)
    requires |s| == |t|
    requires forall a :: a in s ==> FitsArc(a)
    requires forall a :: a in t ==> FitsArc(a)
    requires EdgeBlock(s) + x == EdgeBlock(t) + y
    ensures s == t && x == y
  {
    if s == [] {
      assert EdgeBlock(s) + x == x && EdgeBlock(t) + y == y;
    } else {
      assert s[0] in s && t[0] in t;
      var u, v := EdgeBlock(s[1..]) + x, EdgeBlock(t[1..]) + y;
      Associative(EdgeBytes(s[0]), EdgeBlock(s[1..]), x);
      Associative(EdgeBytes(t[0]), EdgeBlock(t[1..]), y);
      EdgeCancel(s[0], t[0], u, v);
      EdgeBlockCancel(s[1..], t[1..], x, y);
      assert s == [s[0]] + s[1..] && t == [t[0]] + t[1..];
    }
  }

  // ----- node orders

  ghost predicate CompleteOrder(g: Graph, order: seq<nat>) {
    Distinct(order) && forall v :: v in order <==> v in g.labels
  }

  function Position(order: seq<nat>, v: nat): (r: nat)
    requires v in order
    ensures r < |order| && order[r] == v
  {
    if order[0] == v then 0 else 1 + Position(order[1..], v)
  }

  function Ranks(order: seq<nat>): (r: map<nat, nat>) {
    map v | v in order :: Position(order, v)
  }

  lemma {:induction false} DistinctSize(order: seq<nat>)
    requires Distinct(order)
    ensures |Elements(order)| == |order|
  {
    if order != [] {
      assert Elements(order) == Elements(order[1..]) + {order[0]};
      DistinctSize(order[1..]);
    }
  }

  lemma OrderLength(g: Graph, order: seq<nat>)
    requires CompleteOrder(g, order)
    ensures |order| == |g.labels|
  {
    DistinctSize(order);
    assert Elements(order) == g.labels.Keys;
  }

  // ----- the encoding

  function ByRank(rank: map<nat, nat>): (f: Edge -> Choice) {
    (e: Edge) =>
      if e.src in rank && e.dst in rank then Keep(Arc(e.kind, rank[e.src], rank[e.dst])) else Skip
  }

  function LabelsInOrder(g: Graph, order: seq<nat>): (r: seq<Label>)
    requires CompleteOrder(g, order)
  {
    seq(|order|, i requires 0 <= i < |order| => g.labels[order[i]])
  }

  function EdgesInOrder(g: Graph, order: seq<nat>): (r: seq<Arc>) {
    Sort(Collect(g.edges, ByRank(Ranks(order))))
  }

  function Document(ls: seq<Label>, arcs: seq<Arc>): (r: Bytes) {
    MAGIC + (U64(|ls|) + (LabelBlock(ls) + (U64(|arcs|) + EdgeBlock(arcs))))
  }

  function Encode(g: Graph, order: seq<nat>): (r: Bytes)
    requires CompleteOrder(g, order)
  {
    Document(LabelsInOrder(g, order), EdgesInOrder(g, order))
  }

  function MoveOrder(f: map<nat, nat>, order: seq<nat>): (r: seq<nat>)
    requires forall v :: v in order ==> v in f
  {
    seq(|order|, i requires 0 <= i < |order| => f[order[i]])
  }

  lemma MoveOrderRanks(f: map<nat, nat>, order: seq<nat>, v: nat)
    requires Injective(f) && Distinct(order) && v in order
    requires forall w :: w in order ==> w in f
    ensures f[v] in MoveOrder(f, order)
    ensures Ranks(MoveOrder(f, order))[f[v]] == Ranks(order)[v]
  {
    var i := Position(order, v);
    var moved := MoveOrder(f, order);
    assert moved[i] == f[v];
    var j := Position(moved, f[v]);
    assert f[order[j]] == f[v];
    assert order[j] == order[i];
  }

  lemma MoveOrderComplete(g: Graph, h: Graph, f: map<nat, nat>, order: seq<nat>)
    requires Isomorphism(g, h, f) && CompleteOrder(g, order)
    ensures CompleteOrder(h, MoveOrder(f, order))
    ensures LabelsInOrder(h, MoveOrder(f, order)) == LabelsInOrder(g, order)
  {
    IsomorphismLands(g, h, f);
    var moved := MoveOrder(f, order);
    forall y | y in h.labels ensures y in moved {
      var x := PreimageOf(f, g.labels.Keys, h.labels.Keys, y);
      assert moved[Position(order, x)] == y;
    }
  }

  lemma EdgesInOrderIsomorphic(g: Graph, h: Graph, f: map<nat, nat>, order: seq<nat>)
    requires WellFormed(g) && WellFormed(h) && Isomorphism(g, h, f) && CompleteOrder(g, order)
    ensures EdgesInOrder(h, MoveOrder(f, order)) == EdgesInOrder(g, order)
  {
    var p, q := ByRank(Ranks(order)), ByRank(Ranks(MoveOrder(f, order)));
    forall e | e in g.edges ensures q(Move(f, e)) == p(e) {
      MoveOrderRanks(f, order, e.src);
      MoveOrderRanks(f, order, e.dst);
    }
    CollectIsomorphic(g, h, f, p, q);
    SortCanonical(Collect(g.edges, p), Collect(h.edges, q));
  }

  /** Encoding does not see node ids: carrying graph and order along an
      isomorphism leaves the bytes unchanged. */
  lemma EncodeIsomorphic(g: Graph, h: Graph, f: map<nat, nat>, order: seq<nat>)
    requires WellFormed(g) && WellFormed(h) && Isomorphism(g, h, f) && CompleteOrder(g, order)
    ensures CompleteOrder(h, MoveOrder(f, order))
    ensures Encode(g, order) == Encode(h, MoveOrder(f, order))
  {
    MoveOrderComplete(g, h, f, order);
    EdgesInOrderIsomorphic(g, h, f, order);
  }

  // ----- unique decoding

  lemma {:induction false} CollectEdgeCount(es: seq<Edge>, rank: map<nat, nat>, e: Edge)
    requires Covers(rank, es) && Injective(rank) && e.src in rank && e.dst in rank
    ensures multiset(Collect(es, ByRank(rank)))[Arc(e.kind, rank[e.src], rank[e.dst])] == multiset(es)[e]
  {
    if es != [] {
      assert es == [es[0]] + es[1..];
      assert es[0] in es;
      CollectEdgeCount(es[1..], rank, e);
    }
  }

  lemma RanksInjective(order: seq<nat>)
    ensures Injective(Ranks(order))
  {
    forall x, y | x in order && y in order && Position(order, x) == Position(order, y)
      ensures x == y
    {
    }
  }

  lemma EdgesInOrderCount(g: Graph, order: seq<nat>, s: nat, d: nat, k: Bytes)
    requires WellFormed(g) && CompleteOrder(g, order) && s in g.labels && d in g.labels
    ensures multiset(EdgesInOrder(g, order))[Arc(k, Position(order, s), Position(order, d))]
         == Multiplicity(g, s, d, k)
  {
    RanksInjective(order);
    CollectEdgeCount(g.edges, Ranks(order), Edge(s, d, k));
  }

  lemma EdgesInOrderFit(g: Graph, order: seq<nat>)
    requires WellFormed(g) && CompleteOrder(g, order)
    ensures |EdgesInOrder(g, order)| < TWO_64
    ensures forall x :: x in EdgesInOrder(g, order) ==> FitsArc(x)
  {
    var p := ByRank(Ranks(order));
    CollectLength(g.edges, p);
    OrderLength(g, order);
    forall x | x in EdgesInOrder(g, order) ensures FitsArc(x) {
      SortCollectMember(g.edges, p, x);
    }
  }

  lemma LabelsInOrderFit(g: Graph, order: seq<nat>)
    requires WellFormed(g) && CompleteOrder(g, order)
    ensures |LabelsInOrder(g, order)| == |order|
    ensures forall l :: l in LabelsInOrder(g, order) ==> FitsLabel(l)
  {
  }

  /** Position i of one order to position i of the other. */
  function PositionMap(order: seq<nat>, other: seq<nat>): (r: map<nat, nat>)
    requires |order| == |other|
  {
    map v | v in order :: other[Position(order, v)]
  }

  lemma PositionMapBijective(order: seq<nat>, other: seq<nat>)
    requires |order| == |other| && Distinct(order) && Distinct(other)
    ensures Bijection(PositionMap(order, other), Elements(order), Elements(other))
    ensures forall i :: 0 <= i < |order| ==> PositionMap(order, other)[order[i]] == other[i]
    ensures forall v :: v in order ==> Position(other, PositionMap(order, other)[v]) == Position(order, v)
  {
    var f := PositionMap(order, other);
    forall i | 0 <= i < |order| ensures f[order[i]] == other[i] {
      assert Position(order, order[i]) == i;
    }
    forall y | y in other ensures Hit(f, y) {
      assert f[order[Position(other, y)]] == y;
    }
  }

  lemma DocumentCancel(ls: seq<Label>, ms: seq<Label>, s: seq<Arc>, t: seq<Arc>)
    requires |ls| < TWO_64 && |ms| < TWO_64 && |s| < TWO_64 && |t| < TWO_64
    requires forall l :: l in ls ==> FitsLabel(l)
    requires forall m :: m in ms ==> FitsLabel(m)
    requires forall a :: a in s ==> FitsArc(a)
    requires forall a :: a in t ==> FitsArc(a)
    requires Document(ls, s) == Document(ms, t)
    ensures ls == ms && s == t
  {
    var s3, t3 := U64(|s|) + EdgeBlock(s), U64(|t|) + EdgeBlock(t);
    var s2, t2 := LabelBlock(ls) + s3, LabelBlock(ms) + t3;
    PrefixCancel(MAGIC, U64(|ls|) + s2, U64(|ms|) + t2);
    U64Cancel(|ls|, |ms|, s2, t2);
    LabelBlockCancel(ls, ms, s3, t3);
    U64Cancel(|s|, |t|, EdgeBlock(s), EdgeBlock(t));
    assert EdgeBlock(s) + [] == EdgeBlock(s) && EdgeBlock(t) + [] == EdgeBlock(t);
    EdgeBlockCancel(s, t, [], []);
  }

  lemma EncodeParts(g: Graph, order: seq<nat>, h: Graph, other: seq<nat>)
    requires WellFormed(g) && WellFormed(h) && CompleteOrder(g, order) && CompleteOrder(h, other)
    requires Encode(g, order) == Encode(h, other)
    ensures |order| == |other|
    ensures LabelsInOrder(g, order) == LabelsInOrder(h, other)
    ensures EdgesInOrder(g, order) == EdgesInOrder(h, other)
  {
    OrderLength(g, order);
    OrderLength(h, other);
    EdgesInOrderFit(g, order);
    EdgesInOrderFit(h, other);
    var ls, ms := LabelsInOrder(g, order), LabelsInOrder(h, other);
    LabelsInOrderFit(g, order);
    LabelsInOrderFit(h, other);
    DocumentCancel(ls, ms, EdgesInOrder(g, order), EdgesInOrder(h, other));
  }

  lemma SameLayoutLabels(g: Graph, order: seq<nat>, h: Graph, other: seq<nat>)
    requires CompleteOrder(g, order) && CompleteOrder(h, other) && |order| == |other|
    requires LabelsInOrder(g, order) == LabelsInOrder(h, other)
    ensures var f := PositionMap(order, other);
            && Bijection(f, g.labels.Keys, h.labels.Keys)
            && forall v :: v in f ==> SameLabel(g, v, h, f[v])
  {
    PositionMapBijective(order, other);
    assert Elements(order) == g.labels.Keys && Elements(other) == h.labels.Keys;
    var f := PositionMap(order, other);
    forall v | v in f ensures SameLabel(g, v, h, f[v]) {
      var i := Position(order, v);
      assert LabelsInOrder(g, order)[i] == LabelsInOrder(h, other)[i];
    }
  }

  lemma SameLayoutEdges(g: Graph, order: seq<nat>, h: Graph, other: seq<nat>)
    requires WellFormed(g) && WellFormed(h)
    requires CompleteOrder(g, order) && CompleteOrder(h, other) && |order| == |other|
    requires EdgesInOrder(g, order) == EdgesInOrder(h, other)
    ensures PreservesEdges(g, h, PositionMap(order, other))
  {
    PositionMapBijective(order, other);
    var f := PositionMap(order, other);
    forall s, d | s in f && d in f ensures SameParallelEdges(g, s, d, h, f[s], f[d]) {
      forall k ensures Multiplicity(g, s, d, k) == Multiplicity(h, f[s], f[d], k) {
        EdgesInOrderCount(g, order, s, d, k);
        EdgesInOrderCount(h, other, f[s], f[d], k);
      }
    }
  }

  /** Equal bytes make the position-to-position map an isomorphism. */
  lemma EncodeUniquelyDecodes(g: Graph, order: seq<nat>, h: Graph, other: seq<nat>)
    requires WellFormed(g) && WellFormed(h) && CompleteOrder(g, order) && CompleteOrder(h, other)
    requires Encode(g, order) == Encode(h, other)
    ensures |order| == |other|
    ensures Isomorphism(g, h, PositionMap(order, other))
  {
    EncodeParts(g, order, h, other);
    SameLayoutLabels(g, order, h, other);
    SameLayoutEdges(g, order, h, other);
  }

  /** Edges are written by kind, then by the position of the source, then of the target. */
  lemma EdgesAscend(g: Graph, order: seq<nat>, i: nat, j: nat)
    requires i < j < |EdgesInOrder(g, order)|
    ensures var x, y := EdgesInOrder(g, order)[i], EdgesInOrder(g, order)[j];
            !Less(y.kind, x.kind) && (x.kind == y.kind ==> x.a < y.a || (x.a == y.a && x.b <= y.b))
  {
    SortOrdered(Collect(g.edges, ByRank(Ranks(order))));
  }
}
