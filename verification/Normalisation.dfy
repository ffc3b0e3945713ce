/** The normalisation passes: locals numbered by the canonical order of the graph
    with their names removed, and package prefixes collapsed. The other three
    named passes return their argument. */
module Normalisation {
  import opened FiniteSets
  import opened ByteStrings
  import opened Graphs
  import opened Encoding
  import opened Cpgs
  import opened Rebuilds
  import opened SliceLaws

  const IDENTIFIER := Ascii("IDENTIFIER")

  predicate IsLocal(l: Label) {
    l.kind == IDENTIFIER
  }

  predicate HasLocals(c: Graph) {
    exists v :: v in c.labels && IsLocal(c.labels[v])
  }

  // ----- names removed

  function Blind(l: Label): (r: Label) {
    if IsLocal(l) then l.(text := []) else l
  }

  function BlindLabel(): (f: Label -> Label) {
    (l: Label) => Blind(l)
  }

  function BlindNode(): (f: Node -> Label) {
    (n: Node) => Blind(n.fields)
  }

  /** What two graphs share when they differ only in the text of IDENTIFIER nodes. */
  ghost function Nameless(c: Graph): (r: Graph) {
    MapLabels(c, BlindLabel())
  }

  lemma RelabelledByFields(g: Cpg, byNode: Node -> Label, byLabel: Label -> Label)
    requires UniqueIds(g.nodes) && forall n :: n in g.nodes ==> byNode(n) == byLabel(n.fields)
    ensures Relabelled(g, byNode) == MapLabels(Content(g), byLabel)
  {
    var a, b := Relabelled(g, byNode), MapLabels(Content(g), byLabel);
    forall v | v in Ids(g) ensures a.labels[v] == b.labels[v] {
      var n := Find(g, v);
      ContentLabel(g, n);
      NodeOfNode(g.nodes, n);
    }
  }

  // ----- locals numbered

  function Decimal(n: nat): (r: Bytes) {
    if n < 10 then [48 + n] else Decimal(n / 10) + [48 + n % 10]
  }

  function LocalName(n: nat): (r: Bytes) {
    Ascii("%local") + Decimal(n)
  }

  /** How many locals a list of nodes holds. */
  function CountLocals(c: Graph, order: seq<nat>): (n: nat)
    ensures n <= |order|
  {
    if order == [] then 0 else
    var v := order[|order| - 1];
    CountLocals(c, order[..|order| - 1]) + if v in c.labels && IsLocal(c.labels[v]) then 1 else 0
  }

  /** A local becomes `%local` and the number of locals before it. */
  function RenamedLabel(c: Graph, order: seq<nat>, v: nat): (l: Label)
    requires v in c.labels
  {
    if IsLocal(c.labels[v]) && v in order then
      c.labels[v].(text := LocalName(CountLocals(c, order[..Position(order, v)])))
    else c.labels[v]
  }

  function Renamed(c: Graph, order: seq<nat>): (r: Graph)
    ensures r.labels.Keys == c.labels.Keys && r.edges == c.edges
  {
    Graph(map v | v in c.labels :: RenamedLabel(c, order, v), c.edges)
  }

  function RenameNode(c: Graph, order: seq<nat>): (f: Node -> Label) {
    (n: Node) => if n.id in c.labels then RenamedLabel(c, order, n.id) else n.fields
  }

  lemma RenamedCopy(g: Cpg, order: seq<nat>)
    ensures Relabelled(g, RenameNode(Content(g), order)) == Renamed(Content(g), order)
  {
  }

  lemma {:induction false} CountCarried(c: Graph, d: Graph, o: seq<nat>, p: seq<nat>, i: nat)
    requires CompleteOrder(c, o) && CompleteOrder(d, p) && |o| == |p| && i <= |o|
    requires Isomorphism(Nameless(c), Nameless(d), PositionMap(o, p))
    ensures CountLocals(c, o[..i]) == CountLocals(d, p[..i])
  {
    hide Isomorphism, PositionMap, CompleteOrder, Nameless;
    if i > 0 {
      CountCarried(c, d, o, p, i - 1);
      assert o[..i][..i - 1] == o[..i - 1] && p[..i][..i - 1] == p[..i - 1];
      NamelessAt(c, d, o, p, i - 1);
    }
  }

  lemma NamelessAt(c: Graph, d: Graph, o: seq<nat>, p: seq<nat>, i: nat)
    requires CompleteOrder(c, o) && CompleteOrder(d, p) && |o| == |p| && i < |o|
    requires Isomorphism(Nameless(c), Nameless(d), PositionMap(o, p))
    ensures o[i] in c.labels && p[i] in d.labels
    ensures PositionMap(o, p)[o[i]] == p[i]
    ensures Blind(c.labels[o[i]]) == Blind(d.labels[p[i]])
  {
    hide PreservesEdges;
    assert o[i] in o && p[i] in p;
    PositionMapBijective(o, p);
    assert SameLabel(Nameless(c), o[i], Nameless(d), PositionMap(o, p)[o[i]]);
  }

  lemma RenamedAt(c: Graph, d: Graph, o: seq<nat>, p: seq<nat>, i: nat)
    requires CompleteOrder(c, o) && CompleteOrder(d, p) && |o| == |p| && i < |o|
    requires Isomorphism(Nameless(c), Nameless(d), PositionMap(o, p))
    ensures o[i] in c.labels && p[i] in d.labels
    ensures RenamedLabel(c, o, o[i]) == RenamedLabel(d, p, p[i])
  {
    hide Isomorphism, PositionMap, LocalName;
    NamelessAt(c, d, o, p, i);
    CountCarried(c, d, o, p, i);
    assert o[i] in o && p[i] in p;
    assert Position(o, o[i]) == i && Position(p, p[i]) == i;
  }

  /** Numbering along two orders that match up to names gives matching graphs, even
      though neither order is determined beyond an automorphism. */
  lemma RenamedIsomorphic(c: Graph, d: Graph, o: seq<nat>, p: seq<nat>)
    requires CompleteOrder(c, o) && CompleteOrder(d, p) && |o| == |p|
    requires Isomorphism(Nameless(c), Nameless(d), PositionMap(o, p))
    ensures Isomorphism(Renamed(c, o), Renamed(d, p), PositionMap(o, p))
  {
    hide RenamedLabel, Renamed, PreservesEdges, Bijection, PositionMap, SameLabel;
    var f := PositionMap(o, p);
    var a, b := Renamed(c, o), Renamed(d, p);
    forall v | v in f ensures SameLabel(a, v, b, f[v]) { RenamedKept(c, d, o, p, v); }
    SameEdgesCarried(Nameless(c), Nameless(d), a, b, f);
  }

  lemma RenamedKept(c: Graph, d: Graph, o: seq<nat>, p: seq<nat>, v: nat)
    requires CompleteOrder(c, o) && CompleteOrder(d, p) && |o| == |p|
    requires Isomorphism(Nameless(c), Nameless(d), PositionMap(o, p)) && v in PositionMap(o, p)
    ensures SameLabel(Renamed(c, o), v, Renamed(d, p), PositionMap(o, p)[v])
  {
    hide RenamedLabel, Renamed, PreservesEdges, PositionMap;
    var i := Position(o, v);
    NamelessAt(c, d, o, p, i);
    RenamedAt(c, d, o, p, i);
    RenamedHas(c, o, o[i]);
    RenamedHas(d, p, p[i]);
  }

  lemma RenamedHas(c: Graph, o: seq<nat>, v: nat)
    requires v in c.labels
    ensures v in Renamed(c, o).labels && Renamed(c, o).labels[v] == RenamedLabel(c, o, v)
  {
  }

  lemma SameEdgesCarried(g: Graph, h: Graph, a: Graph, b: Graph, f: map<nat, nat>)
    requires g.edges == a.edges && h.edges == b.edges && PreservesEdges(g, h, f)
    ensures PreservesEdges(a, b, f)
  {
    forall s, e | s in f && e in f ensures SameParallelEdges(a, s, e, b, f[s], f[e]) {
      assert SameParallelEdges(g, s, e, h, f[s], f[e]);
      forall k ensures Multiplicity(a, s, e, k) == Multiplicity(b, f[s], f[e], k) {
        SameEdgesCount(a, g, s, e, k);
        SameEdgesCount(b, h, f[s], f[e], k);
        assert Multiplicity(g, s, e, k) == Multiplicity(h, f[s], f[e], k);
      }
    }
  }

  lemma SameEdgesCount(a: Graph, b: Graph, s: nat, e: nat, k: Bytes)
    requires a.edges == b.edges
    ensures Multiplicity(a, s, e, k) == Multiplicity(b, s, e, k)
  {
  }

  // ----- package prefixes collapsed

  const DOT: Byte := 46

  /** The part after the last dot. */
  function Terminal(s: Bytes): (r: Bytes) {
    if DOT in s then Terminal(s[1..]) else s
  }

  lemma {:induction false} TerminalSuffix(p: Bytes, t: Bytes)
    requires DOT !in t
    ensures Terminal(t) == t && Terminal(p + [DOT] + t) == t
  {
    var s := p + [DOT] + t;
    assert s[|p|] == DOT;
    if p == [] {
      assert s[1..] == t;
    } else {
      assert s[1..] == p[1..] + [DOT] + t;
      TerminalSuffix(p[1..], t);
    }
  }

  function NormaliseFqn(s: Bytes): (r: Bytes) {
    if s == [] then [] else Ascii("%pkg.") + Terminal(s)
  }

  function CollapseLabel(l: Label): (r: Label) {
    l.(fqn := NormaliseFqn(l.fqn), decl := NormaliseFqn(l.decl))
  }

  function Collapse(): (f: Label -> Label) {
    (l: Label) => CollapseLabel(l)
  }

  function CollapseNode(): (f: Node -> Label) {
    (n: Node) => CollapseLabel(n.fields)
  }

  // ----- lengths

  lemma {:induction false} DecimalDigits(n: nat)
    ensures Decimal(n) != [] && forall i :: 0 <= i < |Decimal(n)| ==> 48 <= Decimal(n)[i] <= 57
  {
    if n >= 10 { DecimalDigits(n / 10); }
  }

  lemma {:induction false} DecimalShort(n: nat)
    ensures |Decimal(n)| <= 2 + n / 10
  {
    if n >= 10 { DecimalShort(n / 10); }
  }

  lemma LocalNameFits(n: nat)
    requires n < TWO_64
    ensures |LocalName(n)| < TWO_64
  {
    DecimalShort(n);
  }
}
