/** `_GraphIndex`: adjacency tables filled from the edge list, and the two
    operations the search runs on them. */
module GraphIndexes {
  import opened ByteStrings
  import opened FiniteSets
  import opened Graphs
  import opened Arcs
  import opened Encoding
  import opened Refinement
  import opened Individualisation
  import opened Swaps
  import opened Cpgs
  import opened Budgets

  datatype Index = Index(
    nodes: seq<nat>,
    labels: map<nat, Bytes>,
    incoming: map<nat, seq<Arc>>,
    outgoing: map<nat, seq<Arc>>,
    pairs: map<(nat, nat), seq<Arc>>)

  /** The (kind, source) records of the edges into a node. */
  function Into(v: nat): (f: Edge -> Choice) {
    (e: Edge) => if e.dst == v then Keep(Arc(e.kind, e.src, 0)) else Skip
  }

  function OutOf(v: nat): (f: Edge -> Choice) {
    (e: Edge) => if e.src == v then Keep(Arc(e.kind, e.dst, 0)) else Skip
  }

  ghost predicate TablesFor(es: seq<Edge>, s: set<nat>, incoming: map<nat, seq<Arc>>, outgoing: map<nat, seq<Arc>>) {
    && incoming.Keys == s && outgoing.Keys == s
    && (forall v :: v in s ==> incoming[v] == Collect(es, Into(v)))
    && (forall v :: v in s ==> outgoing[v] == Collect(es, OutOf(v)))
  }

  ghost predicate PairsFor(es: seq<Edge>, pairs: map<(nat, nat), seq<Arc>>) {
    forall a: nat, b: nat :: Collect(es, Between(a, b)) == if (a, b) in pairs then pairs[(a, b)] else []
  }

  /** What a finished index says about the graph it was built from. */
  ghost predicate Indexes(ix: Index, g: Graph) {
    && Distinct(ix.nodes) && (forall v :: v in ix.nodes <==> v in g.labels)
    && ix.labels.Keys == g.labels.Keys
    && (forall v :: v in ix.labels ==> ix.labels[v] == LabelBytes(g.labels[v]))
    && TablesFor(g.edges, g.labels.Keys, ix.incoming, ix.outgoing)
    && (forall a: nat, b: nat :: PairKinds(ix, a, b) == Kinds(g, a, b))
  }

  /** `pairs.get((a, b), ())`. */
  function PairKinds(ix: Index, a: nat, b: nat): (r: seq<Arc>) {
    if (a, b) in ix.pairs then ix.pairs[(a, b)] else []
  }

  lemma CollectLast(es: seq<Edge>, e: Edge, f: Edge -> Choice)
    ensures Collect(es + [e], f) == Collect(es, f) + Chosen(f(e))
  {
    CollectAppend(es, [e], f);
    assert Collect([e], f) == Chosen(f(e)) + [];
  }

  function Listed(b: bool, x: Arc): (r: seq<Arc>) {
    if b then [x] else []
  }

  lemma ArcsGrow(es: seq<Edge>, e: Edge, v: nat)
    ensures Collect(es + [e], Into(v)) == Collect(es, Into(v)) + Listed(e.dst == v, Arc(e.kind, e.src, 0))
    ensures Collect(es + [e], OutOf(v)) == Collect(es, OutOf(v)) + Listed(e.src == v, Arc(e.kind, e.dst, 0))
  {
    hide Collect;
    CollectLast(es, e, Into(v));
    CollectLast(es, e, OutOf(v));
  }

  lemma TablesGrow(es: seq<Edge>, e: Edge, s: set<nat>, incoming: map<nat, seq<Arc>>, outgoing: map<nat, seq<Arc>>)
    requires TablesFor(es, s, incoming, outgoing) && e.src in s && e.dst in s
    ensures TablesFor(es + [e], s,
                      incoming[e.dst := incoming[e.dst] + [Arc(e.kind, e.src, 0)]],
                      outgoing[e.src := outgoing[e.src] + [Arc(e.kind, e.dst, 0)]])
  {
    hide Collect;
    forall v | v in s
      ensures Collect(es + [e], Into(v)) == Collect(es, Into(v)) + Listed(e.dst == v, Arc(e.kind, e.src, 0))
      ensures Collect(es + [e], OutOf(v)) == Collect(es, OutOf(v)) + Listed(e.src == v, Arc(e.kind, e.dst, 0))
    {
      ArcsGrow(es, e, v);
    }
  }

  lemma PairsGrow(es: seq<Edge>, e: Edge, pairs: map<(nat, nat), seq<Arc>>, before: seq<Arc>)
    requires PairsFor(es, pairs)
    requires before == if (e.src, e.dst) in pairs then pairs[(e.src, e.dst)] else []
    ensures PairsFor(es + [e], pairs[(e.src, e.dst) := before + [Arc(e.kind, 0, 0)]])
  {
    hide Collect;
    var grown := pairs[(e.src, e.dst) := before + [Arc(e.kind, 0, 0)]];
    forall a: nat, b: nat ensures Collect(es + [e], Between(a, b)) == if (a, b) in grown then grown[(a, b)] else [] {
      CollectLast(es, e, Between(a, b));
      assert Collect(es, Between(a, b)) == if (a, b) in pairs then pairs[(a, b)] else [];
    }
  }

  lemma EmptyTables(s: set<nat>, incoming: map<nat, seq<Arc>>, outgoing: map<nat, seq<Arc>>,
                    pairs: map<(nat, nat), seq<Arc>>)
    requires incoming.Keys == s && outgoing.Keys == s && pairs == map[]
    requires forall v :: v in s ==> incoming[v] == [] && outgoing[v] == []
    ensures TablesFor([], s, incoming, outgoing) && PairsFor([], pairs)
  {
  }

  lemma SortedPairs(g: Graph, ix: Index, pairs: map<(nat, nat), seq<Arc>>)
    requires PairsFor(g.edges, pairs) && ix.pairs == map p | p in pairs :: Sort(pairs[p])
    ensures forall a: nat, b: nat :: PairKinds(ix, a, b) == Kinds(g, a, b)
  {
    hide Collect;
    forall a: nat, b: nat ensures PairKinds(ix, a, b) == Kinds(g, a, b) {
      assert Collect(g.edges, Between(a, b)) == if (a, b) in pairs then pairs[(a, b)] else [];
    }
  }

  method FillTables(es: seq<Edge>, s: set<nat>, budget: Budget)
    returns (expired: bool, incoming: map<nat, seq<Arc>>, outgoing: map<nat, seq<Arc>>, pairs: map<(nat, nat),
             seq<Arc>>)
    requires forall e :: e in es ==> e.src in s && e.dst in s
    ensures !expired ==> TablesFor(es, s, incoming, outgoing) && PairsFor(es, pairs)
  {
    hide Collect, TablesFor, PairsFor;
    expired := false;
    incoming, outgoing, pairs := map v | v in s :: [], map v | v in s :: [], map[];
    EmptyTables(s, incoming, outgoing, pairs);
    assert es[..0] == [];
    for i := 0 to |es|
      invariant incoming.Keys == s && outgoing.Keys == s
      invariant TablesFor(es[..i], s, incoming, outgoing)
      invariant PairsFor(es[..i], pairs)
    {
      var late := budget.Check();
      if late { return true, incoming, outgoing, pairs; }
      var e := es[i];
      assert e in es;
      assert es[..i + 1] == es[..i] + [e];
      TablesGrow(es[..i], e, s, incoming, outgoing);
      var before := if (e.src, e.dst) in pairs then pairs[(e.src, e.dst)] else [];
      PairsGrow(es[..i], e, pairs, before);
      incoming := incoming[e.dst := incoming[e.dst] + [Arc(e.kind, e.src, 0)]];
      outgoing := outgoing[e.src := outgoing[e.src] + [Arc(e.kind, e.dst, 0)]];
      pairs := pairs[(e.src, e.dst) := before + [Arc(e.kind, 0, 0)]];
    }
    assert es[..|es|] == es;
  }

  lemma IdListDistinct(cpg: Cpg)
    requires Valid(cpg)
    ensures Distinct(IdList(cpg))
  {
    hide FitsNode, FitsEdge;
  }

  /** `build` on a valid graph: one pass over the edges fills all three tables. */
  method Build(cpg: Cpg, budget: Budget) returns (expired: bool, ix: Index)
    requires Valid(cpg)
    ensures !expired ==> Indexes(ix, Content(cpg))
  {
    hide Collect, LabelBytes, Sort, TablesFor, PairsFor, Kinds, PairKinds, Valid, FitsLabel, NodeOf, IdList, Distinct;
    var g := Content(cpg);
    ContentWellFormed(cpg);
    IdListComplete(cpg);
    IdListDistinct(cpg);
    var late, incoming, outgoing, pairs := FillTables(cpg.edges, g.labels.Keys, budget);
    ix := Index(IdList(cpg), map v | v in g.labels :: LabelBytes(g.labels[v]),
                incoming, outgoing, map p | p in pairs :: Sort(pairs[p]));
    expired := late;
    if !expired { SortedPairs(g, ix, pairs); }
  }

  // ----- refinement on the tables

  lemma {:induction false} IntoRecoloured(es: seq<Edge>, v: nat, c: Colours)
    requires forall e :: e in es ==> e.src in c && e.dst in c
    ensures forall x :: x in Collect(es, Into(v)) ==> x.a in c
    ensures Recolour(Collect(es, Into(v)), c) == Collect(es, Incoming(v, c))
  {
    if es != [] {
      assert es[0] in es;
      IntoRecoloured(es[1..], v, c);
      var rest := Collect(es[1..], Into(v));
      assert [] + rest == rest;
      if es[0].dst == v { assert ([Arc(es[0].kind, es[0].src, 0)] + rest)[1..] == rest; }
    }
  }

  lemma {:induction false} OutOfRecoloured(es: seq<Edge>, v: nat, c: Colours)
    requires forall e :: e in es ==> e.src in c && e.dst in c
    ensures forall x :: x in Collect(es, OutOf(v)) ==> x.a in c
    ensures Recolour(Collect(es, OutOf(v)), c) == Collect(es, Outgoing(v, c))
  {
    if es != [] {
      assert es[0] in es;
      OutOfRecoloured(es[1..], v, c);
      var rest := Collect(es[1..], OutOf(v));
      assert [] + rest == rest;
      if es[0].src == v { assert ([Arc(es[0].kind, es[0].dst, 0)] + rest)[1..] == rest; }
    }
  }

  lemma TableSignature(ix: Index, g: Graph, c: Colours, v: nat)
    requires Indexes(ix, g) && WellFormed(g) && c.Keys == g.labels.Keys && v in c
    ensures v in ix.incoming && v in ix.outgoing
    ensures forall x :: x in ix.incoming[v] ==> x.a in c
    ensures forall x :: x in ix.outgoing[v] ==> x.a in c
    ensures SignatureBytes(c[v], Sort(Recolour(ix.incoming[v], c)), Sort(Recolour(ix.outgoing[v], c)))
         == Signature(g, c, v)
  {
    hide Collect, SignatureBytes, Sort, PairKinds, Kinds, LabelBytes;
    IntoRecoloured(g.edges, v, c);
    OutOfRecoloured(g.edges, v, c);
  }

  method SignatureOnTables(ix: Index, ghost g: Graph, c: Colours, v: nat) returns (s: Bytes)
    requires Indexes(ix, g) && WellFormed(g) && c.Keys == g.labels.Keys && v in c
    ensures s == Signature(g, c, v)
  {
    hide Signature, SignatureBytes, Recolour, Sort, Indexes, WellFormed;
    TableSignature(ix, g, c, v);
    s := SignatureBytes(c[v], Sort(Recolour(ix.incoming[v], c)), Sort(Recolour(ix.outgoing[v], c)));
  }

  lemma IndexedNodes(ix: Index, g: Graph)
    requires Indexes(ix, g)
    ensures Elements(ix.nodes) == g.labels.Keys
  {
    hide LabelBytes, TablesFor, Kinds, PairKinds;
  }

  method RoundOnTables(ix: Index, ghost g: Graph, c: Colours, budget: Budget) returns (expired: bool, next: Colours)
    requires Indexes(ix, g) && WellFormed(g) && c.Keys == g.labels.Keys
    ensures !expired ==> next == Round(g, c)
  {
    hide Signature, Intern, Indexes, WellFormed;
    IndexedNodes(ix, g);
    var signatures: map<nat, Bytes> := map[];
    for i := 0 to |ix.nodes|
      invariant signatures.Keys == Elements(ix.nodes[..i])
      invariant forall v :: v in signatures ==> v in c && signatures[v] == Signature(g, c, v)
    {
      var late := budget.Check();
      if late { return true, c; }
      var v := ix.nodes[i];
      assert v in Elements(ix.nodes);
      var s := SignatureOnTables(ix, g, c, v);
      assert ix.nodes[..i + 1] == ix.nodes[..i] + [v];
      signatures := signatures[v := s];
    }
    assert ix.nodes[..|ix.nodes|] == ix.nodes;
    assert signatures == Signatures(g, c);
    expired, next := false, Intern(signatures);
  }

  function StartOnTables(ix: Index, m: Markers): (r: map<nat, Bytes>) {
    map v | v in ix.labels :: ix.labels[v] + U64(Marker(m, v))
  }

  lemma StartOnTablesExact(ix: Index, g: Graph, m: Markers)
    requires Indexes(ix, g)
    ensures StartOnTables(ix, m) == StartSignatures(g, m)
  {
    hide LabelBytes, U64, TablesFor, Kinds, PairKinds;
  }

  /** `refine`: rounds until the colour count stops growing. */
  method RefineMarked(ix: Index, ghost g: Graph, m: Markers, budget: Budget) returns (expired: bool, colours: Colours)
    requires Indexes(ix, g) && WellFormed(g)
    ensures !expired ==> colours == ColoursOf(g, m)
  {
    hide Intern, Indexes, Round, Dense, StartOnTables, StartSignatures, WellFormed;
    StartOnTablesExact(ix, g, m);
    colours := Intern(StartOnTables(ix, m));
    StartDense(g, m);
    while colours != map[]
      invariant colours.Keys == g.labels.Keys && Dense(colours)
      invariant Refine(g, colours) == ColoursOf(g, m)
      decreases |g.labels| - |colours.Values|
    {
      RoundCount(g, colours);
      var late, refined := RoundOnTables(ix, g, colours, budget);
      if late { return true, colours; }
      if |refined.Values| == |colours.Values| { return false, refined; }
      colours := refined;
    }
    RefineShape(g, colours);
    expired := false;
  }

  /** `swap_is_automorphism`. */
  method SwapIsAutomorphism(ix: Index, ghost g: Graph, a: nat, b: nat, budget: Budget) returns (expired: bool, ok: bool)
    requires Indexes(ix, g) && WellFormed(g) && a in g.labels && b in g.labels
    ensures !expired ==> ok == SwapCertified(g, a, b)
  {
    hide Kinds, PairKinds, LabelBytes, TablesFor;
    expired, ok := false, false;
    if ix.labels[a] != ix.labels[b] { return; }
    assert g.labels[a] == g.labels[b] by {
      assert LabelBytes(g.labels[a]) + [] == LabelBytes(g.labels[b]) + [];
      LabelCancel(g.labels[a], g.labels[b], [], []);
    }
    if PairKinds(ix, a, a) != PairKinds(ix, b, b) { return; }
    if PairKinds(ix, a, b) != PairKinds(ix, b, a) { return; }
    for i := 0 to |ix.nodes|
      invariant forall k :: 0 <= k < i && ix.nodes[k] != a && ix.nodes[k] != b ==> SameOutside(g, a, b, ix.nodes[k])
    {
      var late := budget.Check();
      if late { return true, false; }
      var o := ix.nodes[i];
      assert o in ix.nodes;
      if o != a && o != b
          && (PairKinds(ix, a, o) != PairKinds(ix, b, o) || PairKinds(ix, o, a) != PairKinds(ix, o, b)) {
        assert !SameOutside(g, a, b, o);
        return;
      }
    }
    forall o | o in g.labels && o != a && o != b ensures SameOutside(g, a, b, o) {
      assert o in ix.nodes;
    }
    ok := true;
  }
}
