/** The bytes of canonical identities, written out for one small graph. */
module GraphVectors {
  import opened ByteStrings
  import opened Graphs
  import opened Arcs
  import opened Encoding
  import opened Refinement
  import opened Canonicality
  import opened Cpgs
  import opened WeakOrders
  import opened CanonicalOrders
  import opened OrderTwins
  import opened MovedPairs

  /** Seven zero bytes: the front of a small eight-byte number. */
  const ZEROS: Bytes := [0, 0, 0, 0, 0, 0, 0]

  lemma SmallNumber(n: nat)
    requires n < 256
    ensures U64(n) == ZEROS + [n]
  {
    assert n / 256 == 0 && n % 256 == n;
    NoBytes(7);
    assert BigEndian(n, 8) == BigEndian(0, 7) + [n];
  }

  lemma {:induction false} NoBytes(k: nat)
    ensures BigEndian(0, k) == seq(k, i => 0)
  {
    if k > 0 { NoBytes(k - 1); }
  }

  lemma SmallText(s: Bytes)
    requires |s| < 256
    ensures Text(s) == ZEROS + [|s|] + s
  {
    SmallNumber(|s|);
  }

  // ----- the graph: a node 7 of kind A, a node 9 of kind B, and an edge K from 9 to 7

  const FIRST := Label([65], [98], [], [99])
  const SECOND := Label([66], [], [100], [])

  function Small(): (g: Cpg) {
    Cpg([Node(9, SECOND, []), Node(7, FIRST, [])], [Edge(9, 7, [75])])
  }

  function Sketch(): (g: Graph) {
    Graph(map[7 := FIRST, 9 := SECOND], [Edge(9, 7, [75])])
  }

  const FIRST_BYTES: Bytes := ZEROS + [1, 65] + ZEROS + [1, 98] + ZEROS + [0] + ZEROS + [1, 99]
  const SECOND_BYTES: Bytes := ZEROS + [1, 66] + ZEROS + [0] + ZEROS + [1, 100] + ZEROS + [0]
  const EDGE_BYTES: Bytes := ZEROS + [1, 75] + ZEROS + [1] + ZEROS + [0]

  /** The whole encoding along the order 7, 9. */
  const SMALL_BYTES: Bytes :=
    Ascii("SCANIPY-CANONICAL-GRAPH/2\n") + (ZEROS + [2] + (FIRST_BYTES + SECOND_BYTES + (ZEROS + [1] + EDGE_BYTES)))

  lemma LabelVectors()
    ensures LabelBytes(FIRST) == FIRST_BYTES && LabelBytes(SECOND) == SECOND_BYTES
  {
    hide Text;
    SmallText([65]);
    SmallText([98]);
    SmallText([]);
    SmallText([99]);
    SmallText([66]);
    SmallText([100]);
  }

  lemma EdgeVector()
    ensures EdgeBytes(Arc([75], 1, 0)) == EDGE_BYTES
  {
    hide Text, U64;
    SmallText([75]);
    SmallNumber(1);
    SmallNumber(0);
  }

  lemma SmallShape()
    ensures Valid(Small()) && Content(Small()) == Sketch() && WellFormed(Sketch())
    ensures CompleteOrder(Sketch(), [7, 9])
  {
    var g := Small();
    assert g.nodes[0] in g.nodes && g.nodes[1] in g.nodes;
    assert Ids(g) == {7, 9};
    forall e | e in g.edges ensures FitsEdge(g, e) { }
    assert Content(g).labels == Sketch().labels;
    assert [7, 9][0] == 7 && [7, 9][1] == 9;
  }

  lemma RanksVector()
    ensures Ranks([7, 9]) == map[7 := 0, 9 := 1]
  {
    assert [7, 9][1..] == [9];
    assert [7, 9][0] == 7 && [7, 9][1] == 9;
  }

  lemma ArcsVector()
    ensures EdgesInOrder(Sketch(), [7, 9]) == [Arc([75], 1, 0)]
  {
    hide Ranks, Position;
    RanksVector();
    var es := Sketch().edges;
    assert es[1..] == [];
    assert Collect(es, ByRank(Ranks([7, 9]))) == [Arc([75], 1, 0)];
    assert [Arc([75], 1, 0)][1..] == [];
  }

  /** Magic, node count, framed labels in order, edge count, framed edges by position. */
  lemma EncodeVector()
    ensures CompleteOrder(Sketch(), [7, 9]) && Encode(Sketch(), [7, 9]) == SMALL_BYTES
  {
    hide LabelBytes, EdgeBytes, U64, EdgesInOrder, Ascii, CompleteOrder, Valid, Content, WellFormed;
    SmallShape();
    LabelVectors();
    EdgeVector();
    ArcsVector();
    SmallNumber(2);
    SmallNumber(1);
    LabelsVector();
    LabelPair(FIRST, SECOND);
    LoneEdge(Arc([75], 1, 0));
  }

  lemma LabelPair(l: Label, m: Label)
    ensures LabelBlock([l, m]) == LabelBytes(l) + LabelBytes(m)
  {
    hide LabelBytes;
    var ls := [l, m];
    assert ls[1..] == [m] && ls[1..][1..] == [];
    assert LabelBlock([m]) == LabelBytes(m) + LabelBlock([]);
  }

  lemma LoneEdge(x: Arc)
    ensures EdgeBlock([x]) == EdgeBytes(x)
  {
    hide EdgeBytes;
    assert [x][1..] == [];
    assert EdgeBlock([x]) == EdgeBytes(x) + EdgeBlock([]);
  }

  lemma LabelsVector()
    ensures CompleteOrder(Sketch(), [7, 9]) && LabelsInOrder(Sketch(), [7, 9]) == [FIRST, SECOND]
  {
    hide CompleteOrder, Valid, Content, WellFormed;
    SmallShape();
  }

  /** The strong identity of the graph hashes this text, whatever order its lists have. */
  lemma StrongVector(sha: Bytes -> Bytes)
    ensures var r := OutcomeOf(Small(), 0, 1, sha);
            r.Strong? && r.order == [7, 9] && r.states == 1
            && Preimage(r) == Ascii("SCANIPY-CPG-STRONG/2\n") + SMALL_BYTES
  {
    hide Valid, Content, WellFormed, Winner, Encode, Ascii, LabelsAscend, LabelsApart;
    SmallShape();
    assert LabelsApart(Sketch()) by { SketchApart(); }
    ApartStrong(Small(), 0, 1, sha);
    WinnerAscends(Sketch());
    OnlyOrder(Winner(Sketch()).order);
    EncodeVector();
  }

  lemma SketchApart()
    ensures LabelsApart(Sketch())
  {
    assert FIRST.kind[0] != SECOND.kind[0];
  }

  lemma OnlyOrder(o: seq<nat>)
    requires LabelsAscend(Sketch(), o)
    ensures o == [7, 9]
  {
    hide LabelBytes, Less;
    assert 7 in Sketch().labels && 9 in Sketch().labels;
    TwoNodes(o);
    if o == [9, 7] { KindsCompare(); }
  }

  lemma TwoNodes(o: seq<nat>)
    requires CompleteOrder(Sketch(), o)
    ensures o == [7, 9] || o == [9, 7]
  {
    var ls := Sketch().labels;
    assert ls.Keys == {7, 9} && |ls| == |ls.Keys|;
    OrderLength(Sketch(), o);
    assert o[0] in ls && o[1] in ls && o[0] != o[1];
  }

  lemma KindsCompare()
    ensures Less(LabelBytes(FIRST), LabelBytes(SECOND))
  {
    hide Text, LabelBytes;
    LabelVectors();
    var p: Bytes := ZEROS + [1];
    assert FIRST_BYTES == p + FIRST_BYTES[8..] && SECOND_BYTES == p + SECOND_BYTES[8..];
    assert FIRST_BYTES[8] == 65 && SECOND_BYTES[8] == 66;
    LessAfterPrefix(p, FIRST_BYTES[8..], SECOND_BYTES[8..]);
  }

  // ----- one round of refinement

  /** Colour, incoming edges with the colours of their sources, outgoing edges with the
      colours of their targets. */
  lemma SignatureVectors()
    ensures var c: Colours := map[7 := 0, 9 := 1];
            && Signature(Sketch(), c, 7) ==
               ZEROS + [0] + (ZEROS + [1] + (ZEROS + [1] + [75] + (ZEROS + [1])) + (ZEROS + [0]))
            && Signature(Sketch(), c, 9) ==
               ZEROS + [1] + (ZEROS + [0] + (ZEROS + [1] + (ZEROS + [1] + [75] + (ZEROS + [0]))))
  {
    hide SignatureBytes, Sort;
    var c: Colours := map[7 := 0, 9 := 1];
    var es := Sketch().edges;
    assert es[1..] == [];
    assert Collect(es, Incoming(7, c)) == [Arc([75], 1, 0)] && Collect(es, Outgoing(7, c)) == [];
    assert Collect(es, Incoming(9, c)) == [] && Collect(es, Outgoing(9, c)) == [Arc([75], 0, 0)];
    SortLone(Arc([75], 1, 0));
    SortLone(Arc([75], 0, 0));
    AdjacencyVector(1);
    AdjacencyVector(0);
    SignatureFramed(0, [Arc([75], 1, 0)], []);
    SignatureFramed(1, [], [Arc([75], 0, 0)]);
  }

  lemma SignatureFramed(colour: nat, ins: seq<Arc>, outs: seq<Arc>)
    requires colour < 256
    ensures SignatureBytes(colour, ins, outs) == ZEROS + [colour] + (Adjacency(ins) + Adjacency(outs))
  {
    SmallNumber(colour);
  }

  lemma AdjacencyVector(a: nat)
    requires a < 256
    ensures Adjacency([Arc([75], a, 0)]) == ZEROS + [1] + (ZEROS + [1] + [75] + (ZEROS + [a]))
    ensures Adjacency([]) == ZEROS + [0]
  {
    hide Text, U64;
    var x := Arc([75], a, 0);
    assert [x][1..] == [];
    assert NeighbourBlock([x]) == Text([75]) + U64(a) + NeighbourBlock([]);
    SmallText([75]);
    SmallNumber(a);
    SmallNumber(1);
    SmallNumber(0);
  }

  lemma SortLone(x: Arc)
    ensures Sort([x]) == [x] && Sort([]) == []
  {
    assert [x][1..] == [];
  }

  // ----- weak identities and refusals

  /** A weak identity hashes another domain and the encoding along the fallback order. */
  lemma WeakVector(g: Cpg, used: nat, limit: nat, sha: Bytes -> Bytes)
    requires OutcomeOf(g, used, limit, sha).Weak?
    ensures CompleteOrder(Content(g), WeakOrder(g, sha))
    ensures var r := OutcomeOf(g, used, limit, sha);
            r.order == WeakOrder(g, sha)
            && Preimage(r) == Ascii("SCANIPY-CPG-WEAK/2\n") + Encode(Content(g), WeakOrder(g, sha))
  {
    hide Content, WeakOrder, Encode, Ascii, Winner, CompleteOrder;
    WeakOrderComplete(g, sha);
  }

  const TOO_LONG := 18446744073709551616

  /** An id or a text that does not fit 64 bits. */
  predicate BadNode(n: Node) {
    || n.id >= TOO_LONG || |n.path| >= TOO_LONG || |n.fields.kind| >= TOO_LONG || |n.fields.text| >= TOO_LONG
    || |n.fields.fqn| >= TOO_LONG || |n.fields.decl| >= TOO_LONG
  }

  predicate HasNode(g: Cpg, v: nat) {
    exists i :: 0 <= i < |g.nodes| && g.nodes[i].id == v
  }

  /** An edge without an end, without a kind, or with one that does not fit. */
  predicate BadEdge(g: Cpg, e: Edge) {
    !HasNode(g, e.src) || !HasNode(g, e.dst) || e.kind == [] || |e.kind| >= TOO_LONG
  }

  ghost predicate Repeats(g: Cpg) {
    exists i, j :: 0 <= i < j < |g.nodes| && g.nodes[i].id == g.nodes[j].id
  }

  /** A graph is refused exactly for its size, a repeated id, a bad node or a bad edge. */
  lemma RejectedExactly(g: Cpg, used: nat, limit: nat, sha: Bytes -> Bytes)
    ensures OutcomeOf(g, used, limit, sha).Rejected? <==>
              || |g.nodes| >= TOO_LONG || |g.edges| >= TOO_LONG || Repeats(g)
              || (exists n :: n in g.nodes && BadNode(n)) || exists e :: e in g.edges && BadEdge(g, e)
  {
    hide Content, WeakOrder, Encode, Winner, CompleteOrder, Valid, BadNode, BadEdge, Repeats;
    ValidExactly(g);
  }

  lemma ValidExactly(g: Cpg)
    ensures !Valid(g) <==>
              || |g.nodes| >= TOO_LONG || |g.edges| >= TOO_LONG || Repeats(g)
              || (exists n :: n in g.nodes && BadNode(n)) || exists e :: e in g.edges && BadEdge(g, e)
  {
    hide BadNode, BadEdge, FitsNode, FitsEdge;
    forall n ensures FitsNode(n) <==> !BadNode(n) { NodeFits(n); }
    forall e ensures FitsEdge(g, e) <==> !BadEdge(g, e) { EdgeFits(g, e); }
  }

  lemma NodeFits(n: Node)
    ensures FitsNode(n) <==> !BadNode(n)
  {
  }

  lemma EdgeFits(g: Cpg, e: Edge)
    ensures FitsEdge(g, e) <==> !BadEdge(g, e)
  {
    hide HasNode, Ids;
    NodeListed(g, e.src);
    NodeListed(g, e.dst);
  }

  lemma NodeListed(g: Cpg, v: nat)
    ensures HasNode(g, v) <==> v in Ids(g)
  {
    if i :| 0 <= i < |g.nodes| && g.nodes[i].id == v { assert g.nodes[i] in g.nodes; }
  }
}
