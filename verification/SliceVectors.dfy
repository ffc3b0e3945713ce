/** The bytes of slice identities, written out for one small slice. */
module SliceVectors {
  import opened ByteStrings
  import opened Graphs
  import opened Arcs
  import opened Encoding
  import opened Swaps
  import opened Cells
  import opened SearchTrees
  import opened Cpgs
  import opened Rebuilds
  import opened Slices
  import opened SliceLaws
  import opened Normalisation
  import opened Canonicality
  import opened CanonicalOrders
  import opened Fingerprints
  import opened SliceIdentities
  import opened OrderTwins
  import opened LocalNumbers
  import opened MoveExactness
  import opened MovedPairs
  import opened MoveStates
  import opened SliceMeanings
  import opened GraphVectors

  /** A short framed text. */
  function Word(s: string): (r: Bytes)
    requires |s| < 256
  {
    ZEROS + [|s|] + Ascii(s)
  }

  lemma Framed(s: string)
    requires |s| < 256
    ensures Text(Ascii(s)) == Word(s)
  {
    hide Text;
    SmallText(Ascii(s));
  }

  // ----- a local passed to a call

  const LOCAL := Label(Ascii("IDENTIFIER"), Ascii("x"), Ascii("a.b"), Ascii("p.m"))
  const EXEC := Label(Ascii("CALL"), Ascii("exec"), Ascii("os.exec"), Ascii("p.m"))

  const LOCAL_OUT := Label(Ascii("IDENTIFIER"), Ascii("%local0"), Ascii("%pkg.b"), Ascii("%pkg.m"))
  const EXEC_OUT := Label(Ascii("CALL"), Ascii("exec"), Ascii("%pkg.exec"), Ascii("%pkg.m"))

  const EXEC_BYTES: Bytes := Word("CALL") + (Word("exec") + (Word("%pkg.exec") + Word("%pkg.m")))
  const LOCAL_BYTES: Bytes := Word("IDENTIFIER") + (Word("%local0") + (Word("%pkg.b") + Word("%pkg.m")))

  lemma Joined(p: string, t: string)
    requires DOT !in Ascii(t)
    ensures NormaliseFqn(Ascii(p + "." + t)) == Ascii("%pkg." + t)
  {
    var s := Ascii(p + "." + t);
    assert s == Ascii(p) + [DOT] + Ascii(t);
    TerminalSuffix(Ascii(p), Ascii(t));
    assert Ascii("%pkg." + t) == Ascii("%pkg.") + Ascii(t);
  }

  lemma Collapsed()
    ensures NormaliseFqn(Ascii("a.b")) == Ascii("%pkg.b") && NormaliseFqn(Ascii("p.m")) == Ascii("%pkg.m")
    ensures NormaliseFqn(Ascii("os.exec")) == Ascii("%pkg.exec")
  {
    hide NormaliseFqn;
    assert "a" + "." + "b" == "a.b" && "p" + "." + "m" == "p.m" && "os" + "." + "exec" == "os.exec";
    assert "%pkg." + "b" == "%pkg.b" && "%pkg." + "m" == "%pkg.m" && "%pkg." + "exec" == "%pkg.exec";
    Joined("a", "b");
    Joined("p", "m");
    Joined("os", "exec");
  }

  lemma LabelBytesOut()
    ensures LabelBytes(EXEC_OUT) == EXEC_BYTES && LabelBytes(LOCAL_OUT) == LOCAL_BYTES
  {
    hide Text, Ascii, Word;
    Framed("CALL");
    Framed("exec");
    Framed("%pkg.exec");
    Framed("%pkg.m");
    Framed("IDENTIFIER");
    Framed("%local0");
    Framed("%pkg.b");
  }

  lemma KindsTell()
    ensures IsLocal(LOCAL) && !IsLocal(EXEC)
  {
    assert |IDENTIFIER| == 10 && |Ascii("CALL")| == 4;
  }

  /** Locals are numbered from zero. */
  lemma FirstNumber()
    ensures LocalName(0) == Ascii("%local0")
  {
    assert Decimal(0) == [48];
  }

  // ----- the numbered slice

  lemma CountedPair(o: seq<nat>)
    requires CompleteOrder(Content(Pair(LOCAL, EXEC)), o)
    ensures Counted(Content(Pair(LOCAL, EXEC)), o) == Graph(map[0 := LOCAL_OUT, 1 := EXEC_OUT], [])
  {
    hide CollapseLabel, LocalName, IsLocal, LocalNumber, Ascii, CompleteOrder, Content, Counted, SelfNumbered;
    var c := Content(Pair(LOCAL, EXEC));
    PairShape(LOCAL, EXEC);
    KindsTell();
    NumberedShape(c, o);
    CountedLabel(c, o, 0);
    CountedLabel(c, o, 1);
    AloneIsZero(c, o);
    FirstNumber();
    CollapsedOut();
    assert Counted(c, o).labels == map[0 := LOCAL_OUT, 1 := EXEC_OUT];
  }

  lemma CollapsedOut()
    ensures CollapseLabel(LOCAL.(text := Ascii("%local0"))) == LOCAL_OUT && CollapseLabel(EXEC) == EXEC_OUT
  {
    hide NormaliseFqn, Ascii;
    Collapsed();
  }

  lemma AloneIsZero(c: Graph, o: seq<nat>)
    requires CompleteOrder(c, o) && c.labels.Keys == {0, 1} && IsLocal(c.labels[0]) && !IsLocal(c.labels[1])
    ensures LocalNumber(c, o, 0) == 0
  {
    hide IsLocal;
    assert 0 in c.labels && 0 in o;
    var front := o[..Position(o, 0)];
    forall v | v in front ensures v == 1 {
      var i :| 0 <= i < |front| && front[i] == v;
      assert o[i] in c.labels && o[i] != o[Position(o, 0)];
    }
    NoLocals(c, front);
  }

  lemma {:induction false} NoLocals(c: Graph, s: seq<nat>)
    requires forall v :: v in s && v in c.labels ==> !IsLocal(c.labels[v])
    ensures CountLocals(c, s) == 0
  {
    if s != [] { NoLocals(c, s[..|s| - 1]); }
  }

  lemma OutOrder(g: Graph, o: seq<nat>)
    requires g == Graph(map[0 := LOCAL_OUT, 1 := EXEC_OUT], []) && LabelsAscend(g, o)
    ensures o == [1, 0]
  {
    hide LabelBytes, Less, Ascii;
    var ls := g.labels;
    assert ls.Keys == {0, 1} && |ls| == |ls.Keys|;
    OrderLength(g, o);
    assert o[0] in ls && o[1] in ls && o[0] != o[1];
    ExecFirst();
  }

  lemma ExecFirst()
    ensures Less(LabelBytes(EXEC_OUT), LabelBytes(LOCAL_OUT))
  {
    hide Text, LabelBytes, Ascii;
    LabelBytesOut();
    var x, y := EXEC_BYTES[7..], LOCAL_BYTES[7..];
    assert EXEC_BYTES == ZEROS + x && LOCAL_BYTES == ZEROS + y;
    assert x[0] == 4 && y[0] == 10;
    LessAfterPrefix(ZEROS, x, y);
  }

  const SLICE_BYTES: Bytes :=
    Ascii("SCANIPY-CANONICAL-GRAPH/2\n") + (ZEROS + [2] + (EXEC_BYTES + LOCAL_BYTES + (ZEROS + [0])))

  lemma EncodeOut(g: Graph)
    requires g == Graph(map[0 := LOCAL_OUT, 1 := EXEC_OUT], [])
    ensures CompleteOrder(g, [1, 0]) && Encode(g, [1, 0]) == SLICE_BYTES
  {
    hide LabelBytes, Ascii, U64;
    assert [1, 0][0] == 1 && [1, 0][1] == 0;
    assert LabelsInOrder(g, [1, 0]) == [EXEC_OUT, LOCAL_OUT];
    LabelPair(EXEC_OUT, LOCAL_OUT);
    LabelBytesOut();
    SmallNumber(2);
    SmallNumber(0);
    assert EdgesInOrder(g, [1, 0]) == [];
  }

  lemma LabelsFit()
    ensures FitsLabel(LOCAL) && FitsLabel(EXEC)
    ensures FitsLabel(CollapseLabel(LOCAL)) && FitsLabel(CollapseLabel(EXEC))
  {
    hide NormaliseFqn;
    Collapsed();
  }

  lemma PairIsSlice()
    ensures Valid(Pair(LOCAL, EXEC)) && CollapsedFits(Content(Pair(LOCAL, EXEC)))
    ensures SliceOf(Pair(LOCAL, EXEC), [0, 1]) == Sliced(Pair(LOCAL, EXEC), [0, 1])
    ensures LabelsApart(Bare(Content(Pair(LOCAL, EXEC))))
  {
    hide FitsLabel, CollapseLabel, Valid, CollapsedFits, SliceOf, SliceSet, Ascii, LabelsApart, Content, Bare,
      SelfNumbered;
    LabelsFit();
    PairValid(LOCAL, EXEC);
    PairCollapsed(LOCAL, EXEC);
    PairSliced(LOCAL, EXEC);
    PairShape(LOCAL, EXEC);
    BareKinds(Content(Pair(LOCAL, EXEC)));
  }

  lemma BareKinds(c: Graph)
    requires c == Graph(map[0 := LOCAL, 1 := EXEC], [])
    ensures LabelsApart(Bare(c))
  {
    hide NormaliseFqn, Ascii;
    KindsTell();
    assert Bare(c).labels[0].kind == LOCAL.kind && Bare(c).labels[1].kind == EXEC.kind;
  }

  lemma PairCode(sha: Bytes -> Bytes)
    ensures FingerprintOf(Pair(LOCAL, EXEC), [0, 1], 2, sha).StrongSlice?
    ensures FingerprintOf(Pair(LOCAL, EXEC), [0, 1], 2, sha).code == SLICE_BYTES
  {
    hide FingerprintOf, Valid, CollapsedFits, SliceOf, Ascii, LabelsApart, Content, Bare, Counted, LocalOrder, Winner,
      WellFormed, Isomorphism, CompleteOrder, Encode, LabelsAscend, Pair;
    PairIsSlice();
    var s := Pair(LOCAL, EXEC);
    ApartSliceStrong(s, [0, 1], 2, sha);
    var c, e := StrongSliceGraph(s, [0, 1], 2, sha);
    var k := Counted(Content(s), LocalOrder(s));
    OrdersComplete(s);
    CountedWellFormed(s);
    CountedPair(LocalOrder(s));
    assert Isomorphic(k, c);
    CanonicalExact(k, c);
    WinnerAscends(k);
    OutOrder(k, Winner(k).order);
    EncodeOut(k);
  }

  lemma PairStates(sha: Bytes -> Bytes)
    ensures FingerprintOf(Pair(LOCAL, EXEC), [0, 1], 2, sha).StrongSlice?
    ensures FingerprintOf(Pair(LOCAL, EXEC), [0, 1], 2, sha).states == 2
  {
    hide FingerprintOf, Valid, CollapsedFits, SliceOf, Ascii, LabelsApart, Content, Bare, Counted, LocalOrder, Winner,
      WellFormed, Pair, Size, SearchTree, Nameless;
    PairIsSlice();
    var s := Pair(LOCAL, EXEC);
    var c := Content(s);
    StatesExactly(s, [0, 1], 2, sha);
    BareApart(c, LocalOrder(s));
    ContentWellFormed(s);
    NamelessWellFormed(c);
    CountedWellFormed(s);
    ApartLeaf(Nameless(c));
    ApartLeaf(Counted(c, LocalOrder(s)));
    HasLocal();
  }

  lemma HasLocal()
    ensures HasLocals(Content(Pair(LOCAL, EXEC)))
  {
    hide Content, SelfNumbered, IsLocal;
    PairShape(LOCAL, EXEC);
    KindsTell();
    assert 0 in Content(Pair(LOCAL, EXEC)).labels;
  }

  /** The strong identity of the slice hashes this text. */
  lemma StrongSliceVector(sha: Bytes -> Bytes)
    ensures IdentityOf(Pair(LOCAL, EXEC), [0, 1], None, 2, sha) ==
            Published(Ascii("SCANIPY-SLICE-STRONG/2\n") + SLICE_BYTES, true, 2)
  {
    hide FingerprintOf, Ascii, Pair;
    PairCode(sha);
    PairStates(sha);
  }

  // ----- weak identities

  /** A weak identity without a source digest hashes the remapped witness. */
  lemma LegacyVector()
    ensures LegacyBytes([3, 5]) == Ascii("CMP-CORE-02/witness-edge-sequence/v1\n") + (ZEROS + [3] + (ZEROS + [5]))
  {
    hide U64, Ascii;
    SmallNumber(3);
    SmallNumber(5);
    assert [3, 5][1..] == [5] && [5][1..] == [];
    assert IdBytes([5]) == U64(5) + IdBytes([]);
  }

  /** With a digest: the digest, the length of the witness, its nodes, and for each step the
      number and the framed kinds of its edges. */
  lemma SourceVector(digest: Bytes)
    ensures SourceBytes(Sketch(), [9, 7], digest) ==
            Ascii("SCANIPY-SLICE-WEAK/2\n")
            + (digest + (ZEROS + [2] + (ZEROS + [9] + (ZEROS + [7]) + (ZEROS + [1] + (ZEROS + [1] + [75])))))
  {
    hide U64, Ascii, Text;
    SmallNumber(9);
    SmallNumber(7);
    SmallNumber(2);
    SmallNumber(1);
    SmallText([75]);
    var w: seq<nat> := [9, 7];
    assert w[1..] == [7] && [7][1..] == [];
    assert IdBytes([7]) == U64(7) + IdBytes([]);
    var ks := [Arc([75], 0, 0)];
    assert Sketch().edges[1..] == [];
    assert Collect(Sketch().edges, Between(9, 7)) == ks;
    SortLone(ks[0]);
    assert Kinds(Sketch(), 9, 7) == ks;
    assert ks[1..] == [];
    assert KindBytes(ks) == Text([75]) + KindBytes([]);
    assert StepsBytes(Sketch(), w) == StepBytes(Sketch(), 9, 7) + StepsBytes(Sketch(), [7]);
  }

  /** `t` names the nodes of the witness by their places among the nodes of the slice, which
      ascend by id. */
  ghost predicate Places(g: Cpg, w: seq<nat>, t: seq<nat>)
    requires w != []
  {
    && |t| == |w|
    && forall i :: 0 <= i < |w| ==> t[i] < |SliceOrder(g, w)| && SliceOrder(g, w)[t[i]] == w[i]
  }

  lemma TrailPlaces(g: Cpg, w: seq<nat>)
    requires SliceOf(g, w).Sliced?
    ensures w != [] && Places(g, w, SliceOf(g, w).trail)
  {
    hide SliceSet, Reaches, Ascending, KeepEdges, Rebuild;
    var order := SliceOrder(g, w);
    PartShape(g, order);
    var part := Part(g, order);
    assert IdList(part) == order;
    var t := SliceOf(g, w).trail;
    forall i | 0 <= i < |w| ensures t[i] < |order| && order[t[i]] == w[i] {
      assert w[i] in SliceSet(g, w) by { WitnessInside(g, w, i); }
      assert w[i] in Remap(part) && t[i] == Remap(part)[w[i]];
    }
  }

  lemma WitnessInside(g: Cpg, w: seq<nat>, i: nat)
    requires SliceOf(g, w).Sliced? && i < |w|
    ensures w[i] in SliceSet(g, w)
  {
    hide Reaches, Ascending, KeepEdges, Rebuild;
    assert w[i] in w;
  }

  /** A weak identity hashes the places of the witness, or with a digest the digest, the
      witness itself and the edges along it. */
  lemma WeakIdentityIs(g: Cpg, w: seq<nat>, digest: Option<Bytes>, limit: nat, sha: Bytes -> Bytes)
    requires FingerprintOf(g, w, limit, sha).WeakSlice? && IdentityOf(g, w, digest, limit, sha).Published?
    ensures var r := IdentityOf(g, w, digest, limit, sha);
            !r.strong && r.states == FingerprintOf(g, w, limit, sha).states && w != []
    ensures digest.None? ==> exists t ::
              Places(g, w, t) && IdentityOf(g, w, digest, limit, sha).bytes ==
                Ascii("CMP-CORE-02/witness-edge-sequence/v1\n") + IdBytes(t)
    ensures digest.Some? ==>
              IdentityOf(g, w, digest, limit, sha).bytes == SourceBytes(Content(g), w, digest.value)
  {
    hide SliceOf, Places, NormalOf, Content, Ascii, SourceBytes, Valid, OutcomeOf, SelfNumbered, IdBytes;
    if SliceOf(g, w).Sliced? {
      TrailPlaces(g, w);
      assert FingerprintOf(g, w, limit, sha).trail == SliceOf(g, w).trail;
    }
  }

  /** A run is refused before it slices for a budget of nothing or a graph that is not valid, and then
      for an empty witness or one that leaves the graph. */
  lemma FingerprintRefusals(g: Cpg, w: seq<nat>, limit: nat, sha: Bytes -> Bytes)
    ensures limit == 0 || !Valid(g) ==> FingerprintOf(g, w, limit, sha) == Refused
    ensures limit > 0 && Valid(g) ==>
              && (FingerprintOf(g, w, limit, sha) == NoWitness <==> w == [])
              && (FingerprintOf(g, w, limit, sha) == StrayNode <==> exists i :: 0 <= i < |w| && w[i] !in Ids(g))
  {
    hide Valid, NormalOf, Content, OutcomeOf, SelfNumbered, SliceSet, Rebuild, Remap, Ids;
    if limit > 0 && Valid(g) {
      ValidSound(g);
      if exists i :: 0 <= i < |w| && w[i] !in Ids(g) {
        var i :| 0 <= i < |w| && w[i] !in Ids(g);
        assert w[i] in w;
      }
    }
  }

  /** The nodes of a slice: the fields and the path of each node taken, numbered from zero. */
  lemma SliceNodes(g: Cpg, w: seq<nat>, i: nat)
    requires SliceOf(g, w).Sliced? && UniqueIds(g.nodes) && i < |SliceOf(g, w).cpg.nodes|
    ensures w != [] && i < |SliceOrder(g, w)| && SliceOrder(g, w)[i] in Ids(g)
    ensures var n, m := SliceOf(g, w).cpg.nodes[i], Find(g, SliceOrder(g, w)[i]);
            n.id == i && n.fields == m.fields && n.path == m.path
  {
    hide NodeOf, SliceSet, Ascending, Remap, KeepEdges;
    assert SliceOrder(g, w)[i] in SliceOrder(g, w);
  }
}
