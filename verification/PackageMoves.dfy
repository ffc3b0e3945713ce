/** Moving code between packages: rewriting the prefixes of qualified names while
    keeping their last segments. */
module PackageMoves {
  import opened ByteStrings
  import opened FiniteSets
  import opened Graphs
  import opened Encoding
  import opened Cells
  import opened Cpgs
  import opened Rebuilds
  import opened Slices
  import opened SliceLaws
  import opened Normalisation
  import opened Canonicality
  import opened CanonicalOrders
  import opened Fingerprints
  import opened OrderTwins

  // ----- what a move may change

  /** A present name stays present and keeps its last segment. */
  predicate MovedName(a: Bytes, b: Bytes) {
    (a == [] <==> b == []) && Terminal(a) == Terminal(b)
  }

  predicate MovedLabel(l: Label, m: Label) {
    l.kind == m.kind && l.text == m.text && MovedName(l.fqn, m.fqn) && MovedName(l.decl, m.decl)
  }

  ghost predicate MovedNode(n: Node, m: Node) {
    n.id == m.id && MovedLabel(n.fields, m.fields)
  }

  ghost predicate MovedNodes(ns: seq<Node>, ms: seq<Node>) {
    |ns| == |ms| && forall i {:trigger ns[i]} {:trigger ms[i]} :: 0 <= i < |ns| ==> MovedNode(ns[i], ms[i])
  }

  ghost predicate Moved(g: Cpg, h: Cpg) {
    g.edges == h.edges && MovedNodes(g.nodes, h.nodes)
  }

  /** Collapsing prefixes erases a move. */
  lemma CollapseMoved(l: Label, m: Label)
    requires MovedLabel(l, m)
    ensures CollapseLabel(l) == CollapseLabel(m)
  {
    hide Terminal, Ascii;
  }

  lemma MovedIds(g: Cpg, h: Cpg)
    requires Moved(g, h)
    ensures IdList(g) == IdList(h) && Ids(g) == Ids(h) && Remap(g) == Remap(h)
  {
    hide MovedLabel;
    forall i | 0 <= i < |g.nodes| ensures g.nodes[i].id == h.nodes[i].id { assert MovedNode(g.nodes[i], h.nodes[i]); }
    assert IdList(g) == IdList(h);
    IdListComplete(g);
    IdListComplete(h);
  }

  lemma {:induction false} NodeOfMoved(ns: seq<Node>, ms: seq<Node>, v: nat)
    requires MovedNodes(ns, ms) && (exists n :: n in ns && n.id == v) && (exists m :: m in ms && m.id == v)
    ensures MovedNode(NodeOf(ns, v), NodeOf(ms, v))
  {
    hide MovedLabel;
    assert MovedNode(ns[0], ms[0]);
    if ns[0].id != v {
      forall i | 0 <= i < |ns[1..]|
        ensures MovedNode(ns[1..][i], ms[1..][i]) { assert MovedNode(ns[i + 1], ms[i + 1]); }
      NodeOfMoved(ns[1..], ms[1..], v);
    }
  }

  lemma MovedContent(g: Cpg, h: Cpg, v: nat)
    requires Moved(g, h) && v in Ids(g)
    ensures v in Content(g).labels && v in Content(h).labels && MovedLabel(Content(g).labels[v], Content(h).labels[v])
  {
    hide MovedLabel, MovedNodes;
    MovedIds(g, h);
    NodeOfMoved(g.nodes, h.nodes, v);
  }

  // ----- slicing

  lemma MovedParts(g: Cpg, h: Cpg, order: seq<nat>)
    requires Moved(g, h) && (forall v :: v in order ==> v in Ids(g)) && forall v :: v in order ==> v in Ids(h)
    ensures Moved(Part(g, order), Part(h, order))
  {
    hide MovedLabel, Ids, NodeOf, KeepEdges;
    var a, b := Part(g, order), Part(h, order);
    forall i | 0 <= i < |order| ensures MovedNode(a.nodes[i], b.nodes[i]) {
      FoundMoved(g, h, order[i]);
    }
  }

  lemma FoundMoved(g: Cpg, h: Cpg, v: nat)
    requires Moved(g, h) && v in Ids(g) && v in Ids(h)
    ensures MovedNode(Find(g, v), Find(h, v))
  {
    hide MovedLabel, MovedNodes;
    NodeOfMoved(g.nodes, h.nodes, v);
  }

  lemma MovedRebuilds(g: Cpg, h: Cpg)
    requires Moved(g, h) && EdgesInside(g) && EdgesInside(h)
    ensures Moved(Rebuild(g, SameFields()), Rebuild(h, SameFields()))
  {
    hide MovedLabel, Remap;
    MovedIds(g, h);
    var a, b := Rebuild(g, SameFields()), Rebuild(h, SameFields());
    forall i | 0 <= i < |g.nodes| ensures MovedNode(a.nodes[i], b.nodes[i]) {
      assert MovedNode(g.nodes[i], h.nodes[i]);
    }
  }

  lemma MovedSlices(g: Cpg, h: Cpg, w: seq<nat>)
    requires Moved(g, h)
    ensures var r, s := SliceOf(g, w), SliceOf(h, w);
            && (r.Sliced? ==> s.Sliced? && Moved(r.cpg, s.cpg) && r.trail == s.trail)
            && (!r.Sliced? ==> r == s)
  {
    hide Moved, Rebuild, Remap, Part, Ids, Ascending, Reaches;
    MovedIds(g, h);
    MovedEdges(g, h);
    if w != [] && forall v :: v in w ==> v in Ids(g) {
      assert SliceSet(g, w) == SliceSet(h, w);
      var order := Ascending(SliceSet(g, w));
      AscendingDistinct(SliceSet(g, w));
      PartShape(g, order);
      PartShape(h, order);
      MovedParts(g, h, order);
      MovedIds(Part(g, order), Part(h, order));
      MovedRebuilds(Part(g, order), Part(h, order));
    }
  }

  lemma MovedEdges(g: Cpg, h: Cpg)
    requires Moved(g, h)
    ensures g.edges == h.edges && |g.nodes| == |h.nodes|
  {
  }

  // ----- normalising

  predicate PlainBefore(l: Label, m: Label) {
    Less(LabelBytes(Blind(l)), LabelBytes(Blind(m)))
  }

  /** The anonymised labels of two graphs compare the same way, node by node. */
  ghost predicate OrderKept(s: Cpg, t: Cpg) {
    && |s.nodes| == |t.nodes|
    && forall i, j {:trigger s.nodes[i], s.nodes[j]} {:trigger t.nodes[i], t.nodes[j]} ::
          0 <= i < |s.nodes| && 0 <= j < |s.nodes| ==>
         (PlainBefore(s.nodes[i].fields, s.nodes[j].fields) <==> PlainBefore(t.nodes[i].fields, t.nodes[j].fields))
  }

  lemma BlindLabelAt(s: Cpg, i: nat)
    requires EdgesInside(s) && i < |s.nodes|
    ensures i in Content(BlindCopy(s)).labels && Content(BlindCopy(s)).labels[i] == Blind(s.nodes[i].fields)
  {
    hide NodeOf, Content;
    var b := BlindCopy(s);
    RebuildIds(s, BlindNode());
    assert b.nodes[i] in b.nodes;
    ContentLabel(b, b.nodes[i]);
  }

  lemma BlindBefore(s: Cpg, v: nat, w: nat)
    requires EdgesInside(s) && v < |s.nodes| && w < |s.nodes|
    ensures v in Content(BlindCopy(s)).labels && w in Content(BlindCopy(s)).labels
    ensures LabelBefore(Content(BlindCopy(s)), v, w) <==> PlainBefore(s.nodes[v].fields, s.nodes[w].fields)
  {
    hide Content, BlindCopy, LabelBytes, Less, Blind, EdgesInside;
    BlindLabelAt(s, v);
    BlindLabelAt(s, w);
  }

  lemma BlindShape(s: Cpg, t: Cpg)
    requires Moved(s, t) && EdgesInside(s) && EdgesInside(t)
    ensures |s.nodes| == |t.nodes|
    ensures Content(BlindCopy(s)).labels.Keys == Content(BlindCopy(t)).labels.Keys == Below(|s.nodes|)
    ensures Content(BlindCopy(s)).edges == Content(BlindCopy(t)).edges
  {
    hide MovedNodes, Blind, Remap;
    MovedIds(s, t);
    MovedEdges(s, t);
    RebuildIds(s, BlindNode());
    RebuildIds(t, BlindNode());
  }

  lemma BlindCopiesTwins(s: Cpg, t: Cpg)
    requires Moved(s, t) && EdgesInside(s) && EdgesInside(t) && OrderKept(s, t)
    ensures Twins(Content(BlindCopy(s)), Content(BlindCopy(t)))
  {
    hide Content, BlindCopy, Moved, EdgesInside, PlainBefore, LabelBefore;
    BlindShape(s, t);
    var a, b := Content(BlindCopy(s)), Content(BlindCopy(t));
    forall v, w | v in a.labels && w in a.labels ensures LabelBefore(a, v, w) <==> LabelBefore(b, v, w) {
      BlindBefore(s, v, w);
      BlindBefore(t, v, w);
      assert PlainBefore(s.nodes[v].fields, s.nodes[w].fields) <==> PlainBefore(t.nodes[v].fields, t.nodes[w].fields);
    }
  }

  lemma {:induction false} CountMoved(s: Cpg, t: Cpg, o: seq<nat>)
    requires Moved(s, t)
    ensures CountLocals(Content(s), o) == CountLocals(Content(t), o)
  {
    hide Content, Moved;
    MovedIds(s, t);
    if o != [] {
      CountMoved(s, t, o[..|o| - 1]);
      if o[|o| - 1] in Ids(s) { MovedContent(s, t, o[|o| - 1]); }
    }
  }

  lemma RenamedMoved(s: Cpg, t: Cpg, o: seq<nat>, v: nat)
    requires Moved(s, t) && v in Ids(s)
    ensures v in Content(s).labels && v in Content(t).labels
    ensures CollapseLabel(RenamedLabel(Content(s), o, v)) == CollapseLabel(RenamedLabel(Content(t), o, v))
  {
    hide Content, Moved, LocalName, MovedName;
    MovedContent(s, t, v);
    if v in o { CountMoved(s, t, o[..Position(o, v)]); }
    CollapseMoved(RenamedLabel(Content(s), o, v), RenamedLabel(Content(t), o, v));
  }

  /** Graphs that agree position by position have one content. */
  ghost predicate SamePlaces(a: Cpg, b: Cpg) {
    && a.edges == b.edges && |a.nodes| == |b.nodes|
    && forall i {:trigger a.nodes[i]} {:trigger b.nodes[i]} :: 0 <= i < |a.nodes| ==>
         a.nodes[i].id == b.nodes[i].id && a.nodes[i].fields == b.nodes[i].fields
  }

  lemma {:induction false} NodeOfSame(ns: seq<Node>, ms: seq<Node>, v: nat)
    requires |ns| == |ms| && (exists n :: n in ns && n.id == v) && (exists m :: m in ms && m.id == v)
    requires forall i {:trigger ns[i]} {:trigger ms[i]} :: 0 <= i < |ns| ==>
               ns[i].id == ms[i].id && ns[i].fields == ms[i].fields
    ensures NodeOf(ns, v).fields == NodeOf(ms, v).fields
  {
    if ns[0].id != v {
      forall i | 0 <= i < |ns[1..]| ensures ns[1..][i].id == ms[1..][i].id && ns[1..][i].fields == ms[1..][i].fields {
        assert ns[i + 1].id == ms[i + 1].id && ns[i + 1].fields == ms[i + 1].fields;
      }
      NodeOfSame(ns[1..], ms[1..], v);
    }
  }

  lemma SamePlacesContent(a: Cpg, b: Cpg)
    requires SamePlaces(a, b)
    ensures Content(a) == Content(b)
  {
    hide NodeOf;
    assert IdList(a) == IdList(b);
    IdListComplete(a);
    IdListComplete(b);
    forall v | v in Ids(a) ensures NodeOf(a.nodes, v).fields == NodeOf(b.nodes, v).fields {
      NodeOfSame(a.nodes, b.nodes, v);
    }
  }

  lemma CollapsedSame(s: Cpg, t: Cpg)
    requires Moved(s, t) && EdgesInside(s) && EdgesInside(t)
    ensures SamePlaces(CollapsedCopy(s), CollapsedCopy(t))
  {
    hide CollapseLabel, MovedLabel, Remap;
    MovedIds(s, t);
    var a, b := CollapsedCopy(s), CollapsedCopy(t);
    forall i | 0 <= i < |a.nodes| ensures a.nodes[i].id == b.nodes[i].id && a.nodes[i].fields == b.nodes[i].fields {
      assert MovedNode(s.nodes[i], t.nodes[i]);
      CollapseMoved(s.nodes[i].fields, t.nodes[i].fields);
    }
  }

  lemma NumberedAt(s: Cpg, o: seq<nat>, i: nat)
    requires EdgesInside(s) && i < |s.nodes|
    ensures |NumberedCopy(s, o).nodes| == |s.nodes| && s.nodes[i].id in Content(s).labels
    ensures NumberedCopy(s, o).nodes[i].id == i
    ensures NumberedCopy(s, o).nodes[i].fields == RenamedLabel(Content(s), o, s.nodes[i].id)
  {
    hide Content, RenamedLabel;
    assert s.nodes[i] in s.nodes;
  }

  lemma NumberedEdges(s: Cpg, t: Cpg, o: seq<nat>)
    requires Moved(s, t) && EdgesInside(s) && EdgesInside(t)
    ensures NumberedCopy(s, o).edges == NumberedCopy(t, o).edges && Ids(NumberedCopy(s, o)) == Ids(NumberedCopy(t, o))
    ensures Remap(NumberedCopy(s, o)) == Remap(NumberedCopy(t, o))
  {
    hide Content, RenamedLabel, Remap;
    MovedIds(s, t);
    MovedEdges(s, t);
    var a, b := NumberedCopy(s, o), NumberedCopy(t, o);
    SameIdsSameRemap(a, b);
  }

  lemma SameIdsSameRemap(a: Cpg, b: Cpg)
    requires |a.nodes| == |b.nodes|
    requires forall i {:trigger a.nodes[i]} {:trigger b.nodes[i]} :: 0 <= i < |a.nodes| ==>
               a.nodes[i].id == b.nodes[i].id
    ensures Remap(a) == Remap(b) && Ids(a) == Ids(b)
  {
    assert IdList(a) == IdList(b);
    IdListComplete(a);
    IdListComplete(b);
  }

  lemma NumberedCollapsedSame(s: Cpg, t: Cpg, o: seq<nat>)
    requires Moved(s, t) && EdgesInside(s) && EdgesInside(t) && UniqueIds(s.nodes) && UniqueIds(t.nodes)
    ensures EdgesInside(NumberedCopy(s, o)) && EdgesInside(NumberedCopy(t, o))
    ensures SamePlaces(CollapsedCopy(NumberedCopy(s, o)), CollapsedCopy(NumberedCopy(t, o)))
  {
    hide Content, Remap, RenamedLabel, CollapseLabel, NumberedCopy, Moved, UniqueIds;
    MovedEdges(s, t);
    NumberedEdges(s, t, o);
    var a, b := NumberedCopy(s, o), NumberedCopy(t, o);
    NumberedInside(s, o);
    NumberedInside(t, o);
    var c, d := CollapsedCopy(a), CollapsedCopy(b);
    forall i | 0 <= i < |s.nodes|
      ensures |a.nodes| == |s.nodes| == |b.nodes|
      ensures CollapseLabel(a.nodes[i].fields) == CollapseLabel(b.nodes[i].fields)
    {
      NumberedAt(s, o, i);
      NumberedAt(t, o, i);
      SameIdAt(s, t, i);
      RenamedMoved(s, t, o, s.nodes[i].id);
    }
    NumberedSize(s, o);
    NumberedSize(t, o);
  }

  lemma SameIdAt(s: Cpg, t: Cpg, i: nat)
    requires Moved(s, t) && i < |s.nodes|
    ensures |s.nodes| == |t.nodes| && s.nodes[i].id == t.nodes[i].id && s.nodes[i].id in Ids(s)
  {
    hide MovedLabel;
    assert MovedNode(s.nodes[i], t.nodes[i]);
    assert s.nodes[i] in s.nodes;
  }

  lemma NumberedSize(s: Cpg, o: seq<nat>)
    requires EdgesInside(s)
    ensures |NumberedCopy(s, o).nodes| == |s.nodes|
  {
  }

  lemma NumberedInside(s: Cpg, o: seq<nat>)
    requires EdgesInside(s) && UniqueIds(s.nodes)
    ensures EdgesInside(NumberedCopy(s, o))
  {
    hide RenameNode;
    RebuildSelfNumbered(s, RenameNode(Content(s), o));
  }

  lemma LocalsMoved(s: Cpg, t: Cpg)
    requires Moved(s, t)
    ensures HasLocals(Content(s)) <==> HasLocals(Content(t))
  {
    hide Content, Moved;
    MovedIds(s, t);
    if v :| v in Content(s).labels && IsLocal(Content(s).labels[v]) { MovedContent(s, t, v); }
    if v :| v in Content(t).labels && IsLocal(Content(t).labels[v]) { MovedContent(s, t, v); }
  }

  lemma ReadBackSame(s: Cpg, t: Cpg, order: seq<nat>)
    requires UniqueIds(s.nodes) && UniqueIds(t.nodes) && Moved(s, t) && forall v :: v in order ==> v in Below(|s.nodes|)
    ensures |s.nodes| == |t.nodes| && ReadBack(s, order) == ReadBack(t, order)
  {
    hide Remap, MovedNodes, Below;
    MovedIds(s, t);
    MovedEdges(s, t);
  }

  lemma NormalCopiesSame(s: Cpg, t: Cpg, order: seq<nat>)
    requires UniqueIds(s.nodes) && EdgesInside(s) && UniqueIds(t.nodes) && EdgesInside(t) && Moved(s, t)
    requires forall v :: v in order ==> v in Below(|s.nodes|)
    ensures |s.nodes| == |t.nodes| && Content(NormalCopy(s, order)) == Content(NormalCopy(t, order))
  {
    hide ReadBack, Content, NumberedCopy, CollapsedCopy, SamePlaces, Moved, Below;
    ReadBackSame(s, t, order);
    NumberedCollapsedSame(s, t, ReadBack(s, order));
    SamePlacesContent(NormalCopy(s, order), NormalCopy(t, order));
  }

  lemma BlindOutcomesSame(s: Cpg, t: Cpg, used: nat, limit: nat, sha: Bytes -> Bytes)
    requires Valid(s) && EdgesInside(s) && Valid(t) && EdgesInside(t) && Moved(s, t) && OrderKept(s, t)
    ensures var r, q := OutcomeOf(BlindCopy(s), used, limit, sha), OutcomeOf(BlindCopy(t), used, limit, sha);
            && (r.Strong? || r.Weak?) && (q.Strong? || q.Weak?) && (r.Strong? <==> q.Strong?) && r.states == q.states
            && (r.Strong? ==> r.order == q.order)
  {
    hide Valid, Content, Moved, OrderKept, WellFormed, Finishes, StatesAfter, Winner, Twins, BlindCopy, Encode,
      WeakOrders.WeakOrder, CompleteOrder;
    BlindCopyValid(s);
    BlindCopyValid(t);
    ContentWellFormed(BlindCopy(s));
    ContentWellFormed(BlindCopy(t));
    BlindCopiesTwins(s, t);
    TwinWinners(Content(BlindCopy(s)), Content(BlindCopy(t)), used, limit);
  }

  lemma NormalMoved(s: Cpg, t: Cpg, used: nat, limit: nat, sha: Bytes -> Bytes)
    requires Valid(s) && EdgesInside(s) && UniqueIds(s.nodes) && Valid(t) && EdgesInside(t) && UniqueIds(t.nodes)
    requires Moved(s, t) && (HasLocals(Content(s)) ==> OrderKept(s, t))
    ensures SameNormal(NormalOf(s, used, limit, sha), NormalOf(t, used, limit, sha))
  {
    hide Valid, Content, Moved, OrderKept, HasLocals, OutcomeOf, NormalCopy, CollapsedCopy, BlindCopy, Below,
      Isomorphism, SoundExceptLabels, UniqueIds;
    ValidSound(s);
    ValidSound(t);
    LocalsMoved(s, t);
    MovedEdges(s, t);
    if HasLocals(Content(s)) {
      BlindOutcomesSame(s, t, used, limit, sha);
      var r, q := OutcomeOf(BlindCopy(s), used, limit, sha), OutcomeOf(BlindCopy(t), used, limit, sha);
      if r.Strong? && forall v :: v in r.order ==> v in Below(|s.nodes|) {
        NormalCopiesSame(s, t, r.order);
        NormalCopySound(s, r.order);
        NormalCopySound(t, r.order);
        IsomorphismIdentity(Content(NormalCopy(s, r.order)));
      }
    } else {
      CollapsedSame(s, t);
      SamePlacesContent(CollapsedCopy(s), CollapsedCopy(t));
      CollapsedSound(s);
      CollapsedSound(t);
      IsomorphismIdentity(Content(CollapsedCopy(s)));
    }
  }

  lemma CollapsedSound(s: Cpg)
    requires SoundExceptLabels(s) && EdgesInside(s)
    ensures SoundExceptLabels(CollapsedCopy(s))
  {
    hide SoundExceptLabels, Rebuild;
    RebuildSound(s, CollapseNode());
  }

  // ----- the theorem

  predicate KeptPair(g: Graph, h: Graph, u: nat, v: nat)
    requires u in g.labels && v in g.labels && u in h.labels && v in h.labels
  {
    PlainBefore(g.labels[u], g.labels[v]) <==> PlainBefore(h.labels[u], h.labels[v])
  }

  /** On the nodes of the slice, the framed labels with local names left out
      compare the same way before and after. */
  ghost predicate SliceOrderKept(g: Cpg, h: Cpg, w: seq<nat>)
    requires w != [] && Ids(g) == Ids(h)
  {
    forall u, v {:trigger KeptPair(Content(g), Content(h), u, v)} :: u in SliceSet(g, w) && v in SliceSet(g, w) ==>
      KeptPair(Content(g), Content(h), u, v)
  }

  ghost predicate SliceHasLocals(g: Cpg, w: seq<nat>)
    requires w != []
  {
    exists v :: v in SliceSet(g, w) && IsLocal(Content(g).labels[v])
  }

  lemma SliceFieldAt(g: Cpg, w: seq<nat>, i: nat)
    requires SliceOf(g, w).Sliced? && UniqueIds(g.nodes)
    requires i < |SliceOf(g, w).cpg.nodes|
    ensures i < |SliceOrder(g, w)| == |SliceOf(g, w).cpg.nodes| && SliceOrder(g, w)[i] in Content(g).labels
    ensures SliceOf(g, w).cpg.nodes[i].fields == Content(g).labels[SliceOrder(g, w)[i]]
  {
    hide NodeOf, SliceSet, Ascending, Remap, KeepEdges;
    var v := SliceOrder(g, w)[i];
    assert v in SliceOrder(g, w);
  }

  lemma SlicesKeepOrder(g: Cpg, h: Cpg, w: seq<nat>)
    requires UniqueIds(g.nodes) && UniqueIds(h.nodes) && Moved(g, h) && SliceOf(g, w).Sliced? && SliceOf(h, w).Sliced?
    requires w != [] && Ids(g) == Ids(h) && SliceOrderKept(g, h, w)
    ensures OrderKept(SliceOf(g, w).cpg, SliceOf(h, w).cpg)
  {
    hide MovedNodes, Content, PlainBefore, SliceOf, UniqueIds, SliceSet;
    MovedSlices(g, h, w);
    var s, t := SliceOf(g, w).cpg, SliceOf(h, w).cpg;
    SameSliceOrder(g, h, w);
    MovedEdges(s, t);
    forall i, j {:trigger s.nodes[i], s.nodes[j]} | 0 <= i < |s.nodes| && 0 <= j < |s.nodes|
      ensures PlainBefore(s.nodes[i].fields, s.nodes[j].fields) <==> PlainBefore(t.nodes[i].fields, t.nodes[j].fields)
    {
      SliceFieldAt(g, w, i);
      SliceFieldAt(g, w, j);
      SliceFieldAt(h, w, i);
      SliceFieldAt(h, w, j);
      var u, v := SliceOrder(g, w)[i], SliceOrder(g, w)[j];
      assert u in Elements(SliceOrder(g, w)) && v in Elements(SliceOrder(g, w));
      assert KeptPair(Content(g), Content(h), u, v);
    }
  }

  lemma SameSliceOrder(g: Cpg, h: Cpg, w: seq<nat>)
    requires w != [] && Moved(g, h)
    ensures SliceOrder(g, w) == SliceOrder(h, w)
  {
    hide MovedNodes, Reaches, Ascending;
    MovedIds(g, h);
    assert SliceSet(g, w) == SliceSet(h, w);
  }

  lemma PlaceOf(s: Cpg, v: nat) returns (i: nat)
    requires UniqueIds(s.nodes) && v in Ids(s)
    ensures i < |s.nodes| && v in Content(s).labels && s.nodes[i].fields == Content(s).labels[v]
  {
    hide Content, UniqueIds, NodeOf;
    var n := Find(s, v);
    ContentLabel(s, n);
    i :| 0 <= i < |s.nodes| && s.nodes[i] == n;
  }

  lemma SliceLocals(g: Cpg, w: seq<nat>)
    requires UniqueIds(g.nodes) && EdgesInside(g) && w != [] && SliceOf(g, w).Sliced?
    requires HasLocals(Content(SliceOf(g, w).cpg))
    ensures SliceHasLocals(g, w)
  {
    hide SliceSet, SliceOf, IsLocal, Content, EdgesInside, UniqueIds, Distinct;
    var s := SliceOf(g, w).cpg;
    var v :| v in Content(s).labels && IsLocal(Content(s).labels[v]);
    SliceSelfNumbered(g, w);
    var i := PlaceOf(s, v);
    SliceFieldAt(g, w, i);
    assert SliceOrder(g, w)[i] in Elements(SliceOrder(g, w));
  }

  lemma FingerprintUnfolds(g: Cpg, w: seq<nat>, limit: nat, sha: Bytes -> Bytes)
    requires Valid(g)
    ensures FingerprintOf(g, w, limit, sha) ==
            if limit == 0 then Refused
            else if SliceOf(g, w).Sliced? then Finish(NormalSlice(g, w, limit, sha), SliceOf(g, w).trail, limit, sha)
            else if SliceOf(g, w) == EmptyWitness then NoWitness else StrayNode
  {
    hide Content, Finish, NormalOf, SliceOf, UniqueIds, FitsNode, FitsEdge;
  }

  /** A package move that keeps the last segments, and that keeps the relative
      order of the slice's anonymised labels where locals are to be numbered,
      leaves the class, the number of states and the strong bytes unchanged. */
  lemma PackageMoveInvariant(g: Cpg, h: Cpg, w: seq<nat>, limit: nat, sha: Bytes -> Bytes)
    requires Valid(g) && Valid(h) && Moved(g, h)
    requires Ids(g) == Ids(h) && (w != [] && SliceHasLocals(g, w) ==> SliceOrderKept(g, h, w))
    ensures SameFingerprint(FingerprintOf(g, w, limit, sha), FingerprintOf(h, w, limit, sha))
  {
    hide Content, Valid, FingerprintOf, Finish, NormalSlice, SliceOf, SameNormal, Moved, SliceHasLocals,
      SliceOrderKept, Ids;
    MovedSlices(g, h, w);
    FingerprintUnfolds(g, w, limit, sha);
    FingerprintUnfolds(h, w, limit, sha);
    if limit > 0 && SliceOf(g, w).Sliced? {
      WitnessPresent(g, w);
      SlicesMoved(g, h, w, limit, sha);
      FinishAgree(NormalSlice(g, w, limit, sha), NormalSlice(h, w, limit, sha), SliceOf(g, w).trail,
                  SliceOf(h, w).trail, limit, sha);
    }
  }

  lemma WitnessPresent(g: Cpg, w: seq<nat>)
    requires SliceOf(g, w).Sliced?
    ensures w != []
  {
  }

  lemma SlicesMoved(g: Cpg, h: Cpg, w: seq<nat>, limit: nat, sha: Bytes -> Bytes)
    requires Valid(g) && Valid(h) && Moved(g, h) && SliceOf(g, w).Sliced? && SliceOf(h, w).Sliced?
    requires w != [] && Ids(g) == Ids(h) && (SliceHasLocals(g, w) ==> SliceOrderKept(g, h, w))
    ensures SameNormal(NormalSlice(g, w, limit, sha), NormalSlice(h, w, limit, sha))
  {
    ValidSound(g);
    ValidSound(h);
    SoundUnique(g);
    SoundUnique(h);
    hide Isomorphism, Content, Valid, NormalOf, SliceOf, UniqueIds, EdgesInside, SameNormal, Moved, SliceHasLocals,
      SliceOrderKept, OrderKept, HasLocals;
    SliceSelfNumbered(g, w);
    SliceSelfNumbered(h, w);
    SliceValid(g, w);
    SliceValid(h, w);
    MovedSlices(g, h, w);
    if HasLocals(Content(SliceOf(g, w).cpg)) {
      SliceLocals(g, w);
      SlicesKeepOrder(g, h, w);
    }
    NormalMoved(SliceOf(g, w).cpg, SliceOf(h, w).cpg, 0, limit, sha);
  }
}
