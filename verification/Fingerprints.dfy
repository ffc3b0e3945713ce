/** `compute_slice_fingerprint`: slice, normalise, canonicalise again, all under
    one shared state budget. */
module Fingerprints {
  import opened ByteStrings
  import opened FiniteSets
  import opened Graphs
  import opened Encoding
  import opened Cpgs
  import opened Rebuilds
  import opened Slices
  import opened SliceLaws
  import opened Normalisation
  import opened CanonicalOrders

  datatype Normal = Failed | Spent(states: nat) | Ready(cpg: Cpg, states: nat)

  datatype Fingerprint =
    | Refused
    | NoWitness
    | StrayNode
    | TooLate
    | StrongSlice(code: Bytes, states: nat)
    | WeakSlice(trail: seq<nat>, states: nat)

  // ----- the pipeline as a function of its inputs

  /** The order of the anonymised copy, read back on the ids of the slice. */
  ghost function ReadBack(s: Cpg, order: seq<nat>): (r: seq<nat>)
    requires UniqueIds(s.nodes) && forall v :: v in order ==> v in Below(|s.nodes|)
  {
    RemapBijective(s);
    MoveOrder(Inverse(Remap(s), Below(|s.nodes|)), order)
  }

  ghost function CollapsedCopy(s: Cpg): (r: Cpg)
    requires EdgesInside(s)
  {
    Rebuild(s, CollapseNode())
  }

  ghost function NumberedCopy(s: Cpg, order: seq<nat>): (r: Cpg)
    requires EdgesInside(s)
  {
    Rebuild(s, RenameNode(Content(s), order))
  }

  ghost function BlindCopy(s: Cpg): (r: Cpg)
    requires EdgesInside(s)
  {
    Rebuild(s, BlindNode())
  }

  /** Both rewriting passes, given the order of the anonymised copy. */
  ghost function NormalCopy(s: Cpg, order: seq<nat>): (r: Cpg)
    requires UniqueIds(s.nodes) && EdgesInside(s) && forall v :: v in order ==> v in Below(|s.nodes|)
  {
    RebuildSelfNumbered(s, RenameNode(Content(s), ReadBack(s, order)));
    CollapsedCopy(NumberedCopy(s, ReadBack(s, order)))
  }

  ghost function NormalOf(s: Cpg, used: nat, limit: nat, sha: Bytes -> Bytes): (r: Normal)
    requires UniqueIds(s.nodes) && EdgesInside(s)
  {
    if !HasLocals(Content(s)) then Ready(CollapsedCopy(s), used)
    else
      match OutcomeOf(BlindCopy(s), used, limit, sha)
      case Strong(order, _, states) =>
        if forall v :: v in order ==> v in Below(|s.nodes|) then Ready(NormalCopy(s, order), states) else Failed
      case Weak(_, _, states) => Spent(states)
      case Rejected => Failed
      case Deadline => Failed
  }

  ghost function FingerprintOf(g: Cpg, w: seq<nat>, limit: nat, sha: Bytes -> Bytes): (r: Fingerprint) {
    if limit == 0 || !Valid(g) then Refused
    else
      ValidSound(g);
      match SliceOf(g, w)
      case EmptyWitness => NoWitness
      case StrayWitness => StrayNode
      case Sliced(s, trail) =>
        SliceSelfNumbered(g, w);
        Finish(NormalOf(s, 0, limit, sha), trail, limit, sha)
  }

  /** The second canonicalisation, on what normalisation left of the budget. */
  ghost function Finish(n: Normal, trail: seq<nat>, limit: nat, sha: Bytes -> Bytes): (r: Fingerprint) {
    match n
    case Failed => Refused
    case Spent(states) => WeakSlice(trail, states)
    case Ready(c, used) =>
      match OutcomeOf(c, used, limit, sha)
      case Strong(_, code, states) => StrongSlice(code, states)
      case Weak(_, _, states) => WeakSlice(trail, states)
      case Rejected => Refused
      case Deadline => Refused
  }

  lemma SliceSelfNumbered(g: Cpg, w: seq<nat>)
    requires UniqueIds(g.nodes) && EdgesInside(g) && SliceOf(g, w).Sliced?
    ensures SelfNumbered(SliceOf(g, w).cpg)
  {
    hide SliceSet, Rebuild, SelfNumbered;
    PartShape(g, SliceOrder(g, w));
    RebuildSelfNumbered(Part(g, SliceOrder(g, w)), SameFields());
  }

  // ----- validity along the pipeline

  lemma CopyValid(g: Cpg, relabel: Node -> Label)
    requires SoundExceptLabels(g) && EdgesInside(g)
    requires forall v :: v in Ids(g) ==> FitsLabel(Relabelled(g, relabel).labels[v])
    ensures Valid(Rebuild(g, relabel))
  {
    hide SoundExceptLabels, Rebuild, PreservesEdges, FitsLabel, Relabelled, Content, Remap;
    RebuildSound(g, relabel);
    SoundUnique(g);
    RebuildIsomorphic(g, relabel);
    ValidIffLabelsFit(Rebuild(g, relabel));
    var a, b, f := Relabelled(g, relabel), Content(Rebuild(g, relabel)), Remap(g);
    forall w | w in b.labels ensures FitsLabel(b.labels[w]) {
      var v := PreimageOf(f, a.labels.Keys, b.labels.Keys, w);
      assert SameLabel(a, v, b, f[v]);
    }
  }

  lemma SoundUnique(g: Cpg)
    requires SoundExceptLabels(g)
    ensures UniqueIds(g.nodes)
  {
  }

  lemma SliceValid(g: Cpg, w: seq<nat>)
    requires Valid(g) && SliceOf(g, w).Sliced?
    ensures Valid(SliceOf(g, w).cpg)
  {
    var order := SliceOrder(g, w);
    hide SliceSet, Rebuild, SoundExceptLabels, Valid, FitsLabel, Relabelled, Content;
    ValidSound(g);
    SoundUnique(g);
    PartShape(g, order);
    PartSound(g, order);
    ContentWellFormed(g);
    PartContent(g, order);
    InducedFits(Content(g), Elements(order));
    CopyValid(Part(g, order), SameFields());
  }

  lemma InducedFits(c: Graph, s: set<nat>)
    requires WellFormed(c) && s <= c.labels.Keys
    ensures forall v :: v in s ==> FitsLabel(Induced(c, s).labels[v])
  {
  }

  lemma BlindCopyValid(s: Cpg)
    requires Valid(s) && EdgesInside(s)
    ensures Valid(BlindCopy(s))
  {
    hide Rebuild, SoundExceptLabels, Valid, Content;
    ValidSound(s);
    SoundUnique(s);
    ContentWellFormed(s);
    RelabelledByFields(s, BlindNode(), BlindLabel());
    CopyValid(s, BlindNode());
  }

  // ----- agreement along the pipeline

  lemma Bridge(a: Graph, b: Graph, f: map<nat, nat>, p: Graph, l: map<nat, nat>, q: Graph, r: map<nat, nat>)
    returns (e: map<nat, nat>)
    requires Isomorphism(a, b, f) && Isomorphism(a, p, l) && Isomorphism(b, q, r)
    ensures Isomorphism(p, q, e)
  {
    hide PreservesEdges;
    var back := Inverse(l, p.labels.Keys);
    IsomorphismInverse(a, p, l);
    IsomorphismCompose(p, a, b, back, f);
    e := Compose(Compose(back, f), r);
    IsomorphismCompose(p, b, q, Compose(back, f), r);
  }

  lemma BlindCopyIsomorphic(s: Cpg)
    requires UniqueIds(s.nodes) && EdgesInside(s)
    ensures Isomorphism(Nameless(Content(s)), Content(BlindCopy(s)), Remap(s))
  {
    hide Isomorphism, Content, Rebuild, Relabelled, MapLabels, Remap;
    RelabelledByFields(s, BlindNode(), BlindLabel());
    RebuildIsomorphic(s, BlindNode());
  }

  lemma BlindCopiesAgree(s: Cpg, t: Cpg, f: map<nat, nat>) returns (e: map<nat, nat>)
    requires UniqueIds(s.nodes) && EdgesInside(s) && UniqueIds(t.nodes) && EdgesInside(t)
    requires AgreeUpTo(s, t, f, BlindLabel())
    ensures Isomorphism(Content(BlindCopy(s)), Content(BlindCopy(t)), e)
  {
    hide Isomorphism, Content, Rebuild, MapLabels, Remap;
    BlindCopyIsomorphic(s);
    BlindCopyIsomorphic(t);
    e := Bridge(Nameless(Content(s)), Nameless(Content(t)), f,
                Content(BlindCopy(s)), Remap(s), Content(BlindCopy(t)), Remap(t));
  }

  lemma NamelessWellFormed(c: Graph)
    requires WellFormed(c)
    ensures WellFormed(Nameless(c))
  {
    assert |Nameless(c).labels.Keys| == |c.labels.Keys|;
  }

  lemma BlindCopyInverse(s: Cpg)
    requires UniqueIds(s.nodes) && EdgesInside(s)
    ensures Bijection(Remap(s), Remap(s).Keys, Below(|s.nodes|))
    ensures Isomorphism(Content(BlindCopy(s)), Nameless(Content(s)), Inverse(Remap(s), Below(|s.nodes|)))
    ensures Content(BlindCopy(s)).labels.Keys == Below(|s.nodes|)
  {
    hide Content, Rebuild, MapLabels, Remap, PreservesEdges;
    RemapBijective(s);
    RebuildIds(s, BlindNode());
    BlindCopyIsomorphic(s);
    IsomorphismInverse(Nameless(Content(s)), Content(BlindCopy(s)), Remap(s));
  }

  lemma BlindGraphsWellFormed(s: Cpg)
    requires Valid(s) && EdgesInside(s)
    ensures WellFormed(Nameless(Content(s))) && WellFormed(Content(BlindCopy(s)))
  {
    hide Content, Rebuild, Valid, WellFormed, Nameless;
    BlindCopyValid(s);
    ContentWellFormed(s);
    NamelessWellFormed(Content(s));
    ContentWellFormed(BlindCopy(s));
  }

  /** Reading the order back encodes the nameless slice to the same bytes. */
  lemma ReadBackEncodes(s: Cpg, order: seq<nat>)
    requires Valid(s) && EdgesInside(s) && UniqueIds(s.nodes) && CompleteOrder(Content(BlindCopy(s)), order)
    ensures forall v :: v in order ==> v in Below(|s.nodes|)
    ensures CompleteOrder(Nameless(Content(s)), ReadBack(s, order))
    ensures Encode(Nameless(Content(s)), ReadBack(s, order)) == Encode(Content(BlindCopy(s)), order)
  {
    hide Isomorphism, Content, BlindCopy, Nameless, Remap, Encode, MoveOrder, Valid, UniqueIds, EdgesInside,
      Bijection, Distinct, WellFormed, Below;
    BlindGraphsWellFormed(s);
    BlindCopyInverse(s);
    EncodeIsomorphic(Content(BlindCopy(s)), Nameless(Content(s)), Inverse(Remap(s), Below(|s.nodes|)), order);
  }

  lemma NumberedAgree(s: Cpg, t: Cpg, o: seq<nat>, p: seq<nat>) returns (e: map<nat, nat>)
    requires Valid(s) && EdgesInside(s) && Valid(t) && EdgesInside(t)
    requires CompleteOrder(Nameless(Content(s)), o) && CompleteOrder(Nameless(Content(t)), p)
    requires Encode(Nameless(Content(s)), o) == Encode(Nameless(Content(t)), p)
    ensures Isomorphism(Content(NumberedCopy(s, o)), Content(NumberedCopy(t, p)), e)
  {
    hide Isomorphism, Content, Rebuild, MapLabels, Remap, Encode, Valid, Renamed, RenameNode, Relabelled;
    ValidSound(s);
    ValidSound(t);
    SoundUnique(s);
    SoundUnique(t);
    ContentWellFormed(s);
    ContentWellFormed(t);
    NamelessWellFormed(Content(s));
    NamelessWellFormed(Content(t));
    EncodeUniquelyDecodes(Nameless(Content(s)), o, Nameless(Content(t)), p);
    RenamedIsomorphic(Content(s), Content(t), o, p);
    RenamedCopy(s, o);
    RenamedCopy(t, p);
    RebuildIsomorphic(s, RenameNode(Content(s), o));
    RebuildIsomorphic(t, RenameNode(Content(t), p));
    e := Bridge(Renamed(Content(s), o), Renamed(Content(t), p), PositionMap(o, p),
                Content(NumberedCopy(s, o)), Remap(s), Content(NumberedCopy(t, p)), Remap(t));
  }

  lemma CollapsedAgree(s: Cpg, t: Cpg, f: map<nat, nat>) returns (e: map<nat, nat>)
    requires UniqueIds(s.nodes) && EdgesInside(s) && UniqueIds(t.nodes) && EdgesInside(t)
    requires Isomorphism(Content(s), Content(t), f)
    ensures Isomorphism(Content(CollapsedCopy(s)), Content(CollapsedCopy(t)), e)
  {
    hide Isomorphism, Content, Rebuild, Relabelled, MapLabels, Remap;
    MapLabelsIsomorphic(Content(s), Content(t), f, Collapse());
    RelabelledByFields(s, CollapseNode(), Collapse());
    RelabelledByFields(t, CollapseNode(), Collapse());
    RebuildIsomorphic(s, CollapseNode());
    RebuildIsomorphic(t, CollapseNode());
    e := Bridge(MapLabels(Content(s), Collapse()), MapLabels(Content(t), Collapse()), f,
                Content(CollapsedCopy(s)), Remap(s), Content(CollapsedCopy(t)), Remap(t));
  }

  lemma LocalsAgree(c: Graph, d: Graph, f: map<nat, nat>)
    requires Isomorphism(Nameless(c), Nameless(d), f)
    ensures HasLocals(c) <==> HasLocals(d)
    ensures !HasLocals(c) ==> Nameless(c) == c && Nameless(d) == d
  {
    hide PreservesEdges;
    var a, b := Nameless(c), Nameless(d);
    IsomorphismLands(a, b, f);
    if v :| v in c.labels && IsLocal(c.labels[v]) {
      assert SameLabel(a, v, b, f[v]);
    }
    if w :| w in d.labels && IsLocal(d.labels[w]) {
      var v := PreimageOf(f, a.labels.Keys, b.labels.Keys, w);
      assert SameLabel(a, v, b, f[v]);
    }
  }

  ghost predicate SameNormal(r: Normal, s: Normal) {
    match (r, s)
    case (Failed, Failed) => true
    case (Spent(i), Spent(j)) => i == j
    case (Ready(c, i), Ready(d, j)) =>
      i == j && SoundExceptLabels(c) && SoundExceptLabels(d) && Isomorphic(Content(c), Content(d))
    case _ => false
  }

  lemma NormalAgreeUnnamed(s: Cpg, t: Cpg, f: map<nat, nat>, used: nat, limit: nat, sha: Bytes -> Bytes)
    requires Valid(s) && EdgesInside(s) && UniqueIds(s.nodes) && Valid(t) && EdgesInside(t) && UniqueIds(t.nodes)
    requires AgreeUpTo(s, t, f, BlindLabel())
    requires !HasLocals(Content(s)) && !HasLocals(Content(t))
    ensures SameNormal(NormalOf(s, used, limit, sha), NormalOf(t, used, limit, sha))
  {
    hide Isomorphism, Content, Rebuild, MapLabels, Valid, SoundExceptLabels, HasLocals;
    ValidSound(s);
    ValidSound(t);
    LocalsAgree(Content(s), Content(t), f);
    var e := CollapsedAgree(s, t, f);
    RebuildSound(s, CollapseNode());
    RebuildSound(t, CollapseNode());
  }

  lemma NormalCopySound(s: Cpg, order: seq<nat>)
    requires SoundExceptLabels(s) && EdgesInside(s) && UniqueIds(s.nodes)
    requires forall v :: v in order ==> v in Below(|s.nodes|)
    ensures SoundExceptLabels(NormalCopy(s, order))
  {
    hide Content, Rebuild, SoundExceptLabels, RenameNode, ReadBack, UniqueIds;
    var o := ReadBack(s, order);
    RebuildSelfNumbered(s, RenameNode(Content(s), o));
    RebuildSound(s, RenameNode(Content(s), o));
    RebuildSound(NumberedCopy(s, o), CollapseNode());
  }

  lemma NormalAgreeNumbered(s: Cpg, t: Cpg, o: seq<nat>, p: seq<nat>) returns (e: map<nat, nat>)
    requires Valid(s) && EdgesInside(s) && UniqueIds(s.nodes) && Valid(t) && EdgesInside(t) && UniqueIds(t.nodes)
    requires CompleteOrder(Content(BlindCopy(s)), o) && CompleteOrder(Content(BlindCopy(t)), p)
    requires Encode(Content(BlindCopy(s)), o) == Encode(Content(BlindCopy(t)), p)
    ensures forall v :: v in o ==> v in Below(|s.nodes|)
    ensures forall v :: v in p ==> v in Below(|t.nodes|)
    ensures Isomorphism(Content(NormalCopy(s, o)), Content(NormalCopy(t, p)), e)
  {
    hide Isomorphism, Content, BlindCopy, Encode, Valid, Nameless, CompleteOrder, RenameNode, Rebuild, Below,
      UniqueIds, ReadBack;
    ReadBackEncodes(s, o);
    ReadBackEncodes(t, p);
    var o', p' := ReadBack(s, o), ReadBack(t, p);
    var d := NumberedAgree(s, t, o', p');
    RebuildSelfNumbered(s, RenameNode(Content(s), o'));
    RebuildSelfNumbered(t, RenameNode(Content(t), p'));
    e := CollapsedAgree(NumberedCopy(s, o'), NumberedCopy(t, p'), d);
  }

  lemma BlindOutcomesAgree(s: Cpg, t: Cpg, f: map<nat, nat>, used: nat, limit: nat, sha: Bytes -> Bytes)
    requires Valid(s) && EdgesInside(s) && UniqueIds(s.nodes) && Valid(t) && EdgesInside(t) && UniqueIds(t.nodes)
    requires AgreeUpTo(s, t, f, BlindLabel())
    ensures var r, q := OutcomeOf(BlindCopy(s), used, limit, sha), OutcomeOf(BlindCopy(t), used, limit, sha);
            && (r.Strong? <==> q.Strong?) && (r.Weak? <==> q.Weak?) && (r.Strong? || r.Weak?) && r.states == q.states
            && CompleteOrder(Content(BlindCopy(s)), r.order) && CompleteOrder(Content(BlindCopy(t)), q.order)
            && (r.Strong? ==> Encode(Content(BlindCopy(s)), r.order) == Encode(Content(BlindCopy(t)), q.order))
  {
    hide Isomorphism, Content, BlindCopy, Valid, OutcomeOf, Encode, CompleteOrder, AgreeUpTo, UniqueIds, EdgesInside,
      WellFormed;
    BlindCopyValid(s);
    BlindCopyValid(t);
    var e := BlindCopiesAgree(s, t, f);
    StrongIdentityInvariant(BlindCopy(s), BlindCopy(t), e, used, limit, sha);
    OutcomeEncodes(BlindCopy(s), used, limit, sha);
    OutcomeEncodes(BlindCopy(t), used, limit, sha);
    var r, q := OutcomeOf(BlindCopy(s), used, limit, sha), OutcomeOf(BlindCopy(t), used, limit, sha);
    if r.Strong? { SamePreimage(r, q); }
  }

  lemma NormalAgreeNamed(s: Cpg, t: Cpg, f: map<nat, nat>, used: nat, limit: nat, sha: Bytes -> Bytes)
    requires Valid(s) && EdgesInside(s) && UniqueIds(s.nodes) && Valid(t) && EdgesInside(t) && UniqueIds(t.nodes)
    requires AgreeUpTo(s, t, f, BlindLabel()) && HasLocals(Content(s)) && HasLocals(Content(t))
    ensures SameNormal(NormalOf(s, used, limit, sha), NormalOf(t, used, limit, sha))
  {
    hide Isomorphism, Content, BlindCopy, Valid, HasLocals, OutcomeOf, Encode, CompleteOrder, NormalCopy, AgreeUpTo,
      Below, UniqueIds, EdgesInside, SoundExceptLabels;
    BlindOutcomesAgree(s, t, f, used, limit, sha);
    var r, q := OutcomeOf(BlindCopy(s), used, limit, sha), OutcomeOf(BlindCopy(t), used, limit, sha);
    if r.Strong? {
      ValidSound(s);
      ValidSound(t);
      var d := NormalAgreeNumbered(s, t, r.order, q.order);
      NormalCopySound(s, r.order);
      NormalCopySound(t, q.order);
    }
  }

  lemma NormalAgree(s: Cpg, t: Cpg, f: map<nat, nat>, used: nat, limit: nat, sha: Bytes -> Bytes)
    requires Valid(s) && EdgesInside(s) && UniqueIds(s.nodes) && Valid(t) && EdgesInside(t) && UniqueIds(t.nodes)
    requires AgreeUpTo(s, t, f, BlindLabel())
    ensures SameNormal(NormalOf(s, used, limit, sha), NormalOf(t, used, limit, sha))
  {
    hide Isomorphism, Content, Valid, UniqueIds, EdgesInside, HasLocals, NormalOf, SameNormal;
    LocalsAgree(Content(s), Content(t), f);
    if HasLocals(Content(s)) {
      NormalAgreeNamed(s, t, f, used, limit, sha);
    } else {
      NormalAgreeUnnamed(s, t, f, used, limit, sha);
    }
  }

  // ----- the theorem

  ghost predicate SameFingerprint(r: Fingerprint, s: Fingerprint) {
    match (r, s)
    case (StrongSlice(c, i), StrongSlice(d, j)) => c == d && i == j
    case (WeakSlice(_, i), WeakSlice(_, j)) => i == j
    case _ => r == s
  }

  lemma FinalAgree(c: Cpg, d: Cpg, e: map<nat, nat>, used: nat, limit: nat, sha: Bytes -> Bytes)
    requires SoundExceptLabels(c) && SoundExceptLabels(d) && Isomorphism(Content(c), Content(d), e)
    ensures var r, s := OutcomeOf(c, used, limit, sha), OutcomeOf(d, used, limit, sha);
            || (r.Rejected? && s.Rejected?)
            || (r.Strong? && s.Strong? && r.code == s.code && r.states == s.states)
            || (r.Weak? && s.Weak? && r.states == s.states)
  {
    ValidTogether(c, d, e);
    if Valid(c) {
      hide Isomorphism, Content, Valid, SoundExceptLabels, OutcomeOf;
      StrongIdentityInvariant(c, d, e, used, limit, sha);
      var r, s := OutcomeOf(c, used, limit, sha), OutcomeOf(d, used, limit, sha);
      if r.Strong? { SamePreimage(r, s); }
    }
  }

  lemma SlicesAgree(g: Cpg, h: Cpg, f: map<nat, nat>, w: seq<nat>, used: nat, limit: nat, sha: Bytes -> Bytes)
    requires Valid(g) && Valid(h) && EdgesInside(g) && EdgesInside(h) && UniqueIds(g.nodes) && UniqueIds(h.nodes)
    requires AgreeUpTo(g, h, f, BlindLabel()) && w != [] && forall u :: u in w ==> u in f
    ensures var r, s := SliceOf(g, w), SliceOf(h, MoveOrder(f, w));
            && r.Sliced? && s.Sliced? && SelfNumbered(r.cpg) && SelfNumbered(s.cpg)
            && SameNormal(NormalOf(r.cpg, used, limit, sha), NormalOf(s.cpg, used, limit, sha))
  {
    hide Isomorphism, Content, Valid, NormalOf, SliceOf, AgreeUpTo, UniqueIds, EdgesInside, MoveOrder, SameNormal;
    var w' := MoveOrder(f, w);
    var e := SlicesCarried(g, h, f, BlindLabel(), w);
    SliceSelfNumbered(g, w);
    SliceSelfNumbered(h, w');
    SliceValid(g, w);
    SliceValid(h, w');
    NormalAgree(SliceOf(g, w).cpg, SliceOf(h, w').cpg, e, used, limit, sha);
  }

  lemma FinishAgree(m: Normal, n: Normal, t: seq<nat>, u: seq<nat>, limit: nat, sha: Bytes -> Bytes)
    requires SameNormal(m, n)
    ensures SameFingerprint(Finish(m, t, limit, sha), Finish(n, u, limit, sha))
  {
    hide Isomorphism, Content, OutcomeOf, SoundExceptLabels;
    if m.Ready? {
      var d :| Isomorphism(Content(m.cpg), Content(n.cpg), d);
      FinalAgree(m.cpg, n.cpg, d, m.states, limit, sha);
    }
  }

  /** Graphs that differ by an isomorphism and by the text of IDENTIFIER nodes get
      the same class, the same number of states and the same strong bytes. */
  lemma SliceIdentityInvariant(g: Cpg, h: Cpg, f: map<nat, nat>, w: seq<nat>, limit: nat, sha: Bytes -> Bytes)
    requires Valid(g) && Valid(h) && AgreeUpTo(g, h, f, BlindLabel()) && forall u :: u in w ==> u in f
    ensures SameFingerprint(FingerprintOf(g, w, limit, sha), FingerprintOf(h, MoveOrder(f, w), limit, sha))
  {
    ValidSound(g);
    ValidSound(h);
    hide Isomorphism, Content, Valid, Finish, NormalOf, SliceOf, AgreeUpTo, UniqueIds, EdgesInside, SoundExceptLabels,
      SameNormal;
    if w == [] {
      EmptySlices(g, h);
    } else if limit > 0 {
      SlicesAgree(g, h, f, w, 0, limit, sha);
      var r, s := SliceOf(g, w), SliceOf(h, MoveOrder(f, w));
      FinishAgree(NormalOf(r.cpg, 0, limit, sha), NormalOf(s.cpg, 0, limit, sha), r.trail, s.trail, limit, sha);
    }
  }

  lemma EmptySlices(g: Cpg, h: Cpg)
    ensures SliceOf(g, []) == EmptyWitness && SliceOf(h, []) == EmptyWitness
  {
  }

  /** On a valid slice the passes always finish or exhaust the budget. */
  lemma NormalNeverFails(s: Cpg, used: nat, limit: nat, sha: Bytes -> Bytes)
    requires Valid(s) && EdgesInside(s) && UniqueIds(s.nodes)
    ensures !NormalOf(s, used, limit, sha).Failed?
  {
    hide Isomorphism, Content, BlindCopy, Valid, HasLocals, OutcomeOf, Encode, CompleteOrder, NormalCopy, Below,
      UniqueIds, EdgesInside;
    BlindCopyValid(s);
    OutcomeEncodes(BlindCopy(s), used, limit, sha);
    var r := OutcomeOf(BlindCopy(s), used, limit, sha);
    ReadBackEncodes(s, r.order);
  }

  /** What normalisation makes of the slice of a valid graph. */
  ghost function NormalSlice(g: Cpg, w: seq<nat>, limit: nat, sha: Bytes -> Bytes): (r: Normal)
    requires Valid(g) && SliceOf(g, w).Sliced?
  {
    ValidSound(g);
    SliceSelfNumbered(g, w);
    NormalOf(SliceOf(g, w).cpg, 0, limit, sha)
  }

  lemma StrongIsEncoding(n: Normal, t: seq<nat>, limit: nat, sha: Bytes -> Bytes) returns (o: seq<nat>)
    requires Finish(n, t, limit, sha).StrongSlice?
    ensures n.Ready? && WellFormed(Content(n.cpg)) && CompleteOrder(Content(n.cpg), o)
    ensures Finish(n, t, limit, sha).code == Encode(Content(n.cpg), o)
  {
    hide Content, Encode, CompleteOrder, WellFormed, FitsNode, FitsEdge, UniqueIds;
    OutcomeEncodes(n.cpg, n.states, limit, sha);
    o := OutcomeOf(n.cpg, n.states, limit, sha).order;
  }

  lemma StrongHasSlice(g: Cpg, w: seq<nat>, limit: nat, sha: Bytes -> Bytes)
    requires FingerprintOf(g, w, limit, sha).StrongSlice?
    ensures Valid(g) && SliceOf(g, w).Sliced?
    ensures FingerprintOf(g, w, limit, sha) == Finish(NormalSlice(g, w, limit, sha), SliceOf(g, w).trail, limit, sha)
  {
    hide Content, NormalOf, SliceOf, EdgesInside, UniqueIds, FitsNode, FitsEdge, Finish;
  }

  /** Equal strong fingerprints certify isomorphic normalised slices. */
  lemma StrongSliceComplete(g: Cpg, h: Cpg, w: seq<nat>, x: seq<nat>, b: nat, l: nat, sha: Bytes -> Bytes)
    requires var r, s := FingerprintOf(g, w, b, sha), FingerprintOf(h, x, l, sha);
             r.StrongSlice? && s.StrongSlice? && r.code == s.code
    ensures Valid(g) && SliceOf(g, w).Sliced? && Valid(h) && SliceOf(h, x).Sliced?
    ensures var m, n := NormalSlice(g, w, b, sha), NormalSlice(h, x, l, sha);
            m.Ready? && n.Ready? && Isomorphic(Content(m.cpg), Content(n.cpg))
  {
    hide FingerprintOf, Finish, NormalSlice, SliceOf, Content, Valid, Encode, CompleteOrder, Isomorphism, WellFormed;
    StrongHasSlice(g, w, b, sha);
    StrongHasSlice(h, x, l, sha);
    var m, n := NormalSlice(g, w, b, sha), NormalSlice(h, x, l, sha);
    var o := StrongIsEncoding(m, SliceOf(g, w).trail, b, sha);
    var p := StrongIsEncoding(n, SliceOf(h, x).trail, l, sha);
    EncodeUniquelyDecodes(Content(m.cpg), o, Content(n.cpg), p);
  }
}
