/** The bytes a slice identity is hashed over: canonical content on the strong
    path, the witness on the two weak ones. */
module SliceIdentities {
  import opened ByteStrings
  import opened Graphs
  import opened Arcs
  import opened Encoding
  import opened Swaps
  import opened Cpgs
  import opened Budgets
  import opened GraphIndexes
  import opened Fingerprints
  import opened FingerprintRuns

  const STRONG_SLICE := Ascii("SCANIPY-SLICE-STRONG/2\n")
  const SOURCE_WEAK := Ascii("SCANIPY-SLICE-WEAK/2\n")
  const LEGACY_WEAK := Ascii("CMP-CORE-02/witness-edge-sequence/v1\n")
  const DIGEST := 32

  function IdBytes(w: seq<nat>): (r: Bytes) {
    if w == [] then [] else U64(w[0]) + IdBytes(w[1..])
  }

  function KindBytes(ks: seq<Arc>): (r: Bytes) {
    if ks == [] then [] else Text(ks[0].kind) + KindBytes(ks[1..])
  }

  /** The sorted kinds of the edges along one step of the witness. */
  function StepBytes(c: Graph, a: nat, b: nat): (r: Bytes) {
    U64(|Kinds(c, a, b)|) + KindBytes(Kinds(c, a, b))
  }

  function StepsBytes(c: Graph, w: seq<nat>): (r: Bytes) {
    if |w| < 2 then [] else StepBytes(c, w[0], w[1]) + StepsBytes(c, w[1..])
  }

  predicate Joined(c: Graph, a: nat, b: nat) {
    Kinds(c, a, b) != []
  }

  /** Every step of the witness is an edge. */
  predicate Connected(c: Graph, w: seq<nat>) {
    |w| < 2 || (Joined(c, w[0], w[1]) && Connected(c, w[1..]))
  }

  function LegacyBytes(trail: seq<nat>): (r: Bytes) {
    LEGACY_WEAK + IdBytes(trail)
  }

  function SourceBytes(c: Graph, w: seq<nat>, digest: Bytes): (r: Bytes) {
    SOURCE_WEAK + (digest + (U64(|w|) + (IdBytes(w) + StepsBytes(c, w))))
  }

  // ----- the identity as a function of its inputs

  datatype Identity = Declined | Overdue | Published(bytes: Bytes, strong: bool, states: nat)

  /** Without a source digest the weak bytes are those of the remapped witness; with
      one they are those of the digest, the witness and the edges along it. */
  ghost function IdentityOf(g: Cpg, w: seq<nat>, digest: Option<Bytes>, limit: nat, sha: Bytes -> Bytes)
    : (r: Identity)
  {
    if digest.Some? && !(|digest.value| == DIGEST && Connected(Content(g), w)) then Declined
    else
      match FingerprintOf(g, w, limit, sha)
      case StrongSlice(code, states) => Published(STRONG_SLICE + code, true, states)
      case WeakSlice(trail, states) =>
        Published(if digest.Some? then SourceBytes(Content(g), w, digest.value) else LegacyBytes(trail), false, states)
      case _ => Declined
  }

  // ----- what the bytes determine

  lemma {:induction false} IdsCancel(w: seq<nat>, v: seq<nat>, x: Bytes, y: Bytes)
    requires |w| == |v| && (forall i :: 0 <= i < |w| ==> w[i] < TWO_64) && forall i :: 0 <= i < |v| ==> v[i] < TWO_64
    requires IdBytes(w) + x == IdBytes(v) + y
    ensures w == v && x == y
  {
    hide U64;
    if w == [] {
      assert IdBytes(w) + x == x && IdBytes(v) + y == y;
    } else {
      assert IdBytes(w) + x == U64(w[0]) + (IdBytes(w[1..]) + x);
      assert IdBytes(v) + y == U64(v[0]) + (IdBytes(v[1..]) + y);
      U64Cancel(w[0], v[0], IdBytes(w[1..]) + x, IdBytes(v[1..]) + y);
      IdsCancel(w[1..], v[1..], x, y);
    }
  }

  lemma {:induction false} IdsLength(w: seq<nat>)
    ensures |IdBytes(w)| == 8 * |w|
  {
    if w != [] { IdsLength(w[1..]); }
  }

  /** Records that say nothing but a kind that can be framed. */
  ghost predicate Plain(ks: seq<Arc>) {
    forall i :: 0 <= i < |ks| ==> ks[i].a == 0 && ks[i].b == 0 && |ks[i].kind| < TWO_64
  }

  lemma {:induction false} KindsCancel(ks: seq<Arc>, ls: seq<Arc>, x: Bytes, y: Bytes)
    requires Plain(ks) && Plain(ls) && |ks| == |ls| && KindBytes(ks) + x == KindBytes(ls) + y
    ensures ks == ls && x == y
  {
    hide Text;
    if ks == [] {
      assert KindBytes(ks) + x == x && KindBytes(ls) + y == y;
    } else {
      assert KindBytes(ks) + x == Text(ks[0].kind) + (KindBytes(ks[1..]) + x);
      assert KindBytes(ls) + y == Text(ls[0].kind) + (KindBytes(ls[1..]) + y);
      TextCancel(ks[0].kind, ls[0].kind, KindBytes(ks[1..]) + x, KindBytes(ls[1..]) + y);
      KindsCancel(ks[1..], ls[1..], x, y);
    }
  }

  lemma {:induction false} CollectedPlain(es: seq<Edge>, a: nat, b: nat)
    requires forall e :: e in es ==> |e.kind| < TWO_64
    ensures Plain(Collect(es, Between(a, b))) && |Collect(es, Between(a, b))| <= |es|
  {
    if es != [] {
      assert es[0] in es;
      CollectedPlain(es[1..], a, b);
    }
  }

  lemma KindsPlain(c: Graph, a: nat, b: nat)
    requires WellFormed(c)
    ensures Plain(Kinds(c, a, b)) && |Kinds(c, a, b)| < TWO_64
  {
    hide Sort, Collect;
    var raw, ks := Collect(c.edges, Between(a, b)), Kinds(c, a, b);
    CollectedPlain(c.edges, a, b);
    assert |multiset(ks)| == |ks| && |multiset(raw)| == |raw|;
    forall i | 0 <= i < |ks| ensures ks[i].a == 0 && ks[i].b == 0 && |ks[i].kind| < TWO_64 {
      assert ks[i] in multiset(raw);
      assert ks[i] in raw;
    }
  }

  lemma StepCancel(c: Graph, d: Graph, a: nat, b: nat, x: Bytes, y: Bytes)
    requires WellFormed(c) && WellFormed(d) && StepBytes(c, a, b) + x == StepBytes(d, a, b) + y
    ensures Kinds(c, a, b) == Kinds(d, a, b) && x == y
  {
    hide Kinds, KindBytes, U64, WellFormed;
    var ks, ls := Kinds(c, a, b), Kinds(d, a, b);
    KindsPlain(c, a, b);
    KindsPlain(d, a, b);
    assert StepBytes(c, a, b) + x == U64(|ks|) + (KindBytes(ks) + x);
    assert StepBytes(d, a, b) + y == U64(|ls|) + (KindBytes(ls) + y);
    U64Cancel(|ks|, |ls|, KindBytes(ks) + x, KindBytes(ls) + y);
    KindsCancel(ks, ls, x, y);
  }

  /** Along the witness both graphs have the same edges, kind by kind with multiplicity. */
  ghost predicate SameSteps(c: Graph, d: Graph, w: seq<nat>) {
    forall i :: 0 <= i < |w| - 1 ==> SameParallelEdges(c, w[i], w[i + 1], d, w[i], w[i + 1])
  }

  lemma {:induction false} StepsExact(c: Graph, d: Graph, w: seq<nat>)
    requires WellFormed(c) && WellFormed(d)
    ensures StepsBytes(c, w) == StepsBytes(d, w) <==> SameSteps(c, d, w)
  {
    hide StepBytes, SameParallelEdges, WellFormed;
    if |w| >= 2 {
      StepsExact(c, d, w[1..]);
      KindsExact(c, w[0], w[1], d, w[0], w[1]);
      if StepsBytes(c, w) == StepsBytes(d, w) {
        StepCancel(c, d, w[0], w[1], StepsBytes(c, w[1..]), StepsBytes(d, w[1..]));
      }
      StepsNext(c, d, w);
      StepSame(c, d, w[0], w[1]);
    }
  }

  lemma StepSame(c: Graph, d: Graph, a: nat, b: nat)
    ensures Kinds(c, a, b) == Kinds(d, a, b) ==> StepBytes(c, a, b) == StepBytes(d, a, b)
  {
  }

  lemma StepsNext(c: Graph, d: Graph, w: seq<nat>)
    requires |w| >= 2
    ensures SameSteps(c, d, w) <==> SameParallelEdges(c, w[0], w[1], d, w[0], w[1]) && SameSteps(c, d, w[1..])
  {
    hide SameParallelEdges;
    if SameParallelEdges(c, w[0], w[1], d, w[0], w[1]) && SameSteps(c, d, w[1..]) {
      forall i | 0 <= i < |w| - 1 ensures SameParallelEdges(c, w[i], w[i + 1], d, w[i], w[i + 1]) {
        if i > 0 { assert w[1..][i - 1] == w[i] && w[1..][i - 1 + 1] == w[i + 1]; }
      }
    }
    if SameSteps(c, d, w) {
      forall i | 0 <= i < |w[1..]| - 1
        ensures SameParallelEdges(c, w[1..][i], w[1..][i + 1], d, w[1..][i], w[1..][i + 1]) {
        assert w[1..][i] == w[i + 1] && w[1..][i + 1] == w[i + 1 + 1];
      }
    }
  }

  ghost predicate Framed(w: seq<nat>) {
    |w| < TWO_64 && forall i :: 0 <= i < |w| ==> w[i] < TWO_64
  }

  /** Source-scoped weak bytes are equal exactly for one source digest, one witness
      and the same edges along it. */
  lemma SourceExact(c: Graph, w: seq<nat>, digest: Bytes, d: Graph, v: seq<nat>, other: Bytes)
    requires WellFormed(c) && WellFormed(d) && Framed(w) && Framed(v) && |digest| == DIGEST == |other|
    ensures SourceBytes(c, w, digest) == SourceBytes(d, v, other) <==> digest == other && w == v && SameSteps(c, d, w)
  {
    hide U64, IdBytes, StepsBytes, SameSteps, WellFormed, Ascii;
    StepsExact(c, d, w);
    if SourceBytes(c, w, digest) == SourceBytes(d, v, other) {
      var x, y := IdBytes(w) + StepsBytes(c, w), IdBytes(v) + StepsBytes(d, v);
      PrefixCancel(SOURCE_WEAK, digest + (U64(|w|) + x), other + (U64(|v|) + y));
      FrontCancel(digest, other, U64(|w|) + x, U64(|v|) + y);
      U64Cancel(|w|, |v|, x, y);
      IdsCancel(w, v, StepsBytes(c, w), StepsBytes(d, v));
    }
  }

  lemma FrontCancel(a: Bytes, b: Bytes, x: Bytes, y: Bytes)
    requires |a| == |b| && a + x == b + y
    ensures a == b && x == y
  {
    assert a == (a + x)[..|a|] && b == (b + y)[..|b|];
    assert x == (a + x)[|a|..] && y == (b + y)[|b|..];
  }

  /** Legacy weak bytes are equal exactly for one remapped witness. */
  lemma LegacyExact(w: seq<nat>, v: seq<nat>)
    requires Framed(w) && Framed(v)
    ensures LegacyBytes(w) == LegacyBytes(v) <==> w == v
  {
    hide U64, IdBytes, Ascii;
    if LegacyBytes(w) == LegacyBytes(v) {
      PrefixCancel(LEGACY_WEAK, IdBytes(w), IdBytes(v));
      IdsLength(w);
      IdsLength(v);
      assert IdBytes(w) + [] == IdBytes(w) && IdBytes(v) + [] == IdBytes(v);
      IdsCancel(w, v, [], []);
    }
  }

  lemma DomainBytes()
    ensures |STRONG_SLICE| > 14 && |SOURCE_WEAK| > 14 && |LEGACY_WEAK| > 14
    ensures STRONG_SLICE[14] == 83 && SOURCE_WEAK[14] == 87 && STRONG_SLICE[0] == 83 == SOURCE_WEAK[0]
    ensures LEGACY_WEAK[0] == 67
  {
  }

  /** Whatever follows them, the three domains keep the identities apart. */
  lemma DomainsApart(x: Bytes, y: Bytes, z: Bytes)
    ensures STRONG_SLICE + x != SOURCE_WEAK + y && STRONG_SLICE + x != LEGACY_WEAK + z
    ensures SOURCE_WEAK + y != LEGACY_WEAK + z
  {
    hide Ascii;
    DomainBytes();
    var a, b, c := STRONG_SLICE + x, SOURCE_WEAK + y, LEGACY_WEAK + z;
    assert a[14] == STRONG_SLICE[14] && b[14] == SOURCE_WEAK[14];
    assert a[0] == STRONG_SLICE[0] && b[0] == SOURCE_WEAK[0] && c[0] == LEGACY_WEAK[0];
  }

  /** One identity belongs to one class; published strong identities are equal
      exactly when their content is. */
  lemma IdentityClass(g: Cpg, w: seq<nat>, e: Option<Bytes>, b: nat, h: Cpg, v: seq<nat>, f: Option<Bytes>, l: nat,
                      sha: Bytes -> Bytes)
    requires var r, s := IdentityOf(g, w, e, b, sha), IdentityOf(h, v, f, l, sha);
             r.Published? && s.Published? && r.bytes == s.bytes
    ensures var r, s := IdentityOf(g, w, e, b, sha), IdentityOf(h, v, f, l, sha);
            && r.strong == s.strong
            && (r.strong ==> FingerprintOf(g, w, b, sha).code == FingerprintOf(h, v, l, sha).code)
            && (!r.strong ==> e.Some? == f.Some?)
  {
    hide FingerprintOf, Content, Ascii, IdBytes, StepsBytes, Connected;
    var p, q := FingerprintOf(g, w, b, sha), FingerprintOf(h, v, l, sha);
    var x, y := if p.StrongSlice? then p.code else [], if q.StrongSlice? then q.code else [];
    ClassesApart(x, Content(h), v, if f.Some? then f.value else [], if q.WeakSlice? then q.trail else []);
    ClassesApart(y, Content(g), w, if e.Some? then e.value else [], if p.WeakSlice? then p.trail else []);
    WeakApart(Content(g), w, if e.Some? then e.value else [], if q.WeakSlice? then q.trail else []);
    WeakApart(Content(h), v, if f.Some? then f.value else [], if p.WeakSlice? then p.trail else []);
    if p.StrongSlice? && q.StrongSlice? { PrefixCancel(STRONG_SLICE, x, y); }
  }

  lemma ClassesApart(x: Bytes, c: Graph, w: seq<nat>, digest: Bytes, trail: seq<nat>)
    ensures STRONG_SLICE + x != SourceBytes(c, w, digest) && STRONG_SLICE + x != LegacyBytes(trail)
  {
    hide Ascii, IdBytes, StepsBytes;
    DomainsApart(x, digest + (U64(|w|) + (IdBytes(w) + StepsBytes(c, w))), IdBytes(trail));
  }

  lemma WeakApart(c: Graph, w: seq<nat>, digest: Bytes, trail: seq<nat>)
    ensures SourceBytes(c, w, digest) != LegacyBytes(trail)
  {
    hide Ascii, IdBytes, StepsBytes;
    DomainsApart([], digest + (U64(|w|) + (IdBytes(w) + StepsBytes(c, w))), IdBytes(trail));
  }

  // ----- as it runs

  datatype Witnessed = LateWitness | Broken | Witness(bytes: Bytes)

  lemma IdBytesNext(w: seq<nat>, i: nat)
    requires i < |w|
    ensures IdBytes(w[..i + 1]) == IdBytes(w[..i]) + U64(w[i])
    decreases i
  {
    hide U64;
    if i == 0 {
      assert w[..1] == [w[0]] && w[..0] == [];
      assert [w[0]][1..] == [];
    } else {
      IdBytesNext(w[1..], i - 1);
      assert w[1..][..i] == w[..i + 1][1..] && w[1..][..i - 1] == w[..i][1..];
    }
  }

  method FrameIds(w: seq<nat>) returns (h: Bytes)
    ensures h == IdBytes(w)
  {
    hide U64;
    h := [];
    for i := 0 to |w|
      invariant h == IdBytes(w[..i])
    {
      IdBytesNext(w, i);
      h := h + U64(w[i]);
    }
    assert w[..|w|] == w;
  }

  lemma KindsNext(ks: seq<Arc>, i: nat)
    requires i < |ks|
    ensures KindBytes(ks[i..]) == Text(ks[i].kind) + KindBytes(ks[i + 1..])
  {
    assert ks[i..][1..] == ks[i + 1..];
  }

  method FrameKinds(ks: seq<Arc>) returns (h: Bytes)
    ensures h == U64(|ks|) + KindBytes(ks)
  {
    hide U64, Text;
    h := U64(|ks|);
    assert ks[0..] == ks;
    for i := 0 to |ks|
      invariant h + KindBytes(ks[i..]) == U64(|ks|) + KindBytes(ks)
    {
      KindsNext(ks, i);
      h := h + Text(ks[i].kind);
    }
    assert KindBytes(ks[|ks|..]) == [];
  }

  lemma StepsFrom(c: Graph, w: seq<nat>, i: nat)
    requires i + 1 < |w|
    ensures StepsBytes(c, w[i..]) == StepBytes(c, w[i], w[i + 1]) + StepsBytes(c, w[i + 1..])
    ensures Connected(c, w[i..]) <==> Joined(c, w[i], w[i + 1]) && Connected(c, w[i + 1..])
  {
    hide StepBytes, Joined;
    assert w[i..][1..] == w[i + 1..];
  }

  lemma StepsEnd(c: Graph, w: seq<nat>)
    requires |w| < 2
    ensures StepsBytes(c, w) == [] && Connected(c, w)
  {
  }

  lemma LookedUp(ix: Index, c: Graph, a: nat, b: nat)
    requires Indexes(ix, c)
    ensures PairKinds(ix, a, b) == Kinds(c, a, b)
  {
  }

  /** The framed kinds of one step after another, up to the first that is no edge. */
  method FrameSteps(ix: Index, ghost c: Graph, w: seq<nat>) returns (ok: bool, steps: Bytes)
    requires Indexes(ix, c)
    ensures ok <==> Connected(c, w)
    ensures ok ==> steps == StepsBytes(c, w)
  {
    hide Indexes, Connected, StepsBytes, Kinds, KindBytes, U64, PairKinds;
    steps := [];
    var i := 0;
    assert w[0..] == w;
    while i + 1 < |w|
      invariant i == 0 || i < |w|
      invariant steps + StepsBytes(c, w[i..]) == StepsBytes(c, w) && (Connected(c, w[i..]) <==> Connected(c, w))
    {
      StepsFrom(c, w, i);
      var kinds := PairKinds(ix, w[i], w[i + 1]);
      LookedUp(ix, c, w[i], w[i + 1]);
      if kinds == [] { return false, []; }
      var framed := FrameKinds(kinds);
      steps := steps + framed;
      i := i + 1;
    }
    StepsEnd(c, w[i..]);
    ok := true;
  }

  /** `_source_witness_hash`: refused exactly when a step of the witness is no edge. */
  method SourceWitness(g: Cpg, w: seq<nat>, digest: Bytes, budget: Budget) returns (r: Witnessed)
    requires Valid(g)
    ensures r.Broken? ==> !Connected(Content(g), w)
    ensures r.Witness? ==> Connected(Content(g), w) && r.bytes == SourceBytes(Content(g), w, digest)
  {
    hide Valid, Content, U64, IdBytes, Ascii, Indexes, Connected, StepsBytes;
    var late, ix := Build(g, budget);
    if late { return LateWitness; }
    var ids := FrameIds(w);
    var ok, steps := FrameSteps(ix, Content(g), w);
    if !ok { return Broken; }
    var expired := budget.Check();
    if expired { return LateWitness; }
    r := Witness(SOURCE_WEAK + (digest + (U64(|w|) + (ids + steps))));
  }

  /** `compute_slice_fingerprint` without a digest, `compute_slice_fingerprint_v2` with
      one: only the deadline can keep a run from the identity its input determines. */
  method ComputeIdentity(g: Cpg, w: seq<nat>, digest: Option<Bytes>, b: int, sha: Bytes -> Bytes) returns (r: Identity)
    ensures r == Overdue || r == IdentityOf(g, w, digest, if b <= 0 then 0 else b, sha)
  {
    hide Content, FingerprintOf, Connected, IdBytes, StepsBytes, Ascii, Valid;
    if digest.Some? && |digest.value| != DIGEST { return Declined; }
    InvalidRefused(g, w, if b <= 0 then 0 else b, sha);
    if b <= 0 || !Valid(g) { return Declined; }
    var budget := new Budget(b);
    var weak: Bytes := [];
    if digest.Some? {
      var source := SourceWitness(g, w, digest.value, budget);
      match source {
        case LateWitness => return Overdue;
        case Broken => return Declined;
        case Witness(bytes) => weak := bytes;
      }
    }
    var result := ComputeSliceFingerprint(g, w, b, sha);
    match result {
      case TooLate => r := Overdue;
      case StrongSlice(code, states) => r := Published(STRONG_SLICE + code, true, states);
      case WeakSlice(trail, states) =>
        if digest.None? {
          var ids := FrameIds(trail);
          weak := LEGACY_WEAK + ids;
        }
        r := Published(weak, false, states);
      case _ => r := Declined;
    }
  }

  lemma InvalidRefused(g: Cpg, w: seq<nat>, limit: nat, sha: Bytes -> Bytes)
    ensures limit == 0 || !Valid(g) ==> FingerprintOf(g, w, limit, sha) == Refused
  {
    hide Valid;
  }
}
