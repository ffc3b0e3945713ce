/** Supplied Git objects: measured against their ids, indexed, and expanded from a
    commit. One commit id stands for one tree, unless SHA-1 has collided. */
module GitObjects {
  import opened ByteStrings
  import opened Encoding
  import opened Normalisation
  import opened JoinedTexts
  import opened GitTrees
  import opened GitCommits
  import opened GitExpansions

  const COMMIT := Ascii("commit")
  const BLOB := Ascii("blob")
  const KINDS := {COMMIT, TREE, BLOB}

  /** `GitObject`: a blob comes without its payload. */
  datatype Supplied = Supplied(oid: Bytes, kind: Bytes, size: int, payload: Option<Bytes>, preimageDigest: Bytes,
    payloadDigest: Bytes)

  datatype Caps = Caps(maxObjects: nat, maxCommitBytes: nat, maxTreeBytes: nat, maxTotalTreeBytes: nat,
    maxTotalPreimageBytes: nat, maxFileBytes: nat)

  /** SHA-1 and SHA-256. */
  datatype Hashes = Hashes(sha1: Bytes -> Bytes, sha256: Bytes -> Bytes)

  // ----- headers

  function ObjectHeader(kind: Bytes, size: nat): (r: Bytes) {
    kind + ([SPACE] + (Decimal(size) + [0]))
  }

  function PreimageOf(kind: Bytes, payload: Bytes): (r: Bytes) {
    ObjectHeader(kind, |payload|) + payload
  }

  predicate IsDecimal(text: Bytes) {
    text != [] && (text[0] != 48 || |text| == 1) && forall i :: 0 <= i < |text| ==> 48 <= text[i] <= 57
  }

  function Number(text: Bytes): (n: nat)
    requires forall i :: 0 <= i < |text| ==> 48 <= text[i] <= 57
  {
    if text == [] then 0 else 10 * Number(text[..|text| - 1]) + (text[|text| - 1] - 48)
  }

  lemma {:induction false} NumberPositive(text: Bytes)
    requires IsDecimal(text) && text[0] != 48
    ensures Number(text) > 0
  {
    if |text| > 1 { NumberPositive(text[..|text| - 1]); }
  }

  /** The digit texts without leading zeros are the decimals, one for each number. */
  lemma {:induction false} DecimalRead(text: Bytes)
    requires IsDecimal(text)
    ensures Decimal(Number(text)) == text
  {
    var front, last := text[..|text| - 1], text[|text| - 1];
    assert text == front + [last];
    if |text| > 1 {
      DecimalRead(front);
      NumberPositive(front);
      assert Number(text) / 10 == Number(front) && Number(text) % 10 == last - 48;
    }
  }

  lemma {:induction false} DecimalIsDecimal(n: nat)
    ensures IsDecimal(Decimal(n)) && (n > 0 ==> Decimal(n)[0] != 48)
  {
    if n >= 10 { DecimalIsDecimal(n / 10); }
  }

  lemma KindPlain(kind: Bytes)
    requires kind in KINDS
    ensures SPACE !in kind && 0 !in kind
  {
    assert COMMIT == [99, 111, 109, 109, 105, 116] && TREE == [116, 114, 101, 101] && BLOB == [98, 108, 111, 98];
  }

  /** A preimage splits into kind, size and payload in one way. */
  lemma PreimageSplits(kind: Bytes, n: nat, payload: Bytes, other: Bytes, m: nat, rest: Bytes)
    requires kind in KINDS && other in KINDS && ObjectHeader(kind, n) + payload == ObjectHeader(other, m) + rest
    ensures kind == other && n == m && payload == rest
  {
    hide Ascii, Decimal;
    KindPlain(kind);
    KindPlain(other);
    DecimalDigits(n);
    DecimalDigits(m);
    var a, b := Decimal(n) + ([0] + payload), Decimal(m) + ([0] + rest);
    assert ObjectHeader(kind, n) + payload == kind + ([SPACE] + a);
    assert ObjectHeader(other, m) + rest == other + ([SPACE] + b);
    SplitAtSeparator(SPACE, kind, [SPACE] + a, other, [SPACE] + b);
    PrefixCancel([SPACE], a, b);
    SplitAtSeparator(0, Decimal(n), [0] + payload, Decimal(m), [0] + rest);
    PrefixCancel([0], payload, rest);
    DecimalInjective(n, m);
  }

  // ----- `metadata_object`

  datatype Metadata = Metadata(kind: Bytes, payload: Bytes)
  datatype Head = Head(kind: Bytes, size: nat)

  /** The header pattern: a kind, a space, a decimal without leading zeros. */
  function ReadHeader(text: Bytes): (r: Option<Head>) {
    var cut := Find(text, SPACE, 0, |text|);
    if cut < 0 || text[..cut] !in KINDS || !IsDecimal(text[cut + 1..]) then None
    else Some(Head(text[..cut], Number(text[cut + 1..])))
  }

  lemma ReadHeaderExact(text: Bytes, h: Head)
    ensures ReadHeader(text) == Some(h) <==> h.kind in KINDS && text + [0] == ObjectHeader(h.kind, h.size)
  {
    hide Decimal, Number, Ascii;
    var cut := Find(text, SPACE, 0, |text|);
    if ReadHeader(text) == Some(h) {
      DecimalRead(text[cut + 1..]);
      assert text == h.kind + ([SPACE] + Decimal(h.size));
    }
    if h.kind in KINDS && text + [0] == ObjectHeader(h.kind, h.size) {
      var digits := Decimal(h.size);
      KindPlain(h.kind);
      DecimalIsDecimal(h.size);
      assert text == (text + [0])[..|text|] == h.kind + ([SPACE] + digits);
      assert text[|h.kind|] == SPACE;
      forall k | 0 <= k < |h.kind| ensures text[k] != SPACE { assert text[k] == h.kind[k]; }
      assert cut == |h.kind|;
      assert text[..cut] == h.kind && text[cut + 1..] == digits;
      DecimalRead(digits);
      DecimalInjective(Number(digits), h.size);
    }
  }

  function MaxBytes(caps: Caps, kind: Bytes): (n: nat) {
    if kind == COMMIT then caps.maxCommitBytes else caps.maxTreeBytes
  }

  /** `metadata_object` for an id and a preimage. */
  function MetadataObject(caps: Caps, sha1: Bytes -> Bytes, oid: Bytes, preimage: Bytes): (r: Option<Metadata>) {
    var nul := Find(preimage, 0, 0, |preimage|);
    if !LegalOid(oid) || |preimage| > Larger(caps.maxCommitBytes,
                                             caps.maxTreeBytes) + 64 || nul < 0 || nul + 1 > 64 then None
    else
      var payload := preimage[nul + 1..];
      match ReadHeader(preimage[..nul])
      case None => None
      case Some(h) =>
        if h.kind == BLOB || h.size != |payload| || h.size > MaxBytes(caps, h.kind) || sha1(preimage) != oid then None
        else Some(Metadata(h.kind, payload))
  }

  /** The preimage of this commit or tree, within its bounds, with this id. */
  predicate Measures(caps: Caps, sha1: Bytes -> Bytes, oid: Bytes, preimage: Bytes, m: Metadata) {
    && LegalOid(oid) && m.kind in {COMMIT, TREE} && preimage == PreimageOf(m.kind, m.payload) && sha1(preimage) == oid
    && |ObjectHeader(m.kind, |m.payload|)| <= 64 && |m.payload| <= MaxBytes(caps, m.kind)
  }

  lemma HeaderEnds(kind: Bytes, size: nat, rest: Bytes)
    requires kind in KINDS
    ensures var h := ObjectHeader(kind, size); h != [] && h[|h| - 1] == 0
    ensures var h := ObjectHeader(kind, size); Find(h + rest, 0, 0, |h + rest|) == |h| - 1
  {
    hide Decimal, Ascii;
    KindPlain(kind);
    DecimalDigits(size);
    var h := ObjectHeader(kind, size);
    var text := h + rest;
    assert text[|h| - 1] == h[|h| - 1] == 0;
    forall k | 0 <= k < |h| - 1 ensures text[k] != 0 { assert text[k] == h[k]; }
  }

  /** A preimage is accepted exactly when it is that of a commit or tree within bounds
      that hashes to the id, and that commit or tree is returned. */
  lemma MetadataExact(caps: Caps, sha1: Bytes -> Bytes, oid: Bytes, preimage: Bytes, m: Metadata)
    ensures MetadataObject(caps, sha1, oid, preimage) == Some(m) <==> Measures(caps, sha1, oid, preimage, m)
  {
    hide Ascii, ObjectHeader, ReadHeader, LegalOid;
    KindsDiffer();
    var nul := Find(preimage, 0, 0, |preimage|);
    if MetadataObject(caps, sha1, oid, preimage) == Some(m) {
      ReadHeaderExact(preimage[..nul], Head(m.kind, |m.payload|));
      assert preimage == preimage[..nul] + [0] + m.payload;
    }
    if Measures(caps, sha1, oid, preimage, m) {
      var h := ObjectHeader(m.kind, |m.payload|);
      HeaderEnds(m.kind, |m.payload|, m.payload);
      assert preimage == h + m.payload;
      assert preimage[..nul] + [0] == h;
      assert preimage[nul + 1..] == m.payload;
      ReadHeaderExact(preimage[..nul], Head(m.kind, |m.payload|));
    }
  }

  lemma KindsDiffer()
    ensures COMMIT != BLOB && TREE != BLOB && COMMIT != TREE
  {
    assert |COMMIT| == 6 && TREE[0] == 116 && BLOB[0] == 98 && |TREE| == 4;
  }

  // ----- the index

  /** What is asked of one supplied object. */
  predicate Accepted(caps: Caps, hs: Hashes, x: Supplied) {
    && LegalOid(x.oid) && x.kind in KINDS && x.size >= 0 && |x.preimageDigest| == 32 && |x.payloadDigest| == 32
    && if x.kind == BLOB then x.payload.None? && x.size <= caps.maxFileBytes
       else
         && x.payload.Some? && |x.payload.value| == x.size
         && Measures(caps, hs.sha1, x.oid, PreimageOf(x.kind, x.payload.value), Metadata(x.kind, x.payload.value))
         && hs.sha256(PreimageOf(x.kind, x.payload.value)) == x.preimageDigest
         && hs.sha256(x.payload.value) == x.payloadDigest
  }

  /** The checks of the loop, in its order. */
  method CheckObject(caps: Caps, hs: Hashes, x: Supplied) returns (ok: bool)
    ensures ok == Accepted(caps, hs, x)
  {
    hide Ascii, LegalOid, ObjectHeader;
    KindsDiffer();
    if !LegalOid(x.oid) || x.kind !in KINDS || x.size < 0 { return false; }
    if |x.preimageDigest| != 32 || |x.payloadDigest| != 32 { return false; }
    if x.kind == BLOB { return x.payload.None? && x.size <= caps.maxFileBytes; }
    if x.payload.None? || x.size > MaxBytes(caps, x.kind) || |x.payload.value| != x.size { return false; }
    var preimage := ObjectHeader(x.kind, x.size) + x.payload.value;
    var measured := MetadataObject(caps, hs.sha1, x.oid, preimage);
    MetadataExact(caps, hs.sha1, x.oid, preimage, Metadata(x.kind, x.payload.value));
    if measured.None? { return false; }
    MetadataExact(caps, hs.sha1, x.oid, preimage, measured.value);
    PreimageSplits(x.kind, x.size, x.payload.value, measured.value.kind, |measured.value.payload|,
                   measured.value.payload);
    ok := hs.sha256(preimage) == x.preimageDigest && hs.sha256(measured.value.payload) == x.payloadDigest;
  }

  function ObjectOf(x: Supplied): (r: Object) {
    if x.payload.None? then BlobObject(if x.size < 0 then 0 else x.size)
    else if x.kind == COMMIT then CommitObject(x.payload.value)
    else TreeObject(x.payload.value)
  }

  function Indexed(xs: seq<Supplied>): (r: Index) {
    if xs == [] then map[] else Indexed(xs[..|xs| - 1])[xs[|xs| - 1].oid := ObjectOf(xs[|xs| - 1])]
  }

  function PreimageSize(x: Supplied): (n: nat) {
    if x.size < 0 then 0 else |ObjectHeader(x.kind, x.size)| + x.size
  }

  function TreeSize(x: Supplied): (n: nat) {
    if x.size < 0 || x.kind != TREE then 0 else x.size
  }

  function Total(f: Supplied -> nat, xs: seq<Supplied>): (n: nat) {
    if xs == [] then 0 else Total(f, xs[..|xs| - 1]) + f(xs[|xs| - 1])
  }

  lemma {:induction false} TotalGrows(f: Supplied -> nat, xs: seq<Supplied>, k: nat)
    requires k <= |xs|
    ensures Total(f, xs[..k]) <= Total(f, xs)
  {
    if k < |xs| {
      TotalGrows(f, xs[..|xs| - 1], k);
      assert xs[..|xs| - 1][..k] == xs[..k];
    } else {
      assert xs[..k] == xs;
    }
  }

  ghost predicate OidsDiffer(xs: seq<Supplied>) {
    forall i, j {:trigger xs[i], xs[j]} :: 0 <= i < j < |xs| ==> xs[i].oid != xs[j].oid
  }

  /** The objects can be indexed: each is accepted, no id repeats, all bounds hold. */
  ghost predicate Admissible(caps: Caps, hs: Hashes, xs: seq<Supplied>) {
    && |xs| <= caps.maxObjects && (forall x :: x in xs ==> Accepted(caps, hs, x)) && OidsDiffer(xs)
    && Total(PreimageSize, xs) <= caps.maxTotalPreimageBytes && Total(TreeSize, xs) <= caps.maxTotalTreeBytes
  }

  lemma {:induction false} IndexedKeys(xs: seq<Supplied>, oid: Bytes)
    ensures oid in Indexed(xs) <==> exists i :: 0 <= i < |xs| && xs[i].oid == oid
  {
    if xs != [] {
      var front := xs[..|xs| - 1];
      IndexedKeys(front, oid);
      if i :| 0 <= i < |xs| && xs[i].oid == oid { assert i < |front| ==> front[i].oid == oid; }
      if i :| 0 <= i < |front| && front[i].oid == oid { assert xs[i].oid == oid; }
      assert xs[|xs| - 1].oid == oid ==> exists i :: 0 <= i < |xs| && xs[i].oid == oid;
    }
  }

  /** The first loop of `expand_objects`. */
  method IndexObjects(caps: Caps, hs: Hashes, xs: seq<Supplied>) returns (r: Option<Index>)
    ensures r.Some? <==> Admissible(caps, hs, xs)
    ensures r.Some? ==> r.value == Indexed(xs)
  {
    hide Accepted, ObjectOf, PreimageSize, TreeSize;
    if |xs| > caps.maxObjects { return None; }
    var index: Index := map[];
    var preimages, trees := 0, 0;
    for i := 0 to |xs|
      invariant index == Indexed(xs[..i])
      invariant preimages == Total(PreimageSize, xs[..i]) <= caps.maxTotalPreimageBytes
      invariant trees == Total(TreeSize, xs[..i]) <= caps.maxTotalTreeBytes
      invariant OidsDiffer(xs[..i]) && forall x :: x in xs[..i] ==> Accepted(caps, hs, x)
    {
      var x := xs[i];
      assert xs[..i + 1][..i] == xs[..i] && xs[..i + 1][i] == x;
      IndexedKeys(xs[..i], x.oid);
      TotalGrows(PreimageSize, xs, i + 1);
      TotalGrows(TreeSize, xs, i + 1);
      if x.oid in index {
        var k :| 0 <= k < i && xs[..i][k].oid == x.oid;
        assert xs[k].oid == xs[i].oid;
        return None;
      }
      var ok := CheckObject(caps, hs, x);
      if !ok { return None; }
      preimages, trees := preimages + PreimageSize(x), trees + TreeSize(x);
      if preimages > caps.maxTotalPreimageBytes || trees > caps.maxTotalTreeBytes { return None; }
      index := index[x.oid := ObjectOf(x)];
      OidsExtend(xs[..i], x);
      assert xs[..i] + [x] == xs[..i + 1];
    }
    assert xs[..|xs|] == xs;
    r := Some(index);
  }

  lemma OidsExtend(xs: seq<Supplied>, x: Supplied)
    requires OidsDiffer(xs) && forall i :: 0 <= i < |xs| ==> xs[i].oid != x.oid
    ensures OidsDiffer(xs + [x])
  {
  }

  /** `expand_objects`. */
  method ExpandObjects(commit: Bytes, xs: seq<Supplied>, lim: Limits, caps: Caps, hs: Hashes) returns (r: Expanded)
    ensures r.Tree? <==> LegalOid(commit) && Admissible(caps, hs, xs)
                         && exists root, rs :: Expands(Indexed(xs), lim, commit, root, rs)
    ensures r.Tree? ==> exists root, rs :: Expands(Indexed(xs), lim, commit, root, rs) && r == TreeOf(rs)
  {
    hide Admissible, Expands, TreeOf, Indexed;
    if !LegalOid(commit) { return Refused; }
    var index := IndexObjects(caps, hs, xs);
    if index.None? { return Refused; }
    r := Expand(index.value, lim, commit);
  }

  // ----- one commit id, one tree

  /** Two commits or trees with different preimages and one SHA-1. */
  ghost predicate Collides(sha1: Bytes -> Bytes, xs: seq<Supplied>, ys: seq<Supplied>) {
    exists x, y ::
      && x in xs && y in ys && x.payload.Some? && y.payload.Some?
      && PreimageOf(x.kind, x.payload.value) != PreimageOf(y.kind, y.payload.value)
      && sha1(PreimageOf(x.kind, x.payload.value)) == sha1(PreimageOf(y.kind, y.payload.value))
  }

  /** Commits and trees found under one id in both are the same. */
  ghost predicate Agree(a: Index, b: Index) {
    forall oid :: oid in a && oid in b && !a[oid].BlobObject? && !b[oid].BlobObject? ==> a[oid] == b[oid]
  }

  lemma {:induction false} IndexedFrom(xs: seq<Supplied>, oid: Bytes)
    requires oid in Indexed(xs)
    ensures exists x :: x in xs && x.oid == oid && Indexed(xs)[oid] == ObjectOf(x)
  {
    var front, last := xs[..|xs| - 1], xs[|xs| - 1];
    if oid == last.oid {
      assert last in xs;
    } else {
      IndexedFrom(front, oid);
      var x :| x in front && x.oid == oid && Indexed(front)[oid] == ObjectOf(x);
      assert x in xs;
    }
  }

  lemma SameObject(caps: Caps, dims: Caps, hs: Hashes, xs: seq<Supplied>, ys: seq<Supplied>, x: Supplied, y: Supplied)
    requires Accepted(caps, hs, x) && Accepted(dims, hs, y) && x in xs && y in ys && x.oid == y.oid
    requires x.payload.Some? && y.payload.Some? && !Collides(hs.sha1, xs, ys)
    ensures ObjectOf(x) == ObjectOf(y)
  {
    hide Ascii, ObjectHeader, LegalOid;
    PreimageSplits(x.kind, |x.payload.value|, x.payload.value, y.kind, |y.payload.value|, y.payload.value);
  }

  lemma IndexesAgree(caps: Caps, dims: Caps, hs: Hashes, xs: seq<Supplied>, ys: seq<Supplied>)
    requires Admissible(caps, hs, xs) && Admissible(dims, hs, ys) && !Collides(hs.sha1, xs, ys)
    ensures Agree(Indexed(xs), Indexed(ys))
  {
    hide Collides, Accepted, Total, OidsDiffer, Indexed;
    var a, b := Indexed(xs), Indexed(ys);
    forall oid | oid in a && oid in b && !a[oid].BlobObject? && !b[oid].BlobObject? ensures a[oid] == b[oid] {
      IndexedFrom(xs, oid);
      IndexedFrom(ys, oid);
      var x :| x in xs && x.oid == oid && a[oid] == ObjectOf(x);
      var y :| y in ys && y.oid == oid && b[oid] == ObjectOf(y);
      SameObject(caps, dims, hs, xs, ys, x, y);
    }
  }

  /** Limits at least as wide as both. */
  ghost function Wider(a: Limits, b: Limits): (r: Limits) {
    Limits(Larger(a.maxEntries, b.maxEntries), Larger(a.maxPathBytes, b.maxPathBytes), Larger(a.maxDepth, b.maxDepth),
           Larger(a.maxFiles, b.maxFiles), Larger(a.maxTotalBytes, b.maxTotalBytes),
           Larger(a.maxHeaderBytes, b.maxHeaderBytes), Larger(a.maxParents, b.maxParents), t => a.text(t) || b.text(t))
  }

  lemma WiderSupports(a: Limits, b: Limits, es: seq<Entry>)
    requires Supported(a, es) || Supported(b, es)
    ensures Supported(Wider(a, b), es)
  {
    hide LegalOid, GitOrder, DistinctNames;
  }

  lemma WiderCommit(a: Limits, b: Limits, payload: Bytes, lines: seq<Bytes>, body: Bytes, tree: Bytes)
    requires CommitText(a, payload, lines, body, tree) || CommitText(b, payload, lines, body, tree)
    ensures CommitText(Wider(a, b), payload, lines, body, tree)
  {
    hide Join, Free, RefLine, PlainLine, IsParent, CountParents;
  }

  lemma RootsAgree(a: Index, b: Index, lim: Limits, dim: Limits, commit: Bytes, root: Bytes, other: Bytes)
    requires Agree(a, b) && Roots(a, lim, commit, root) && Roots(b, dim, commit, other)
    ensures root == other
  {
    hide CommitText;
    var payload := a[commit].payload;
    var lines, body :| CommitText(lim, payload, lines, body, root);
    var others, rest :| CommitText(dim, payload, others, rest, other);
    WiderCommit(lim, dim, payload, lines, body, root);
    WiderCommit(lim, dim, payload, others, rest, other);
    CommitNamesOne(Wider(lim, dim), payload, lines, body, root, others, rest, other);
  }

  lemma EntriesAgree(a: Index, b: Index, lim: Limits, dim: Limits, oid: Bytes)
    requires Agree(a, b) && IsTree(a, lim, oid) && IsTree(b, dim, oid)
    ensures EntriesOf(a, lim, oid) == EntriesOf(b, dim, oid)
  {
    hide Supported, PrintTree;
    var es, fs := EntriesOf(a, lim, oid), EntriesOf(b, dim, oid);
    WiderSupports(lim, dim, es);
    WiderSupports(lim, dim, fs);
    OneTree(Wider(lim, dim), es, fs);
  }

  /** Two walks from one id that both succeed list the same. */
  lemma {:induction false} ListingsAgree(a: Index, b: Index, lim: Limits, dim: Limits, oid: Bytes, parent: seq<Bytes>,
                                         above: set<Bytes>)
    requires Agree(a, b) && Listing(a, lim, oid, parent, above).Good? && Listing(b, dim, oid, parent, above).Good?
    ensures Listing(a, lim, oid, parent, above) == Listing(b, dim, oid, parent, above)
    decreases a.Keys - above, 0
  {
    hide Agree, IsTree, ListEntries;
    EntriesAgree(a, b, lim, dim, oid);
    assert oid in a.Keys - above by { TreeKnown(a, lim, oid); }
    EntryListsAgree(a, b, lim, dim, EntriesOf(a, lim, oid), parent, above + {oid});
  }

  lemma {:induction false} EntryAgrees(a: Index, b: Index, lim: Limits, dim: Limits, e: Entry, parent: seq<Bytes>,
                                       above: set<Bytes>)
    requires Agree(a, b) && ListEntry(a, lim, e, parent, above).Good? && ListEntry(b, dim, e, parent, above).Good?
    ensures ListEntry(a, lim, e, parent, above) == ListEntry(b, dim, e, parent, above)
    decreases a.Keys - above, 1
  {
    hide Agree, PathFits, Listing;
    if e.mode == Directory { ListingsAgree(a, b, lim, dim, e.oid, parent + [e.name], above); }
  }

  lemma {:induction false} EntryListsAgree(a: Index, b: Index, lim: Limits, dim: Limits, es: seq<Entry>,
                                           parent: seq<Bytes>, above: set<Bytes>)
    requires Agree(a, b)
    requires ListEntries(a, lim, es, parent, above).Good? && ListEntries(b, dim, es, parent, above).Good?
    ensures ListEntries(a, lim, es, parent, above) == ListEntries(b, dim, es, parent, above)
    decreases a.Keys - above, 2 + |es|
  {
    hide Agree, ListEntry;
    if es != [] {
      EntryAgrees(a, b, lim, dim, es[0], parent, above);
      EntryListsAgree(a, b, lim, dim, es[1..], parent, above);
    }
  }

  // ----- and the objects behind it

  ghost predicate KindsListed(index: Index, rs: seq<Record>) {
    forall x :: x in rs ==>
      && x.entry.oid in index
      && if x.entry.mode == Directory then index[x.entry.oid].TreeObject? else index[x.entry.oid].BlobObject?
  }

  lemma {:induction false} ListingKinds(index: Index, lim: Limits, oid: Bytes, parent: seq<Bytes>, above: set<Bytes>)
    requires Listing(index, lim, oid, parent, above).Good?
    ensures oid in index && index[oid].TreeObject?
    ensures KindsListed(index, Listing(index, lim, oid, parent, above).records)
    decreases index.Keys - above, 0
  {
    hide ListEntries, KindsListed;
    assert oid in index.Keys - above by { TreeKnown(index, lim, oid); }
    EntriesKinds(index, lim, EntriesOf(index, lim, oid), parent, above + {oid});
  }

  lemma {:induction false} EntryKinds(index: Index, lim: Limits, e: Entry, parent: seq<Bytes>, above: set<Bytes>)
    requires ListEntry(index, lim, e, parent, above).Good?
    ensures KindsListed(index, ListEntry(index, lim, e, parent, above).records)
    decreases index.Keys - above, 1
  {
    hide PathFits, Listing;
    if e.mode == Directory { ListingKinds(index, lim, e.oid, parent + [e.name], above); }
  }

  lemma {:induction false} EntriesKinds(index: Index, lim: Limits, es: seq<Entry>, parent: seq<Bytes>,
                                        above: set<Bytes>)
    requires ListEntries(index, lim, es, parent, above).Good?
    ensures KindsListed(index, ListEntries(index, lim, es, parent, above).records)
    decreases index.Keys - above, 2 + |es|
  {
    hide ListEntry;
    if es != [] {
      EntryKinds(index, lim, es[0], parent, above);
      EntriesKinds(index, lim, es[1..], parent, above);
    }
  }

  /** The same ids, with the same commits and trees; blobs are blobs in both. */
  ghost predicate SameMetadata(a: Index, b: Index) {
    a.Keys == b.Keys && forall oid :: oid in a ==> a[oid] == b[oid] || (a[oid].BlobObject? && b[oid].BlobObject?)
  }

  lemma ExpandedAgree(a: Index, b: Index, lim: Limits, dim: Limits, commit: Bytes, root: Bytes, rs: seq<Record>)
    requires Agree(a, b) && Expands(a, lim, commit, root, rs) && Expands(b, dim, commit, root, rs)
    ensures SameMetadata(a, b)
  {
    hide Listing, Exceeds, CommitText;
    ListingKinds(a, lim, root, [], {});
    ListingKinds(b, dim, root, [], {});
    forall oid | oid in a ensures a[oid] == b[oid] || (a[oid].BlobObject? && b[oid].BlobObject?) {
      if oid != commit && oid != root { var x :| x in rs && x.entry.oid == oid; }
    }
  }

  /** Content addressing: whatever objects two callers supply, under whatever limits, one
      commit id expands to one listing from the same commits and trees, unless two of the
      supplied preimages collide. */
  lemma OneCommitOneTree(commit: Bytes, xs: seq<Supplied>, ys: seq<Supplied>, lim: Limits, dim: Limits, caps: Caps,
                         dims: Caps, hs: Hashes, root: Bytes, other: Bytes, rs: seq<Record>, qs: seq<Record>)
    requires Admissible(caps, hs, xs) && Expands(Indexed(xs), lim, commit, root, rs)
    requires Admissible(dims, hs, ys) && Expands(Indexed(ys), dim, commit, other, qs)
    ensures Collides(hs.sha1, xs, ys) || (root == other && rs == qs && SameMetadata(Indexed(xs), Indexed(ys)))
  {
    hide Admissible, Indexed, Listing, Exceeds, Roots, Agree, SameMetadata, Collides;
    if !Collides(hs.sha1, xs, ys) {
      var a, b := Indexed(xs), Indexed(ys);
      IndexesAgree(caps, dims, hs, xs, ys);
      RootsAgree(a, b, lim, dim, commit, root, other);
      ListingsAgree(a, b, lim, dim, root, [], {});
      ExpandedAgree(a, b, lim, dim, commit, root, rs);
    }
  }
}
