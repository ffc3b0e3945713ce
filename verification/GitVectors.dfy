/** Git's order and texts, stated on names and written out on examples. */
module GitVectors {
  import opened FiniteSets
  import opened ByteStrings
  import opened Encoding
  import opened Normalisation
  import opened JoinedTexts
  import opened GitTrees
  import opened GitCommits
  import opened GitExpansions
  import opened GitObjects

  // ----- the order of tree entries

  predicate PartAt(s: Bytes, t: Bytes, k: nat) {
    k < |s| && k < |t| && s[k] != t[k] && forall i :: 0 <= i < k ==> s[i] == t[i]
  }

  /** `t` begins with `s` and goes on. */
  predicate GoesOn(s: Bytes, t: Bytes) {
    |s| < |t| && forall i :: 0 <= i < |s| ==> s[i] == t[i]
  }

  /** Names that part ways compare where they do. A name that goes on after the other comes
      later, except that a directory counts as followed by a slash. */
  ghost predicate NameFirst(e: Entry, f: Entry) {
    || (exists k: nat :: PartAt(e.name, f.name, k) && e.name[k] < f.name[k])
    || (GoesOn(e.name, f.name) && (e.mode == Directory ==> f.name[|e.name|] > 47))
    || (GoesOn(f.name, e.name) && f.mode == Directory && e.name[|f.name|] < 47)
  }

  lemma {:induction false} Parting(a: Bytes, b: Bytes) returns (p: Bytes, u: Bytes, v: Bytes)
    ensures a == p + u && b == p + v && (u == [] || v == [] || u[0] != v[0])
  {
    if a != [] && b != [] && a[0] == b[0] {
      p, u, v := Parting(a[1..], b[1..]);
      assert a == [a[0]] + a[1..] && b == [b[0]] + b[1..];
      p := [a[0]] + p;
    } else {
      p, u, v := [], a, b;
    }
  }

  lemma PartingFirst(e: Entry, f: Entry, p: Bytes, u: Bytes, v: Bytes)
    requires e.name == p + u && f.name == p + v && u != [] && v != [] && u[0] != v[0]
    ensures NameFirst(e, f) <==> u[0] < v[0]
  {
    assert e.name[|p|] == u[0] && f.name[|p|] == v[0];
    assert PartAt(e.name, f.name, |p|);
    forall k: nat | PartAt(e.name, f.name, k) ensures k == |p| { }
  }

  lemma ShorterFirst(e: Entry, f: Entry, v: Bytes)
    requires f.name == e.name + v && v != []
    ensures NameFirst(e, f) <==> (e.mode == Directory ==> v[0] > 47)
    ensures NameFirst(f, e) <==> e.mode == Directory && v[0] < 47
  {
    assert f.name[|e.name|] == v[0];
    assert GoesOn(e.name, f.name);
  }

  lemma LessParting(p: Bytes, a: Bytes, b: Bytes)
    requires a != [] && b != [] && a[0] != b[0]
    ensures Less(p + a, p + b) <==> a[0] < b[0]
  {
    LessAfterPrefix(p, a, b);
  }

  /** Git order compares legal names in just that way. */
  lemma GitOrderIs(lim: Limits, e: Entry, f: Entry)
    requires LegalEntry(lim, e) && LegalEntry(lim, f) && e.name != f.name
    ensures Less(OrderKey(e), OrderKey(f)) <==> NameFirst(e, f)
  {
    hide NameFirst, LegalOid, Less, GoesOn, PartAt;
    var p, u, v := Parting(e.name, f.name);
    var x, y := [if e.mode == Directory then 47 else 0], [if f.mode == Directory then 47 else 0];
    assert OrderKey(e) == p + (u + x) && OrderKey(f) == p + (v + y);
    if u != [] && v != [] {
      LessParting(p, u + x, v + y);
      PartingFirst(e, f, p, u, v);
    } else if v != [] {
      assert e.name == p && f.name[|p|] == v[0];
      LessParting(p, u + x, v + y);
      ShorterFirst(e, f, v);
    } else {
      assert f.name == p && e.name[|p|] == u[0];
      LessParting(p, u + x, v + y);
      ShorterFirst(f, e, u);
    }
  }

  /** A directory beside a file whose name goes on: the file first exactly if the next byte
      is below the slash. */
  lemma DirectoryBeside(lim: Limits, es: seq<Entry>, i: nat, j: nat, c: Byte, rest: Bytes)
    requires Supported(lim, es) && i < |es| && j < |es|
    requires es[i].mode == Directory && es[j].name == es[i].name + [c] + rest
    ensures c != 47 && (c < 47 ==> j < i) && (c > 47 ==> i < j)
  {
    hide Legal, LegalOid, Less, OrderKey;
    var e, f := es[i], es[j];
    assert LegalEntry(lim, e) && LegalEntry(lim, f);
    assert f.name == e.name + ([c] + rest) && f.name[|e.name|] == c;
    LegalByte(lim, f.name, |e.name|);
    ShorterFirst(e, f, [c] + rest);
    if i < j { GitOrderIs(lim, e, f); }
    if j < i { GitOrderIs(lim, f, e); }
  }

  lemma LegalByte(lim: Limits, name: Bytes, k: nat)
    requires Legal(lim, name) && k < |name|
    ensures name[k] != 47 && name[k] >= 32
  {
  }

  // ----- names

  /** The names that are refused. */
  lemma LegalIs(lim: Limits, name: Bytes)
    ensures Legal(lim, name) <==>
              && lim.text(name) && |name| <= lim.maxPathBytes
              && name != Ascii("") && name != Ascii(".") && name != Ascii("..") && name != Ascii(".git")
              && Ascii("/")[0] !in name && Ascii("\\")[0] !in name && 127 !in name
              && forall b :: b in name ==> b > 31
  {
    assert Ascii("") == [] && Ascii(".") == [46] && Ascii("..") == [46, 46] && Ascii(".git") == [46, 103, 105, 116];
    assert Ascii("/")[0] == 47 && Ascii("\\")[0] == 92;
    if forall i :: 0 <= i < |name| ==> name[i] != 47 && name[i] != 92 && name[i] >= 32 && name[i] != 127 {
      forall b | b in name ensures b != 47 && b != 92 && b != 127 && b > 31 { }
    }
    forall i | 0 <= i < |name| ensures name[i] in name { }
  }

  /** The length that is bounded is that of the path with its slashes. */
  lemma {:induction false} PathLength(parts: seq<Bytes>)
    ensures PathBytes(parts) == |Join(47, parts)|
  {
    if |parts| > 1 {
      var front, last := parts[..|parts| - 1], parts[|parts| - 1];
      PathLength(front);
      JoinLast(front, last);
      assert parts == front + [last];
    } else if |parts| == 1 {
      assert parts[..0] == [] && PathBytes([]) == 0;
    }
  }

  lemma {:induction false} JoinLast(front: seq<Bytes>, last: Bytes)
    requires front != []
    ensures |Join(47, front + [last])| == |Join(47, front)| + 1 + |last|
  {
    var all := front + [last];
    if |front| > 1 {
      assert all[1..] == front[1..] + [last];
      JoinLast(front[1..], last);
    } else {
      assert all[1..] == [last];
      assert Join(47, [last]) == last + AfterFirst(47, [last]);
      assert Join(47, all) == all[0] + ([47] + Join(47, [last]));
    }
  }

  // ----- a tree written out

  /** A file lib.rs, a directory lib and a program run, in the order Git writes them. */
  lemma TreeVector(lim: Limits, a: Bytes, b: Bytes, c: Bytes)
    requires LegalOid(a) && LegalOid(b) && LegalOid(c) && lim.maxEntries >= 3 && lim.maxPathBytes >= 6
    requires lim.text(Ascii("lib.rs")) && lim.text(Ascii("lib")) && lim.text(Ascii("run"))
    ensures Candidate(lim,
              Ascii("100644 lib.rs") + [0] + a + (Ascii("40000 lib") + [0] + b) + (Ascii("100755 run") + [0] + c),
              [Entry(Regular, Ascii("lib.rs"), a), Entry(Directory, Ascii("lib"), b),
               Entry(Executable, Ascii("run"), c)])
  {
    hide LegalOid, Ascii, Less, OrderKey, PrintEntry, Legal;
    var x, y := Entry(Regular, Ascii("lib.rs"), a), Entry(Directory, Ascii("lib"), b);
    var z := Entry(Executable, Ascii("run"), c);
    var es := [x, y, z];
    NamesLegal(lim);
    EntryTexts(a, b, c);
    assert es[..2] == [x, y] && [x, y][..1] == [x] && [x][..0] == [];
    assert PrintTree([]) == [] && PrintTree([x]) == PrintEntry(x);
    assert PrintTree([x, y]) == PrintEntry(x) + PrintEntry(y);
    assert PrintTree(es) == PrintEntry(x) + PrintEntry(y) + PrintEntry(z);
    NamesOrdered(a, b, c);
  }

  lemma NamesLegal(lim: Limits)
    requires lim.maxPathBytes >= 6
    requires lim.text(Ascii("lib.rs")) && lim.text(Ascii("lib")) && lim.text(Ascii("run"))
    ensures Legal(lim, Ascii("lib.rs")) && Legal(lim, Ascii("lib")) && Legal(lim, Ascii("run"))
    ensures Ascii("lib.rs") != Ascii("lib") && Ascii("lib.rs") != Ascii("run") && Ascii("lib") != Ascii("run")
  {
    hide Ascii;
    NamesSpelt();
  }

  lemma EntryTexts(a: Bytes, b: Bytes, c: Bytes)
    ensures PrintEntry(Entry(Regular, Ascii("lib.rs"), a)) == Ascii("100644 lib.rs") + [0] + a
    ensures PrintEntry(Entry(Directory, Ascii("lib"), b)) == Ascii("40000 lib") + [0] + b
    ensures PrintEntry(Entry(Executable, Ascii("run"), c)) == Ascii("100755 run") + [0] + c
  {
    assert ModeBytes(Regular) + ([32] + Ascii("lib.rs")) == Ascii("100644 lib.rs");
    assert ModeBytes(Directory) + ([32] + Ascii("lib")) == Ascii("40000 lib");
    assert ModeBytes(Executable) + ([32] + Ascii("run")) == Ascii("100755 run");
  }

  lemma NamesOrdered(a: Bytes, b: Bytes, c: Bytes)
    ensures var x, y := OrderKey(Entry(Regular, Ascii("lib.rs"), a)), OrderKey(Entry(Directory, Ascii("lib"), b));
            var z := OrderKey(Entry(Executable, Ascii("run"), c));
            Less(x, y) && Less(y, z) && Less(x, z)
  {
    hide Less, Ascii;
    NamesSpelt();
    var d: Bytes := [108, 105, 98];
    LessParting(d, [46, 114, 115, 0], [47]);
    assert d + [46, 114, 115, 0] == Ascii("lib.rs") + [0] && d + [47] == Ascii("lib") + [47];
    LessParting([], Ascii("lib") + [47], Ascii("run") + [0]);
    LessParting([], Ascii("lib.rs") + [0], Ascii("run") + [0]);
    assert forall t: Bytes :: [] + t == t;
  }

  lemma NamesSpelt()
    ensures Ascii("lib.rs") == [108, 105, 98, 46, 114, 115] && Ascii("lib") == [108, 105, 98]
    ensures Ascii("run") == [114, 117, 110]
  {
  }

  // ----- objects

  lemma HeaderVector()
    ensures ObjectHeader(Ascii("commit"), 120) == Ascii("commit 120") + [0]
    ensures ObjectHeader(Ascii("tree"), 7) == Ascii("tree 7") + [0]
    ensures KINDS == {Ascii("commit"), Ascii("tree"), Ascii("blob")}
  {
    assert Decimal(1) == [49] && Decimal(12) == [49, 50] && Decimal(120) == [49, 50, 48] && Decimal(7) == [55];
  }

  /** Twenty bytes that are not all zero. */
  lemma LegalOidIs(oid: Bytes)
    ensures LegalOid(oid) <==> |oid| == 20 && oid != seq(20, i => 0)
  {
    if |oid| == 20 && !LegalOid(oid) { assert oid == seq(20, i => 0); }
  }

  /** The text that is hashed, and its two digests. */
  predicate Matches(hs: Hashes, x: Supplied, payload: Bytes) {
    var preimage := ObjectHeader(x.kind, |payload|) + payload;
    hs.sha1(preimage) == x.oid && hs.sha256(preimage) == x.preimageDigest && hs.sha256(payload) == x.payloadDigest
  }

  /** What is asked of a supplied object: a blob comes without payload and within the bound on
      files; a commit or tree with its payload, within the bound of its kind, and matching. */
  lemma AcceptedExactly(caps: Caps, hs: Hashes, x: Supplied)
    ensures Accepted(caps, hs, x) <==>
              && LegalOid(x.oid) && x.size >= 0 && |x.preimageDigest| == 32 && |x.payloadDigest| == 32
              && (|| (x.kind == Ascii("blob") && x.payload.None? && x.size <= caps.maxFileBytes)
                  || (&& (x.kind == Ascii("commit") || x.kind == Ascii("tree")) && x.payload.Some?
                      && |x.payload.value| == x.size && Matches(hs, x, x.payload.value)
                      && |ObjectHeader(x.kind, |x.payload.value|)| <= 64
                      && x.size <= if x.kind == Ascii("commit") then caps.maxCommitBytes else caps.maxTreeBytes))
  {
    hide Ascii, LegalOid, ObjectHeader;
    KindsDiffer();
  }

  /** Every object counts with its header, and trees once more by their payload. */
  lemma SizesCounted(x: Supplied, xs: seq<Supplied>)
    requires x.size >= 0
    ensures Total(PreimageSize, xs + [x]) == Total(PreimageSize, xs) + |ObjectHeader(x.kind, x.size)| + x.size
    ensures Total(TreeSize, xs + [x]) == Total(TreeSize, xs) + if x.kind == Ascii("tree") then x.size else 0
    ensures Total(PreimageSize, []) == 0 && Total(TreeSize, []) == 0
  {
    hide Ascii, ObjectHeader;
    assert (xs + [x])[..|xs|] == xs;
  }

  /** All objects together: few enough, each accepted, no id twice, and both totals in bounds. */
  lemma AdmissibleIs(caps: Caps, hs: Hashes, xs: seq<Supplied>)
    ensures Admissible(caps, hs, xs) <==>
              && !(caps.maxObjects < |xs|) && (forall i :: 0 <= i < |xs| ==> Accepted(caps, hs, xs[i]))
              && (forall i,
                  j {:trigger xs[i], xs[j]} :: 0 <= i < |xs| && 0 <= j < |xs| && xs[i].oid == xs[j].oid ==> i == j)
              && !(caps.maxTotalPreimageBytes < Total(PreimageSize, xs))
              && !(caps.maxTotalTreeBytes < Total(TreeSize, xs))
  {
    hide Accepted, Total;
  }

  lemma HexVector()
    ensures HexText([0, 165, 255]) == Ascii("00a5ff")
  {
    assert [0, 165, 255][1..] == [165, 255] && [165, 255][1..] == [255] && [255][1..] == [];
    assert HexText([255]) == [102, 102] && HexText([165, 255]) == [97, 53, 102, 102];
  }

  /** A path fits by its depth and by the length of its text. */
  lemma PathFitsIs(lim: Limits, parts: seq<Bytes>)
    ensures PathFits(lim, parts) <==> |parts| <= lim.maxDepth && |Join(47, parts)| <= lim.maxPathBytes
  {
    hide Join, PathBytes;
    PathLength(parts);
  }

  /** Each file counts once and by its size, each directory only as an entry. */
  lemma EntryCounted(index: Index, rs: seq<Record>, r: Record)
    requires r.entry.oid in index
    ensures r.entry.mode == Directory ==>
              |Files(rs + [r])| == |Files(rs)| && TotalSize(index, rs + [r]) == TotalSize(index, rs)
    ensures r.entry.mode != Directory && index[r.entry.oid].BlobObject? ==>
              |Files(rs + [r])| == |Files(rs)| + 1
              && TotalSize(index, rs + [r]) == TotalSize(index, rs) + index[r.entry.oid].size
    ensures Files([]) == [] && TotalSize(index, []) == 0
  {
    assert (rs + [r])[..|rs|] == rs;
  }

  /** A listing is refused for too many entries, too many files, or too many bytes. */
  lemma ExceedsIs(index: Index, lim: Limits, rs: seq<Record>)
    ensures Exceeds(index, lim, rs) <==>
              lim.maxEntries < |rs| || lim.maxFiles < |Files(rs)| || lim.maxTotalBytes < TotalSize(index, rs)
  {
  }

  /** The returned lists ascend by the text of the path. */
  lemma ReturnedAscends(index: Index, lim: Limits, commit: Bytes, root: Bytes, rs: seq<Record>, i: nat, j: nat)
    requires Expands(index, lim, commit, root, rs)
    ensures i < j < |TreeOf(rs).files| ==> Less(Join(47, TreeOf(rs).files[i].path), Join(47, TreeOf(rs).files[j].path))
    ensures i < j < |TreeOf(rs).directories| ==>
              Less(Join(47, TreeOf(rs).directories[i].path), Join(47, TreeOf(rs).directories[j].path))
    ensures forall r :: r in TreeOf(rs).files ==> r in rs && r.entry.mode != Directory
    ensures forall r :: r in TreeOf(rs).directories ==> r in rs && r.entry.mode == Directory
  {
    hide Listing, SortByPath, Files, Directories, Exceeds, KeysDiffer, LegalPaths, Less, Join, Roots, DistinctPaths;
    ListingFaithful(index, lim, root, [], {});
    ListingLegal(index, lim, root, [], {});
    KeysApart(lim, rs);
    PartsDiffer(rs);
    SortAscends(Files(rs));
    SortAscends(Directories(rs));
    forall r | r in TreeOf(rs).files ensures r in rs && r.entry.mode != Directory {
      SameMembers(TreeOf(rs).files, Files(rs), r);
      FileOf(rs, r);
    }
    forall r | r in TreeOf(rs).directories ensures r in rs && r.entry.mode == Directory {
      SameMembers(TreeOf(rs).directories, Directories(rs), r);
      DirectoryOf(rs, r);
    }
  }

  lemma {:induction false} FileOf(rs: seq<Record>, r: Record)
    requires r in Files(rs)
    ensures r in rs && r.entry.mode != Directory
  {
    if r in Files(rs[..|rs| - 1]) { FileOf(rs[..|rs| - 1], r); }
  }

  lemma {:induction false} DirectoryOf(rs: seq<Record>, r: Record)
    requires r in Directories(rs)
    ensures r in rs && r.entry.mode == Directory
  {
    if r in Directories(rs[..|rs| - 1]) { DirectoryOf(rs[..|rs| - 1], r); }
  }

  // ----- a commit written out

  /** A tree line, a parent line, another header and a message. */
  lemma CommitVector(lim: Limits, tree: Bytes, parent: Bytes)
    requires LegalOid(tree) && LegalOid(parent) && lim.maxParents >= 1 && lim.maxHeaderBytes >= 104
    ensures CommitText(lim,
              Ascii("tree ") + HexText(tree)
                + ([10] + (Ascii("parent ") + HexText(parent) + ([10] + Ascii("author a"))))
                + ([10, 10] + Ascii("hello")),
              [Ascii("tree ") + HexText(tree), Ascii("parent ") + HexText(parent),
               Ascii("author a")], Ascii("hello"), tree)
  {
    hide LegalOid, HexText, Ascii, Join, Visible;
    var a, b, c := Ascii("tree ") + HexText(tree), Ascii("parent ") + HexText(parent), Ascii("author a");
    var lines := [a, b, c];
    WordsSpelt();
    assert |tree| == 20 && |parent| == 20 by { OidLength(tree); OidLength(parent); }
    JoinThree(a, b, c);
    HexPlain(tree);
    HexPlain(parent);
    assert RefLine(a, TREE, tree) && RefLine(b, PARENT, parent);
    assert IsParent(b);
    AuthorLine();
    TreeReads(a, tree);
    ParentReads(a);
    ParentsAmong(a, b, c);
  }

  lemma OidLength(oid: Bytes)
    requires LegalOid(oid)
    ensures |oid| == 20
  {
  }

  lemma WordsSpelt()
    ensures Ascii("tree ") == TREE + [SPACE] && Ascii("parent ") == PARENT + [SPACE]
    ensures NEWLINE !in Ascii("tree ") && NEWLINE !in Ascii("parent ") && NEWLINE !in Ascii("author a")
    ensures |Ascii("tree ")| == 5 && |Ascii("parent ")| == 7 && |Ascii("author a")| == 8
  {
  }

  lemma {:induction false} HexPlain(oid: Bytes)
    ensures NEWLINE !in HexText(oid)
  {
    if oid != [] { HexPlain(oid[1..]); }
  }

  lemma JoinThree(a: Bytes, b: Bytes, c: Bytes)
    ensures Join(NEWLINE, [a, b, c]) == a + ([NEWLINE] + (b + ([NEWLINE] + c)))
  {
    assert [a, b, c][1..] == [b, c] && [b, c][1..] == [c];
    assert Join(NEWLINE, [c]) == c + AfterFirst(NEWLINE, [c]);
    assert Join(NEWLINE, [b, c]) == b + ([NEWLINE] + Join(NEWLINE, [c]));
  }

  lemma AuthorLine()
    ensures PlainLine(Ascii("author a")) && !IsParent(Ascii("author a"))
  {
    var key, value := Ascii("author"), Ascii("a");
    assert Ascii("author a") == key + [SPACE] + value;
    assert Visible(key) by { assert key == [97, 117, 116, 104, 111, 114]; }
    assert key != TREE && key != PARENT by { assert key[0] == 97 && TREE[0] == 116 && PARENT[0] == 112; }
    assert KeyLine(Ascii("author a"), key, value);
    PlainReads(Ascii("author a"));
    ParentReads(Ascii("author a"));
  }

  lemma ParentsAmong(a: Bytes, b: Bytes, c: Bytes)
    ensures CountParents([a, b, c]) <= 1 || IsParent(a) || IsParent(c)
  {
    hide IsParent;
    assert [a, b, c][..2] == [a, b] && [a, b][..1] == [a] && [a][..0] == [];
    assert CountParents([]) == 0 && CountParents([a]) == if IsParent(a) then 1 else 0;
    assert CountParents([a, b]) == CountParents([a]) + if IsParent(b) then 1 else 0;
  }
}
