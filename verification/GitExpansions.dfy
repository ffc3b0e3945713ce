/** `expand_objects`: the recursive walk from a root tree, and why its flat
    listing loses nothing. */
module GitExpansions {
  import opened FiniteSets
  import opened ByteStrings
  import opened GitTrees
  import opened GitCommits
  import opened JoinedTexts

  datatype Object = CommitObject(payload: Bytes) | TreeObject(payload: Bytes) | BlobObject(size: nat)
  type Index = map<Bytes, Object>

  /** One file or directory of the listing with its full path. */
  datatype Record = Record(path: seq<Bytes>, entry: Entry)
  datatype Walked = Bad | Good(records: seq<Record>)

  // ----- what a tree object holds

  ghost predicate IsTree(index: Index, lim: Limits, oid: Bytes) {
    oid in index && index[oid].TreeObject? && exists es :: Candidate(lim, index[oid].payload, es)
  }

  ghost function EntriesOf(index: Index, lim: Limits, oid: Bytes): (es: seq<Entry>)
    requires IsTree(index, lim, oid)
    ensures Candidate(lim, index[oid].payload, es)
  {
    var es :| Candidate(lim, index[oid].payload, es);
    es
  }

  lemma EntriesAre(index: Index, lim: Limits, oid: Bytes, es: seq<Entry>)
    requires oid in index && index[oid].TreeObject? && Candidate(lim, index[oid].payload, es)
    ensures IsTree(index, lim, oid) && EntriesOf(index, lim, oid) == es
  {
    hide Supported, PrintTree;
    OneTree(lim, es, EntriesOf(index, lim, oid));
  }

  // ----- paths

  function PathBytes(parts: seq<Bytes>): (n: nat) {
    if parts == [] then 0 else PathBytes(parts[..|parts| - 1]) + |parts[|parts| - 1]| + if |parts| == 1 then 0 else 1
  }

  predicate PathFits(lim: Limits, parts: seq<Bytes>) {
    |parts| <= lim.maxDepth && PathBytes(parts) <= lim.maxPathBytes
  }

  // ----- the walk as a function

  ghost function Listing(index: Index, lim: Limits, oid: Bytes, parent: seq<Bytes>, ancestors: set<Bytes>): (r: Walked)
    decreases index.Keys - ancestors, 0
  {
    if oid in ancestors || !IsTree(index, lim, oid) then Bad
    else
      assert oid in index.Keys - ancestors;
      ListEntries(index, lim, EntriesOf(index, lim, oid), parent, ancestors + {oid})
  }

  /** What one entry and everything below it contributes. */
  ghost function ListEntry(index: Index, lim: Limits, e: Entry, parent: seq<Bytes>, above: set<Bytes>): (r: Walked)
    decreases index.Keys - above, 1
  {
    var path := parent + [e.name];
    if !PathFits(lim, path) || e.oid !in index then Bad
    else if e.mode == Directory then
      var sub := Listing(index, lim, e.oid, path, above);
      if sub.Bad? then Bad else Good([Record(path, e)] + sub.records)
    else if !index[e.oid].BlobObject? then Bad
    else Good([Record(path, e)])
  }

  ghost function ListEntries(index: Index, lim: Limits, es: seq<Entry>, parent: seq<Bytes>, above: set<Bytes>)
    : (r: Walked)
    decreases index.Keys - above, 2 + |es|
  {
    if es == [] then Good([])
    else
      var first := ListEntry(index, lim, es[0], parent, above);
      var rest := ListEntries(index, lim, es[1..], parent, above);
      if first.Bad? || rest.Bad? then Bad else Good(first.records + rest.records)
  }

  // ----- totals

  function Files(rs: seq<Record>): (r: seq<Record>) {
    if rs == [] then []
    else Files(rs[..|rs| - 1]) + if rs[|rs| - 1].entry.mode == Directory then [] else [rs[|rs| - 1]]
  }

  function Directories(rs: seq<Record>): (r: seq<Record>) {
    if rs == [] then []
    else Directories(rs[..|rs| - 1]) + if rs[|rs| - 1].entry.mode == Directory then [rs[|rs| - 1]] else []
  }

  function SizeOf(index: Index, r: Record): (n: nat) {
    if r.entry.mode == Directory || r.entry.oid !in index || !index[r.entry.oid].BlobObject? then 0
    else index[r.entry.oid].size
  }

  function TotalSize(index: Index, rs: seq<Record>): (n: nat) {
    if rs == [] then 0 else TotalSize(index, rs[..|rs| - 1]) + SizeOf(index, rs[|rs| - 1])
  }

  predicate Exceeds(index: Index, lim: Limits, rs: seq<Record>) {
    |rs| > lim.maxEntries || |Files(rs)| > lim.maxFiles || TotalSize(index, rs) > lim.maxTotalBytes
  }

  lemma {:induction false} TotalsAppend(index: Index, a: seq<Record>, b: seq<Record>)
    ensures Files(a + b) == Files(a) + Files(b) && Directories(a + b) == Directories(a) + Directories(b)
    ensures TotalSize(index, a + b) == TotalSize(index, a) + TotalSize(index, b)
  {
    hide SizeOf;
    if b == [] {
      assert a + b == a;
    } else {
      assert (a + b)[..|a + b| - 1] == a + b[..|b| - 1];
      TotalsAppend(index, a, b[..|b| - 1]);
    }
  }

  /** A limit once passed stays passed. */
  lemma ExceedsMore(index: Index, lim: Limits, a: seq<Record>, b: seq<Record>)
    requires Exceeds(index, lim, a)
    ensures Exceeds(index, lim, a + b)
  {
    TotalsAppend(index, a, b);
  }

  function Oids(rs: seq<Record>): (r: set<Bytes>) {
    set x | x in rs :: x.entry.oid
  }

  lemma OidsAppend(a: seq<Record>, b: seq<Record>)
    ensures Oids(a + b) == Oids(a) + Oids(b)
  {
    assert forall x :: x in a + b <==> x in a || x in b;
  }

  /** There is no listing, or it would pass a limit. */
  ghost predicate Overruns(index: Index, lim: Limits, rs: seq<Record>, l: Walked) {
    l.Bad? || Exceeds(index, lim, rs + l.records)
  }

  // ----- the walk as it runs

  class Expansion {
    var reached: set<Bytes>
    var files: seq<Record>
    var directories: seq<Record>
    var count: nat
    var total: nat
    ghost var base: set<Bytes>
    ghost var records: seq<Record>

    constructor (commit: Bytes)
      ensures reached == base == {commit} && files == [] && directories == [] && count == total == 0 && records == []
    {
      reached, files, directories, count, total := {commit}, [], [], 0, 0;
      base, records := {commit}, [];
    }

    ghost predicate Valid(index: Index, lim: Limits)
      reads this
    {
      && files == Files(records) && directories == Directories(records) && count == |records|
      && total == TotalSize(index, records)
      && reached == base + Oids(records) && !Exceeds(index, lim, records)
    }

    /** Adds exactly the listing of the tree, or fails because there is none or a
        limit would be passed. */
    method Walk(index: Index, lim: Limits, oid: Bytes, parent: seq<Bytes>, ancestors: set<Bytes>) returns (ok: bool)
      requires Valid(index, lim) && (oid in reached)
      modifies this
      ensures base == old(base)
      ensures ok ==> Listing(index, lim, oid, parent, ancestors).Good?
      ensures ok ==> Valid(index, lim) && records == old(records) + Listing(index, lim, oid, parent, ancestors).records
      ensures !ok ==> Overruns(index, lim, old(records), Listing(index, lim, oid, parent, ancestors))
      decreases index.Keys - ancestors, 0
    {
      hide ListEntries, Exceeds, Files, Directories, TotalSize, Oids, Candidate;
      if oid !in index || !index[oid].TreeObject? || oid in ancestors { return false; }
      var parsed := TreeEntries(index[oid].payload, lim);
      if parsed.Unsupported? { return false; }
      EntriesAre(index, lim, oid, parsed.list);
      assert oid in index.Keys - ancestors;
      ok := WalkEntries(index, lim, parsed.list, parent, ancestors + {oid});
    }

    method WalkEntries(index: Index, lim: Limits, es: seq<Entry>, parent: seq<Bytes>, above: set<Bytes>)
      returns (ok: bool)
      requires Valid(index, lim)
      modifies this
      ensures base == old(base)
      ensures ok ==> ListEntries(index, lim, es, parent, above).Good?
      ensures ok ==> Valid(index, lim) && records == old(records) + ListEntries(index, lim, es, parent, above).records
      ensures !ok ==> Overruns(index, lim, old(records), ListEntries(index, lim, es, parent, above))
      decreases index.Keys - above, 2 + |es|
    {
      hide Exceeds, Files, Directories, TotalSize, Oids, ListEntry;
      if es == [] {
        assert old(records) + [] == old(records);
        return true;
      }
      ghost var first := ListEntry(index, lim, es[0], parent, above);
      ghost var rest := ListEntries(index, lim, es[1..], parent, above);
      var fine := WalkEntry(index, lim, es[0], parent, above);
      if !fine {
        if first.Good? && rest.Good? {
          ExceedsMore(index, lim, old(records) + first.records, rest.records);
          assert old(records) + first.records + rest.records == old(records) + (first.records + rest.records);
        }
        return false;
      }
      ok := WalkEntries(index, lim, es[1..], parent, above);
      if rest.Good? {
        assert old(records) + first.records + rest.records == old(records) + (first.records + rest.records);
      }
    }

    method WalkEntry(index: Index, lim: Limits, e: Entry, parent: seq<Bytes>, above: set<Bytes>) returns (ok: bool)
      requires Valid(index, lim)
      modifies this
      ensures base == old(base)
      ensures ok ==> ListEntry(index, lim, e, parent, above).Good?
      ensures ok ==> Valid(index, lim) && records == old(records) + ListEntry(index, lim, e, parent, above).records
      ensures !ok ==> Overruns(index, lim, old(records), ListEntry(index, lim, e, parent, above))
      decreases index.Keys - above, 1
    {
      hide Exceeds, Files, Directories, TotalSize, Oids, Listing, PathFits;
      var path := parent + [e.name];
      var here := Record(path, e);
      RecordAdded(index, lim, records, here);
      ghost var was := records;
      count := count + 1;
      if count > lim.maxEntries {
        if ListEntry(index, lim, e, parent, above).Good? { TooMany(index, lim, was, e, parent, above); }
        return false;
      }
      if !PathFits(lim, path) || e.oid !in index { return false; }
      reached := reached + {e.oid};
      records := records + [here];
      if e.mode == Directory {
        directories := directories + [here];
        assert Valid(index, lim);
        ok := Walk(index, lim, e.oid, path, above);
        ghost var sub := Listing(index, lim, e.oid, path, above);
        if sub.Good? { assert was + [here] + sub.records == was + ([here] + sub.records); }
      } else {
        if !index[e.oid].BlobObject? { return false; }
        total := total + index[e.oid].size;
        if |files| >= lim.maxFiles || total > lim.maxTotalBytes { return false; }
        files := files + [here];
        ok := true;
      }
    }
  }

  lemma RecordAdded(index: Index, lim: Limits, rs: seq<Record>, r: Record)
    requires !Exceeds(index, lim, rs)
    ensures Files(rs + [r]) == Files(rs) + (if r.entry.mode == Directory then [] else [r])
    ensures Directories(rs + [r]) == Directories(rs) + (if r.entry.mode == Directory then [r] else [])
    ensures TotalSize(index, rs + [r]) == TotalSize(index, rs) + SizeOf(index, r)
    ensures Oids(rs + [r]) == Oids(rs) + {r.entry.oid}
    ensures TotalSize(index, rs) <= lim.maxTotalBytes
    ensures Exceeds(index, lim, rs + [r]) <==>
              || |rs| + 1 > lim.maxEntries || TotalSize(index, rs) + SizeOf(index, r) > lim.maxTotalBytes
              || (r.entry.mode != Directory && |Files(rs)| >= lim.maxFiles)
  {
    assert (rs + [r])[..|rs|] == rs;
    OidsAppend(rs, [r]);
    assert Oids([r]) == {r.entry.oid};
  }

  lemma TooMany(index: Index, lim: Limits, rs: seq<Record>, e: Entry, parent: seq<Bytes>, above: set<Bytes>)
    requires |rs| + 1 > lim.maxEntries && ListEntry(index, lim, e, parent, above).Good?
    ensures Exceeds(index, lim, rs + ListEntry(index, lim, e, parent, above).records)
  {
    hide Listing;
  }

  // ----- paths as text

  const SLASH: Byte := 47

  ghost predicate LegalParts(lim: Limits, parts: seq<Bytes>) {
    forall i :: 0 <= i < |parts| ==> Legal(lim, parts[i])
  }

  /** Distinct paths of legal names stay distinct when joined with slashes. */
  lemma PathTextInjective(lim: Limits, p: seq<Bytes>, q: seq<Bytes>)
    requires LegalParts(lim, p) && LegalParts(lim, q) && p != [] && q != [] && Join(SLASH, p) == Join(SLASH, q)
    ensures p == q
  {
    hide Join;
    LegalFree(lim, p);
    LegalFree(lim, q);
    JoinInjective(SLASH, p, q);
  }

  lemma LegalFree(lim: Limits, p: seq<Bytes>)
    requires LegalParts(lim, p)
    ensures Free(SLASH, p)
  {
    forall i | 0 <= i < |p| ensures SLASH !in p[i] { assert Legal(lim, p[i]); }
  }

  function PathKey(r: Record): (k: Bytes) {
    Join(SLASH, r.path)
  }

  function InsertByPath(x: Record, s: seq<Record>): (r: seq<Record>)
    ensures multiset(r) == multiset(s) + multiset{x}
  {
    if s == [] then [x]
    else
      assert s == [s[0]] + s[1..];
      if Less(PathKey(x), PathKey(s[0])) then [x] + s else [s[0]] + InsertByPath(x, s[1..])
  }

  /** `sorted(..., key=path)`. */
  function SortByPath(s: seq<Record>): (r: seq<Record>)
    ensures multiset(r) == multiset(s)
  {
    if s == [] then []
    else
      assert s == s[..|s| - 1] + [s[|s| - 1]];
      InsertByPath(s[|s| - 1], SortByPath(s[..|s| - 1]))
  }

  ghost predicate PathsAscend(s: seq<Record>) {
    forall i, j {:trigger s[i], s[j]} :: 0 <= i < j < |s| ==> Less(PathKey(s[i]), PathKey(s[j]))
  }

  ghost predicate KeysDiffer(s: seq<Record>) {
    forall i, j {:trigger s[i], s[j]} :: 0 <= i < j < |s| ==> PathKey(s[i]) != PathKey(s[j])
  }

  lemma PrependAscends(x: Record, s: seq<Record>)
    requires PathsAscend(s) && forall y :: y in s ==> Less(PathKey(x), PathKey(y))
    ensures PathsAscend([x] + s)
  {
    hide PathKey, Less;
    var r := [x] + s;
    forall i, j {:trigger r[i], r[j]} | 0 <= i < j < |r| ensures Less(PathKey(r[i]), PathKey(r[j])) {
      assert r[j] == s[j - 1];
      if i > 0 { assert r[i] == s[i - 1]; }
    }
  }

  lemma HeadBelow(s: seq<Record>, y: Record)
    requires PathsAscend(s) && y in s
    ensures y == s[0] || Less(PathKey(s[0]), PathKey(y))
  {
  }

  lemma {:induction false} InsertAscends(x: Record, s: seq<Record>)
    requires PathsAscend(s) && forall y :: y in s ==> PathKey(y) != PathKey(x)
    ensures PathsAscend(InsertByPath(x, s))
  {
    hide PathKey, Less;
    if s != [] {
      assert s[0] in s;
      LessTotal(PathKey(x), PathKey(s[0]));
      if Less(PathKey(x), PathKey(s[0])) {
        forall y | y in s ensures Less(PathKey(x), PathKey(y)) {
          HeadBelow(s, y);
          if y != s[0] { LessTransitive(PathKey(x), PathKey(s[0]), PathKey(y)); }
        }
        PrependAscends(x, s);
      } else {
        InsertAscends(x, s[1..]);
        var rest := InsertByPath(x, s[1..]);
        forall y | y in rest ensures Less(PathKey(s[0]), PathKey(y)) {
          SameMembers(rest, s[1..] + [x], y);
        }
        PrependAscends(s[0], rest);
      }
    }
  }

  lemma {:induction false} SortAscends(s: seq<Record>)
    requires KeysDiffer(s)
    ensures PathsAscend(SortByPath(s))
  {
    hide PathKey, Less, InsertByPath;
    if s != [] {
      var front, x := s[..|s| - 1], s[|s| - 1];
      SortAscends(front);
      forall y | y in SortByPath(front) ensures PathKey(y) != PathKey(x) { SameMembers(SortByPath(front), front, y); }
      InsertAscends(x, SortByPath(front));
    }
  }

  datatype Expanded = Refused | Tree(files: seq<Record>, directories: seq<Record>)

  function TreeOf(rs: seq<Record>): (t: Expanded) {
    Tree(SortByPath(Files(rs)), SortByPath(Directories(rs)))
  }

  /** The object is a commit, and its text names the tree. */
  ghost predicate Roots(index: Index, lim: Limits, commit: Bytes, root: Bytes) {
    commit in index && index[commit].CommitObject? &&
    exists lines, body :: CommitText(lim, index[commit].payload, lines, body, root)
  }

  /** The listing of the commit's tree, if there is one that stays within every limit
      and reaches every object supplied. */
  ghost predicate Expands(index: Index, lim: Limits, commit: Bytes, root: Bytes, rs: seq<Record>) {
    && Roots(index, lim, commit, root)
    && Listing(index, lim, root, [], {}) == Good(rs) && !Exceeds(index, lim, rs)
    && index.Keys == {commit, root} + Oids(rs)
  }

  /** `expand_objects`, on the indexed objects. */
  method Expand(index: Index, lim: Limits, commit: Bytes) returns (r: Expanded)
    ensures r.Tree? <==> exists root, rs :: Expands(index, lim, commit, root, rs)
    ensures r.Tree? ==> exists root, rs :: Expands(index, lim, commit, root, rs) && r == TreeOf(rs)
  {
    hide SortByPath, Listing, Exceeds, Files, Directories, TotalSize, Oids, CommitText;
    if commit !in index || !index[commit].CommitObject? { return Refused; }
    var named := CommitTree(index[commit].payload, lim);
    assert forall root :: Roots(index, lim, commit, root) <==> named == Some(root);
    if named.None? { return Refused; }
    var root := named.value;
    var x := new Expansion(commit);
    x.reached := x.reached + {root};
    ghost var l := Listing(index, lim, root, [], {});
    NothingListed(index, lim);
    x.base := {commit, root};
    var ok := x.Walk(index, lim, root, [], {});
    if l.Good? { assert [] + l.records == l.records; }
    if !ok { return Refused; }
    if x.reached != index.Keys { return Refused; }
    assert Expands(index, lim, commit, root, l.records);
    r := Tree(SortByPath(x.files), SortByPath(x.directories));
  }

  lemma NothingListed(index: Index, lim: Limits)
    ensures Files([]) == [] && Directories([]) == [] && TotalSize(index, []) == 0 && Oids([]) == {}
    ensures !Exceeds(index, lim, [])
  {
  }

  // ----- the listing determines every tree

  function ChildrenAt(rs: seq<Record>, dir: seq<Bytes>): (r: set<Entry>) {
    set x | x in rs && x.path == dir + [x.entry.name] :: x.entry
  }

  function EntrySet(es: seq<Entry>): (r: set<Entry>) {
    set e | e in es
  }

  predicate Below(dir: seq<Bytes>, path: seq<Bytes>) {
    |dir| < |path| && path[..|dir|] == dir
  }

  /** Every record lies below `parent`, under the name of one of the entries. */
  ghost predicate UnderNames(rs: seq<Record>, parent: seq<Bytes>, es: seq<Entry>) {
    forall r :: r in rs ==> Below(parent, r.path) && (exists e :: e in es && r.path[|parent|] == e.name)
  }

  ghost predicate DistinctPaths(rs: seq<Record>) {
    forall i, j :: 0 <= i < j < |rs| ==> rs[i].path != rs[j].path
  }

  /** Below each listed directory stand exactly the entries of its tree. */
  ghost predicate Regroups(index: Index, lim: Limits, rs: seq<Record>) {
    forall d :: d in rs && d.entry.mode == Directory ==>
      IsTree(index, lim, d.entry.oid) && ChildrenAt(rs, d.path) == EntrySet(EntriesOf(index, lim, d.entry.oid))
  }

  ghost predicate Faithful(index: Index, lim: Limits, rs: seq<Record>, parent: seq<Bytes>, es: seq<Entry>) {
    UnderNames(rs, parent, es) && ChildrenAt(rs, parent) == EntrySet(es) && DistinctPaths(rs)
        && Regroups(index, lim, rs)
  }

  lemma ChildrenAppend(a: seq<Record>, b: seq<Record>, dir: seq<Bytes>)
    ensures ChildrenAt(a + b, dir) == ChildrenAt(a, dir) + ChildrenAt(b, dir)
  {
    assert forall x :: x in a + b <==> x in a || x in b;
  }

  /** Under different names nothing of one part hangs below a directory of the other. */
  lemma Strangers(a: seq<Record>, es: seq<Entry>, b: seq<Record>, fs: seq<Entry>, parent: seq<Bytes>, d: Record)
    requires UnderNames(a, parent, es) && UnderNames(b, parent, fs)
    requires (forall e, f :: e in es && f in fs ==> e.name != f.name) && d in a
    ensures ChildrenAt(b, d.path) == {} && forall x :: x in b ==> x.path != d.path
  {
    var k := |parent|;
    var e :| e in es && d.path[k] == e.name;
    forall x | x in b ensures x.path != d.path && x.path != d.path + [x.entry.name] {
      var f :| f in fs && x.path[k] == f.name;
      assert (d.path + [x.entry.name])[k] == d.path[k];
    }
  }

  lemma JoinRegroups(index: Index, lim: Limits, a: seq<Record>, es: seq<Entry>, b: seq<Record>, fs: seq<Entry>,
                     parent: seq<Bytes>)
    requires UnderNames(a, parent, es) && UnderNames(b, parent, fs)
    requires (forall e, f :: e in es && f in fs ==> e.name != f.name)
    requires Regroups(index, lim, a) && Regroups(index, lim, b)
    ensures Regroups(index, lim, a + b)
  {
    hide UnderNames, ChildrenAt, IsTree;
    forall d | d in a + b && d.entry.mode == Directory
      ensures IsTree(index, lim, d.entry.oid)
      ensures ChildrenAt(a + b, d.path) == EntrySet(EntriesOf(index, lim, d.entry.oid))
    {
      ChildrenAppend(a, b, d.path);
      if d in a { Strangers(a, es, b, fs, parent, d); } else { Strangers(b, fs, a, es, parent, d); }
    }
  }

  lemma JoinDistinct(a: seq<Record>, es: seq<Entry>, b: seq<Record>, fs: seq<Entry>, parent: seq<Bytes>)
    requires UnderNames(a, parent, es) && UnderNames(b, parent, fs)
    requires (forall e, f :: e in es && f in fs ==> e.name != f.name)
    requires DistinctPaths(a) && DistinctPaths(b)
    ensures DistinctPaths(a + b)
  {
    hide UnderNames, ChildrenAt;
    var c := a + b;
    forall i, j | 0 <= i < j < |c| ensures c[i].path != c[j].path {
      if i < |a| && j >= |a| {
        assert c[i] in a && c[j] in b;
        Strangers(a, es, b, fs, parent, c[i]);
      }
    }
  }

  lemma JoinFaithful(index: Index, lim: Limits, a: seq<Record>, es: seq<Entry>, b: seq<Record>, fs: seq<Entry>,
                     parent: seq<Bytes>)
    requires Faithful(index, lim, a, parent, es) && Faithful(index, lim, b, parent, fs)
    requires forall e, f :: e in es && f in fs ==> e.name != f.name
    ensures Faithful(index, lim, a + b, parent, es + fs)
  {
    hide Regroups, DistinctPaths, ChildrenAt;
    JoinRegroups(index, lim, a, es, b, fs, parent);
    JoinDistinct(a, es, b, fs, parent);
    ChildrenAppend(a, b, parent);
    assert forall e :: e in es + fs <==> e in es || e in fs;
    forall r | r in a + b ensures Below(parent, r.path) && (exists e :: e in es + fs && r.path[|parent|] == e.name) {
      if r in a {
        var e :| e in es && r.path[|parent|] == e.name;
        assert e in es + fs;
      } else {
        var e :| e in fs && r.path[|parent|] == e.name;
        assert e in es + fs;
      }
    }
  }

  lemma LoneFaithful(index: Index, lim: Limits, e: Entry, parent: seq<Bytes>)
    requires e.mode != Directory
    ensures Faithful(index, lim, [Record(parent + [e.name], e)], parent, [e])
  {
    var rs := [Record(parent + [e.name], e)];
    assert rs[0] in rs && e in [e];
    forall r | r in rs ensures Below(parent, r.path) && (exists f :: f in [e] && r.path[|parent|] == f.name) {
      assert r.path == parent + [e.name];
      assert e in [e] && r.path[|parent|] == e.name;
    }
    assert ChildrenAt(rs, parent) == EntrySet([e]);
  }

  /** A directory in front of the listing of its tree. */
  lemma HeadUnder(e: Entry, parent: seq<Bytes>, sub: seq<Record>, es: seq<Entry>)
    requires UnderNames(sub, parent + [e.name], es)
    ensures var rs := [Record(parent + [e.name], e)] + sub;
            && UnderNames(rs, parent, [e])
            && (forall r :: r in sub ==> |r.path| > |parent| + 1 && r.path[..|parent| + 1] == parent + [e.name])
  {
    var path := parent + [e.name];
    var rs := [Record(path, e)] + sub;
    forall r | r in sub
      ensures |r.path| > |parent| + 1 && r.path[..|parent| + 1] == path { assert Below(path, r.path); }
    forall r | r in rs ensures Below(parent, r.path) && (exists f :: f in [e] && r.path[|parent|] == f.name) {
      assert e in [e];
      if r in sub {
        assert r.path[..|parent|] == r.path[..|parent| + 1][..|parent|] == parent;
        assert r.path[|parent|] == r.path[..|parent| + 1][|parent|] == e.name;
      } else {
        assert r.path == path && path[|parent|] == e.name;
      }
    }
  }

  lemma HeadChildren(e: Entry, parent: seq<Bytes>, sub: seq<Record>, dir: seq<Bytes>)
    requires forall r :: r in sub ==> |r.path| > |parent| + 1 && r.path[..|parent| + 1] == parent + [e.name]
    ensures var rs := [Record(parent + [e.name], e)] + sub;
            && (dir == parent ==> ChildrenAt(rs, dir) == {e})
            && (|dir| > |parent| ==> ChildrenAt(rs, dir) == ChildrenAt(sub, dir))
  {
    var head := [Record(parent + [e.name], e)];
    ChildrenAppend(head, sub, dir);
    assert head[0] in head;
    if dir == parent {
      assert ChildrenAt(head, dir) == {e};
      assert ChildrenAt(sub, dir) == {};
    }
    if |dir| > |parent| { assert ChildrenAt(head, dir) == {}; }
  }

  lemma HeadFaithful(index: Index, lim: Limits, e: Entry, parent: seq<Bytes>, sub: seq<Record>)
    requires e.mode == Directory && IsTree(index, lim, e.oid)
    requires Faithful(index, lim, sub, parent + [e.name], EntriesOf(index, lim, e.oid))
    ensures Faithful(index, lim, [Record(parent + [e.name], e)] + sub, parent, [e])
  {
    hide ChildrenAt, IsTree;
    var path := parent + [e.name];
    var rs := [Record(path, e)] + sub;
    HeadUnder(e, parent, sub, EntriesOf(index, lim, e.oid));
    HeadChildren(e, parent, sub, parent);
    assert EntrySet([e]) == {e};
    forall i, j | 0 <= i < j < |rs| ensures rs[i].path != rs[j].path {
      assert rs[j] in sub;
    }
    forall d | d in rs && d.entry.mode == Directory
      ensures IsTree(index, lim, d.entry.oid) && ChildrenAt(rs, d.path) == EntrySet(EntriesOf(index, lim, d.entry.oid))
    {
      HeadChildren(e, parent, sub, d.path);
    }
  }

  lemma {:induction false} ListingFaithful(index: Index, lim: Limits, oid: Bytes, parent: seq<Bytes>,
                                           ancestors: set<Bytes>)
    requires Listing(index, lim, oid, parent, ancestors).Good?
    ensures IsTree(index, lim, oid)
    ensures Faithful(index, lim, Listing(index, lim, oid, parent, ancestors).records, parent,
                     EntriesOf(index, lim, oid))
    decreases index.Keys - ancestors, 0
  {
    hide Faithful, IsTree, ListEntries;
    assert oid in index.Keys - ancestors by { TreeKnown(index, lim, oid); }
    TreeDistinct(index, lim, oid);
    ListEntriesFaithful(index, lim, EntriesOf(index, lim, oid), parent, ancestors + {oid});
  }

  lemma TreeKnown(index: Index, lim: Limits, oid: Bytes)
    requires IsTree(index, lim, oid)
    ensures oid in index && index[oid].TreeObject?
  {
  }

  lemma TreeDistinct(index: Index, lim: Limits, oid: Bytes)
    requires IsTree(index, lim, oid)
    ensures DistinctNames(EntriesOf(index, lim, oid)) && GitOrder(EntriesOf(index, lim, oid))
  {
  }

  lemma {:induction false} ListEntryFaithful(index: Index, lim: Limits, e: Entry, parent: seq<Bytes>, above: set<Bytes>)
    requires ListEntry(index, lim, e, parent, above).Good?
    ensures Faithful(index, lim, ListEntry(index, lim, e, parent, above).records, parent, [e])
    decreases index.Keys - above, 1
  {
    hide Faithful, IsTree, Listing;
    if e.mode == Directory {
      ListingFaithful(index, lim, e.oid, parent + [e.name], above);
      HeadFaithful(index, lim, e, parent, Listing(index, lim, e.oid, parent + [e.name], above).records);
    } else {
      LoneFaithful(index, lim, e, parent);
    }
  }

  lemma {:induction false} ListEntriesFaithful(index: Index, lim: Limits, es: seq<Entry>, parent: seq<Bytes>,
                                               above: set<Bytes>)
    requires ListEntries(index, lim, es, parent, above).Good? && DistinctNames(es)
    ensures Faithful(index, lim, ListEntries(index, lim, es, parent, above).records, parent, es)
    decreases index.Keys - above, 2 + |es|
  {
    hide Faithful, ListEntry;
    if es == [] {
      NoneFaithful(index, lim, parent);
    } else {
      var a, b := ListEntry(index, lim, es[0], parent, above), ListEntries(index, lim, es[1..], parent, above);
      ListEntryFaithful(index, lim, es[0], parent, above);
      ListEntriesFaithful(index, lim, es[1..], parent, above);
      JoinFaithful(index, lim, a.records, [es[0]], b.records, es[1..], parent);
      assert [es[0]] + es[1..] == es;
    }
  }

  lemma NoneFaithful(index: Index, lim: Limits, parent: seq<Bytes>)
    ensures Faithful(index, lim, [], parent, [])
  {
  }

  // ----- rebuilding the payloads

  lemma {:induction false} GitOrderUnique(es: seq<Entry>, fs: seq<Entry>)
    requires GitOrder(es) && GitOrder(fs) && EntrySet(es) == EntrySet(fs)
    ensures es == fs
  {
    hide OrderKey, Less;
    assert |fs| > 0 ==> fs[0] in EntrySet(fs);
    if es != [] {
      assert es[0] in EntrySet(fs);
      FirstsAgree(es, fs);
      GitTail(es);
      GitTail(fs);
      GitOrderUnique(es[1..], fs[1..]);
    }
  }

  lemma GitHead(es: seq<Entry>, e: Entry)
    requires GitOrder(es) && e in es
    ensures e == es[0] || Less(OrderKey(es[0]), OrderKey(e))
  {
  }

  lemma FirstsAgree(es: seq<Entry>, fs: seq<Entry>)
    requires GitOrder(es) && GitOrder(fs) && EntrySet(es) == EntrySet(fs) && es != [] && fs != []
    ensures es[0] == fs[0]
  {
    hide GitOrder, OrderKey, Less;
    assert es[0] in EntrySet(fs) && fs[0] in EntrySet(es);
    GitHead(es, fs[0]);
    GitHead(fs, es[0]);
    var a, b := OrderKey(es[0]), OrderKey(fs[0]);
    LessIrreflexive(a);
    if Less(a, b) && Less(b, a) { LessTransitive(a, b, a); }
  }

  lemma GitTail(es: seq<Entry>)
    requires GitOrder(es) && es != []
    ensures GitOrder(es[1..]) && EntrySet(es[1..]) == EntrySet(es) - {es[0]}
  {
    hide OrderKey, Less;
    forall i | 1 <= i < |es| ensures es[i] != es[0] { LessIrreflexive(OrderKey(es[0])); }
  }

  /** Grouping the flat listing by parent and sorting each group in Git order gives
      back every tree payload byte for byte, the root's included; no path repeats. */
  lemma ListingRebuilds(index: Index, lim: Limits, root: Bytes, rs: seq<Record>, dir: seq<Bytes>, oid: Bytes,
                        es: seq<Entry>)
    requires Listing(index, lim, root, [], {}) == Good(rs)
    requires (dir == [] && oid == root) || exists d ::
               d in rs && d.entry.mode == Directory && d.path == dir && d.entry.oid == oid
    requires EntrySet(es) == ChildrenAt(rs, dir) && GitOrder(es)
    ensures DistinctPaths(rs) && oid in index && index[oid].TreeObject? && PrintTree(es) == index[oid].payload
  {
    hide Listing, ChildrenAt, IsTree, GitOrder, PrintTree;
    ListingFaithful(index, lim, root, [], {});
    if !(dir == [] && oid == root) {
      var d :| d in rs && d.entry.mode == Directory && d.path == dir && d.entry.oid == oid;
      assert IsTree(index, lim, d.entry.oid);
    }
    TreeKnown(index, lim, oid);
    TreeDistinct(index, lim, oid);
    GitOrderUnique(es, EntriesOf(index, lim, oid));
  }

  // ----- the same, read from the returned tree

  function Returned(t: Expanded): (rs: seq<Record>)
    requires t.Tree?
  {
    t.files + t.directories
  }

  lemma {:induction false} Partition(rs: seq<Record>)
    ensures multiset(Files(rs)) + multiset(Directories(rs)) == multiset(rs)
  {
    if rs != [] {
      assert rs == rs[..|rs| - 1] + [rs[|rs| - 1]];
      Partition(rs[..|rs| - 1]);
    }
  }

  lemma ReturnedExactly(rs: seq<Record>)
    ensures multiset(Returned(TreeOf(rs))) == multiset(rs)
  {
    hide SortByPath, Files, Directories;
    Partition(rs);
  }

  lemma LegalBelow(lim: Limits, parent: seq<Bytes>, name: Bytes)
    requires LegalParts(lim, parent) && Legal(lim, name)
    ensures LegalParts(lim, parent + [name])
  {
    hide Legal;
  }

  ghost predicate LegalPaths(lim: Limits, rs: seq<Record>) {
    forall x :: x in rs ==> x.path != [] && LegalParts(lim, x.path)
  }

  lemma {:induction false} ListingLegal(index: Index, lim: Limits, oid: Bytes, parent: seq<Bytes>,
                                        ancestors: set<Bytes>)
    requires Listing(index, lim, oid, parent, ancestors).Good? && LegalParts(lim, parent)
    ensures LegalPaths(lim, Listing(index, lim, oid, parent, ancestors).records)
    decreases index.Keys - ancestors, 0
  {
    hide LegalPaths, ListEntries, LegalParts, IsTree;
    assert oid in index.Keys - ancestors by { TreeKnown(index, lim, oid); }
    TreeLegal(index, lim, oid);
    ListEntriesLegal(index, lim, EntriesOf(index, lim, oid), parent, ancestors + {oid});
  }

  lemma TreeLegal(index: Index, lim: Limits, oid: Bytes)
    requires IsTree(index, lim, oid)
    ensures forall e :: e in EntriesOf(index, lim, oid) ==> Legal(lim, e.name)
  {
    hide Legal;
  }

  lemma {:induction false} ListEntryLegal(index: Index, lim: Limits, e: Entry, parent: seq<Bytes>, above: set<Bytes>)
    requires ListEntry(index, lim, e, parent, above).Good? && LegalParts(lim, parent) && Legal(lim, e.name)
    ensures LegalPaths(lim, ListEntry(index, lim, e, parent, above).records)
    decreases index.Keys - above, 1
  {
    hide Listing, Legal, LegalParts;
    LegalBelow(lim, parent, e.name);
    if e.mode == Directory { ListingLegal(index, lim, e.oid, parent + [e.name], above); }
  }

  lemma {:induction false} ListEntriesLegal(index: Index, lim: Limits, es: seq<Entry>, parent: seq<Bytes>,
                                            above: set<Bytes>)
    requires ListEntries(index, lim, es, parent, above).Good? && LegalParts(lim, parent)
    requires forall e :: e in es ==> Legal(lim, e.name)
    ensures LegalPaths(lim, ListEntries(index, lim, es, parent, above).records)
    decreases index.Keys - above, 2 + |es|
  {
    hide ListEntry, Legal, LegalParts;
    if es != [] {
      ListEntryLegal(index, lim, es[0], parent, above);
      ListEntriesLegal(index, lim, es[1..], parent, above);
    }
  }

  lemma KeysApart(lim: Limits, rs: seq<Record>)
    requires LegalPaths(lim, rs) && DistinctPaths(rs)
    ensures KeysDiffer(rs)
  {
    hide LegalParts;
    forall i, j {:trigger rs[i], rs[j]} | 0 <= i < j < |rs| ensures PathKey(rs[i]) != PathKey(rs[j]) {
      assert rs[i] in rs && rs[j] in rs;
      if PathKey(rs[i]) == PathKey(rs[j]) { PathTextInjective(lim, rs[i].path, rs[j].path); }
    }
  }

  lemma {:induction false} PartsDiffer(rs: seq<Record>)
    requires KeysDiffer(rs)
    ensures KeysDiffer(Files(rs)) && KeysDiffer(Directories(rs))
  {
    hide PathKey;
    if rs != [] {
      var front, x := rs[..|rs| - 1], rs[|rs| - 1];
      PartsDiffer(front);
      Partition(front);
      forall y | y in Files(front) || y in Directories(front) ensures PathKey(y) != PathKey(x) {
        assert y in multiset(Files(front)) + multiset(Directories(front));
        assert y in front;
      }
      AppendDiffers(Files(front), x);
      AppendDiffers(Directories(front), x);
    }
  }

  lemma AppendDiffers(s: seq<Record>, x: Record)
    requires KeysDiffer(s)
    ensures (forall y :: y in s ==> PathKey(y) != PathKey(x)) ==> KeysDiffer(s + [x])
  {
    hide PathKey;
  }

  /** Both returned lists ascend by path, together they are the listing, and
      regrouping them by parent in Git order gives back every tree payload byte for byte. */
  lemma TreeRebuilds(index: Index, lim: Limits, commit: Bytes, root: Bytes, rs: seq<Record>, dir: seq<Bytes>,
                     oid: Bytes, es: seq<Entry>)
    requires Expands(index, lim, commit, root, rs)
    requires (dir == [] && oid == root) || exists d ::
               d in TreeOf(rs).directories && d.path == dir && d.entry.oid == oid
    requires EntrySet(es) == ChildrenAt(Returned(TreeOf(rs)), dir) && GitOrder(es)
    ensures multiset(Returned(TreeOf(rs))) == multiset(rs)
    ensures PathsAscend(TreeOf(rs).files) && PathsAscend(TreeOf(rs).directories)
    ensures oid in index && index[oid].TreeObject? && PrintTree(es) == index[oid].payload
  {
    hide Listing, GitOrder, PrintTree, SortByPath, Files, Directories, Exceeds, PathsAscend, KeysDiffer, LegalPaths;
    ReturnedExactly(rs);
    forall x ensures x in Returned(TreeOf(rs)) <==> x in rs { SameMembers(Returned(TreeOf(rs)), rs, x); }
    assert ChildrenAt(Returned(TreeOf(rs)), dir) == ChildrenAt(rs, dir);
    if d :| d in TreeOf(rs).directories && d.path == dir && d.entry.oid == oid {
      SameMembers(TreeOf(rs).directories, Directories(rs), d);
      DirectoryMode(rs, d);
      assert d in Returned(TreeOf(rs));
    }
    ListingRebuilds(index, lim, root, rs, dir, oid, es);
    ListingLegal(index, lim, root, [], {});
    KeysApart(lim, rs);
    PartsDiffer(rs);
    SortAscends(Files(rs));
    SortAscends(Directories(rs));
  }

  lemma {:induction false} DirectoryMode(rs: seq<Record>, d: Record)
    requires d in Directories(rs)
    ensures d.entry.mode == Directory
  {
    if d in Directories(rs[..|rs| - 1]) { DirectoryMode(rs[..|rs| - 1], d); }
  }
}
