/** Where the declaration, the file and the path of a mapped node come from: the chain of AST
    edges from a root down to it. */
module MapperChains {
  import opened FiniteSets
  import opened ByteStrings
  import opened Normalisation
  import opened JoinedTexts
  import opened KeyedOrders
  import opened MapperWalks
  import opened MapperTrees
  import opened Mappers

  /** A METHOD or a TYPE_DECL. */
  predicate Declares(t: Table, v: Text) {
    v in t && (t[v].kind == [77, 69, 84, 72, 79, 68] || t[v].kind == [84, 89, 80, 69, 95, 68, 69, 67, 76])
  }

  /** The name of the last declaration on the chain. */
  function DeclOn(t: Table, p: seq<Text>): (r: Text) {
    if p == [] then []
    else if Declares(t, p[|p| - 1]) then t[p[|p| - 1]].fullName
    else DeclOn(t, p[..|p| - 1])
  }

  /** The last file name on the chain. */
  function FileOn(t: Table, p: seq<Text>): (r: Text) {
    if p == [] then []
    else if p[|p| - 1] in t && t[p[|p| - 1]].filename != [] then t[p[|p| - 1]].filename
    else FileOn(t, p[..|p| - 1])
  }

  /** The places among siblings since the last declaration: none below it, and otherwise those
      of the parent followed by the node's own. */
  ghost predicate PathOn(t: Table, kin: Kin, p: seq<Text>, path: seq<nat>)
    requires Inside(t, kin)
  {
    if p == [] || Declares(t, p[|p| - 1]) || |p| == 1 then path == []
    else
      var up, kids := p[..|p| - 1], KinInOrder(t, kin, p[|p| - 2], FileOn(t, p[..|p| - 1]));
      && path != [] && path[|path| - 1] < |kids| && kids[path[|path| - 1]] == p[|p| - 1]
      && PathOn(t, kin, up, path[..|path| - 1])
  }

  function OwnFile(t: Table, v: Text, file: Text): (r: Text)
    requires v in t
  {
    if t[v].filename == [] then file else t[v].filename
  }

  /** Siblings ascend by file, their own or the parent's, then line, column and id. */
  lemma SiblingsAscend(t: Table, kin: Kin, p: Text, file: Text, i: nat, j: nat)
    requires Inside(t, kin) && i < j < |KinInOrder(t, kin, p, file)|
    ensures var u, v := KinInOrder(t, kin, p, file)[i], KinInOrder(t, kin, p, file)[j];
            && u in t && v in t
            && var a, b := OwnFile(t, u, file), OwnFile(t, v, file);
               && !Less(b, a) && (a == b ==> t[u].line <= t[v].line)
               && (a == b && t[u].line == t[v].line ==> t[u].col <= t[v].col)
               && (a == b && t[u].line == t[v].line && t[u].col == t[v].col ==> !Less(v, u))
  {
    KinCovered(t, kin, p, file);
    var keys, kids := ChildKeys(t, file), KinInOrder(t, kin, p, file);
    assert kids[i] in kids && kids[j] in kids;
    assert !KeyLess(keys[kids[j]], keys[kids[i]]);
  }

  // ----- frames on chains

  ghost predicate FrameOn(t: Table, kin: Kin, f: Frame, p: seq<Text>)
    requires Inside(t, kin)
  {
    && Descends(t, kin, f.id, p) && f.id in t
    && f.decl == DeclOn(t, p[..|p| - 1]) && f.file == FileOn(t, p[..|p| - 1])
    && (Declares(t, f.id) || PathOn(t, kin, p, f.path))
  }

  lemma InfoOn(t: Table, kin: Kin, f: Frame, p: seq<Text>, rank: nat)
    requires Inside(t, kin) && FrameOn(t, kin, f, p)
    ensures var i := InfoOf(t, f, rank);
            i.decl == DeclOn(t, p) && i.file == FileOn(t, p) && PathOn(t, kin, p, i.path) && i.rank == rank
  {
    hide Inside, KinInOrder, TopsOf;
    assert IsDecl(t[f.id]) <==> Declares(t, f.id);
  }

  lemma KidOn(t: Table, kin: Kin, tr: Tree, p: seq<Text>, i: nat)
    requires Inside(t, kin) && Unfolds(t, kin, tr) && FrameOn(t, kin, tr.frame, p) && i < |tr.kids|
    ensures FrameOn(t, kin, tr.kids[i].frame, p + [tr.kids[i].frame.id])
  {
    hide Inside, KinInOrder, TopsOf, IsKin, PathOn;
    var info := InfoOf(t, tr.frame, 0);
    InfoOn(t, kin, tr.frame, p, 0);
    var kids := KinInOrder(t, kin, tr.frame.id, info.file);
    var k := tr.kids[i].frame;
    assert k == FrameOf(info, kids, i);
    KidIsKin(t, kin, tr, i);
    var q := p + [k.id];
    assert q[..|q| - 1] == p;
    assert Unfolds(t, kin, tr.kids[i]);
    if !Declares(t, k.id) { PathDown(t, kin, p, k.id, info.path, i); }
  }

  lemma PathDown(t: Table, kin: Kin, p: seq<Text>, v: Text, path: seq<nat>, i: nat)
    requires Inside(t, kin) && p != [] && PathOn(t, kin, p, path) && !Declares(t, v)
    requires i < |KinInOrder(t, kin, p[|p| - 1], FileOn(t, p))|
    requires KinInOrder(t, kin, p[|p| - 1], FileOn(t, p))[i] == v
    ensures PathOn(t, kin, p + [v], path + [i])
  {
    hide Inside, KinInOrder;
    var q, r := p + [v], path + [i];
    assert q[..|q| - 1] == p && r[..|r| - 1] == path;
  }

  lemma {:induction false} VisitOn(t: Table, kin: Kin, tr: Tree, p: seq<Text>, f: Frame) returns (q: seq<Text>)
    requires Inside(t, kin) && Unfolds(t, kin, tr) && FrameOn(t, kin, tr.frame, p) && f in Preorder(tr)
    ensures FrameOn(t, kin, f, q)
    decreases tr, 1
  {
    hide Inside, FrameOn, KidsMatch;
    if f == tr.frame {
      q := p;
    } else {
      forall i | 0 <= i < |tr.kids| ensures FrameOn(t, kin, tr.kids[i].frame, p + [tr.kids[i].frame.id]) {
        KidOn(t, kin, tr, p, i);
      }
      q := VisitAllOn(t, kin, tr.kids, p, f);
    }
  }

  lemma {:induction false} VisitAllOn(t: Table, kin: Kin, trs: seq<Tree>, p: seq<Text>, f: Frame) returns (q: seq<Text>)
    requires Inside(t, kin) && f in PreorderAll(trs)
    requires forall i :: 0 <= i < |trs| ==>
               Unfolds(t, kin, trs[i]) && FrameOn(t, kin, trs[i].frame, p + [trs[i].frame.id])
    ensures FrameOn(t, kin, f, q)
    decreases trs, 0
  {
    hide Inside, FrameOn, Unfolds, Preorder;
    if f in Preorder(trs[0]) {
      q := VisitOn(t, kin, trs[0], p + [trs[0].frame.id], f);
    } else {
      forall i | 0 <= i < |trs[1..]|
        ensures Unfolds(t, kin, trs[1..][i]) && FrameOn(t, kin, trs[1..][i].frame, p + [trs[1..][i].frame.id])
      {
        assert trs[1..][i] == trs[i + 1];
      }
      q := VisitAllOn(t, kin, trs[1..], p, f);
    }
  }

  lemma TopOn(t: Table, kin: Kin, v: Text)
    requires Inside(t, kin) && v in TopsOf(t, kin)
    ensures FrameOn(t, kin, RootFrame(v), [] + [v])
  {
    hide Inside;
    assert [] + [v] == [v] && [v][..0] == [];
  }

  lemma VisitedOn(t: Table, kin: Kin, f: Frame) returns (p: seq<Text>)
    requires Terminates(t, kin) && f in Visits(t, kin)
    ensures Inside(t, kin) && FrameOn(t, kin, f, p)
  {
    hide Inside, Unfolds, PreorderAll, FrameOn, TopsOf;
    var forest := TheForest(t, kin);
    forall i | 0 <= i < |forest|
      ensures Unfolds(t, kin, forest[i]) && FrameOn(t, kin, forest[i].frame, [] + [forest[i].frame.id]) {
      var v := TopsInOrder(t, kin)[i];
      assert v in Elements(TopsInOrder(t, kin));
      assert forest[i] in forest;
      TopOn(t, kin, v);
    }
    p := VisitAllOn(t, kin, forest, [], f);
  }

  // ----- what is recorded

  /** The record of a node is that of its last visit. */
  lemma {:induction false} RecordIs(t: Table, fs: seq<Frame>, v: Text) returns (k: nat)
    requires AllKnown(t, fs) && v in Record(t, fs)
    ensures k < |fs| && fs[k].id == v && (forall j :: k < j < |fs| ==> fs[j].id != v)
    ensures Record(t, fs)[v] == InfoOf(t, fs[k], k)
  {
    hide InfoOf;
    if fs[|fs| - 1].id == v {
      k := |fs| - 1;
    } else {
      k := RecordIs(t, fs[..|fs| - 1], v);
    }
  }

  lemma {:induction false} OrphansApart(t: Table, out: map<Text, Info>, vs: seq<Text>, n: nat, v: Text)
    requires AllIn(t, vs) && Distinct(vs)
    ensures v in out && v !in vs ==> v in WithOrphans(t, out, vs, n) && WithOrphans(t, out, vs, n)[v] == out[v]
    ensures v in vs ==>
              v in WithOrphans(t, out, vs, n) && v in t && exists k: nat ::
                WithOrphans(t, out, vs, n)[v] == OrphanInfo(t, v, k)
  {
    hide OrphanInfo, Distinct;
    if vs != [] {
      FrontDistinct(vs);
      OrphansApart(t, out, vs[..|vs| - 1], n, v);
    }
  }

  lemma FrontDistinct(vs: seq<Text>)
    requires Distinct(vs) && vs != []
    ensures Distinct(vs[..|vs| - 1])
  {
  }

  /** Below a root a node shows the last declaration and file name on a chain down to it, and
      its places among siblings since that declaration. */
  lemma BelowShows(t: Table, kin: Kin, v: Text) returns (p: seq<Text>)
    requires Terminates(t, kin) && UnderRoot(t, kin, v)
    ensures v in AllInfo(t, kin) && Descends(t, kin, v, p) && Inside(t, kin)
    ensures var i := AllInfo(t, kin)[v]; i.decl == DeclOn(t, p) && i.file == FileOn(t, p) && PathOn(t, kin, p, i.path)
  {
    hide Terminates, Orphans, RanksDiffer, Record, UnderRoot, WithOrphans, Visits, PathOn, Descends, InfoOf,
      OrphanInfo, Distinct;
    var fs := Visits(t, kin);
    var out := Record(t, fs);
    RecordsBelow(t, kin, v);
    var k := RecordIs(t, fs, v);
    p := VisitedOn(t, kin, fs[k]);
    InfoOn(t, kin, fs[k], p, k);
    OrphansFacts(t, out);
    RecordRanks(t, fs);
    OrphansRanked(t, out, Orphans(t, out), |fs|);
    OrphanKeys(t, out, Orphans(t, out), |fs|);
    assert v !in Elements(Orphans(t, out));
    OrphansApart(t, out, Orphans(t, out), |fs|, v);
  }

  /** Any other node shows no declaration, no path, and its own file name. */
  lemma OthersShow(t: Table, kin: Kin, v: Text)
    requires Terminates(t, kin) && v in t && !UnderRoot(t, kin, v)
    ensures v in AllInfo(t, kin)
    ensures var i := AllInfo(t, kin)[v]; i.decl == [] && i.file == t[v].filename && i.path == []
  {
    hide Terminates, Orphans, RanksDiffer, Record, UnderRoot, WithOrphans, Visits, Distinct;
    var fs := Visits(t, kin);
    var out := Record(t, fs);
    RecordsBelow(t, kin, v);
    OrphansFacts(t, out);
    RecordRanks(t, fs);
    OrphansRanked(t, out, Orphans(t, out), |fs|);
    OrphanKeys(t, out, Orphans(t, out), |fs|);
    assert v in Elements(Orphans(t, out));
    OrphansApart(t, out, Orphans(t, out), |fs|, v);
  }

  /** The stored path: decimal places joined by dots. */
  lemma PathVector()
    ensures Dotted([1, 20, 3]) == [49, 46, 50, 48, 46, 51] && Dotted([]) == []
  {
    assert Decimal(2) == [50] && Decimal(20) == [50, 48] && Decimal(1) == [49] && Decimal(3) == [51];
    assert Digits([1, 20, 3]) == [[49], [50, 48], [51]];
    var s: seq<Bytes> := [[49], [50, 48], [51]];
    assert s[1..] == [[50, 48], [51]] && s[1..][1..] == [[51]];
    assert Join(46, [[51]]) == [51] + AfterFirst(46, [[51]]);
    assert Join(46, s[1..]) == [50, 48] + ([46] + Join(46, [[51]]));
    assert Join(46, s) == [49] + ([46] + Join(46, s[1..]));
  }

  // ----- the order of roots and of nodes the walk does not reach

  /** By file name, line, column and id. */
  ghost predicate KeyFirst(t: Table, u: Text, v: Text) {
    && u in t && v in t && !Less(t[v].filename, t[u].filename)
    && (t[u].filename == t[v].filename ==> t[u].line <= t[v].line)
    && (t[u].filename == t[v].filename && t[u].line == t[v].line ==> t[u].col <= t[v].col)
    && (t[u].filename == t[v].filename && t[u].line == t[v].line && t[u].col == t[v].col ==> Less(u, v))
  }

  lemma KeysFirst(t: Table, u: Text, v: Text)
    requires u in t && v in t && KeyLess(ChildKeys(t, [])[u], ChildKeys(t, [])[v])
    ensures KeyFirst(t, u, v)
  {
    var a, b := t[u].filename, t[v].filename;
    LessIrreflexive(a);
    if Less(a, b) && Less(b, a) { LessTransitive(a, b, a); }
  }

  /** Roots are the nodes below no other. */
  lemma RootsAre(t: Table, kin: Kin, v: Text)
    ensures v in TopsInOrder(t, kin) <==> v in t && forall p :: p in kin ==> v !in kin[p]
  {
    assert v in TopsInOrder(t, kin) <==> v in Elements(TopsInOrder(t, kin));
    if v in TopsOf(t, kin) {
      forall p | p in kin ensures v !in kin[p] { assert !IsKin(kin, p, v); }
    }
  }

  /** Roots are walked in that order. */
  lemma RootsAscend(t: Table, kin: Kin, i: nat, j: nat)
    requires i < j < |TopsInOrder(t, kin)|
    ensures KeyFirst(t, TopsInOrder(t, kin)[i], TopsInOrder(t, kin)[j])
  {
    hide KeyFirst, TopsOf;
    ChildKeysApart(t, [], TopsOf(t, kin));
    var r := TopsInOrder(t, kin);
    assert r[i] in r && r[j] in r;
    KeysFirst(t, r[i], r[j]);
  }

  lemma {:induction false} OrphanRank(t: Table, out: map<Text, Info>, vs: seq<Text>, n: nat, i: nat)
    requires AllIn(t, vs) && Distinct(vs) && i < |vs|
    ensures vs[i] in WithOrphans(t, out, vs, n) && WithOrphans(t, out, vs, n)[vs[i]].rank == n + i
  {
    hide Distinct;
    if i < |vs| - 1 {
      FrontDistinct(vs);
      OrphanRank(t, out, vs[..|vs| - 1], n, i);
      assert vs[i] != vs[|vs| - 1] by { DistinctAt(vs, i, |vs| - 1); }
    }
  }

  lemma DistinctAt(vs: seq<Text>, i: nat, j: nat)
    requires Distinct(vs) && i < j < |vs|
    ensures vs[i] != vs[j]
  {
  }

  /** Nodes the walk does not reach are numbered after all visits, in that order too. */
  lemma OthersFollow(t: Table, kin: Kin, i: nat, j: nat)
    requires Terminates(t, kin)
    requires var vs := Orphans(t, Record(t, Visits(t, kin))); i < j < |vs|
    ensures var vs := Orphans(t, Record(t, Visits(t, kin)));
            && vs[i] in AllInfo(t, kin) && vs[j] in AllInfo(t, kin) && KeyFirst(t, vs[i], vs[j])
            && |Visits(t, kin)| <= AllInfo(t, kin)[vs[i]].rank < AllInfo(t, kin)[vs[j]].rank
  {
    hide Terminates, RanksDiffer, Record, WithOrphans, Visits, Distinct, KeyFirst;
    var fs := Visits(t, kin);
    var out := Record(t, fs);
    OrphansFacts(t, out);
    RecordRanks(t, fs);
    OrphansRanked(t, out, Orphans(t, out), |fs|);
    OrphanKeys(t, out, Orphans(t, out), |fs|);
    OrphanRank(t, out, Orphans(t, out), |fs|, i);
    OrphanRank(t, out, Orphans(t, out), |fs|, j);
    OrphansOrdered(t, out, i, j);
  }

  lemma OrphansOrdered(t: Table, out: map<Text, Info>, i: nat, j: nat)
    requires i < j < |Orphans(t, out)|
    ensures KeyFirst(t, Orphans(t, out)[i], Orphans(t, out)[j])
  {
    hide KeyFirst;
    ChildKeysApart(t, [], t.Keys - out.Keys);
    var r := Orphans(t, out);
    assert r[i] in r && r[j] in r;
    KeysFirst(t, r[i], r[j]);
  }
}
