/** The mapper's walk on any AST edges: a node may hang below several others, or
    twice below one, and is then visited once per occurrence. */
module MapperTrees {
  import opened FiniteSets
  import opened KeyedOrders
  import opened KeyedLists
  import opened MapperWalks

  /** The children of each node, repetitions included. */
  type Kin = map<Text, multiset<Text>>

  function KinOf(kin: Kin, p: Text): (m: multiset<Text>) {
    if p in kin then kin[p] else multiset{}
  }

  predicate IsKin(kin: Kin, p: Text, c: Text) {
    c in KinOf(kin, p)
  }

  ghost predicate Inside(t: Table, kin: Kin) {
    forall p, c :: IsKin(kin, p, c) ==> p in t && c in t
  }

  ghost function TopsOf(t: Table, kin: Kin): (r: set<Text>) {
    set v | v in t && forall p :: !IsKin(kin, p, v)
  }

  lemma KinCovered(t: Table, kin: Kin, p: Text, file: Text)
    requires Inside(t, kin)
    ensures Covers(ChildKeys(t, file), KinOf(kin, p))
  {
    forall c | c in KinOf(kin, p) ensures c in t { assert IsKin(kin, p, c); }
  }

  ghost function KinInOrder(t: Table, kin: Kin, p: Text, file: Text): (r: seq<Text>)
    requires Inside(t, kin)
  {
    KinCovered(t, kin, p, file);
    Listing(ChildKeys(t, file), KinOf(kin, p))
  }

  lemma KinListed(t: Table, kin: Kin, p: Text, file: Text, c: Text)
    requires Inside(t, kin)
    ensures c in KinInOrder(t, kin, p, file) <==> IsKin(kin, p, c)
  {
    KinCovered(t, kin, p, file);
    ListingMembers(ChildKeys(t, file), KinOf(kin, p), c);
  }

  // ----- unfolding

  datatype Tree = Tree(frame: Frame, kids: seq<Tree>)

  /** A finite tree of the visits below a stack entry. */
  ghost predicate Unfolds(t: Table, kin: Kin, tr: Tree)
    requires Inside(t, kin)
    decreases tr
  {
    && tr.frame.id in t && KidsMatch(t, kin, tr)
    && forall k :: k in tr.kids ==> Unfolds(t, kin, k)
  }

  ghost predicate KidsMatch(t: Table, kin: Kin, tr: Tree)
    requires Inside(t, kin) && tr.frame.id in t
  {
    var info := InfoOf(t, tr.frame, 0);
    var kids := KinInOrder(t, kin, tr.frame.id, info.file);
    |tr.kids| == |kids| && forall i :: 0 <= i < |kids| ==> tr.kids[i].frame == FrameOf(info, kids, i)
  }

  /** The unfolding below an entry, if finite, is determined by it. */
  lemma {:induction false} UnfoldsUnique(t: Table, kin: Kin, a: Tree, b: Tree)
    requires Inside(t, kin) && Unfolds(t, kin, a) && Unfolds(t, kin, b) && a.frame == b.frame
    ensures a == b
    decreases a
  {
    hide KinInOrder, InfoOf, Inside;
    forall i | 0 <= i < |a.kids| ensures |a.kids| == |b.kids| && a.kids[i] == b.kids[i] {
      assert a.kids[i] in a.kids && b.kids[i] in b.kids;
      UnfoldsUnique(t, kin, a.kids[i], b.kids[i]);
    }
    assert a.kids == b.kids;
  }

  ghost function TopsInOrder(t: Table, kin: Kin): (r: seq<Text>)
    ensures Elements(r) == TopsOf(t, kin)
  {
    ChildKeysApart(t, [], TopsOf(t, kin));
    OrderBy(ChildKeys(t, []), TopsOf(t, kin))
  }

  /** One finite unfolding per root, in order. */
  ghost predicate Grown(t: Table, kin: Kin, forest: seq<Tree>)
    requires Inside(t, kin)
  {
    && |forest| == |TopsInOrder(t, kin)|
    && (forall i :: 0 <= i < |forest| ==> forest[i].frame == RootFrame(TopsInOrder(t, kin)[i]))
    && forall tr :: tr in forest ==> Unfolds(t, kin, tr)
  }

  /** The walk ends. */
  ghost predicate Terminates(t: Table, kin: Kin) {
    Inside(t, kin) && exists forest :: Grown(t, kin, forest)
  }

  lemma GrownUnique(t: Table, kin: Kin, a: seq<Tree>, b: seq<Tree>)
    requires Inside(t, kin) && Grown(t, kin, a) && Grown(t, kin, b)
    ensures a == b
  {
    hide Unfolds, TopsInOrder, Inside;
    forall i | 0 <= i < |a| ensures a[i] == b[i] {
      assert a[i] in a && b[i] in b;
      UnfoldsUnique(t, kin, a[i], b[i]);
    }
  }

  ghost function TheForest(t: Table, kin: Kin): (forest: seq<Tree>)
    requires Terminates(t, kin)
    ensures Grown(t, kin, forest)
  {
    var forest :| Grown(t, kin, forest);
    forest
  }

  // ----- visits

  function Preorder(tr: Tree): (r: seq<Frame>) {
    [tr.frame] + PreorderAll(tr.kids)
  }

  function PreorderAll(trs: seq<Tree>): (r: seq<Frame>) {
    if trs == [] then [] else Preorder(trs[0]) + PreorderAll(trs[1..])
  }

  /** What is still to be visited when these trees are on the stack. */
  function Pending(trs: seq<Tree>): (r: seq<Frame>) {
    if trs == [] then [] else Preorder(trs[|trs| - 1]) + Pending(trs[..|trs| - 1])
  }

  function Reversed(trs: seq<Tree>): (r: seq<Tree>)
    ensures |r| == |trs| && forall k :: k in r <==> k in trs
  {
    if trs == [] then [] else Reversed(trs[1..]) + [trs[0]]
  }

  lemma {:induction false} ReversedAt(trs: seq<Tree>, i: nat)
    requires i < |trs|
    ensures Reversed(trs)[i] == trs[|trs| - 1 - i]
  {
    if i < |trs| - 1 { ReversedAt(trs[1..], i); }
  }

  lemma PendingTop(below: seq<Tree>, tr: Tree)
    ensures Pending(below + [tr]) == Preorder(tr) + Pending(below)
  {
    hide Preorder;
    assert (below + [tr])[..|below|] == below;
  }

  lemma {:induction false} PendingReversed(below: seq<Tree>, trs: seq<Tree>)
    ensures Pending(below + Reversed(trs)) == PreorderAll(trs) + Pending(below)
  {
    hide Preorder, Pending;
    if trs == [] {
      assert below + Reversed(trs) == below;
    } else {
      var rest := below + Reversed(trs[1..]);
      assert below + Reversed(trs) == rest + [trs[0]];
      PendingTop(rest, trs[0]);
      PendingReversed(below, trs[1..]);
    }
  }

  /** The records after these visits: the last visit of a node wins. */
  function Record(t: Table, fs: seq<Frame>): (out: map<Text, Info>)
    requires forall i :: 0 <= i < |fs| ==> fs[i].id in t
  {
    if fs == [] then map[]
    else Record(t, fs[..|fs| - 1])[fs[|fs| - 1].id := InfoOf(t, fs[|fs| - 1], |fs| - 1)]
  }

  predicate AllKnown(t: Table, fs: seq<Frame>) {
    forall i :: 0 <= i < |fs| ==> fs[i].id in t
  }

  lemma {:induction false} PreorderKnown(t: Table, kin: Kin, tr: Tree)
    requires Inside(t, kin) && Unfolds(t, kin, tr)
    ensures AllKnown(t, Preorder(tr))
    decreases tr, 1
  {
    hide Inside, KidsMatch;
    PreorderAllKnown(t, kin, tr.kids);
  }

  lemma {:induction false} PreorderAllKnown(t: Table, kin: Kin, trs: seq<Tree>)
    requires Inside(t, kin) && forall k :: k in trs ==> Unfolds(t, kin, k)
    ensures AllKnown(t, PreorderAll(trs))
    decreases trs, 0
  {
    hide Inside, Unfolds, Preorder;
    if trs != [] {
      PreorderKnown(t, kin, trs[0]);
      PreorderAllKnown(t, kin, trs[1..]);
    }
  }

  /** Everything the walk records, and how many visits it makes. */
  ghost function Visits(t: Table, kin: Kin): (fs: seq<Frame>)
    requires Terminates(t, kin)
    ensures AllKnown(t, fs)
  {
    hide Inside;
    PreorderAllKnown(t, kin, TheForest(t, kin));
    PreorderAll(TheForest(t, kin))
  }

  ghost predicate RanksDiffer(out: map<Text, Info>) {
    forall u, v {:trigger out[u], out[v]} :: u in out && v in out && out[u].rank == out[v].rank ==> u == v
  }

  ghost predicate RanksApart(out: map<Text, Info>, n: nat) {
    RanksDiffer(out) && forall v :: v in out ==> out[v].rank < n
  }

  lemma {:induction false} RecordRanks(t: Table, fs: seq<Frame>)
    requires AllKnown(t, fs)
    ensures RanksApart(Record(t, fs), |fs|) && forall v :: v in Record(t, fs) ==> v in t
  {
    if fs != [] { RecordRanks(t, fs[..|fs| - 1]); }
  }

  // ----- the loop

  ghost predicate ChildrenAre(kin: Kin, children: map<Text, seq<Text>>) {
    forall p :: KinOf(kin, p) == multiset(if p in children then children[p] else [])
  }

  function FramesOf(trs: seq<Tree>): (r: seq<Frame>)
    ensures |r| == |trs|
  {
    seq(|trs|, i requires 0 <= i < |trs| => trs[i].frame)
  }

  lemma FramesPushed(t: Table, kin: Kin, below: seq<Tree>, tr: Tree, n: nat)
    requires Inside(t, kin) && tr.frame.id in t && KidsMatch(t, kin, tr)
    ensures var info := InfoOf(t, tr.frame, n);
            FramesOf(below + Reversed(tr.kids)) ==
            FramesOf(below) + Pushed(info, KinInOrder(t, kin, tr.frame.id, info.file))
  {
    hide KinInOrder, Inside, Reversed;
    var info := InfoOf(t, tr.frame, n);
    var kids := KinInOrder(t, kin, tr.frame.id, info.file);
    var a, b := FramesOf(below + Reversed(tr.kids)), FramesOf(below) + Pushed(info, kids);
    assert |a| == |b|;
    forall i | 0 <= i < |a| ensures a[i] == b[i] {
      if i >= |below| {
        var k := i - |below|;
        ReversedAt(tr.kids, k);
        PushedAt(info, kids, k);
        assert tr.kids[|kids| - 1 - k].frame == FrameOf(InfoOf(t, tr.frame, 0), kids, |kids| - 1 - k);
      }
    }
  }

  lemma FramesRoots(t: Table, kin: Kin, forest: seq<Tree>)
    requires Inside(t, kin) && Grown(t, kin, forest)
    ensures FramesOf(Reversed(forest)) == RootFrames(TopsInOrder(t, kin))
  {
    hide Inside, TopsInOrder, Unfolds, Reversed;
    var vs := TopsInOrder(t, kin);
    forall i | 0 <= i < |forest| ensures FramesOf(Reversed(forest))[i] == RootFrames(vs)[i] {
      ReversedAt(forest, i);
      RootAt(vs, i);
    }
  }

  method KinSorted(t: Table, ghost kin: Kin, children: map<Text, seq<Text>>, p: Text, file: Text)
    returns (kids: seq<Text>)
    requires Inside(t, kin) && ChildrenAre(kin, children)
    ensures kids == KinInOrder(t, kin, p, file)
  {
    hide Inside;
    var list := if p in children then children[p] else [];
    KinCovered(t, kin, p, file);
    KinKnown(t, kin, p, list);
    ChildKeysApart(t, file, Elements(list));
    kids := SortList(ChildKeys(t, file), list);
  }

  lemma KinKnown(t: Table, kin: Kin, p: Text, list: seq<Text>)
    requires Inside(t, kin) && KinOf(kin, p) == multiset(list)
    ensures Elements(list) <= t.Keys
  {
    forall c | c in list ensures c in t { assert IsKin(kin, p, c); }
  }

  /** The stack stands for the trees still to be visited. */
  ghost predicate Walking(t: Table, kin: Kin, trees: seq<Tree>, stack: seq<Frame>, seen: seq<Frame>,
                          whole: seq<Frame>, out: map<Text, Info>)
    requires Inside(t, kin)
  {
    && stack == FramesOf(trees) && (forall k :: k in trees ==> Unfolds(t, kin, k))
    && seen + Pending(trees) == whole && AllKnown(t, seen) && out == Record(t, seen)
  }

  lemma WalkingNext(t: Table, kin: Kin, trees: seq<Tree>, stack: seq<Frame>, seen: seq<Frame>, whole: seq<Frame>,
                    out: map<Text, Info>)
    requires Inside(t, kin) && Walking(t, kin, trees, stack, seen, whole, out) && stack != []
    ensures trees != []
    ensures var tr, f := trees[|trees| - 1], stack[|stack| - 1];
            && tr.frame == f && f.id in t && KidsMatch(t, kin, tr)
            && var info := InfoOf(t, f, |seen|); var below := trees[..|trees| - 1];
               Walking(t, kin, below + Reversed(tr.kids),
                       stack[..|stack| - 1] + Pushed(info, KinInOrder(t, kin, f.id, info.file)),
                       seen + [f], whole, out[f.id := info])
  {
    hide KinInOrder, Inside, Reversed, Pushed, InfoOf, KidsMatch;
    var tr, below := trees[|trees| - 1], trees[..|trees| - 1];
    assert tr in trees;
    FramesPushed(t, kin, below, tr, |seen|);
    PendingReversed(below, tr.kids);
    assert seen + [tr.frame] + Pending(below + Reversed(tr.kids)) == whole;
    assert FramesOf(below) == stack[..|stack| - 1];
    assert (seen + [tr.frame])[..|seen|] == seen;
    forall k | k in below + Reversed(tr.kids) ensures Unfolds(t, kin, k) { }
  }

  lemma WalkingStart(t: Table, kin: Kin, forest: seq<Tree>)
    requires Inside(t, kin) && Grown(t, kin, forest)
    ensures Walking(t, kin, Reversed(forest), RootFrames(TopsInOrder(t, kin)), [], PreorderAll(forest), map[])
  {
    hide Inside, TopsInOrder, Unfolds, Reversed, PreorderAll;
    FramesRoots(t, kin, forest);
    PendingReversed([], forest);
    assert [] + Reversed(forest) == Reversed(forest);
  }

  /** `_walk_ast` up to the orphans, wherever the walk ends: one record per visited
      node, from its last visit, whatever the order of the lists it was given. */
  method WalkAst(t: Table, ghost kin: Kin, children: map<Text, seq<Text>>, roots: seq<Text>)
    returns (out: map<Text, Info>, counter: nat)
    requires Terminates(t, kin) && ChildrenAre(kin, children) && Elements(roots) == TopsOf(t, kin) && Distinct(roots)
    ensures out == Record(t, Visits(t, kin)) && counter == |Visits(t, kin)|
  {
    hide Inside, KinInOrder, Pushed, InfoOf, TopsOf, Walking, Elements, Grown, ChildrenAre, KidsMatch, Preorder,
      Reversed;
    ghost var forest := TheForest(t, kin);
    assert TopsOf(t, kin) <= t.Keys by { TopsKnown(t, kin); }
    ChildKeysApart(t, [], TopsOf(t, kin));
    var sorted := SortNames(ChildKeys(t, []), roots);
    var stack := RootFrames(sorted);
    ghost var trees, seen, whole := Reversed(forest), [], PreorderAll(forest);
    WalkingStart(t, kin, forest);
    out, counter := map[], 0;
    while stack != []
      invariant Walking(t, kin, trees, stack, seen, whole, out) && counter == |seen|
      decreases |whole| - |seen|
    {
      WalkingNext(t, kin, trees, stack, seen, whole, out);
      var f, rest := stack[|stack| - 1], stack[..|stack| - 1];
      var info := InfoOf(t, f, counter);
      var kids := KinSorted(t, kin, children, f.id, info.file);
      trees, seen := trees[..|trees| - 1] + Reversed(trees[|trees| - 1].kids), seen + [f];
      stack := rest + Pushed(info, kids);
      out := out[f.id := info];
      counter := counter + 1;
      WalkingBounded(t, kin, trees, stack, seen, whole, out);
    }
    WalkingDone(t, kin, trees, seen, whole, out);
  }

  lemma TopsKnown(t: Table, kin: Kin)
    ensures TopsOf(t, kin) <= t.Keys
  {
  }

  lemma WalkingBounded(t: Table, kin: Kin, trees: seq<Tree>, stack: seq<Frame>, seen: seq<Frame>, whole: seq<Frame>,
                       out: map<Text, Info>)
    requires Inside(t, kin) && Walking(t, kin, trees, stack, seen, whole, out)
    ensures |seen| <= |whole|
  {
  }

  lemma WalkingDone(t: Table, kin: Kin, trees: seq<Tree>, seen: seq<Frame>, whole: seq<Frame>, out: map<Text, Info>)
    requires Inside(t, kin) && Walking(t, kin, trees, [], seen, whole, out)
    ensures seen == whole && AllKnown(t, whole) && out == Record(t, whole)
  {
    assert trees == [];
    assert seen + [] == seen;
  }

  // ----- who is visited

  ghost predicate Descends(t: Table, kin: Kin, v: Text, p: seq<Text>) {
    && p != [] && p[|p| - 1] == v && p[0] in TopsOf(t, kin)
    && forall i :: 0 <= i < |p| - 1 ==> IsKin(kin, p[i], p[i + 1])
  }

  /** Below a root along AST edges. */
  ghost predicate UnderRoot(t: Table, kin: Kin, v: Text) {
    exists p :: Descends(t, kin, v, p)
  }

  lemma BelowNext(t: Table, kin: Kin, p: Text, c: Text)
    requires UnderRoot(t, kin, p) && IsKin(kin, p, c)
    ensures UnderRoot(t, kin, c)
  {
    hide TopsOf, IsKin;
    var q :| Descends(t, kin, p, q);
    assert Descends(t, kin, c, q + [c]);
  }

  lemma {:induction false} VisitedBelow(t: Table, kin: Kin, tr: Tree, f: Frame)
    requires Inside(t, kin) && Unfolds(t, kin, tr) && UnderRoot(t, kin, tr.frame.id) && f in Preorder(tr)
    ensures UnderRoot(t, kin, f.id)
    decreases tr, 1
  {
    hide Inside, UnderRoot, KinInOrder;
    if f != tr.frame {
      forall k | k in tr.kids ensures UnderRoot(t, kin, k.frame.id) {
        var i :| 0 <= i < |tr.kids| && tr.kids[i] == k;
        KidIsKin(t, kin, tr, i);
        BelowNext(t, kin, tr.frame.id, k.frame.id);
      }
      VisitedAllBelow(t, kin, tr.kids, f);
    }
  }

  lemma {:induction false} VisitedAllBelow(t: Table, kin: Kin, trs: seq<Tree>, f: Frame)
    requires Inside(t, kin) && f in PreorderAll(trs)
    requires forall k :: k in trs ==> Unfolds(t, kin, k) && UnderRoot(t, kin, k.frame.id)
    ensures UnderRoot(t, kin, f.id)
    decreases trs, 0
  {
    hide Inside, UnderRoot, Unfolds, Preorder;
    if f in Preorder(trs[0]) { VisitedBelow(t, kin, trs[0], f); } else { VisitedAllBelow(t, kin, trs[1..], f); }
  }

  lemma KidIsKin(t: Table, kin: Kin, tr: Tree, i: nat)
    requires Inside(t, kin) && Unfolds(t, kin, tr) && i < |tr.kids|
    ensures IsKin(kin, tr.frame.id, tr.kids[i].frame.id)
  {
    hide Inside, KinInOrder, IsKin;
    var info := InfoOf(t, tr.frame, 0);
    var kids := KinInOrder(t, kin, tr.frame.id, info.file);
    assert tr.kids[i].frame == FrameOf(info, kids, i);
    assert kids[i] in kids;
    KinListed(t, kin, tr.frame.id, info.file, kids[i]);
  }

  lemma KinHasKid(t: Table, kin: Kin, tr: Tree, c: Text) returns (i: nat)
    requires Inside(t, kin) && Unfolds(t, kin, tr) && IsKin(kin, tr.frame.id, c)
    ensures i < |tr.kids| && tr.kids[i].frame.id == c
  {
    hide Inside, KinInOrder, IsKin;
    var info := InfoOf(t, tr.frame, 0);
    var kids := KinInOrder(t, kin, tr.frame.id, info.file);
    KinListed(t, kin, tr.frame.id, info.file, c);
    i :| 0 <= i < |kids| && kids[i] == c;
    assert tr.kids[i].frame == FrameOf(info, kids, i);
  }

  /** What is visited is followed by what hangs below it. */
  lemma {:induction false} VisitsKin(t: Table, kin: Kin, tr: Tree, f: Frame, c: Text) returns (g: Frame)
    requires Inside(t, kin) && Unfolds(t, kin, tr) && f in Preorder(tr) && IsKin(kin, f.id, c)
    ensures g in Preorder(tr) && g.id == c
    decreases tr, 1
  {
    hide Inside, IsKin, KidsMatch;
    if f == tr.frame {
      var i := KinHasKid(t, kin, tr, c);
      g := tr.kids[i].frame;
      FirstVisit(tr.kids, i);
    } else {
      g := VisitsAllKin(t, kin, tr.kids, f, c);
    }
  }

  lemma {:induction false} FirstVisit(trs: seq<Tree>, i: nat)
    requires i < |trs|
    ensures trs[i].frame in PreorderAll(trs)
  {
    if i > 0 { FirstVisit(trs[1..], i - 1); }
  }

  lemma {:induction false} VisitsAllKin(t: Table, kin: Kin, trs: seq<Tree>, f: Frame, c: Text) returns (g: Frame)
    requires Inside(t, kin) && f in PreorderAll(trs) && IsKin(kin, f.id, c)
    requires forall k :: k in trs ==> Unfolds(t, kin, k)
    ensures g in PreorderAll(trs) && g.id == c
    decreases trs, 0
  {
    hide Inside, IsKin, Unfolds, Preorder;
    if f in Preorder(trs[0]) {
      g := VisitsKin(t, kin, trs[0], f, c);
    } else {
      g := VisitsAllKin(t, kin, trs[1..], f, c);
    }
  }

  lemma {:induction false} ChainVisits(t: Table, kin: Kin, forest: seq<Tree>, v: Text, p: seq<Text>, i: nat)
    returns (f: Frame)
    requires Inside(t, kin) && Grown(t, kin, forest) && Descends(t, kin, v, p) && i < |p|
    ensures f in PreorderAll(forest) && f.id == p[i]
  {
    hide Inside, IsKin, Unfolds, PreorderAll, TopsOf;
    if i == 0 {
      assert p[0] in Elements(TopsInOrder(t, kin));
      var k :| 0 <= k < |forest| && TopsInOrder(t, kin)[k] == p[0];
      FirstVisit(forest, k);
      f := forest[k].frame;
    } else {
      var g := ChainVisits(t, kin, forest, v, p, i - 1);
      assert IsKin(kin, p[i - 1], p[i - 1 + 1]);
      f := VisitsAllKin(t, kin, forest, g, p[i]);
    }
  }

  lemma {:induction false} RecordKeys(t: Table, fs: seq<Frame>, v: Text)
    requires AllKnown(t, fs)
    ensures v in Record(t, fs) <==> exists f :: f in fs && f.id == v
  {
    if fs != [] {
      RecordKeys(t, fs[..|fs| - 1], v);
      assert fs == fs[..|fs| - 1] + [fs[|fs| - 1]];
    }
  }

  /** The walk records exactly the nodes below a root. */
  lemma RecordsBelow(t: Table, kin: Kin, v: Text)
    requires Terminates(t, kin)
    ensures v in Record(t, Visits(t, kin)) <==> UnderRoot(t, kin, v)
  {
    hide Inside, Unfolds, PreorderAll, Descends, Grown;
    var forest := TheForest(t, kin);
    RecordKeys(t, Visits(t, kin), v);
    if f :| f in PreorderAll(forest) && f.id == v {
      GrownBelow(t, kin, forest);
      VisitedAllBelow(t, kin, forest, f);
    }
    if p :| Descends(t, kin, v, p) { EndVisited(t, kin, forest, v, p); }
  }

  lemma EndVisited(t: Table, kin: Kin, forest: seq<Tree>, v: Text, p: seq<Text>)
    requires Inside(t, kin) && Grown(t, kin, forest) && Descends(t, kin, v, p)
    ensures exists f :: f in PreorderAll(forest) && f.id == v
  {
    hide Inside, PreorderAll, Grown;
    var f := ChainVisits(t, kin, forest, v, p, |p| - 1);
  }

  lemma GrownBelow(t: Table, kin: Kin, forest: seq<Tree>)
    requires Inside(t, kin) && Grown(t, kin, forest)
    ensures forall k :: k in forest ==> Unfolds(t, kin, k) && UnderRoot(t, kin, k.frame.id)
  {
    hide Inside, Unfolds, TopsOf;
    forall k | k in forest ensures UnderRoot(t, kin, k.frame.id) {
      var i :| 0 <= i < |forest| && forest[i] == k;
      var v := TopsInOrder(t, kin)[i];
      assert v in Elements(TopsInOrder(t, kin));
      assert Descends(t, kin, v, [v]);
    }
  }
}
