/** The mapper's walk ends exactly when no cycle of AST edges hangs below a root. */
module MapperLoops {
  import opened FiniteSets
  import opened KeyedOrders
  import opened MapperWalks
  import opened MapperTrees

  ghost predicate Path(kin: Kin, p: seq<Text>) {
    p != [] && forall i :: 0 <= i < |p| - 1 ==> IsKin(kin, p[i], p[i + 1])
  }

  ghost predicate LoopAt(kin: Kin, p: seq<Text>) {
    Path(kin, p) && |p| >= 2 && p[0] == p[|p| - 1]
  }

  /** A cycle that hangs below a root. */
  ghost predicate Loops(t: Table, kin: Kin) {
    exists p :: LoopAt(kin, p) && UnderRoot(t, kin, p[0])
  }

  // ----- a finite unfolding has no loop

  lemma {:induction false} KidSmaller(trs: seq<Tree>, i: nat)
    requires i < |trs|
    ensures |Preorder(trs[i])| <= |PreorderAll(trs)|
  {
    hide Preorder;
    if i > 0 { KidSmaller(trs[1..], i - 1); }
  }

  /** Following a path down the unfolding. */
  lemma {:induction false} FollowDown(t: Table, kin: Kin, tr: Tree, p: seq<Text>) returns (sub: Tree)
    requires Inside(t, kin) && Unfolds(t, kin, tr) && Path(kin, p) && tr.frame.id == p[0]
    ensures Unfolds(t, kin, sub) && sub.frame.id == p[|p| - 1]
    ensures |Preorder(sub)| <= |Preorder(tr)| && (|p| >= 2 ==> |Preorder(sub)| < |Preorder(tr)|)
    decreases |p|
  {
    hide Inside, IsKin, KidsMatch;
    if |p| == 1 {
      sub := tr;
    } else {
      assert IsKin(kin, p[0], p[0 + 1]);
      var i := KinHasKid(t, kin, tr, p[1]);
      assert tr.kids[i] in tr.kids;
      KidSmaller(tr.kids, i);
      PathTail(kin, p);
      sub := FollowDown(t, kin, tr.kids[i], p[1..]);
    }
  }

  lemma PathTail(kin: Kin, p: seq<Text>)
    requires Path(kin, p) && |p| >= 2
    ensures Path(kin, p[1..])
  {
    hide IsKin;
    forall i | 0 <= i < |p[1..]| - 1
      ensures IsKin(kin, p[1..][i], p[1..][i + 1]) { assert IsKin(kin, p[i + 1], p[i + 1 + 1]); }
  }

  lemma {:induction false} NoLoopInside(t: Table, kin: Kin, tr: Tree, p: seq<Text>)
    requires Inside(t, kin) && Unfolds(t, kin, tr) && LoopAt(kin, p) && tr.frame.id == p[0]
    ensures false
    decreases |Preorder(tr)|
  {
    hide Inside, Unfolds, Path, Preorder;
    var sub := FollowDown(t, kin, tr, p);
    NoLoopInside(t, kin, sub, p);
  }

  lemma NoLoopGrown(t: Table, kin: Kin, forest: seq<Tree>, p: seq<Text>, q: seq<Text>)
    requires Inside(t, kin) && Grown(t, kin, forest) && LoopAt(kin, p) && Descends(t, kin, p[0], q)
    ensures false
  {
    hide Inside, Unfolds, Preorder, TopsOf, IsKin;
    assert q[0] in Elements(TopsInOrder(t, kin));
    var k :| 0 <= k < |forest| && TopsInOrder(t, kin)[k] == q[0];
    assert forest[k] in forest;
    var sub := FollowDown(t, kin, forest[k], q);
    NoLoopInside(t, kin, sub, p);
  }

  // ----- without a loop the unfolding can be built

  /** The way down to an entry, on which no node repeats. */
  ghost predicate Way(t: Table, kin: Kin, way: seq<Text>) {
    way != [] && Descends(t, kin, way[|way| - 1], way) && Distinct(way)
  }

  lemma {:induction false} WayKnown(t: Table, kin: Kin, way: seq<Text>, i: nat)
    requires Inside(t, kin) && Way(t, kin, way) && i < |way|
    ensures way[i] in t
  {
    hide IsKin;
    if i > 0 { assert IsKin(kin, way[i - 1], way[i - 1 + 1]); }
  }

  lemma WayNext(t: Table, kin: Kin, way: seq<Text>, c: Text)
    requires Inside(t, kin) && !Loops(t, kin) && Way(t, kin, way) && IsKin(kin, way[|way| - 1], c)
    ensures c !in way && c in t && Way(t, kin, way + [c])
  {
    hide IsKin, TopsOf, UnderRoot;
    forall i | 0 <= i < |way| ensures way[i] != c {
      if way[i] == c { WayBack(t, kin, way, i, c); }
    }
    assert Descends(t, kin, c, way + [c]);
  }

  lemma WayBack(t: Table, kin: Kin, way: seq<Text>, i: nat, c: Text)
    requires Way(t, kin, way) && IsKin(kin, way[|way| - 1], c) && i < |way| && way[i] == c
    ensures Loops(t, kin)
  {
    hide IsKin, TopsOf;
    var p := way[i..] + [c];
    forall j | 0 <= j < |p| - 1 ensures IsKin(kin, p[j], p[j + 1]) {
      if j < |p| - 2 { assert IsKin(kin, way[i + j], way[i + j + 1]); }
    }
    assert LoopAt(kin, p);
    assert Descends(t, kin, c, way[..i + 1]);
  }

  lemma {:induction false} BuildTree(t: Table, kin: Kin, f: Frame, way: seq<Text>) returns (tr: Tree)
    requires Inside(t, kin) && !Loops(t, kin) && Way(t, kin, way) && way[|way| - 1] == f.id
    ensures Unfolds(t, kin, tr) && tr.frame == f
    decreases t.Keys - Elements(way), 1, 0
  {
    hide Inside, Loops, Descends, Distinct, KinInOrder;
    WayKnown(t, kin, way, |way| - 1);
    var info := InfoOf(t, f, 0);
    var kids := KinInOrder(t, kin, f.id, info.file);
    var trs := BuildKids(t, kin, info, kids, way, |kids|);
    tr := Tree(f, trs);
    assert KidsMatch(t, kin, tr);
  }

  lemma {:induction false} BuildKids(t: Table, kin: Kin, info: Info, kids: seq<Text>, way: seq<Text>, n: nat)
    returns (trs: seq<Tree>)
    requires Inside(t, kin) && !Loops(t, kin) && Way(t, kin, way) && n <= |kids|
    requires kids == KinInOrder(t, kin, way[|way| - 1], info.file)
    ensures |trs| == n && (forall i :: 0 <= i < n ==> trs[i].frame == FrameOf(info, kids, i))
    ensures forall k :: k in trs ==> Unfolds(t, kin, k)
    decreases t.Keys - Elements(way), 0, n
  {
    hide Inside, Loops, Descends, Distinct, KinInOrder, Unfolds;
    if n == 0 {
      trs := [];
    } else {
      var front := BuildKids(t, kin, info, kids, way, n - 1);
      var c := kids[n - 1];
      assert c in kids;
      KinListed(t, kin, way[|way| - 1], info.file, c);
      WayNext(t, kin, way, c);
      WayShrinks(t, way, c);
      var last := BuildTree(t, kin, FrameOf(info, kids, n - 1), way + [c]);
      trs := front + [last];
    }
  }

  lemma WayShrinks(t: Table, way: seq<Text>, c: Text)
    requires c !in way && c in t
    ensures t.Keys - Elements(way + [c]) < t.Keys - Elements(way)
  {
    assert c in t.Keys - Elements(way) && c !in t.Keys - Elements(way + [c]);
  }

  lemma WayStart(t: Table, kin: Kin, i: nat)
    requires i < |TopsInOrder(t, kin)|
    ensures Way(t, kin, [TopsInOrder(t, kin)[i]])
  {
    hide TopsOf;
    var v := TopsInOrder(t, kin)[i];
    assert v in Elements(TopsInOrder(t, kin));
    assert Descends(t, kin, v, [v]);
  }

  lemma {:induction false} BuildForest(t: Table, kin: Kin, n: nat) returns (forest: seq<Tree>)
    requires Inside(t, kin) && !Loops(t, kin) && n <= |TopsInOrder(t, kin)|
    ensures |forest| == n && (forall i :: 0 <= i < n ==> forest[i].frame == RootFrame(TopsInOrder(t, kin)[i]))
    ensures forall k :: k in forest ==> Unfolds(t, kin, k)
  {
    hide Inside, Loops, Unfolds, TopsInOrder, Way;
    if n == 0 {
      forest := [];
    } else {
      var front := BuildForest(t, kin, n - 1);
      var v := TopsInOrder(t, kin)[n - 1];
      WayStart(t, kin, n - 1);
      var last := BuildTree(t, kin, RootFrame(v), [v]);
      forest := front + [last];
    }
  }

  /** The walk ends if and only if no cycle hangs below a root. */
  lemma TerminatesExactly(t: Table, kin: Kin)
    requires Inside(t, kin)
    ensures Terminates(t, kin) <==> !Loops(t, kin)
  {
    hide Inside, Unfolds, Path, Descends, TopsInOrder;
    if Terminates(t, kin) && Loops(t, kin) {
      var p :| LoopAt(kin, p) && UnderRoot(t, kin, p[0]);
      var q :| Descends(t, kin, p[0], q);
      NoLoopGrown(t, kin, TheForest(t, kin), p, q);
    }
    if !Loops(t, kin) {
      var forest := BuildForest(t, kin, |TopsInOrder(t, kin)|);
      assert Grown(t, kin, forest);
    }
  }

  // ----- a forest has none

  /** No node hangs below two others. */
  ghost predicate OneAbove(kin: Kin) {
    forall p, q, c :: IsKin(kin, p, c) && IsKin(kin, q, c) ==> p == q
  }

  lemma AboveOnLoop(kin: Kin, p: seq<Text>, j: nat) returns (k: nat)
    requires LoopAt(kin, p) && j < |p|
    ensures k < |p| && IsKin(kin, p[k], p[j])
  {
    hide IsKin;
    k := if j == 0 then |p| - 2 else j - 1;
    assert IsKin(kin, p[k], p[k + 1]);
  }

  lemma {:induction false} AllOnLoop(t: Table, kin: Kin, p: seq<Text>, q: seq<Text>, i: nat) returns (j: nat)
    requires OneAbove(kin) && LoopAt(kin, p) && Descends(t, kin, p[0], q) && i < |q|
    ensures j < |p| && p[j] == q[i]
    decreases |q| - i
  {
    hide IsKin, LoopAt, TopsOf;
    if i == |q| - 1 {
      j := 0;
      LoopLong(kin, p);
    } else {
      var k := AllOnLoop(t, kin, p, q, i + 1);
      j := AboveOnLoop(kin, p, k);
      assert IsKin(kin, q[i], q[i + 1]);
    }
  }

  lemma LoopLong(kin: Kin, p: seq<Text>)
    requires LoopAt(kin, p)
    ensures |p| >= 2
  {
  }

  /** Where no node hangs below two others the walk always ends. */
  lemma ForestTerminates(t: Table, kin: Kin)
    requires Inside(t, kin) && OneAbove(kin)
    ensures Terminates(t, kin)
  {
    hide Inside, Path, Terminates, OneAbove;
    TerminatesExactly(t, kin);
    if Loops(t, kin) {
      var p :| LoopAt(kin, p) && UnderRoot(t, kin, p[0]);
      var q :| Descends(t, kin, p[0], q);
      var j := AllOnLoop(t, kin, p, q, 0);
      var k := AboveOnLoop(kin, p, j);
    }
  }
}
