/** Where the AST edges form a forest, the walk visits every node below a root once. */
module MapperForests {
  import opened KeyedOrders
  import opened KeyedLists
  import opened MapperWalks
  import opened MapperTrees
  import opened MapperLoops

  /** The children are those whose one parent this is, each listed once. */
  ghost predicate Kindred(parent: Parents, kin: Kin) {
    forall p :: KinOf(kin, p) == multiset(Kids(parent, p))
  }

  lemma KindredMeans(parent: Parents, kin: Kin, p: Text, c: Text)
    requires Kindred(parent, kin)
    ensures IsKin(kin, p, c) <==> c in parent && parent[c] == p
  {
  }

  lemma KindredInside(t: Table, parent: Parents, kin: Kin)
    requires Forest(t, parent) && Kindred(parent, kin)
    ensures Inside(t, kin) && OneAbove(kin) && TopsOf(t, kin) == Roots(t, parent)
  {
    hide IsKin, Kindred;
    forall p, c ensures IsKin(kin, p, c) <==> c in parent && parent[c] == p { KindredMeans(parent, kin, p, c); }
    forall v | v in t ensures v in parent <==> exists p :: IsKin(kin, p, v) {
      if v in parent { assert IsKin(kin, parent[v], v); }
    }
  }

  lemma SameKids(t: Table, parent: Parents, kin: Kin, p: Text, file: Text)
    requires Forest(t, parent) && Kindred(parent, kin) && Inside(t, kin)
    ensures KinInOrder(t, kin, p, file) == KidsInOrder(t, parent, p, file)
  {
    hide Inside, Apart, Covers;
    assert Kids(parent, p) <= t.Keys by { KidsListed(t, parent, p); }
    ChildKeysApart(t, file, Kids(parent, p));
    ListingOfSet(ChildKeys(t, file), Kids(parent, p));
  }

  lemma KidsListed(t: Table, parent: Parents, p: Text)
    requires Forest(t, parent)
    ensures Kids(parent, p) <= t.Keys
  {
  }

  lemma {:induction false} RunIsRecord(t: Table, parent: Parents, kin: Kin, trees: seq<Tree>, stack: seq<Frame>,
                                       seen: seq<Frame>, whole: seq<Frame>, out: map<Text, Info>)
    requires Forest(t, parent) && Kindred(parent, kin) && Inside(t, kin) && Sane(t, parent, stack, out)
    requires Walking(t, kin, trees, stack, seen, whole, out) && |out| == |seen|
    ensures AllKnown(t, whole) && Run(t, parent, stack, out) == Record(t, whole)
    decreases t.Keys - out.Keys
  {
    hide Inside, Sane, Walking, KinInOrder, KidsInOrder, Pushed, InfoOf, Reversed, Record, Kindred, KidsMatch, Forest;
    if stack == [] {
      WalkingDone(t, kin, trees, seen, whole, out);
    } else {
      SaneForest(t, parent, stack, out);
      SaneNext(t, parent, stack, out);
      WalkingNext(t, kin, trees, stack, seen, whole, out);
      var f := stack[|stack| - 1];
      var info := InfoOf(t, f, |out|);
      SameKids(t, parent, kin, f.id, info.file);
      RunStep(t, parent, stack, out);
      assert f.id in t.Keys - out.Keys;
      OneMore(out, f.id, info);
      RunIsRecord(t, parent, kin, trees[..|trees| - 1] + Reversed(trees[|trees| - 1].kids),
                  Popped(t, parent, stack, out), seen + [f], whole, out[f.id := info]);
    }
  }

  lemma OneMore(out: map<Text, Info>, v: Text, info: Info)
    requires v !in out
    ensures |out[v := info]| == |out| + 1
  {
    assert out[v := info].Keys == out.Keys + {v};
    assert |out[v := info]| == |out[v := info].Keys| && |out| == |out.Keys|;
  }

  /** On a forest the walk ends, visits each node once, and its records are those of
      the walk that never looks back. */
  lemma ForestWalked(t: Table, parent: Parents, kin: Kin)
    requires Forest(t, parent) && Kindred(parent, kin)
    ensures Terminates(t, kin) && Record(t, Visits(t, kin)) == Walked(t, parent)
    ensures Recorded(t, parent, [], Record(t, Visits(t, kin)))
  {
    hide Inside, Sane, Walking, Grown, StartStack, Record, Recorded, Kindred, Forest, Roots, TopsOf, PreorderAll;
    KindredInside(t, parent, kin);
    ForestTerminates(t, kin);
    var forest := TheForest(t, kin);
    WalkingStart(t, kin, forest);
    StartRecorded(t, parent);
    RecordedSane(t, parent, StartStack(t, parent), map[]);
    SameStart(t, parent, kin);
    RunIsRecord(t, parent, kin, Reversed(forest), StartStack(t, parent), [], PreorderAll(forest), map[]);
  }

  lemma SameStart(t: Table, parent: Parents, kin: Kin)
    requires TopsOf(t, kin) == Roots(t, parent)
    ensures RootFrames(TopsInOrder(t, kin)) == StartStack(t, parent)
  {
    hide TopsOf, Roots;
  }
}
