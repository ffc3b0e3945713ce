/** Where facts can travel on the tables alone, and what that says about the
    boundary of the recomputed procedures. */
module Boundaries {
  import opened Tabulation
  import opened Incremental

  // ----- routes

  predicate Hop(pb: Problem, s: Scope, m: nat, n: nat)
    requires WellFormed(pb)
  {
    m in pb.nodes && (n in pb.cfg[m] || (n in pb.calls[m] && InScope(s, n)))
  }

  ghost predicate RouteBy(pb: Problem, s: Scope, m: nat, n: nat, p: seq<nat>)
    requires WellFormed(pb)
  {
    && p != [] && p[0] == m && p[|p| - 1] == n
    && forall i :: 0 <= i < |p| - 1 ==> Hop(pb, s, p[i], p[i + 1])
  }

  /** `n` can be reached from `m` along CFG edges and calls in scope. */
  ghost predicate Routes(pb: Problem, s: Scope, m: nat, n: nat)
    requires WellFormed(pb)
  {
    exists p :: RouteBy(pb, s, m, n, p)
  }

  lemma RoutesSelf(pb: Problem, s: Scope, n: nat)
    requires WellFormed(pb)
    ensures Routes(pb, s, n, n)
  {
    assert RouteBy(pb, s, n, n, [n]);
  }

  lemma RoutesHop(pb: Problem, s: Scope, m: nat, n: nat, x: nat)
    requires WellFormed(pb) && Routes(pb, s, m, n) && Hop(pb, s, n, x)
    ensures Routes(pb, s, m, x)
  {
    hide Hop, WellFormed;
    var p :| RouteBy(pb, s, m, n, p);
    assert RouteBy(pb, s, m, x, p + [x]);
  }

  ghost predicate Closed(pb: Problem, s: Scope, r: iset<nat>)
    requires WellFormed(pb)
  {
    forall m, n :: m in r && Hop(pb, s, m, n) ==> n in r
  }

  lemma {:induction false} RouteInside(pb: Problem, s: Scope, p: seq<nat>, r: iset<nat>, i: nat)
    requires WellFormed(pb) && Closed(pb, s, r) && p != [] && p[0] in r && i < |p|
    requires forall i :: 0 <= i < |p| - 1 ==> Hop(pb, s, p[i], p[i + 1])
    ensures p[i] in r
  {
    hide Hop, WellFormed;
    if i > 0 {
      RouteInside(pb, s, p, r, i - 1);
      assert Hop(pb, s, p[i - 1], p[i - 1 + 1]);
    }
  }

  /** What is closed under hops holds everything a route from it reaches. */
  lemma RoutesInside(pb: Problem, s: Scope, m: nat, n: nat, r: iset<nat>)
    requires WellFormed(pb) && Closed(pb, s, r) && m in r && Routes(pb, s, m, n)
    ensures n in r
  {
    hide Hop, WellFormed, Closed;
    var p :| RouteBy(pb, s, m, n, p);
    RouteInside(pb, s, p, r, |p| - 1);
  }

  // ----- items follow routes

  lemma SuccessorHop(pb: Problem, s: Scope, x: Item, y: Item)
    requires WellFormed(pb) && y in Successors(pb, s, x)
    ensures y.fact == x.fact && Hop(pb, s, x.node, y.node) && x.node !in pb.sanitised
  {
  }

  lemma HopSuccessor(pb: Problem, s: Scope, m: nat, n: nat, f: nat)
    requires WellFormed(pb) && Hop(pb, s, m, n) && m !in pb.sanitised
    ensures Item(n, f) in Successors(pb, s, Item(m, f))
  {
  }

  lemma {:induction false} LinkedRoute(pb: Problem, s: Scope, p: seq<Item>, i: nat)
    requires WellFormed(pb) && Linked(pb, s, p) && i < |p|
    ensures p[i].fact == p[0].fact && Routes(pb, s, p[0].node, p[i].node)
  {
    hide Successors, SeedItems, WellFormed, Hop, Routes;
    if i == 0 {
      RoutesSelf(pb, s, p[0].node);
    } else {
      LinkedRoute(pb, s, p, i - 1);
      assert p[i - 1 + 1] in Successors(pb, s, p[i - 1]);
      SuccessorHop(pb, s, p[i - 1], p[i]);
      RoutesHop(pb, s, p[0].node, p[i - 1].node, p[i].node);
    }
  }

  /** A reachable item has a seed of its fact from which its node can be reached. */
  lemma SeedOf(pb: Problem, s: Scope, x: Item) returns (n: nat)
    requires WellFormed(pb) && Reachable(pb, s, x)
    ensures Item(n, x.fact) in SeedItems(pb, s) && Routes(pb, s, n, x.node)
  {
    hide Successors, SeedItems, WellFormed, Routes;
    var p: seq<Item> :| Leads(pb, s, p, x);
    LinkedRoute(pb, s, p, |p| - 1);
    n := p[0].node;
    assert p[0] == Item(n, x.fact);
  }

  lemma {:induction false} RouteReached(pb: Problem, s: Scope, p: seq<nat>, f: nat, i: nat)
    requires WellFormed(pb) && p != [] && Item(p[0], f) in SeedItems(pb, s) && i < |p|
    requires forall i :: 0 <= i < |p| - 1 ==> Hop(pb, s, p[i], p[i + 1])
    requires forall i :: 0 <= i < |p| - 1 ==> p[i] !in pb.sanitised
    ensures Reachable(pb, s, Item(p[i], f))
  {
    hide Successors, SeedItems, WellFormed, Hop, Reachable;
    if i == 0 {
      ReachableSeed(pb, s, Item(p[0], f));
    } else {
      RouteReached(pb, s, p, f, i - 1);
      assert Hop(pb, s, p[i - 1], p[i - 1 + 1]) && p[i - 1] !in pb.sanitised;
      HopSuccessor(pb, s, p[i - 1], p[i], f);
      ReachableNext(pb, s, Item(p[i - 1], f), Item(p[i], f));
    }
  }

  /** Without sanitisers a fact goes wherever a route from its seed goes. */
  lemma RoutesReached(pb: Problem, s: Scope, n: nat, f: nat, x: nat)
    requires WellFormed(pb) && Item(n, f) in SeedItems(pb, s) && Routes(pb, s, n, x) && pb.sanitised == {}
    ensures Reachable(pb, s, Item(x, f))
  {
    hide SeedItems, WellFormed, Hop, Reachable;
    var p :| RouteBy(pb, s, n, x, p);
    RouteReached(pb, s, p, f, |p| - 1);
  }

  // ----- what a detector can and cannot choose

  /** Only nodes with text can be sources or sinks, and no two nodes share a fact. */
  ghost predicate Readable(pb: Problem, lit: set<nat>) {
    && pb.seeds.Keys <= lit && pb.sinks <= lit
    && forall u, v, f {:trigger f in pb.seeds[u], f in pb.seeds[v]} ::
         u in pb.seeds && v in pb.seeds && f in pb.seeds[u] && f in pb.seeds[v] ==> u == v
  }

  predicate Seedable(pb: Problem, lit: set<nat>, n: nat) {
    n in pb.procOf && n in lit
  }

  lemma SeedMeans(pb: Problem, s: Scope, x: Item)
    ensures x in SeedItems(pb, s) <==>
              x.node in pb.seeds && x.fact in pb.seeds[x.node] && NodeInScope(pb, s, x.node)
  {
    assert x == Item(x.node, x.fact);
  }

  lemma SeedSeedable(pb: Problem, lit: set<nat>, s: Scope, x: Item)
    requires Readable(pb, lit) && x in SeedItems(pb, s)
    ensures Seedable(pb, lit, x.node) && (s.Only? ==> OwnedBy(pb, s.procs, x.node))
  {
    SeedMeans(pb, s, x);
  }

  lemma SeedUnique(pb: Problem, lit: set<nat>, r: Scope, s: Scope, m: nat, n: nat, f: nat)
    requires Readable(pb, lit) && Item(m, f) in SeedItems(pb, r) && Item(n, f) in SeedItems(pb, s)
    ensures m == n
  {
    SeedMeans(pb, r, Item(m, f));
    SeedMeans(pb, s, Item(n, f));
  }

  // ----- the conditions

  /** Whatever a possible sink inside can be reached from lies inside too and
      reaches it without leaving the restricted tables. */
  ghost predicate Covered(pb: Problem, lit: set<nat>, c: set<nat>)
    requires WellFormed(pb)
  {
    forall n, s {:trigger Routes(pb, Everywhere, n, s)} ::
      Seedable(pb, lit, n) && s in lit && OwnedBy(pb, c, s) && Routes(pb, Everywhere, n, s) ==>
        OwnedBy(pb, c, n) && Routes(pb, Only(c), n, s)
  }

  /** No possible source inside reaches another procedure on the restricted tables. */
  ghost predicate Contained(pb: Problem, lit: set<nat>, c: set<nat>)
    requires WellFormed(pb)
  {
    forall n, s {:trigger Routes(pb, Only(c), n, s)} ::
      Seedable(pb, lit, n) && OwnedBy(pb, c, n) && Routes(pb, Only(c), n, s) && s in pb.procOf ==> OwnedBy(pb, c, s)
  }

  /** Nor a possible sink outside every procedure. */
  ghost predicate Housed(pb: Problem, lit: set<nat>, c: set<nat>)
    requires WellFormed(pb)
  {
    forall n, s {:trigger Routes(pb, Only(c), n, s)} ::
      Seedable(pb, lit, n) && OwnedBy(pb, c, n) && Routes(pb, Only(c), n, s) && s in lit ==> s in pb.procOf
  }

  ghost predicate Separated(pb: Problem, lit: set<nat>, c: set<nat>)
    requires WellFormed(pb)
  {
    Covered(pb, lit, c) && Contained(pb, lit, c) && Housed(pb, lit, c)
  }

  /** A route that leaves by a call comes back to where the restricted run also goes. */
  ghost predicate RejoinAt(pb: Problem, lit: set<nat>, c: set<nat>, n: nat, m: nat, q: nat, x: nat)
    requires WellFormed(pb)
  {
    && Seedable(pb, lit, n) && OwnedBy(pb, c, n) && Routes(pb, Only(c), n, m)
    && m in pb.nodes && q in pb.calls[m] && q !in c
    && Routes(pb, Everywhere, q, x) && Routes(pb, Only(c), n, x)
  }

  ghost predicate Rejoins(pb: Problem, lit: set<nat>, c: set<nat>)
    requires WellFormed(pb)
  {
    exists n, m, q, x :: RejoinAt(pb, lit, c, n, m, q, x)
  }

  lemma NodesClosed(pb: Problem, s: Scope)
    requires WellFormed(pb)
    ensures Closed(pb, s, iset n | n in pb.nodes)
  {
  }

  /** Where every node has text, a route that came back would break the first condition. */
  lemma LegibleNeverRejoins(pb: Problem, lit: set<nat>, c: set<nat>)
    requires WellFormed(pb) && pb.nodes <= lit && Separated(pb, lit, c)
    ensures !Rejoins(pb, lit, c)
  {
    hide Routes, Hop, Closed;
    forall n, m, q, x ensures !RejoinAt(pb, lit, c, n, m, q, x) {
      if RejoinAt(pb, lit, c, n, m, q, x) {
        NodesClosed(pb, Only(c));
        RoutesInside(pb, Only(c), n, x, iset n | n in pb.nodes);
      }
    }
  }

  // ----- what they imply for one detector

  ghost function PartItems(pb: Problem, c: set<nat>): (k: set<Item>)
    requires WellFormed(pb)
  {
    Tabulated(pb, Only(c)).pred.Keys
  }

  lemma PartItemsExact(pb: Problem, c: set<nat>, x: Item)
    requires WellFormed(pb)
    ensures x in PartItems(pb, c) <==> Reachable(pb, Only(c), x)
  {
    hide Tabulated, Reachable, Timed, Origins, WellFormed;
    var time := TabulationExact(pb, Only(c));
  }

  /** Seed of a restricted item, seen from any other way the fact was seeded. */
  lemma PartRoute(pb: Problem, lit: set<nat>, c: set<nat>, n: nat, x: Item)
    requires WellFormed(pb) && Readable(pb, lit) && Item(n, x.fact) in SeedItems(pb, Everywhere)
    requires x in PartItems(pb, c)
    ensures Seedable(pb, lit, n) && OwnedBy(pb, c, n) && Routes(pb, Only(c), n, x.node)
  {
    hide WellFormed, Readable, SeedItems, Routes, PartItems, Reachable;
    PartItemsExact(pb, c, x);
    var m := SeedOf(pb, Only(c), x);
    SeedUnique(pb, lit, Only(c), Everywhere, m, n, x.fact);
    SeedSeedable(pb, lit, Only(c), Item(m, x.fact));
  }

  lemma PartNext(pb: Problem, c: set<nat>, x: Item, y: Item)
    requires WellFormed(pb) && x in PartItems(pb, c) && y in Successors(pb, Only(c), x)
    ensures y in PartItems(pb, c)
  {
    hide WellFormed, PartItems, Successors, Reachable;
    PartItemsExact(pb, c, x);
    PartItemsExact(pb, c, y);
    ReachableNext(pb, Only(c), x, y);
  }

  /** The first step of a full path out of the restricted items is a call out. */
  lemma {:induction false} CallOut(pb: Problem, c: set<nat>, p: seq<Item>, j: nat) returns (i: nat)
    requires WellFormed(pb) && Linked(pb, Everywhere, p) && p[0] in PartItems(pb, c) && j < |p|
    requires p[j] !in PartItems(pb, c)
    ensures i < j && p[i] in PartItems(pb, c) && p[i + 1] !in PartItems(pb, c)
    decreases j
  {
    hide WellFormed, PartItems, Successors, SeedItems;
    if p[j - 1] in PartItems(pb, c) {
      i := j - 1;
    } else {
      i := CallOut(pb, c, p, j - 1);
    }
  }

  lemma OnlyByCall(pb: Problem, c: set<nat>, x: Item, y: Item)
    requires WellFormed(pb) && y in Successors(pb, Everywhere, x) && y !in Successors(pb, Only(c), x)
    ensures x.node in pb.nodes && y.node in pb.calls[x.node] && y.node !in c && y.fact == x.fact
  {
  }

  lemma NarrowSuccessor(pb: Problem, c: set<nat>, x: Item, y: Item)
    requires WellFormed(pb) && y in Successors(pb, Only(c), x)
    ensures y in Successors(pb, Everywhere, x)
  {
  }

  lemma TailLinked(pb: Problem, s: Scope, p: seq<Item>, i: nat, j: nat)
    requires WellFormed(pb) && Linked(pb, s, p) && i <= j < |p|
    ensures Routes(pb, s, p[i].node, p[j].node) && p[i].fact == p[j].fact
    decreases j
  {
    hide Successors, SeedItems, WellFormed, Hop, Routes;
    if i == j {
      RoutesSelf(pb, s, p[i].node);
    } else {
      TailLinked(pb, s, p, i, j - 1);
      assert p[j - 1 + 1] in Successors(pb, s, p[j - 1]);
      SuccessorHop(pb, s, p[j - 1], p[j]);
      RoutesHop(pb, s, p[i].node, p[j - 1].node, p[j].node);
    }
  }

  /** An item only the full run discovers, with its seed inside, lies beyond a call out. */
  lemma BeyondCall(pb: Problem, lit: set<nat>, c: set<nat>, n: nat, x: Item) returns (m: nat, q: nat)
    requires WellFormed(pb) && Readable(pb, lit) && Reachable(pb, Everywhere, x) && x !in PartItems(pb, c)
    requires Item(n, x.fact) in SeedItems(pb, Everywhere) && OwnedBy(pb, c, n)
    ensures Seedable(pb, lit, n) && Routes(pb, Only(c), n, m)
    ensures m in pb.nodes && q in pb.calls[m] && q !in c && Routes(pb, Everywhere, q, x.node)
  {
    hide WellFormed, Readable, Successors, Routes, PartItems, Reachable;
    ReachablePath(pb, Everywhere, x);
    var p: seq<Item> :| Leads(pb, Everywhere, p, x);
    LinkedRoute(pb, Everywhere, p, |p| - 1);
    assert p[0] == Item(p[0].node, x.fact);
    SeedUnique(pb, lit, Everywhere, Everywhere, p[0].node, n, x.fact);
    SeedInPart(pb, c, Item(n, x.fact));
    var i := CallOut(pb, c, p, |p| - 1);
    assert p[i + 1] in Successors(pb, Everywhere, p[i]);
    if p[i + 1] in Successors(pb, Only(c), p[i]) { PartNext(pb, c, p[i], p[i + 1]); }
    OnlyByCall(pb, c, p[i], p[i + 1]);
    TailLinked(pb, Everywhere, p, 0, i);
    PartRoute(pb, lit, c, n, p[i]);
    TailLinked(pb, Everywhere, p, i + 1, |p| - 1);
    m, q := p[i].node, p[i + 1].node;
  }

  lemma ReachablePath(pb: Problem, s: Scope, x: Item)
    requires WellFormed(pb) && Reachable(pb, s, x)
    ensures exists p :: Leads(pb, s, p, x)
  {
  }

  lemma SeedInPart(pb: Problem, c: set<nat>, x: Item)
    requires WellFormed(pb) && x in SeedItems(pb, Everywhere) && OwnedBy(pb, c, x.node)
    ensures x in PartItems(pb, c)
  {
    hide WellFormed, PartItems, Reachable;
    SeedMeans(pb, Everywhere, x);
    SeedMeans(pb, Only(c), x);
    ReachableSeed(pb, Only(c), x);
    PartItemsExact(pb, c, x);
  }

  lemma SplitInside(pb: Problem, lit: set<nat>, c: set<nat>, x: Item)
    requires WellFormed(pb) && Readable(pb, lit) && !Rejoins(pb, lit, c)
    requires Reachable(pb, Everywhere, x) && x in PartItems(pb, c)
    ensures SplitsAt(pb, c, PartItems(pb, c), x)
  {
    hide WellFormed, Readable, Successors, Routes, PartItems, Reachable, SeedItems, Rejoins;
    var n := SeedOf(pb, Everywhere, x);
    PartRoute(pb, lit, c, n, x);
    forall y | y in Successors(pb, Only(c), x) ensures y in Successors(pb, Everywhere, x) && y in PartItems(pb, c) {
      NarrowSuccessor(pb, c, x, y);
      PartNext(pb, c, x, y);
    }
    forall y | y in Successors(pb, Everywhere, x) && y in PartItems(pb, c) ensures y in Successors(pb, Only(c), x) {
      if y !in Successors(pb, Only(c), x) {
        OnlyByCall(pb, c, x, y);
        PartRoute(pb, lit, c, n, y);
        RoutesSelf(pb, Everywhere, y.node);
        NoRejoin(pb, lit, c, n, x.node, y.node, y.node);
      }
    }
  }

  lemma NoRejoin(pb: Problem, lit: set<nat>, c: set<nat>, n: nat, m: nat, q: nat, x: nat)
    requires WellFormed(pb) && !Rejoins(pb, lit, c)
    ensures !RejoinAt(pb, lit, c, n, m, q, x)
  {
  }

  lemma SplitOutside(pb: Problem, lit: set<nat>, c: set<nat>, x: Item)
    requires WellFormed(pb) && Readable(pb, lit) && !Rejoins(pb, lit, c)
    requires Reachable(pb, Everywhere, x) && x !in PartItems(pb, c)
    ensures SplitsAt(pb, c, PartItems(pb, c), x)
  {
    hide WellFormed, Readable, Successors, Routes, PartItems, Reachable, SeedItems, Rejoins, Hop;
    var n := SeedOf(pb, Everywhere, x);
    forall y | y in Successors(pb, Everywhere, x) ensures y !in PartItems(pb, c) {
      SuccessorHop(pb, Everywhere, x, y);
      if y in PartItems(pb, c) {
        PartRoute(pb, lit, c, n, y);
        var m, q := BeyondCall(pb, lit, c, n, x);
        RoutesHop(pb, Everywhere, q, x.node, y.node);
        NoRejoin(pb, lit, c, n, m, q, y.node);
      }
    }
  }

  /** Where no route that left by a call comes back, the restricted run is a part of
      the full one, for whatever a detector chooses. */
  lemma SplitsApart(pb: Problem, lit: set<nat>, c: set<nat>)
    requires WellFormed(pb) && Readable(pb, lit) && !Rejoins(pb, lit, c)
    ensures Splits(pb, c, PartItems(pb, c))
  {
    hide WellFormed, Readable, Successors, Routes, PartItems, Reachable, Rejoins, SplitsAt;
    forall x ensures x in SeedItems(pb, Only(c)) <==> x in SeedItems(pb, Everywhere) && x in PartItems(pb, c) {
      SeedSplits(pb, lit, c, x);
    }
    forall x | Reachable(pb, Everywhere, x) ensures SplitsAt(pb, c, PartItems(pb, c), x) {
      if x in PartItems(pb, c) { SplitInside(pb, lit, c, x); } else { SplitOutside(pb, lit, c, x); }
    }
  }

  lemma SeedSplits(pb: Problem, lit: set<nat>, c: set<nat>, x: Item)
    requires WellFormed(pb) && Readable(pb, lit)
    ensures x in SeedItems(pb, Only(c)) <==> x in SeedItems(pb, Everywhere) && x in PartItems(pb, c)
  {
    hide WellFormed, Readable, PartItems, Routes;
    SeedMeans(pb, Only(c), x);
    SeedMeans(pb, Everywhere, x);
    if x in SeedItems(pb, Only(c)) { SeedInPart(pb, c, x); }
    if x in SeedItems(pb, Everywhere) && x in PartItems(pb, c) {
      assert x == Item(x.node, x.fact);
      PartRoute(pb, lit, c, x.node, x);
    }
  }

  lemma FullItemsExact(pb: Problem, x: Item)
    requires WellFormed(pb)
    ensures x in Tabulated(pb, Everywhere).pred <==> Reachable(pb, Everywhere, x)
  {
    hide Tabulated, Reachable, Timed, Origins, WellFormed;
    var time := TabulationExact(pb, Everywhere);
  }

  lemma CoveredAt(pb: Problem, lit: set<nat>, c: set<nat>, n: nat, s: nat)
    requires WellFormed(pb) && Covered(pb, lit, c) && Seedable(pb, lit, n) && s in lit && OwnedBy(pb, c, s)
    requires Routes(pb, Everywhere, n, s)
    ensures OwnedBy(pb, c, n) && Routes(pb, Only(c), n, s)
  {
  }

  lemma CoveredKeepsSinks(pb: Problem, lit: set<nat>, c: set<nat>)
    requires WellFormed(pb) && Readable(pb, lit) && !Rejoins(pb, lit, c) && Covered(pb, lit, c)
    ensures SinksKept(pb, c)
  {
    forall x | x in Tabulated(pb, Everywhere).pred && x.node in pb.sinks && OwnedBy(pb, c, x.node)
      ensures x in Tabulated(pb, Only(c)).pred
    {
      SinkKept(pb, lit, c, x);
    }
  }

  lemma SinkKept(pb: Problem, lit: set<nat>, c: set<nat>, x: Item)
    requires WellFormed(pb) && Readable(pb, lit) && !Rejoins(pb, lit, c) && Covered(pb, lit, c)
    requires x in Tabulated(pb, Everywhere).pred && x.node in pb.sinks && OwnedBy(pb, c, x.node)
    ensures x in PartItems(pb, c)
  {
    hide WellFormed, Routes, PartItems, Reachable, SeedItems, Rejoins, Covered, Tabulated;
    FullItemsExact(pb, x);
    var n := SeedOf(pb, Everywhere, x);
    SeedSeedable(pb, lit, Everywhere, Item(n, x.fact));
    CoveredAt(pb, lit, c, n, x.node);
    if x !in PartItems(pb, c) {
      var m, q := BeyondCall(pb, lit, c, n, x);
      NoRejoin(pb, lit, c, n, m, q, x.node);
    }
  }

  lemma PartItemRoute(pb: Problem, lit: set<nat>, c: set<nat>, x: Item) returns (n: nat)
    requires WellFormed(pb) && Readable(pb, lit) && x in PartItems(pb, c)
    ensures Seedable(pb, lit, n) && OwnedBy(pb, c, n) && Routes(pb, Only(c), n, x.node)
  {
    hide WellFormed, Readable, Routes, PartItems, Reachable, SeedItems;
    PartItemsExact(pb, c, x);
    n := SeedOf(pb, Only(c), x);
    SeedSeedable(pb, lit, Only(c), Item(n, x.fact));
  }

  ghost predicate StaysHome(pb: Problem, c: set<nat>)
    requires WellFormed(pb)
  {
    Touched(pb, Tabulated(pb, Only(c)).pred) <= c
  }

  lemma ContainedStays(pb: Problem, lit: set<nat>, c: set<nat>)
    requires WellFormed(pb) && Readable(pb, lit) && Contained(pb, lit, c)
    ensures StaysHome(pb, c)
  {
    hide WellFormed, Readable, Routes, Tabulated;
    forall x | x in PartItems(pb, c) && x.node in pb.procOf ensures pb.procOf[x.node] in c {
      var n := PartItemRoute(pb, lit, c, x);
    }
  }

  /** Every restricted item at a sink lies inside. */
  ghost predicate SinksInside(pb: Problem, c: set<nat>)
    requires WellFormed(pb)
  {
    forall x :: x in Tabulated(pb, Only(c)).pred && x.node in pb.sinks ==> OwnedBy(pb, c, x.node)
  }

  lemma HousedSinks(pb: Problem, lit: set<nat>, c: set<nat>)
    requires WellFormed(pb) && Readable(pb, lit) && Contained(pb, lit, c) && Housed(pb, lit, c)
    ensures SinksInside(pb, c)
  {
    hide WellFormed, Routes, Tabulated;
    forall x | x in PartItems(pb, c) && x.node in pb.sinks ensures OwnedBy(pb, c, x.node) {
      var n := PartItemRoute(pb, lit, c, x);
    }
  }

  // ----- control flow inside procedures is enough

  /** Every CFG edge stays inside one procedure. */
  ghost predicate Intraprocedural(pb: Problem)
    requires WellFormed(pb)
  {
    forall n, s :: n in pb.nodes && s in pb.cfg[n] ==> SameOwner(pb, n, s)
  }

  predicate SameOwner(pb: Problem, m: nat, n: nat) {
    if m in pb.procOf then n in pb.procOf && pb.procOf[n] == pb.procOf[m] else n !in pb.procOf
  }

  /** A set of procedures that holds every caller of its members. */
  ghost predicate CallerClosed(pb: Problem, c: set<nat>)
    requires WellFormed(pb)
  {
    forall n, q :: n in pb.nodes && n in pb.procOf && q in pb.calls[n] && q in c ==> pb.procOf[n] in c
  }

  ghost function Inner(pb: Problem, c: set<nat>): (r: iset<nat>) {
    iset n | OwnedBy(pb, c, n)
  }

  ghost function Outer(pb: Problem, c: set<nat>): (r: iset<nat>) {
    iset n | n in pb.procOf && pb.procOf[n] !in c
  }

  lemma InnerClosed(pb: Problem, c: set<nat>)
    requires WellFormed(pb) && Intraprocedural(pb)
    ensures Closed(pb, Only(c), Inner(pb, c))
  {
    forall m, n | m in Inner(pb, c) && Hop(pb, Only(c), m, n) ensures n in Inner(pb, c) {
      if n in pb.cfg[m] { assert SameOwner(pb, m, n); }
    }
  }

  lemma OuterClosed(pb: Problem, c: set<nat>)
    requires WellFormed(pb) && Intraprocedural(pb) && CallerClosed(pb, c)
    ensures Closed(pb, Everywhere, Outer(pb, c))
  {
    forall m, n | m in Outer(pb, c) && Hop(pb, Everywhere, m, n) ensures n in Outer(pb, c) {
      if n in pb.cfg[m] { assert SameOwner(pb, m, n); }
    }
  }

  lemma InnerHop(pb: Problem, c: set<nat>, m: nat, n: nat)
    requires WellFormed(pb) && Hop(pb, Everywhere, m, n) && OwnedBy(pb, c, n)
    ensures Hop(pb, Only(c), m, n)
  {
  }

  lemma HopBack(pb: Problem, c: set<nat>, m: nat, n: nat)
    requires WellFormed(pb) && Intraprocedural(pb) && CallerClosed(pb, c)
    requires m in pb.procOf && Hop(pb, Everywhere, m, n) && OwnedBy(pb, c, n)
    ensures OwnedBy(pb, c, m)
  {
    if n in pb.cfg[m] { assert SameOwner(pb, m, n); }
  }

  /** A route that ends inside never left. */
  lemma {:induction false} RouteStaysInner(pb: Problem, c: set<nat>, p: seq<nat>, i: nat)
    requires WellFormed(pb) && Intraprocedural(pb) && CallerClosed(pb, c)
    requires p != [] && p[0] in pb.procOf && OwnedBy(pb, c, p[|p| - 1]) && i < |p|
    requires forall i :: 0 <= i < |p| - 1 ==> Hop(pb, Everywhere, p[i], p[i + 1])
    ensures OwnedBy(pb, c, p[i])
    decreases |p| - i
  {
    hide WellFormed, Hop, Intraprocedural, CallerClosed;
    if i < |p| - 1 {
      RouteStaysInner(pb, c, p, i + 1);
      OwnedAlong(pb, c, p, i);
      assert Hop(pb, Everywhere, p[i], p[i + 1]);
      HopBack(pb, c, p[i], p[i + 1]);
    }
  }

  lemma {:induction false} OwnedAlong(pb: Problem, c: set<nat>, p: seq<nat>, i: nat)
    requires WellFormed(pb) && Intraprocedural(pb) && p != [] && p[0] in pb.procOf && i < |p|
    requires forall i :: 0 <= i < |p| - 1 ==> Hop(pb, Everywhere, p[i], p[i + 1])
    ensures p[i] in pb.procOf
  {
    hide WellFormed, Hop, Intraprocedural;
    if i > 0 {
      OwnedAlong(pb, c, p, i - 1);
      assert Hop(pb, Everywhere, p[i - 1], p[i - 1 + 1]);
      HopOwned(pb, p[i - 1], p[i]);
    }
  }

  lemma HopOwned(pb: Problem, m: nat, n: nat)
    requires WellFormed(pb) && Intraprocedural(pb) && m in pb.procOf && Hop(pb, Everywhere, m, n)
    ensures n in pb.procOf
  {
    if n in pb.cfg[m] { assert SameOwner(pb, m, n); }
  }

  lemma RouteNarrows(pb: Problem, c: set<nat>, n: nat, s: nat)
    requires WellFormed(pb) && Intraprocedural(pb) && CallerClosed(pb, c)
    requires n in pb.procOf && OwnedBy(pb, c, s) && Routes(pb, Everywhere, n, s)
    ensures OwnedBy(pb, c, n) && Routes(pb, Only(c), n, s)
  {
    hide WellFormed, Hop, Intraprocedural, CallerClosed;
    var p :| RouteBy(pb, Everywhere, n, s, p);
    RouteStaysInner(pb, c, p, 0);
    forall i | 0 <= i < |p| - 1 ensures Hop(pb, Only(c), p[i], p[i + 1]) {
      RouteStaysInner(pb, c, p, i + 1);
      InnerHop(pb, c, p[i], p[i + 1]);
    }
    assert RouteBy(pb, Only(c), n, s, p);
  }

  /** Then all four conditions hold for every caller-closed set, whatever nodes
      carry text. */
  lemma IntraproceduralSeparates(pb: Problem, lit: set<nat>, c: set<nat>)
    requires WellFormed(pb) && Intraprocedural(pb) && CallerClosed(pb, c)
    ensures Covered(pb, lit, c) && Contained(pb, lit, c) && Housed(pb, lit, c) && !Rejoins(pb, lit, c)
  {
    hide WellFormed, Routes, Intraprocedural, CallerClosed;
    forall n, s {:trigger Routes(pb, Everywhere, n, s)} |
      Seedable(pb, lit, n) && s in lit && OwnedBy(pb, c, s) && Routes(pb, Everywhere, n, s)
      ensures OwnedBy(pb, c, n) && Routes(pb, Only(c), n, s)
    {
      RouteNarrows(pb, c, n, s);
    }
    forall n, s {:trigger Routes(pb, Only(c), n, s)} | OwnedBy(pb, c, n) && Routes(pb, Only(c), n, s)
      ensures OwnedBy(pb, c, s) {
      InnerClosed(pb, c);
      RoutesInside(pb, Only(c), n, s, Inner(pb, c));
    }
    forall n, m, q, x ensures !RejoinAt(pb, lit, c, n, m, q, x) {
      if RejoinAt(pb, lit, c, n, m, q, x) {
        CalleeOuter(pb, c, m, q);
        OuterClosed(pb, c);
        RoutesInside(pb, Everywhere, q, x, Outer(pb, c));
      }
    }
  }

  lemma CalleeOuter(pb: Problem, c: set<nat>, m: nat, q: nat)
    requires WellFormed(pb) && m in pb.nodes && q in pb.calls[m] && q !in c
    ensures q in Outer(pb, c)
  {
  }

  // ----- the conditions see the tables only

  ghost predicate SameSkeleton(pb: Problem, qb: Problem) {
    && pb.nodes == qb.nodes && pb.procOf == qb.procOf && pb.cfg == qb.cfg && pb.calls == qb.calls
    && pb.rank == qb.rank
  }

  lemma RouteSame(pb: Problem, qb: Problem, s: Scope, m: nat, n: nat, p: seq<nat>)
    requires WellFormed(pb) && WellFormed(qb) && SameSkeleton(pb, qb) && RouteBy(pb, s, m, n, p)
    ensures RouteBy(qb, s, m, n, p)
  {
    hide WellFormed;
    forall i | 0 <= i < |p| - 1 ensures Hop(qb, s, p[i], p[i + 1]) { assert Hop(pb, s, p[i], p[i + 1]); }
  }

  lemma RoutesSame(pb: Problem, qb: Problem, s: Scope, m: nat, n: nat)
    requires WellFormed(pb) && WellFormed(qb) && SameSkeleton(pb, qb)
    ensures Routes(pb, s, m, n) <==> Routes(qb, s, m, n)
  {
    hide WellFormed, RouteBy;
    if p :| RouteBy(pb, s, m, n, p) { RouteSame(pb, qb, s, m, n, p); }
    if p :| RouteBy(qb, s, m, n, p) { RouteSame(qb, pb, s, m, n, p); }
  }

  lemma ConditionsSame(pb: Problem, qb: Problem, lit: set<nat>, c: set<nat>)
    requires WellFormed(pb) && WellFormed(qb) && SameSkeleton(pb, qb)
    ensures Covered(pb, lit, c) <==> Covered(qb, lit, c)
    ensures Contained(pb, lit, c) <==> Contained(qb, lit, c)
    ensures Housed(pb, lit, c) <==> Housed(qb, lit, c)
    ensures Rejoins(pb, lit, c) <==> Rejoins(qb, lit, c)
  {
    hide WellFormed, Routes;
    forall s: Scope, m, n ensures Routes(pb, s, m, n) <==> Routes(qb, s, m, n) { RoutesSame(pb, qb, s, m, n); }
    if n, m, q, x :| RejoinAt(pb, lit, c, n, m, q, x) { assert RejoinAt(qb, lit, c, n, m, q, x); }
    if n, m, q, x :| RejoinAt(qb, lit, c, n, m, q, x) { assert RejoinAt(pb, lit, c, n, m, q, x); }
  }
}
