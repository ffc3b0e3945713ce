/** Which graphs let an incremental solve report what a full one reports, for
    every detector, whatever routes leave and come back. */
module DetectorReports {
  import opened ByteStrings
  import opened Graphs
  import opened Encoding
  import opened Cpgs
  import opened CanonicalOrders
  import opened Supergraphs
  import opened Incremental
  import opened Boundaries
  import opened Solutions
  import opened Readings
  import opened IncrementalSolves
  import opened DetectorBounds
  import T = Tabulation

  // ----- routes and the texts on them

  /** The texts a detector could stop a fact at along a route, short of its end. */
  ghost function TextsOn(g: Cpg, p: seq<nat>): (r: set<Bytes>)
    requires p != []
  {
    set i | 0 <= i < |p| - 1 && p[i] in Texted(g) :: TextAt(g, p[i])
  }

  ghost predicate Bypasses(g: Cpg, order: seq<nat>, c: set<nat>, n: nat, s: nat, p: seq<nat>, q: seq<nat>)
    requires WellFormed(Content(g)) && CompleteOrder(Content(g), order) && p != []
  {
    RouteBy(Tables(g, order), T.Only(c), n, s, q) && TextsOn(g, q) <= TextsOn(g, p)
  }

  /** Every route to a possible sink inside starts inside and has a restricted
      route beside it that meets no other text. */
  ghost predicate Dominated(g: Cpg, order: seq<nat>, c: set<nat>)
    requires WellFormed(Content(g)) && CompleteOrder(Content(g), order)
  {
    forall n, s, p {:trigger RouteBy(Tables(g, order), T.Everywhere, n, s, p)} ::
      Seedable(Tables(g, order), Texted(g), n) && s in Texted(g) && OwnedBy(Tables(g, order), c, s)
      && RouteBy(Tables(g, order), T.Everywhere, n, s, p) ==>
        OwnedBy(Tables(g, order), c, n) && exists q :: Bypasses(g, order, c, n, s, p, q)
  }

  /** A fact passes a route exactly when none of its texts is sanitised. */
  lemma PassesOn(g: Cpg, order: seq<nat>, det: Detector, p: seq<nat>)
    requires WellFormed(Content(g)) && CompleteOrder(Content(g), order) && p != []
    ensures (forall i :: 0 <= i < |p| - 1 ==> p[i] !in ProblemOf(g, order, det).sanitised) <==>
              forall t :: t in TextsOn(g, p) ==> t !in det.sanitizers
  {
    hide Content, WellFormed, CompleteOrder, ProblemOf, Texted;
    forall i | 0 <= i < |p| - 1
      ensures p[i] in ProblemOf(g, order, det).sanitised <==> p[i] in Texted(g) && TextAt(g, p[i]) in det.sanitizers
    {
      SanitisedMeans(g, order, det, p[i]);
    }
    if i :| 0 <= i < |p| - 1 && p[i] in ProblemOf(g, order, det).sanitised {
      assert TextAt(g, p[i]) in TextsOn(g, p);
    }
  }

  /** The nodes of an item path form a route that its fact passes. */
  lemma {:induction false} NodesOf(pb: T.Problem, s: T.Scope, p: seq<T.Item>, x: T.Item) returns (r: seq<nat>)
    requires T.WellFormed(pb) && T.Leads(pb, s, p, x)
    ensures r != [] && RouteBy(pb, s, p[0].node, x.node, r) && p[0].fact == x.fact
    ensures forall i :: 0 <= i < |r| - 1 ==> r[i] !in pb.sanitised
  {
    hide T.WellFormed, T.Successors, T.SeedItems, Hop;
    r := seq(|p|, i requires 0 <= i < |p| => p[i].node);
    forall i | 0 <= i < |r| - 1 ensures Hop(pb, s, r[i], r[i + 1]) && r[i] !in pb.sanitised {
      SuccessorHop(pb, s, p[i], p[i + 1]);
    }
    LinkedRoute(pb, s, p, |p| - 1);
  }

  lemma DominatedKeeps(g: Cpg, order: seq<nat>, det: Detector, c: set<nat>, x: T.Item)
    requires WellFormed(Content(g)) && CompleteOrder(Content(g), order) && Dominated(g, order, c)
    requires T.WellFormed(ProblemOf(g, order, det)) && x in T.Tabulated(ProblemOf(g, order, det), T.Everywhere).pred
    requires x.node in ProblemOf(g, order, det).sinks && OwnedBy(ProblemOf(g, order, det), c, x.node)
    ensures x in T.Tabulated(ProblemOf(g, order, det), T.Only(c)).pred
  {
    hide Content, WellFormed, CompleteOrder, ProblemOf, Tables, T.WellFormed, Texted, T.Tabulated, TextsOn,
      T.SeedItems, T.Successors, T.Reachable, RouteBy, T.Linked;
    var pb, tb := ProblemOf(g, order, det), Tables(g, order);
    TablesShared(g, order, det);
    ProblemReadable(g, order, det);
    FullItemsExact(pb, x);
    ReachablePath(pb, T.Everywhere, x);
    var path: seq<T.Item> :| T.Leads(pb, T.Everywhere, path, x);
    var n, p := SeedRoute(pb, T.Everywhere, path, x);
    SeedSeedable(pb, Texted(g), T.Everywhere, T.Item(n, x.fact));
    RouteSame(pb, tb, T.Everywhere, n, x.node, p);
    assert exists q :: Bypasses(g, order, c, n, x.node, p, q);
    var q :| Bypasses(g, order, c, n, x.node, p, q);
    RouteSame(tb, pb, T.Only(c), n, x.node, q);
    PassesOn(g, order, det, p);
    RouteNotEmpty(pb, T.Only(c), n, x.node, q);
    PassesOn(g, order, det, q);
    SeedMeans(pb, T.Everywhere, T.Item(n, x.fact));
    SeedMeans(pb, T.Only(c), T.Item(n, x.fact));
    RouteTaken(pb, T.Only(c), n, x, q);
    PartItemsExact(pb, c, x);
  }

  lemma SeedRoute(pb: T.Problem, s: T.Scope, path: seq<T.Item>, x: T.Item) returns (n: nat, p: seq<nat>)
    requires T.WellFormed(pb) && T.Leads(pb, s, path, x)
    ensures p != [] && RouteBy(pb, s, n, x.node, p) && T.Item(n, x.fact) in T.SeedItems(pb, s)
    ensures forall i :: 0 <= i < |p| - 1 ==> p[i] !in pb.sanitised
  {
    hide T.WellFormed, T.Successors, T.SeedItems, Hop;
    p := NodesOf(pb, s, path, x);
    n := path[0].node;
    assert path[0] == T.Item(n, x.fact);
  }

  lemma RouteNotEmpty(pb: T.Problem, s: T.Scope, n: nat, x: nat, p: seq<nat>)
    requires T.WellFormed(pb) && RouteBy(pb, s, n, x, p)
    ensures p != []
  {
  }

  lemma RouteTaken(pb: T.Problem, s: T.Scope, n: nat, x: T.Item, p: seq<nat>)
    requires T.WellFormed(pb) && RouteBy(pb, s, n, x.node, p) && T.Item(n, x.fact) in T.SeedItems(pb, s)
    requires forall i :: 0 <= i < |p| - 1 ==> p[i] !in pb.sanitised
    ensures T.Reachable(pb, s, x)
  {
    hide T.WellFormed, T.SeedItems, Hop, T.Reachable;
    RouteReached(pb, s, p, x.fact, |p| - 1);
    assert x == T.Item(p[|p| - 1], x.fact);
  }

  lemma {:induction false} TextList(s: set<Bytes>) returns (ts: seq<Bytes>)
    ensures forall t :: t in ts <==> t in s
  {
    if s == {} {
      ts := [];
    } else {
      var t :| t in s;
      var rest := TextList(s - {t});
      ts := rest + [t];
    }
  }

  ghost function TextsOff(g: Cpg, p: seq<nat>): (r: set<Bytes>)
    requires p != []
  {
    (set v | v in Texted(g) :: TextAt(g, v)) - TextsOn(g, p)
  }

  lemma TextsOnTexted(g: Cpg, p: seq<nat>, q: seq<nat>)
    requires p != [] && q != [] && TextsOn(g, q) !! TextsOff(g, p)
    ensures TextsOn(g, q) <= TextsOn(g, p)
  {
    hide Content;
  }

  /** A route with no such bypass: stopping every other text loses the sink. */
  lemma UndominatedLoses(g: Cpg, order: seq<nat>, c: set<nat>, n: nat, s: nat, p: seq<nat>) returns (det: Detector)
    requires WellFormed(Content(g)) && CompleteOrder(Content(g), order)
    requires Seedable(Tables(g, order), Texted(g), n) && s in Texted(g) && OwnedBy(Tables(g, order), c, s)
    requires p != [] && RouteBy(Tables(g, order), T.Everywhere, n, s, p)
    requires !(OwnedBy(Tables(g, order), c, n) && exists q :: Bypasses(g, order, c, n, s, p, q))
    ensures Distributive(det) && T.WellFormed(ProblemOf(g, order, det)) && !SinksKept(ProblemOf(g, order, det), c)
  {
    hide Content, WellFormed, CompleteOrder, ProblemOf, Tables, T.WellFormed, Texted, T.Tabulated, TextsOn, TextsOff,
      T.SeedItems, T.Successors, T.Reachable, RouteBy;
    var stops := TextList(TextsOff(g, p));
    det := Aimed(g, n, stops, s);
    var pb := ProblemOf(g, order, det);
    var f := AimedSeeds(g, order, n, stops, s);
    var x := T.Item(s, f);
    TablesShared(g, order, det);
    ProblemReadable(g, order, det);
    SeedMeans(pb, T.Everywhere, T.Item(n, f));
    RouteSame(Tables(g, order), pb, T.Everywhere, n, s, p);
    assert TextsOn(g, p) !! TextsOff(g, p) by { OnNotOff(g, p); }
    PassesOn(g, order, det, p);
    RouteTaken(pb, T.Everywhere, n, x, p);
    FullItemsExact(pb, x);
    if x in T.Tabulated(pb, T.Only(c)).pred { KeptBypasses(g, order, det, c, n, x, p); }
  }

  lemma OnNotOff(g: Cpg, p: seq<nat>)
    requires p != []
    ensures TextsOn(g, p) !! TextsOff(g, p)
  {
  }

  lemma KeptBypasses(g: Cpg, order: seq<nat>, det: Detector, c: set<nat>, n: nat, x: T.Item, p: seq<nat>)
    requires WellFormed(Content(g)) && CompleteOrder(Content(g), order) && p != []
    requires T.WellFormed(ProblemOf(g, order, det)) && x in T.Tabulated(ProblemOf(g, order, det), T.Only(c)).pred
    requires T.Item(n, x.fact) in T.SeedItems(ProblemOf(g, order, det), T.Everywhere)
    requires forall t :: t in det.sanitizers <==> t in TextsOff(g, p)
    ensures OwnedBy(Tables(g, order), c, n) && exists q :: Bypasses(g, order, c, n, x.node, p, q)
  {
    hide Content, WellFormed, CompleteOrder, ProblemOf, Tables, T.WellFormed, Texted, T.Tabulated, TextsOn, TextsOff,
      T.SeedItems, T.Successors, T.Reachable, RouteBy, T.Linked, Readable;
    var pb, tb := ProblemOf(g, order, det), Tables(g, order);
    TablesShared(g, order, det);
    ProblemReadable(g, order, det);
    assert x in PartItems(pb, c);
    PartItemsExact(pb, c, x);
    ReachablePath(pb, T.Only(c), x);
    var path: seq<T.Item> :| T.Leads(pb, T.Only(c), path, x);
    var m, q := SeedRoute(pb, T.Only(c), path, x);
    SeedUnique(pb, Texted(g), T.Only(c), T.Everywhere, m, n, x.fact);
    SeedSeedable(pb, Texted(g), T.Only(c), T.Item(n, x.fact));
    PassesOn(g, order, det, q);
    TextsOnTexted(g, p, q);
    RouteSame(pb, tb, T.Only(c), n, x.node, q);
    assert Bypasses(g, order, c, n, x.node, p, q);
  }

  ghost predicate AlwaysReports(g: Cpg, sha: Bytes -> Bytes, affected: set<nat>, c: set<nat>)
    requires Valid(g)
  {
    forall det, version, env, full, part {:trigger Runs(g, det, version, env, sha, affected, c, full, part)} ::
      Runs(g, det, version, env, sha, affected, c, full, part) ==> Reports(part.findings) == Reports(full.findings)
  }

  lemma DominatedKeepsSinks(g: Cpg, order: seq<nat>, det: Detector, c: set<nat>)
    requires WellFormed(Content(g)) && CompleteOrder(Content(g), order) && Dominated(g, order, c)
    requires T.WellFormed(ProblemOf(g, order, det))
    ensures SinksKept(ProblemOf(g, order, det), c)
  {
    hide Content, WellFormed, CompleteOrder, ProblemOf, Dominated, T.WellFormed, T.Tabulated;
    var pb := ProblemOf(g, order, det);
    forall x | x in T.Tabulated(pb, T.Everywhere).pred && x.node in pb.sinks && OwnedBy(pb, c, x.node)
      ensures x in T.Tabulated(pb, T.Only(c)).pred
    {
      DominatedKeeps(g, order, det, c, x);
    }
  }

  /** The incremental solve reports the same facts at the same sinks as the full one
      for every detector exactly when every route into the closure is dominated. */
  lemma ReportsExactly(g: Cpg, sha: Bytes -> Bytes, affected: set<nat>, c: set<nat>)
    requires Valid(g) && IsClosure(g, OrderOf(g, sha), affected, c)
    ensures AlwaysReports(g, sha, affected, c) <==> Dominated(g, OrderOf(g, sha), c)
  {
    hide Valid, ProblemOf, Content, WellFormed, CompleteOrder, Tables, T.WellFormed, Texted, IsClosure, OutcomeOf,
      SolvedFully, SolvedIncrementally, SolvedBoth, Distributive, SinksKept, Reports, Bypasses, OrderOf;
    var order := OrderOf(g, sha);
    if Dominated(g, order, c) {
      forall det, version, env, full, part | Runs(g, det, version, env, sha, affected, c, full, part)
        ensures Reports(part.findings) == Reports(full.findings)
      {
        RunsOn(g, det, version, env, sha, affected, c, full, part);
        DominatedKeepsSinks(g, order, det, c);
        ReportsMean(ProblemOf(g, order, det), c, StampFor(g, det, version, env, sha), full, part);
      }
    } else {
      var n, s, p :| Seedable(Tables(g, order), Texted(g), n) && s in Texted(g) && OwnedBy(Tables(g, order), c, s)
                     && RouteBy(Tables(g, order), T.Everywhere, n, s, p)
                     && !(OwnedBy(Tables(g, order), c, n) && exists q :: Bypasses(g, order, c, n, s, p, q));
      var det := UndominatedLoses(g, order, c, n, s, p);
      var full, part := SolvedSomehow(ProblemOf(g, order, det), c, StampFor(g, det, [1], [1], sha));
      RunsOn(g, det, [1], [1], sha, affected, c, full, part);
      ReportsMean(ProblemOf(g, order, det), c, StampFor(g, det, [1], [1], sha), full, part);
    }
  }
}
