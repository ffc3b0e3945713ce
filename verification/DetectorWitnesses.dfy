/** The whole incremental promise, witnesses and hash included: its exact condition on
    every graph. */
module DetectorWitnesses {
  import opened FiniteSets
  import opened ByteStrings
  import opened Graphs
  import opened Encoding
  import opened Cpgs
  import opened CanonicalOrders
  import opened Supergraphs
  import opened Witnesses
  import opened Incremental
  import opened Boundaries
  import opened LoneFacts
  import opened Solutions
  import opened Readings
  import opened IncrementalSolves
  import opened DetectorBounds
  import opened DetectorReports
  import T = Tabulation

  // ----- one source, some texts stopped

  function Stopped(g: Cpg, stops: set<Bytes>): (r: set<nat>) {
    set v | v in Texted(g) && TextAt(g, v) in stops
  }

  /** The search from one source on the tables alone, never leaving a node whose text is
      stopped, always going on from the canonically first node found. */
  ghost function SearchFrom(g: Cpg, order: seq<nat>, n: nat, stops: set<Bytes>): (pb: T.Problem)
    requires WellFormed(Content(g)) && CompleteOrder(Content(g), order) && n in Ids(g)
    ensures T.WellFormed(pb)
  {
    SearchWellFormed(g, order, n, stops);
    Lone(Tables(g, order), n).(sanitised := Stopped(g, stops))
  }

  lemma SearchWellFormed(g: Cpg, order: seq<nat>, n: nat, stops: set<Bytes>)
    requires WellFormed(Content(g)) && CompleteOrder(Content(g), order) && n in Ids(g)
    ensures T.WellFormed(Lone(Tables(g, order), n).(sanitised := Stopped(g, stops)))
  {
    hide Content, WellFormed, CompleteOrder, Owners, CfgTable, CallTable, SeedTable, MatchesAny, Ranks;
    LoneWellFormed(Tables(g, order), n);
  }

  lemma SearchIsLone(g: Cpg, order: seq<nat>, det: Detector, n: nat)
    requires WellFormed(Content(g)) && CompleteOrder(Content(g), order) && n in Ids(g)
    ensures SearchFrom(g, order, n, Elements(det.sanitizers)) == Lone(ProblemOf(g, order, det), n)
  {
    hide Content, WellFormed, CompleteOrder, ProblemOf;
    TablesShared(g, order, det);
    var pb := ProblemOf(g, order, det);
    forall v ensures v in pb.sanitised <==> v in Stopped(g, Elements(det.sanitizers)) {
      SanitisedMeans(g, order, det, v);
    }
    assert pb.sanitised == Stopped(g, Elements(det.sanitizers));
  }

  ghost predicate Finds(pb: T.Problem, s: T.Scope, x: nat)
    requires T.WellFormed(pb)
  {
    T.Item(x, 0) in T.Tabulated(pb, s).pred
  }

  /** The nodes from the source to a node, through what discovered each first. */
  ghost function WayTo(pb: T.Problem, s: T.Scope, x: nat): (w: seq<nat>)
    requires T.WellFormed(pb) && Finds(pb, s, x)
  {
    Trail(T.Tabulated(pb, s).pred, Times(pb, s), T.Item(x, 0))
  }

  lemma FactItem(pb: T.Problem, lit: set<nat>, s: T.Scope, n: nat, x: T.Item)
    requires T.WellFormed(pb) && Readable(pb, lit) && T.Item(n, x.fact) in T.SeedItems(pb, s) && n in pb.nodes
    ensures T.WellFormed(Lone(pb, n))
    ensures x in T.Tabulated(pb, s).pred <==> Finds(Lone(pb, n), s, x.node)
  {
    hide T.WellFormed, T.Tabulated, Picked, Readable, T.SeedItems;
    SeededOnce(pb, lit, s, n, x.fact);
    TabulatedProjected(pb, s, n, x.fact);
    PickedMeans(T.Tabulated(pb, s).pred.Keys, x.fact, T.Item(x.node, 0));
    assert x == T.Item(x.node, x.fact);
  }

  lemma SeededOnce(pb: T.Problem, lit: set<nat>, s: T.Scope, n: nat, f: nat)
    requires Readable(pb, lit) && T.Item(n, f) in T.SeedItems(pb, s)
    ensures SeededAt(pb, s, n, f)
  {
    hide Readable, T.SeedItems;
    forall x | x in T.SeedItems(pb, s) && x.fact == f ensures x == T.Item(n, f) {
      assert x == T.Item(x.node, f);
      SeedUnique(pb, lit, s, s, x.node, n, f);
    }
  }

  /** A finding's witness is the way of the single-source search. */
  lemma FindingWay(pb: T.Problem, lit: set<nat>, s: T.Scope, n: nat, x: T.Item, stamp: Stamp)
    requires T.WellFormed(pb) && Readable(pb, lit) && T.Item(n, x.fact) in T.SeedItems(pb, s) && n in pb.nodes
    requires x in T.Tabulated(pb, s).pred
    ensures T.WellFormed(Lone(pb, n)) && Finds(Lone(pb, n), s, x.node)
    ensures FindingAt(pb, s, x, stamp).trail == WayTo(Lone(pb, n), s, x.node)
  {
    hide T.WellFormed, T.Tabulated, Picked, Readable, T.SeedItems, T.Timed, T.Reachable, T.Origins, PickedPred;
    FactItem(pb, lit, s, n, x);
    SeededOnce(pb, lit, s, n, x.fact);
    TabulatedProjected(pb, s, n, x.fact);
    var time := T.TabulationExact(pb, s);
    TrailProjected(pb, s, T.Tabulated(pb, s).pred, Times(pb, s),
                   T.Tabulated(Lone(pb, n), s).pred, Times(Lone(pb, n), s), x);
  }

  // ----- the condition

  ghost predicate WaysAgreeAt(g: Cpg, order: seq<nat>, c: set<nat>, n: nat, stops: set<Bytes>, x: nat)
    requires WellFormed(Content(g)) && CompleteOrder(Content(g), order)
  {
    var tb := Tables(g, order);
    Seedable(tb, Texted(g), n) && OwnedBy(tb, c, n) && x in Texted(g) && OwnedBy(tb, c, x) ==>
      var pb := SearchFrom(g, order, n, stops);
      Finds(pb, T.Only(c), x) && Finds(pb, T.Everywhere, x) ==> WayTo(pb, T.Everywhere, x) == WayTo(pb, T.Only(c), x)
  }

  /** From every possible source inside, whatever texts are stopped, the restricted search
      finds a possible sink inside through the same nodes as the full one. */
  ghost predicate WaysAgree(g: Cpg, order: seq<nat>, c: set<nat>)
    requires WellFormed(Content(g)) && CompleteOrder(Content(g), order)
  {
    forall n, stops, x :: WaysAgreeAt(g, order, c, n, stops, x)
  }

  // ----- enough

  lemma FreshIsFull(g: Cpg, order: seq<nat>, det: Detector, c: set<nat>, stamp: Stamp, x: T.Item)
    requires WellFormed(Content(g)) && CompleteOrder(Content(g), order) && WaysAgree(g, order, c)
    requires T.WellFormed(ProblemOf(g, order, det)) && x in T.Tabulated(ProblemOf(g, order, det), T.Only(c)).pred
    requires x.node in ProblemOf(g, order, det).sinks && OwnedBy(ProblemOf(g, order, det), c, x.node)
    ensures x in T.Tabulated(ProblemOf(g, order, det), T.Everywhere).pred
    ensures FindingAt(ProblemOf(g, order, det), T.Only(c), x, stamp) ==
            FindingAt(ProblemOf(g, order, det), T.Everywhere, x, stamp)
  {
    hide Content, WellFormed, CompleteOrder, ProblemOf, Tables, T.WellFormed, Texted, T.Tabulated, T.SeedItems,
      WaysAgreeAt, T.Reachable, Routes, WayTo, Finds, Lone, SearchFrom;
    var pb := ProblemOf(g, order, det);
    TablesShared(g, order, det);
    ProblemReadable(g, order, det);
    PartInFull(pb, c, x);
    PartItemsExact(pb, c, x);
    var n := SeedOf(pb, T.Only(c), x);
    SeedSeedable(pb, Texted(g), T.Only(c), T.Item(n, x.fact));
    SeedMeans(pb, T.Only(c), T.Item(n, x.fact));
    SeedMeans(pb, T.Everywhere, T.Item(n, x.fact));
    OwnedIsNode(pb, n);
    FindingWay(pb, Texted(g), T.Only(c), n, x, stamp);
    FindingWay(pb, Texted(g), T.Everywhere, n, x, stamp);
    SearchIsLone(g, order, det, n);
    assert WaysAgreeAt(g, order, c, n, Elements(det.sanitizers), x.node);
    AgreedWay(g, order, c, n, Elements(det.sanitizers), x.node);
  }

  lemma OwnedIsNode(pb: T.Problem, n: nat)
    requires T.WellFormed(pb) && n in pb.procOf
    ensures n in pb.nodes
  {
  }

  lemma AgreedWay(g: Cpg, order: seq<nat>, c: set<nat>, n: nat, stops: set<Bytes>, x: nat)
    requires WellFormed(Content(g)) && CompleteOrder(Content(g), order) && WaysAgreeAt(g, order, c, n, stops, x)
    requires Seedable(Tables(g, order), Texted(g), n) && OwnedBy(Tables(g, order), c, n)
    requires x in Texted(g) && OwnedBy(Tables(g, order), c, x)
    requires Finds(SearchFrom(g, order, n, stops), T.Only(c), x)
    requires Finds(SearchFrom(g, order, n, stops), T.Everywhere, x)
    ensures WayTo(SearchFrom(g, order, n, stops), T.Everywhere, x) ==
            WayTo(SearchFrom(g, order, n, stops), T.Only(c), x)
  {
    hide Content, WellFormed, CompleteOrder, Tables, Finds, WayTo, SearchFrom;
  }

  lemma FindingsAgree(g: Cpg, order: seq<nat>, det: Detector, c: set<nat>, stamp: Stamp)
    requires WellFormed(Content(g)) && CompleteOrder(Content(g), order) && WaysAgree(g, order, c)
    requires T.WellFormed(ProblemOf(g, order, det)) && SinksKept(ProblemOf(g, order, det), c)
    requires SinksInside(ProblemOf(g, order, det), c)
    ensures var pb := ProblemOf(g, order, det); var all := FindingsOf(pb, T.Everywhere, stamp);
            FindingsOf(pb, T.Only(c), stamp) + Kept(pb, c, all) == all
  {
    hide Content, WellFormed, CompleteOrder, ProblemOf, WaysAgree, T.WellFormed, T.Tabulated, FindingAt, FindingsOf;
    var pb := ProblemOf(g, order, det);
    var all, part := FindingsOf(pb, T.Everywhere, stamp), FindingsOf(pb, T.Only(c), stamp);
    forall f | f in part ensures f in all {
      var x := T.Item(f.sink, f.fact);
      FindingItem(pb, T.Only(c), stamp, f);
      assert OwnedBy(pb, c, x.node);
      FreshIsFull(g, order, det, c, stamp, x);
      ItemFinding(pb, T.Everywhere, stamp, x);
    }
    forall f | f in all && !Preserved(pb, c, f) ensures f in part {
      var x := T.Item(f.sink, f.fact);
      FindingItem(pb, T.Everywhere, stamp, f);
      assert OwnedBy(pb, c, x.node);
      FreshIsFull(g, order, det, c, stamp, x);
      ItemFinding(pb, T.Only(c), stamp, x);
    }
  }

  /** All four conditions, on the tables and texts of the graph. */
  ghost predicate Reliable(g: Cpg, order: seq<nat>, c: set<nat>)
    requires WellFormed(Content(g)) && CompleteOrder(Content(g), order)
  {
    && Dominated(g, order, c) && Contained(Tables(g, order), Texted(g), c) && Housed(Tables(g, order), Texted(g), c)
    && WaysAgree(g, order, c)
  }

  lemma ReliableReproduces(g: Cpg, order: seq<nat>, det: Detector, c: set<nat>, stamp: Stamp, full: Solution,
                           part: Solution)
    requires WellFormed(Content(g)) && CompleteOrder(Content(g), order) && Reliable(g, order, c)
    requires T.WellFormed(ProblemOf(g, order, det)) && SolvedBoth(ProblemOf(g, order, det), c, stamp, full, part)
    ensures Reproduces(c, full, part)
  {
    hide Content, WellFormed, CompleteOrder, ProblemOf, Tables, Texted, T.WellFormed, Dominated, Contained, Housed,
      WaysAgree, Readable, SinksKept, SinksInside, FindingsOf, Hashes, Kept, T.Tabulated, T.Touched, SameSkeleton;
    var pb := ProblemOf(g, order, det);
    TablesShared(g, order, det);
    ProblemReadable(g, order, det);
    ConditionsSame(Tables(g, order), pb, Texted(g), c);
    DominatedKeepsSinks(g, order, det, c);
    HousedSinks(pb, Texted(g), c);
    ContainedStays(pb, Texted(g), c);
    FindingsAgree(g, order, det, c, stamp);
    assert full.findings == FindingsOf(pb, T.Everywhere, stamp);
    SameHash(pb, c, stamp, full.hashed, part.hashed);
  }

  // ----- and needed

  /** A sink discovered along different ways is reported differently. */
  lemma OtherWitness(pb: T.Problem, c: set<nat>, stamp: Stamp, full: Solution, part: Solution, x: T.Item)
    requires T.WellFormed(pb) && SolvedBoth(pb, c, stamp, full, part) && x.node in pb.sinks
    requires x in T.Tabulated(pb, T.Everywhere).pred && x in T.Tabulated(pb, T.Only(c)).pred
    requires FindingAt(pb, T.Everywhere, x, stamp).trail != FindingAt(pb, T.Only(c), x, stamp).trail
    ensures part.findings != full.findings
  {
    hide T.WellFormed, T.Tabulated, FindingsOf, Hashes, T.Touched, FindingAt;
    ItemFinding(pb, T.Only(c), stamp, x);
    var f := FindingAt(pb, T.Only(c), x, stamp);
    assert T.Item(f.sink, f.fact) == x;
    if part.findings == full.findings {
      assert full.findings == FindingsOf(pb, T.Everywhere, stamp);
      FindingItem(pb, T.Everywhere, stamp, f);
    }
  }

  /** The detector that seeds `n`, stops the texts and sinks `x` shows it. */
  lemma StrayShows(g: Cpg, order: seq<nat>, c: set<nat>, n: nat, stops: set<Bytes>, x: nat) returns (det: Detector)
    requires WellFormed(Content(g)) && CompleteOrder(Content(g), order) && !WaysAgreeAt(g, order, c, n, stops, x)
    ensures Distributive(det) && T.WellFormed(ProblemOf(g, order, det))
    ensures forall stamp, full, part :: SolvedBoth(ProblemOf(g, order, det), c, stamp, full, part) ==>
              part.findings != full.findings
  {
    hide Content, WellFormed, CompleteOrder, ProblemOf, Tables, T.WellFormed, Texted, T.Tabulated, T.SeedItems,
      SolvedBoth, WayTo, Finds, Lone, SearchFrom, Readable, FindingAt;
    var list := TextList(stops);
    assert Elements(list) == stops;
    det := Aimed(g, n, list, x);
    var pb := ProblemOf(g, order, det);
    var f := AimedSeeds(g, order, n, list, x);
    TablesShared(g, order, det);
    ProblemReadable(g, order, det);
    SearchIsLone(g, order, det, n);
    SeedMeans(pb, T.Everywhere, T.Item(n, f));
    SeedMeans(pb, T.Only(c), T.Item(n, f));
    OwnedIsNode(pb, n);
    var i := T.Item(x, f);
    FactItem(pb, Texted(g), T.Everywhere, n, i);
    FactItem(pb, Texted(g), T.Only(c), n, i);
    forall stamp, full, part | SolvedBoth(pb, c, stamp, full, part) ensures part.findings != full.findings {
      FindingWay(pb, Texted(g), T.Everywhere, n, i, stamp);
      FindingWay(pb, Texted(g), T.Only(c), n, i, stamp);
      OtherWitness(pb, c, stamp, full, part, i);
    }
  }

  lemma ReproducingReports(g: Cpg, sha: Bytes -> Bytes, affected: set<nat>, c: set<nat>)
    requires Valid(g) && AlwaysReproduces(g, sha, affected, c)
    ensures AlwaysReports(g, sha, affected, c)
  {
    hide Runs, Reports, Valid;
  }

  lemma ReproducingAgrees(g: Cpg, sha: Bytes -> Bytes, affected: set<nat>, c: set<nat>)
    requires Valid(g) && IsClosure(g, OrderOf(g, sha), affected, c) && AlwaysReproduces(g, sha, affected, c)
    ensures WaysAgree(g, OrderOf(g, sha), c)
  {
    hide Valid, ProblemOf, Content, WellFormed, CompleteOrder, T.WellFormed, IsClosure, OutcomeOf, Distributive,
      SolvedBoth, SolvedFully, SolvedIncrementally, WaysAgreeAt, OrderOf;
    var order := OrderOf(g, sha);
    forall n, stops, x ensures WaysAgreeAt(g, order, c, n, stops, x) {
      if !WaysAgreeAt(g, order, c, n, stops, x) {
        var det := StrayShows(g, order, c, n, stops, x);
        var full, part := SolvedSomehow(ProblemOf(g, order, det), c, StampFor(g, det, [1], [1], sha));
        RunsOn(g, det, [1], [1], sha, affected, c, full, part);
        RunsReproduce(g, det, sha, affected, c, full, part);
      }
    }
  }

  lemma RunsReproduce(g: Cpg, det: Detector, sha: Bytes -> Bytes, affected: set<nat>, c: set<nat>, full: Solution,
                      part: Solution)
    requires Valid(g) && AlwaysReproduces(g, sha, affected, c)
    requires Runs(g, det, [1], [1], sha, affected, c, full, part)
    ensures part.findings == full.findings
  {
    hide Runs, Valid;
  }

  /** On every graph and for every affected set: the incremental solve reproduces the full
      one for every detector exactly when the closure is reliable. */
  lemma PromiseExactly(g: Cpg, sha: Bytes -> Bytes, affected: set<nat>, c: set<nat>)
    requires Valid(g) && IsClosure(g, OrderOf(g, sha), affected, c)
    ensures AlwaysReproduces(g, sha, affected, c) <==> Reliable(g, OrderOf(g, sha), c)
  {
    hide Valid, ProblemOf, Content, WellFormed, CompleteOrder, T.WellFormed, IsClosure, OutcomeOf, SolvedBoth, Texted,
      SolvedFully, SolvedIncrementally, Distributive, Dominated, Contained, Housed, Covered, WaysAgree, Rejoins,
      Reproduces, AlwaysReports, Tables;
    var order := OrderOf(g, sha);
    if AlwaysReproduces(g, sha, affected, c) {
      ReproducingReports(g, sha, affected, c);
      ReportsExactly(g, sha, affected, c);
      IncrementalExactly(g, sha, affected, c);
      ReproducingAgrees(g, sha, affected, c);
    }
    if Reliable(g, order, c) {
      forall det, version, env, full, part | Runs(g, det, version, env, sha, affected, c, full, part)
        ensures Reproduces(c, full, part)
      {
        RunsOn(g, det, version, env, sha, affected, c, full, part);
        ReliableReproduces(g, order, det, c, StampFor(g, det, version, env, sha), full, part);
      }
    }
  }
}
