/** Which graphs let an incremental solve keep its promises for every detector. */
module DetectorBounds {
  import opened ByteStrings
  import opened Graphs
  import opened Encoding
  import opened Cpgs
  import opened CanonicalOrders
  import opened Supergraphs
  import opened Incremental
  import opened Boundaries
  import opened Findings
  import opened Solver
  import opened Solutions
  import opened RepeatedFindings
  import opened Readings
  import opened IncrementalSolves
  import T = Tabulation

  // ----- detectors that single out one source and one sink

  function TextAt(g: Cpg, v: nat): (t: Bytes)
    requires v in Ids(g)
  {
    Content(g).labels[v].text
  }

  /** Seeds by the text of `n`, sinks by the text of `s`, stopped by `stops`. */
  function Aimed(g: Cpg, n: nat, stops: seq<Bytes>, s: nat): (det: Detector)
    requires n in Ids(g) && s in Ids(g)
  {
    Detector([], IFDS, [TextAt(g, n)], stops, [TextAt(g, s)])
  }

  lemma OneMatches(t: Bytes, l: Label)
    ensures MatchesAny([t], l) <==> t == l.text && l.text != []
  {
    assert [t][0] == t;
  }

  lemma AimedSeeds(g: Cpg, order: seq<nat>, n: nat, stops: seq<Bytes>, s: nat) returns (f: nat)
    requires WellFormed(Content(g)) && CompleteOrder(Content(g), order) && n in Texted(g) && s in Texted(g)
    ensures var pb := ProblemOf(g, order, Aimed(g, n, stops, s));
            n in pb.seeds && f in pb.seeds[n] && s in pb.sinks
  {
    hide Content, WellFormed, CompleteOrder, Owners, CfgTable, CallTable, SeedTable, MatchesAny, Ranks;
    OneMatches(TextAt(g, n), Content(g).labels[n]);
    OneMatches(TextAt(g, s), Content(g).labels[s]);
    SeedsAt(g, [TextAt(g, n)], n);
    f :| f in ProblemOf(g, order, Aimed(g, n, stops, s)).seeds[n];
  }

  /** A sanitised node is one whose text a sanitiser clause names. */
  lemma SanitisedMeans(g: Cpg, order: seq<nat>, det: Detector, v: nat)
    requires WellFormed(Content(g)) && CompleteOrder(Content(g), order)
    ensures v in ProblemOf(g, order, det).sanitised <==> v in Texted(g) && TextAt(g, v) in det.sanitizers
  {
    hide Content, WellFormed, CompleteOrder, Owners, CfgTable, CallTable, SeedTable, Ranks;
    if v in ProblemOf(g, order, det).sanitised {
      var i :| 0 <= i < |det.sanitizers| && Matches(det.sanitizers[i], Content(g).labels[v]);
    }
    if v in Texted(g) && TextAt(g, v) in det.sanitizers {
      var i :| 0 <= i < |det.sanitizers| && det.sanitizers[i] == TextAt(g, v);
      assert Matches(det.sanitizers[i], Content(g).labels[v]);
    }
  }

  lemma Unsanitised(g: Cpg, order: seq<nat>, n: nat, s: nat)
    requires WellFormed(Content(g)) && CompleteOrder(Content(g), order) && n in Ids(g) && s in Ids(g)
    ensures ProblemOf(g, order, Aimed(g, n, [], s)).sanitised == {}
  {
    hide Content, WellFormed, CompleteOrder, ProblemOf;
    forall v ensures v !in ProblemOf(g, order, Aimed(g, n, [], s)).sanitised {
      SanitisedMeans(g, order, Aimed(g, n, [], s), v);
    }
  }

  /** With nothing sanitised, the fact of `n` is found wherever a route from it goes. */
  lemma AimedReaches(g: Cpg, order: seq<nat>, scope: T.Scope, n: nat, s: nat, x: nat) returns (f: nat)
    requires WellFormed(Content(g)) && CompleteOrder(Content(g), order) && n in Texted(g) && s in Texted(g)
    requires T.NodeInScope(Tables(g, order), scope, n) && Routes(Tables(g, order), scope, n, x)
    ensures var pb := ProblemOf(g, order, Aimed(g, n, [], s));
            && T.WellFormed(pb) && Readable(pb, Texted(g)) && s in pb.sinks
            && T.Item(n, f) in T.SeedItems(pb, T.Everywhere) && T.Item(x, f) in T.Tabulated(pb, scope).pred
  {
    hide Content, WellFormed, CompleteOrder, ProblemOf, Tables, Routes, T.WellFormed, Readable, Texted, T.Tabulated,
      T.Reachable, Aimed, T.Timed, T.Origins, T.SeedItems;
    var det := Aimed(g, n, [], s);
    var pb := ProblemOf(g, order, det);
    TablesShared(g, order, det);
    ProblemReadable(g, order, det);
    f := AimedSeeds(g, order, n, [], s);
    Unsanitised(g, order, n, s);
    RoutesSame(Tables(g, order), pb, scope, n, x);
    SeedMeans(pb, T.Everywhere, T.Item(n, f));
    SeedMeans(pb, scope, T.Item(n, f));
    RoutesReached(pb, scope, n, f, x);
    var time := T.TabulationExact(pb, scope);
  }

  // ----- the bound on visited procedures

  ghost predicate StaysHomeFor(g: Cpg, order: seq<nat>, det: Detector, c: set<nat>)
    requires WellFormed(Content(g)) && CompleteOrder(Content(g), order)
  {
    ProblemWellFormed(g, order, det);
    StaysHome(ProblemOf(g, order, det), c)
  }

  lemma LeavesHome(g: Cpg, order: seq<nat>, c: set<nat>, n: nat, x: nat)
    requires WellFormed(Content(g)) && CompleteOrder(Content(g), order)
    requires var tb := Tables(g, order);
             && Seedable(tb, Texted(g), n) && OwnedBy(tb, c, n) && Routes(tb, T.Only(c), n, x)
             && x in tb.procOf && !OwnedBy(tb, c, x)
    ensures !StaysHomeFor(g, order, Aimed(g, n, [], n), c)
  {
    hide Content, WellFormed, CompleteOrder, ProblemOf, Tables, Routes, T.WellFormed, Readable, Texted, T.Tabulated,
      Aimed, T.SeedItems;
    var det := Aimed(g, n, [], n);
    var pb := ProblemOf(g, order, det);
    TablesShared(g, order, det);
    var f := AimedReaches(g, order, T.Only(c), n, n, x);
    assert T.Item(x, f).node == x;
    assert pb.procOf[x] in T.Touched(pb, T.Tabulated(pb, T.Only(c)).pred);
  }

  /** The recomputed procedures bound the visited ones for every detector exactly
      when no node with text inside reaches an owned node outside. */
  lemma VisitsExactly(g: Cpg, order: seq<nat>, c: set<nat>)
    requires WellFormed(Content(g)) && CompleteOrder(Content(g), order)
    ensures (forall det :: StaysHomeFor(g, order, det, c)) <==> Contained(Tables(g, order), Texted(g), c)
  {
    hide Content, WellFormed, CompleteOrder, ProblemOf, Tables, Routes, T.WellFormed, Readable, Texted, StaysHome,
      SameSkeleton;
    var tb, lit := Tables(g, order), Texted(g);
    if Contained(tb, lit, c) {
      forall det ensures StaysHomeFor(g, order, det, c) {
        TablesShared(g, order, det);
        ProblemReadable(g, order, det);
        ConditionsSame(tb, ProblemOf(g, order, det), lit, c);
        ContainedStays(ProblemOf(g, order, det), lit, c);
      }
    } else {
      var n, x :| Seedable(tb, lit, n) && OwnedBy(tb, c, n) && Routes(tb, T.Only(c), n, x) && x in tb.procOf
          && !OwnedBy(tb, c, x);
      LeavesHome(g, order, c, n, x);
    }
  }

  // ----- which sinks are reported

  function Reports(fs: set<Finding>): (r: set<T.Item>) {
    set f | f in fs :: T.Item(f.sink, f.fact)
  }

  lemma PartInFull(pb: T.Problem, c: set<nat>, x: T.Item)
    requires T.WellFormed(pb) && x in T.Tabulated(pb, T.Only(c)).pred
    ensures x in T.Tabulated(pb, T.Everywhere).pred
  {
    hide T.Tabulated, T.WellFormed, T.Successors, T.SeedItems, T.Reachable;
    assert x in PartItems(pb, c);
    PartItemsExact(pb, c, x);
    FullItemsExact(pb, x);
    BroaderReach(pb, c, x);
  }

  lemma BroaderReach(pb: T.Problem, c: set<nat>, x: T.Item)
    requires T.WellFormed(pb) && T.Reachable(pb, T.Only(c), x)
    ensures T.Reachable(pb, T.Everywhere, x)
  {
    hide T.WellFormed, T.Successors, T.SeedItems;
    var p: seq<T.Item> :| T.Leads(pb, T.Only(c), p, x);
    forall i | 0 <= i < |p| - 1 ensures p[i + 1] in T.Successors(pb, T.Everywhere, p[i]) {
      NarrowSuccessor(pb, c, p[i], p[i + 1]);
    }
    SeedMeans(pb, T.Only(c), p[0]);
    SeedMeans(pb, T.Everywhere, p[0]);
    assert T.Leads(pb, T.Everywhere, p, x);
  }

  /** `part` is fed the findings of `full`, on the same tables. */
  ghost predicate SolvedBoth(pb: T.Problem, c: set<nat>, stamp: Stamp, full: Solution, part: Solution)
    requires T.WellFormed(pb)
  {
    && IsSolution(pb, T.Everywhere, {}, stamp, full)
    && IsSolution(pb, T.Only(c), Kept(pb, c, full.findings), stamp, part)
  }

  lemma ReportedFully(pb: T.Problem, c: set<nat>, stamp: Stamp, full: Solution, part: Solution, x: T.Item)
    requires T.WellFormed(pb) && SolvedBoth(pb, c, stamp, full, part)
    ensures x in Reports(full.findings) <==> x in T.Tabulated(pb, T.Everywhere).pred && x.node in pb.sinks
  {
    hide T.WellFormed, T.Tabulated, FindingsOf, FindingAt, Hashes, T.Touched;
    if x in Reports(full.findings) {
      var f :| f in full.findings && T.Item(f.sink, f.fact) == x;
      FindingItem(pb, T.Everywhere, stamp, f);
    }
    if x in T.Tabulated(pb, T.Everywhere).pred && x.node in pb.sinks { ItemFinding(pb, T.Everywhere, stamp, x); }
  }

  lemma ReportedPartly(pb: T.Problem, c: set<nat>, stamp: Stamp, full: Solution, part: Solution, x: T.Item)
    requires T.WellFormed(pb) && SolvedBoth(pb, c, stamp, full, part)
    ensures x in Reports(part.findings) <==>
              x.node in pb.sinks &&
              (|| x in T.Tabulated(pb, T.Only(c)).pred
               || (x in T.Tabulated(pb, T.Everywhere).pred && !OwnedBy(pb, c, x.node)))
  {
    hide T.WellFormed, T.Tabulated, FindingsOf, FindingAt, Hashes, T.Touched;
    if x in Reports(part.findings) {
      var f :| f in part.findings && T.Item(f.sink, f.fact) == x;
      if f in FindingsOf(pb, T.Only(c), stamp) {
        FindingItem(pb, T.Only(c), stamp, f);
      } else {
        FindingItem(pb, T.Everywhere, stamp, f);
      }
    }
    if x in T.Tabulated(pb, T.Only(c)).pred && x.node in pb.sinks { ItemFinding(pb, T.Only(c), stamp, x); }
    if x in T.Tabulated(pb, T.Everywhere).pred && x.node in pb.sinks && !OwnedBy(pb, c, x.node) {
      ItemFinding(pb, T.Everywhere, stamp, x);
      assert FindingAt(pb, T.Everywhere, x, stamp) in Kept(pb, c, full.findings);
    }
  }

  /** The two solves report the same facts at the same sinks exactly when no sink
      inside is lost. */
  lemma ReportsMean(pb: T.Problem, c: set<nat>, stamp: Stamp, full: Solution, part: Solution)
    requires T.WellFormed(pb) && SolvedBoth(pb, c, stamp, full, part)
    ensures Reports(part.findings) == Reports(full.findings) <==> SinksKept(pb, c)
  {
    hide T.WellFormed, T.Tabulated, SolvedBoth, Reports;
    forall x: T.Item
      ensures x in Reports(full.findings) <==> x in T.Tabulated(pb, T.Everywhere).pred && x.node in pb.sinks
      ensures x in Reports(part.findings) <==>
                x.node in pb.sinks &&
                (|| x in T.Tabulated(pb, T.Only(c)).pred
                 || (x in T.Tabulated(pb, T.Everywhere).pred && !OwnedBy(pb, c, x.node)))
    {
      ReportedFully(pb, c, stamp, full, part, x);
      ReportedPartly(pb, c, stamp, full, part, x);
    }
    forall x | x in T.Tabulated(pb, T.Only(c)).pred
      ensures x in T.Tabulated(pb, T.Everywhere).pred { PartInFull(pb, c, x); }
  }

  // ----- the whole promise

  /** What both solves return for one detector and one affected set. */
  ghost predicate Runs(g: Cpg, det: Detector, version: Bytes, env: Bytes, sha: Bytes -> Bytes, affected: set<nat>,
                       c: set<nat>, full: Solution, part: Solution)
    requires Valid(g)
  {
    && Distributive(det) && Pinned(version, env)
    && SolvedFully(g, det, version, env, sha, full)
    && SolvedIncrementally(g, det, version, env, sha, affected, full.findings, c, part)
  }

  /** Whatever the detector and the pinned versions, the incremental solve
      reproduces the full one. */
  ghost predicate AlwaysReproduces(g: Cpg, sha: Bytes -> Bytes, affected: set<nat>, c: set<nat>)
    requires Valid(g)
  {
    forall det, version, env, full, part {:trigger Runs(g, det, version, env, sha, affected, c, full, part)} ::
      Runs(g, det, version, env, sha, affected, c, full, part) ==> Reproduces(c, full, part)
  }

  ghost function OrderOf(g: Cpg, sha: Bytes -> Bytes): (order: seq<nat>)
    requires Valid(g)
    ensures WellFormed(Content(g)) && CompleteOrder(Content(g), order)
  {
    OutcomeEncodes(g, 0, STATE_LIMIT, sha);
    OutcomeOf(g, 0, STATE_LIMIT, sha).order
  }

  ghost function StampFor(g: Cpg, det: Detector, version: Bytes, env: Bytes, sha: Bytes -> Bytes): (stamp: Stamp)
    requires Valid(g)
  {
    OutcomeEncodes(g, 0, STATE_LIMIT, sha);
    StampOf(det, version, env, OutcomeOf(g, 0, STATE_LIMIT, sha))
  }

  lemma RunsOn(g: Cpg, det: Detector, version: Bytes, env: Bytes, sha: Bytes -> Bytes, affected: set<nat>,
               c: set<nat>, full: Solution, part: Solution)
    requires Valid(g) && IsClosure(g, OrderOf(g, sha), affected, c) && Distributive(det) && Pinned(version, env)
    ensures T.WellFormed(ProblemOf(g, OrderOf(g, sha), det))
    ensures Runs(g, det, version, env, sha, affected, c, full, part) <==>
              SolvedBoth(ProblemOf(g, OrderOf(g, sha), det), c, StampFor(g, det, version, env, sha), full, part)
  {
    hide Valid, OutcomeOf, ProblemOf, Content, WellFormed, CompleteOrder, T.WellFormed, IsSolution, IsClosure, Kept,
      Preimage, Distributive, Pinned;
    OutcomeEncodes(g, 0, STATE_LIMIT, sha);
    ProblemWellFormed(g, OrderOf(g, sha), det);
  }

  /** Both solves have a result on every problem. */
  lemma SolvedSomehow(pb: T.Problem, c: set<nat>, stamp: Stamp) returns (full: Solution, part: Solution)
    requires T.WellFormed(pb)
    ensures SolvedBoth(pb, c, stamp, full, part)
  {
    full := SolutionExists(pb, T.Everywhere, {}, stamp);
    part := SolutionExists(pb, T.Only(c), Kept(pb, c, full.findings), stamp);
  }

  lemma SolutionExists(pb: T.Problem, s: T.Scope, kept: set<Finding>, stamp: Stamp) returns (sol: Solution)
    requires T.WellFormed(pb)
    ensures IsSolution(pb, s, kept, stamp, sol)
  {
    hide T.WellFormed, FindingsOf, T.Tabulated, T.Touched, Lists, SortFindings, SolutionBytes;
    var a := Listing(FindingsOf(pb, s, stamp));
    var b := Listing(kept);
    sol := Solution(FindingsOf(pb, s, stamp) + kept, SolutionBytes(SortFindings(pb.rank, a + b)),
                    T.Touched(pb, T.Tabulated(pb, s).pred));
  }

  // ----- each condition is needed

  /** A fact found at a sink outside every procedure is hashed twice. */
  lemma UnhousedRepeats(pb: T.Problem, c: set<nat>, stamp: Stamp, full: Solution, part: Solution, x: T.Item)
    requires T.WellFormed(pb) && SolvedBoth(pb, c, stamp, full, part)
    requires x in T.Tabulated(pb, T.Only(c)).pred && x.node in pb.sinks && x.node !in pb.procOf
    ensures !Reproduces(c, full, part)
  {
    hide T.WellFormed, T.Tabulated, FindingsOf, FindingAt, Hashes, KeysApart, T.Touched;
    var all := FindingsOf(pb, T.Everywhere, stamp);
    if part.findings == full.findings {
      assert full.findings == all;
      ItemFinding(pb, T.Only(c), stamp, x);
      var f := FindingAt(pb, T.Only(c), x, stamp);
      assert f in FindingsOf(pb, T.Only(c), stamp) * Kept(pb, c, all);
      FullKeysApart(pb, T.Everywhere, stamp);
      RepeatsLengthen(pb.rank, all, FindingsOf(pb, T.Only(c), stamp), Kept(pb, c, all), full.hashed, part.hashed);
    }
  }

  lemma LostSink(pb: T.Problem, c: set<nat>, stamp: Stamp, full: Solution, part: Solution, x: T.Item)
    requires T.WellFormed(pb) && SolvedBoth(pb, c, stamp, full, part)
    requires x in T.Tabulated(pb, T.Everywhere).pred && x.node in pb.sinks && OwnedBy(pb, c, x.node)
    requires x !in T.Tabulated(pb, T.Only(c)).pred
    ensures !Reproduces(c, full, part)
  {
    hide T.WellFormed, T.Tabulated, SolvedBoth;
    ReportsMean(pb, c, stamp, full, part);
  }

  /** The detector that seeds `n` and sinks `s` loses the finding. */
  lemma UncoveredLoses(g: Cpg, order: seq<nat>, c: set<nat>, n: nat, s: nat, stamp: Stamp, full: Solution,
                       part: Solution)
    requires WellFormed(Content(g)) && CompleteOrder(Content(g), order)
    requires var tb := Tables(g, order);
             && Seedable(tb, Texted(g), n) && s in Texted(g) && OwnedBy(tb, c, s) && Routes(tb, T.Everywhere, n, s)
             && !(OwnedBy(tb, c, n) && Routes(tb, T.Only(c), n, s))
    requires T.WellFormed(ProblemOf(g, order, Aimed(g, n, [], s)))
    requires SolvedBoth(ProblemOf(g, order, Aimed(g, n, [], s)), c, stamp, full, part)
    ensures !Reproduces(c, full, part)
  {
    hide Content, WellFormed, CompleteOrder, ProblemOf, Tables, Routes, T.WellFormed, Readable, Texted, T.Tabulated,
      Aimed, T.SeedItems, SolvedBoth, Reproduces;
    var det := Aimed(g, n, [], s);
    var pb := ProblemOf(g, order, det);
    TablesShared(g, order, det);
    RoutesSame(Tables(g, order), pb, T.Only(c), n, s);
    var f := AimedReaches(g, order, T.Everywhere, n, s, s);
    var x := T.Item(s, f);
    if x in PartItems(pb, c) { PartRoute(pb, Texted(g), c, n, x); }
    LostSink(pb, c, stamp, full, part, x);
  }

  lemma UnhousedRepeatsOn(g: Cpg, order: seq<nat>, c: set<nat>, n: nat, s: nat, stamp: Stamp, full: Solution,
                          part: Solution)
    requires WellFormed(Content(g)) && CompleteOrder(Content(g), order)
    requires var tb := Tables(g, order);
             && Seedable(tb, Texted(g), n) && OwnedBy(tb, c, n) && Routes(tb, T.Only(c), n, s)
             && s in Texted(g) && s !in tb.procOf
    requires T.WellFormed(ProblemOf(g, order, Aimed(g, n, [], s)))
    requires SolvedBoth(ProblemOf(g, order, Aimed(g, n, [], s)), c, stamp, full, part)
    ensures !Reproduces(c, full, part)
  {
    hide Content, WellFormed, CompleteOrder, ProblemOf, Tables, Routes, T.WellFormed, Readable, Texted, T.Tabulated,
      Aimed, T.SeedItems, SolvedBoth, Reproduces;
    TablesShared(g, order, Aimed(g, n, [], s));
    var f := AimedReaches(g, order, T.Only(c), n, s, s);
    UnhousedRepeats(ProblemOf(g, order, Aimed(g, n, [], s)), c, stamp, full, part, T.Item(s, f));
  }

  lemma UncontainedVisits(g: Cpg, order: seq<nat>, c: set<nat>, n: nat, x: nat, stamp: Stamp, full: Solution,
                          part: Solution)
    requires WellFormed(Content(g)) && CompleteOrder(Content(g), order)
    requires var tb := Tables(g, order);
             && Seedable(tb, Texted(g), n) && OwnedBy(tb, c, n) && Routes(tb, T.Only(c), n, x)
             && x in tb.procOf && !OwnedBy(tb, c, x)
    requires T.WellFormed(ProblemOf(g, order, Aimed(g, n, [], n)))
    requires SolvedBoth(ProblemOf(g, order, Aimed(g, n, [], n)), c, stamp, full, part)
    ensures !Reproduces(c, full, part)
  {
    hide Content, WellFormed, CompleteOrder, ProblemOf, Tables, Routes, T.WellFormed, Texted, T.Tabulated, Aimed,
      FindingsOf, Hashes, Kept, T.Touched;
    LeavesHome(g, order, c, n, x);
  }

  /** Which source and sink a failing condition singles out. */
  ghost predicate Fails(tb: T.Problem, lit: set<nat>, c: set<nat>, n: nat, s: nat)
    requires T.WellFormed(tb)
  {
    && Seedable(tb, lit, n)
    && (|| (s in lit && OwnedBy(tb, c, s) && Routes(tb, T.Everywhere, n, s)
            && !(OwnedBy(tb, c, n) && Routes(tb, T.Only(c), n, s)))
        || (OwnedBy(tb, c, n) && Routes(tb, T.Only(c), n, s) && s in tb.procOf && !OwnedBy(tb, c, s))
        || (OwnedBy(tb, c, n) && Routes(tb, T.Only(c), n, s) && s in lit && s !in tb.procOf))
  }

  lemma SeparatedUnlessFails(tb: T.Problem, lit: set<nat>, c: set<nat>)
    requires T.WellFormed(tb)
    ensures Separated(tb, lit, c) <==> !exists n, s :: Fails(tb, lit, c, n, s)
  {
    hide T.WellFormed, Routes;
    forall n, s ensures Separated(tb, lit, c) ==> !Fails(tb, lit, c, n, s) { }
    if !Covered(tb, lit, c) {
      var n, s :| Seedable(tb, lit, n) && s in lit && OwnedBy(tb, c, s) && Routes(tb, T.Everywhere, n, s)
                  && !(OwnedBy(tb, c, n) && Routes(tb, T.Only(c), n, s));
      assert Fails(tb, lit, c, n, s);
    }
    if !Contained(tb, lit, c) {
      var n, s :| Seedable(tb, lit, n) && OwnedBy(tb, c, n) && Routes(tb, T.Only(c), n, s) && s in tb.procOf
          && !OwnedBy(tb, c, s);
      assert Fails(tb, lit, c, n, s);
    }
    if !Housed(tb, lit, c) {
      var n, s :| Seedable(tb, lit, n) && OwnedBy(tb, c, n) && Routes(tb, T.Only(c), n, s) && s in lit
          && s !in tb.procOf;
      assert Fails(tb, lit, c, n, s);
    }
  }

  /** The detector that breaks the promise where a condition fails. */
  lemma FailsFor(g: Cpg, order: seq<nat>, c: set<nat>, n: nat, s: nat) returns (det: Detector)
    requires WellFormed(Content(g)) && CompleteOrder(Content(g), order) && Fails(Tables(g, order), Texted(g), c, n, s)
    ensures Distributive(det) && T.WellFormed(ProblemOf(g, order, det))
    ensures forall stamp, full, part :: SolvedBoth(ProblemOf(g, order, det), c, stamp, full, part) ==>
              !Reproduces(c, full, part)
  {
    hide Content, WellFormed, CompleteOrder, ProblemOf, Tables, Routes, T.WellFormed, Texted, SolvedBoth, Reproduces;
    var tb := Tables(g, order);
    det := Aimed(g, n, [], if s in Texted(g) && !(s in tb.procOf && !OwnedBy(tb, c, s)) then s else n);
    ProblemWellFormed(g, order, det);
    forall stamp, full, part | SolvedBoth(ProblemOf(g, order, det), c, stamp, full, part)
      ensures !Reproduces(c, full, part) {
      if s in tb.procOf && !OwnedBy(tb, c, s) {
        UncontainedVisits(g, order, c, n, s, stamp, full, part);
      } else if s in tb.procOf {
        UncoveredLoses(g, order, c, n, s, stamp, full, part);
      } else {
        UnhousedRepeatsOn(g, order, c, n, s, stamp, full, part);
      }
    }
  }

  /** The three conditions are needed for every detector to be safe, and suffice
      where no route that left by a call comes back. */
  lemma IncrementalExactly(g: Cpg, sha: Bytes -> Bytes, affected: set<nat>, c: set<nat>)
    requires Valid(g) && IsClosure(g, OrderOf(g, sha), affected, c)
    ensures AlwaysReproduces(g, sha, affected, c) ==> Separated(TablesOf(g, sha), Texted(g), c)
    ensures !Rejoins(TablesOf(g, sha), Texted(g), c) ==>
              (AlwaysReproduces(g, sha, affected, c) <==> Separated(TablesOf(g, sha), Texted(g), c))
  {
    hide Valid, ProblemOf, Content, WellFormed, CompleteOrder, Tables, T.WellFormed, Texted, IsClosure, OutcomeOf,
      Separated, Rejoins, SolvedFully, SolvedIncrementally, SolvedBoth, Reproduces, Distributive, Fails;
    var tb, lit, order := TablesOf(g, sha), Texted(g), OrderOf(g, sha);
    SeparatedUnlessFails(tb, lit, c);
    if n, s :| Fails(tb, lit, c, n, s) {
      var det := FailsFor(g, order, c, n, s);
      var full, part := SolvedSomehow(ProblemOf(g, order, det), c, StampFor(g, det, [1], [1], sha));
      RunsOn(g, det, [1], [1], sha, affected, c, full, part);
    } else if !Rejoins(tb, lit, c) {
      forall det, version, env, full, part | Runs(g, det, version, env, sha, affected, c, full, part)
        ensures Reproduces(c, full, part) {
        IncrementalReproducesFull(g, det, version, env, sha, affected, full, c, part);
      }
    }
  }

  /** So they are exact on every graph whose nodes all have text. */
  lemma LegibleExactly(g: Cpg, sha: Bytes -> Bytes, affected: set<nat>, c: set<nat>)
    requires Valid(g) && IsClosure(g, OrderOf(g, sha), affected, c) && Texted(g) == Ids(g)
    ensures AlwaysReproduces(g, sha, affected, c) <==> Separated(TablesOf(g, sha), Texted(g), c)
  {
    hide Valid, Content, WellFormed, CompleteOrder, T.WellFormed, Texted, IsClosure, OutcomeOf, Separated, Rejoins,
      AlwaysReproduces, Owners, CfgTable, CallTable, SeedTable, MatchesAny, Ranks;
    IncrementalExactly(g, sha, affected, c);
    if Separated(TablesOf(g, sha), Texted(g), c) { LegibleNeverRejoins(TablesOf(g, sha), Texted(g), c); }
  }
}
