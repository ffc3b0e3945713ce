/** What a detector can choose on a given graph: its sources and sinks are nodes
    with text, and its facts belong to one node each. */
module Readings {
  import opened ByteStrings
  import opened FiniteSets
  import opened Graphs
  import opened Encoding
  import opened Cells
  import opened Cpgs
  import opened Supergraphs
  import opened Solutions
  import B = Boundaries
  import T = Tabulation

  function Texted(g: Cpg): (r: set<nat>)
    ensures r <= Ids(g)
  {
    set v | v in Ids(g) && Content(g).labels[v].text != []
  }

  const SILENT := Detector([], [], [], [], [])

  /** The tables of a graph under an order, before any detector is read. */
  ghost function Tables(g: Cpg, order: seq<nat>): (pb: T.Problem)
    requires WellFormed(Content(g)) && CompleteOrder(Content(g), order)
    ensures T.WellFormed(pb)
  {
    ProblemWellFormed(g, order, SILENT);
    ProblemOf(g, order, SILENT)
  }

  lemma TablesShared(g: Cpg, order: seq<nat>, det: Detector)
    requires WellFormed(Content(g)) && CompleteOrder(Content(g), order)
    ensures T.WellFormed(ProblemOf(g, order, det)) && B.SameSkeleton(Tables(g, order), ProblemOf(g, order, det))
  {
    hide Content, WellFormed, CompleteOrder, Owners, CfgTable, CallTable, SeedTable, MatchesAny, Ranks;
    ProblemWellFormed(g, order, det);
  }

  lemma MatchedHasText(patterns: seq<Bytes>, l: Label)
    requires MatchesAny(patterns, l)
    ensures l.text != []
  {
  }

  lemma IdsListed(g: Cpg)
    ensures Distinct(Ascending(Ids(g))) && forall u :: u in Ascending(Ids(g)) <==> u in Content(g).labels
  {
    hide Content;
  }

  lemma SeedsAt(g: Cpg, sources: seq<Bytes>, v: nat)
    requires v in Ids(g)
    ensures var table := SeedTable(Content(g), Ascending(Ids(g)), sources);
            && (v in table <==> MatchesAny(sources, Content(g).labels[v])) && (v in table ==> table[v] != {})
            && (forall u :: u in table && v in table && u != v ==> table[u] !! table[v])
  {
    hide Content, SeedTable, Ascending, Ids, Distinct;
    IdsListed(g);
    SeedsApart(Content(g), Ascending(Ids(g)), sources, v);
    CountPositive(sources, Content(g).labels[v]);
  }

  lemma ProblemReadable(g: Cpg, order: seq<nat>, det: Detector)
    requires WellFormed(Content(g)) && CompleteOrder(Content(g), order)
    ensures B.Readable(ProblemOf(g, order, det), Texted(g))
  {
    hide Content, WellFormed, CompleteOrder, Owners, CfgTable, CallTable, SeedTable, MatchesAny, Ranks;
    var pb := ProblemOf(g, order, det);
    forall v | v in pb.seeds ensures v in Texted(g) {
      IdsListed(g);
      SeedsAt(g, det.sources, v);
      MatchedHasText(det.sources, Content(g).labels[v]);
    }
    forall v | v in pb.sinks ensures v in Texted(g) { MatchedHasText(det.sinks, Content(g).labels[v]); }
    forall u, v, f {:trigger f in pb.seeds[u], f in pb.seeds[v]} |
      u in pb.seeds && v in pb.seeds && f in pb.seeds[u] && f in pb.seeds[v]
      ensures u == v
    {
      IdsListed(g);
      SeedsAt(g, det.sources, v);
    }
  }
}
