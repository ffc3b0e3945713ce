/** `canonical_order`: a strong identity when the search completes within the
    state budget, a same-source weak identity when it does not, no result at all
    when the deadline passes. */
module CanonicalOrders {
  import opened ByteStrings
  import opened Graphs
  import opened Encoding
  import opened Cpgs
  import opened Canonicality
  import opened Budgets
  import opened GraphIndexes
  import opened CanonicalSearch
  import opened WeakOrders

  datatype Outcome =
    | Rejected
    | Deadline
    | Strong(order: seq<nat>, code: Bytes, states: nat)
    | Weak(order: seq<nat>, code: Bytes, states: nat)

  /** The outcome of a run that meets its deadline. */
  ghost function OutcomeOf(g: Cpg, used: nat, limit: nat, sha: Bytes -> Bytes): (r: Outcome) {
    if !Valid(g) then Rejected
    else
      ContentWellFormed(g);
      var c := Content(g);
      if Finishes(c, used, limit) then Strong(Winner(c).order, Winner(c).code, StatesAfter(c, used, limit))
      else
        WeakOrderComplete(g, sha);
        Weak(WeakOrder(g, sha), Encode(c, WeakOrder(g, sha)), StatesAfter(c, used, limit))
  }

  /** Only the deadline can keep a run from the outcome its input and budget determine. */
  method CanonicalOrderWithin(g: Cpg, budget: Budget, sha: Bytes -> Bytes) returns (r: Outcome)
    requires budget.Valid()
    modifies budget
    ensures budget.Valid()
    ensures r == Deadline || r == OutcomeOf(g, old(budget.states), budget.limit, sha)
    ensures r.Strong? || r.Weak? ==> budget.states == r.states
  {
    hide Indexes, WellFormed, Winner, Encode, CompleteOrder, WeakOrder, FitsNode, UniqueIds, Finishes, StatesAfter,
      Content;
    var late := budget.Check();
    if late { return Deadline; }
    if !Valid(g) { return Rejected; }
    ContentWellFormed(g);
    var c := Content(g);
    var lateBuild, ix := Build(g, budget);
    if lateBuild { return Deadline; }
    var found := Search(ix, c, budget);
    match found {
      case Late => return Deadline;
      case Found(best) => r := Strong(best.order, best.code, budget.states);
      case Spent =>
        WeakOrderComplete(g, sha);
        var order := WeakOrder(g, sha);
        r := Weak(order, Encode(c, order), budget.states);
    }
    var lateEnd := budget.Check();
    if lateEnd { r := Deadline; }
  }

  /** The public entry point: a non-positive state limit is an error. */
  method CanonicalOrder(g: Cpg, b: int, sha: Bytes -> Bytes) returns (r: Outcome)
    ensures b <= 0 ==> r == Rejected
    ensures b > 0 ==> r == Deadline || r == OutcomeOf(g, 0, b, sha)
  {
    if b <= 0 { return Rejected; }
    var budget := new Budget(b);
    r := CanonicalOrderWithin(g, budget, sha);
  }

  // ----- what the hash is taken over

  const STRONG_DOMAIN := Ascii("SCANIPY-CPG-STRONG/2\n")
  const WEAK_DOMAIN := Ascii("SCANIPY-CPG-WEAK/2\n")

  function Preimage(r: Outcome): (p: Bytes)
    requires r.Strong? || r.Weak?
  {
    (if r.Strong? then STRONG_DOMAIN else WEAK_DOMAIN) + r.code
  }

  lemma DomainsDiffer()
    ensures |STRONG_DOMAIN| > 12 && |WEAK_DOMAIN| > 12 && STRONG_DOMAIN[12] != WEAK_DOMAIN[12]
  {
    assert STRONG_DOMAIN[12] == 'S' as int % 256;
    assert WEAK_DOMAIN[12] == 'W' as int % 256;
  }

  lemma SamePreimage(r: Outcome, s: Outcome)
    requires (r.Strong? || r.Weak?) && (s.Strong? || s.Weak?) && Preimage(r) == Preimage(s)
    ensures r.Strong? == s.Strong? && r.code == s.code
  {
    hide Ascii;
    DomainsDiffer();
    var p, q := Preimage(r), Preimage(s);
    assert p[12] == (if r.Strong? then STRONG_DOMAIN else WEAK_DOMAIN)[12];
    assert q[12] == (if s.Strong? then STRONG_DOMAIN else WEAK_DOMAIN)[12];
    PrefixCancel(if r.Strong? then STRONG_DOMAIN else WEAK_DOMAIN, r.code, s.code);
  }

  lemma OutcomeEncodes(g: Cpg, used: nat, limit: nat, sha: Bytes -> Bytes)
    requires Valid(g)
    ensures var r := OutcomeOf(g, used, limit, sha);
            && (r.Strong? || r.Weak?) && WellFormed(Content(g))
            && CompleteOrder(Content(g), r.order) && r.code == Encode(Content(g), r.order)
  {
    hide WellFormed, Encode, CompleteOrder, WeakOrder, FitsNode, UniqueIds, Finishes, StatesAfter, Content;
    ContentWellFormed(g);
    WeakOrderComplete(g, sha);
  }

  /** Isomorphic contents: the same class and the same number of states for every
      budget; the same hashed bytes when strong. */
  lemma StrongIdentityInvariant(g: Cpg, h: Cpg, f: map<nat, nat>, used: nat, limit: nat, sha: Bytes -> Bytes)
    requires Valid(g) && Valid(h) && Isomorphism(Content(g), Content(h), f)
    ensures var r, s := OutcomeOf(g, used, limit, sha), OutcomeOf(h, used, limit, sha);
            && (r.Strong? <==> s.Strong?) && (r.Weak? <==> s.Weak?)
            && (r.Strong? || r.Weak?) && r.states == s.states
            && (r.Strong? ==> Preimage(r) == Preimage(s))
  {
    hide WellFormed, Encode, CompleteOrder, WeakOrder, FitsNode, UniqueIds, Finishes, StatesAfter, Isomorphism, Content;
    ContentWellFormed(g);
    ContentWellFormed(h);
    CanonicalInvariance(Content(g), Content(h), f, used, limit);
  }

  /** Equal hashed bytes, of whatever class, come from isomorphic contents. */
  lemma EqualPreimagesIsomorphic(g: Cpg, h: Cpg, b: nat, c: nat, sha: Bytes -> Bytes)
    requires Valid(g) && Valid(h)
    requires var r, s := OutcomeOf(g, 0, b, sha), OutcomeOf(h, 0, c, sha);
             (r.Strong? || r.Weak?) && (s.Strong? || s.Weak?) && Preimage(r) == Preimage(s)
    ensures var r, s := OutcomeOf(g, 0, b, sha), OutcomeOf(h, 0, c, sha);
            && (r.Strong? <==> s.Strong?) && |r.order| == |s.order|
            && Isomorphism(Content(g), Content(h), PositionMap(r.order, s.order))
  {
    hide WellFormed, Encode, CompleteOrder, OutcomeOf, Preimage, Isomorphism, PositionMap, Content, Valid;
    var r, s := OutcomeOf(g, 0, b, sha), OutcomeOf(h, 0, c, sha);
    SamePreimage(r, s);
    OutcomeEncodes(g, 0, b, sha);
    OutcomeEncodes(h, 0, c, sha);
    EncodeUniquelyDecodes(Content(g), r.order, Content(h), s.order);
  }

  /** The weak identity is the same for every ordering of the node and edge lists. */
  lemma WeakIdentityStable(g: Cpg, h: Cpg, used: nat, limit: nat, sha: Bytes -> Bytes)
    requires Valid(g) && Valid(h)
    requires multiset(g.nodes) == multiset(h.nodes) && multiset(g.edges) == multiset(h.edges)
    ensures Isomorphism(Content(g), Content(h), Identity(Ids(g)))
    ensures OutcomeOf(g, used, limit, sha).Weak? <==> OutcomeOf(h, used, limit, sha).Weak?
    ensures OutcomeOf(g, used, limit, sha).Weak? ==> OutcomeOf(g, used, limit, sha) == OutcomeOf(h, used, limit, sha)
  {
    hide WellFormed, Encode, CompleteOrder, WeakOrder, FitsNode, Finishes, StatesAfter, Winner, MoveOrder;
    var f := Identity(Ids(g));
    SameContent(g, h);
    ContentWellFormed(g);
    ContentWellFormed(h);
    WeakOrderComplete(g, sha);
    WeakOrderPermuted(g, h, sha);
    CanonicalInvariance(Content(g), Content(h), f, used, limit);
    EncodeIsomorphic(Content(g), Content(h), f, WeakOrder(g, sha));
    IdentityMoves(Content(g), WeakOrder(g, sha));
  }

  lemma IdentityMoves(c: Graph, order: seq<nat>)
    requires CompleteOrder(c, order)
    ensures MoveOrder(Identity(c.labels.Keys), order) == order
  {
  }

  lemma SameLabels(g: Cpg, h: Cpg)
    requires UniqueIds(g.nodes) && UniqueIds(h.nodes) && multiset(g.nodes) == multiset(h.nodes)
    ensures Content(g).labels == Content(h).labels
  {
    hide NodeOf;
    forall v ensures v in Ids(g) <==> v in Ids(h) {
      if n :| n in g.nodes && n.id == v { assert n in multiset(h.nodes); }
      if n :| n in h.nodes && n.id == v { assert n in multiset(g.nodes); }
    }
    forall v | v in Ids(g) ensures Content(g).labels[v] == Content(h).labels[v] {
      var n :| n in g.nodes && n.id == v;
      assert n in multiset(h.nodes);
      ContentLabel(g, n);
      ContentLabel(h, n);
    }
  }

  lemma SameGraph(c: Graph, d: Graph)
    requires c.labels == d.labels && multiset(c.edges) == multiset(d.edges)
    ensures Isomorphism(c, d, Identity(c.labels.Keys))
  {
    IsomorphismIdentity(c);
    var f := Identity(c.labels.Keys);
    forall s, e | s in f && e in f ensures SameParallelEdges(c, s, e, d, f[s], f[e]) {
    }
    forall v | v in f ensures SameLabel(c, v, d, f[v]) {
    }
  }

  lemma SameContent(g: Cpg, h: Cpg)
    requires UniqueIds(g.nodes) && UniqueIds(h.nodes)
    requires multiset(g.nodes) == multiset(h.nodes) && multiset(g.edges) == multiset(h.edges)
    ensures Content(g).labels == Content(h).labels
    ensures Isomorphism(Content(g), Content(h), Identity(Ids(g)))
  {
    hide Isomorphism, Content;
    SameLabels(g, h);
    SameGraph(Content(g), Content(h));
  }
}
