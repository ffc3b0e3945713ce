/** `build_supergraph` fills and sorts its tables; `transitive_callers` closes a
    set of procedures under callers with an explicit stack. */
module SupergraphRuns {
  import opened ByteStrings
  import opened FiniteSets
  import opened Graphs
  import opened Encoding
  import opened Cpgs
  import opened Slices
  import opened Supergraphs

  datatype Procedure = Procedure(fqn: Bytes, body: seq<nat>)

  /** A procedure's id is the id of its METHOD node. */
  datatype Supergraph = Supergraph(
    procs: map<nat, Procedure>,
    procOf: map<nat, nat>,
    cfg: map<nat, seq<nat>>,
    calls: map<nat, seq<nat>>,
    callees: map<nat, set<nat>>,
    callers: map<nat, set<nat>>)

  function Methods(g: Cpg): (r: set<nat>) {
    set v | v in Ids(g) && IsMethod(Content(g), v)
  }

  // ----- 1. procedures and their names

  ghost predicate NamesUpTo(c: Graph, order: seq<nat>, byName: map<Bytes, nat>) {
    && [] !in byName
    && forall name :: name != [] ==>
         ProcNamed(c, order, name) == if name in byName then Some(byName[name]) else None
  }

  lemma NamesNext(c: Graph, order: seq<nat>, i: nat, byName: map<Bytes, nat>)
    requires i < |order| && NamesUpTo(c, order[..i], byName) && order[i] in c.labels
    ensures var v := order[i];
            NamesUpTo(c, order[..i + 1],
              if IsMethod(c, v) && MethodName(c.labels[v]) != [] then byName[MethodName(c.labels[v]) := v] else byName)
  {
    assert order[..i + 1][..i] == order[..i];
  }

  ghost predicate NamedUpTo(g: Cpg, order: seq<nat>, names: map<nat, Bytes>) {
    && (forall v :: v in names <==> v in order && IsMethod(Content(g), v))
    && (forall v :: v in names ==> v in Content(g).labels && names[v] == MethodName(Content(g).labels[v]))
  }

  lemma NamedNext(g: Cpg, order: seq<nat>, i: nat, names: map<nat, Bytes>)
    requires i < |order| && NamedUpTo(g, order[..i], names) && order[i] in Content(g).labels
    ensures var v := order[i];
            NamedUpTo(g, order[..i + 1],
              if IsMethod(Content(g), v) then names[v := MethodName(Content(g).labels[v])] else names)
  {
    hide Content, IsMethod, MethodName;
    assert order[..i + 1] == order[..i] + [order[i]];
  }

  lemma NamedAll(g: Cpg, order: seq<nat>, names: map<nat, Bytes>)
    requires CompleteOrder(Content(g), order) && NamedUpTo(g, order, names)
    ensures names == map v | v in Methods(g) :: MethodName(Content(g).labels[v])
  {
    hide MethodName;
  }

  method NameProcedures(g: Cpg, order: seq<nat>) returns (byName: map<Bytes, nat>, names: map<nat, Bytes>)
    requires CompleteOrder(Content(g), order)
    ensures NamesUpTo(Content(g), order, byName)
    ensures names == map v | v in Methods(g) :: MethodName(Content(g).labels[v])
  {
    hide MethodName, NamesUpTo, NamedUpTo, IsMethod, Content, Distinct;
    byName, names := map[], map[];
    var c := Content(g);
    NoNames(c);
    assert order[..0] == [];
    assert NamedUpTo(g, [], names) by { NoneNamed(g); }
    for i := 0 to |order|
      invariant NamesUpTo(c, order[..i], byName)
      invariant NamedUpTo(g, order[..i], names)
    {
      var v := order[i];
      assert v in c.labels;
      NamesNext(c, order, i, byName);
      NamedNext(g, order, i, names);
      if IsMethod(c, v) {
        var name := MethodName(c.labels[v]);
        names := names[v := name];
        if name != [] { byName := byName[name := v]; }
      }
    }
    assert order[..|order|] == order;
    NamedAll(g, order, names);
  }

  lemma NoneNamed(g: Cpg)
    ensures NamedUpTo(g, [], map[])
  {
  }

  lemma NoNames(c: Graph)
    ensures NamesUpTo(c, [], map[])
  {
  }

  // ----- 2. every node goes to its procedure

  /** The non-METHOD nodes owned by `p`, in list order. */
  function Members(c: Graph, order: seq<nat>, ns: seq<Node>, p: nat): (r: seq<nat>) {
    if ns == [] then []
    else
      var v := ns[|ns| - 1].id;
      Members(c, order, ns[..|ns| - 1], p) +
      if v in c.labels && !IsMethod(c, v) && Owner(c, order, v) == Some(p) then [v] else []
  }

  ghost predicate OwnersUpTo(g: Cpg, order: seq<nat>, i: nat, procOf: map<nat, nat>)
    requires i <= |g.nodes|
  {
    && (forall v :: v in procOf <==> v in IdList(g)[..i] && v in Owners(Content(g), order))
    && (forall v :: v in procOf ==> procOf[v] == Owners(Content(g), order)[v])
  }

  lemma OwnersNext(g: Cpg, order: seq<nat>, i: nat, procOf: map<nat, nat>)
    requires UniqueIds(g.nodes) && i < |g.nodes| && OwnersUpTo(g, order, i, procOf)
    ensures var v := g.nodes[i].id;
            v in Content(g).labels &&
            OwnersUpTo(g, order, i + 1,
                       match Owner(Content(g), order, v) case Some(p) => procOf[v := p] case None => procOf)
  {
    hide Owner, Content;
    var v := g.nodes[i].id;
    assert g.nodes[i] in g.nodes;
    assert IdList(g)[..i + 1] == IdList(g)[..i] + [v];
  }

  lemma OwnersDone(g: Cpg, order: seq<nat>, procOf: map<nat, nat>)
    requires OwnersUpTo(g, order, |g.nodes|, procOf)
    ensures procOf == Owners(Content(g), order)
  {
    hide Owner, Content;
    IdListComplete(g);
    assert IdList(g)[..|g.nodes|] == IdList(g);
  }

  lemma OwnerIsMethod(c: Graph, order: seq<nat>, v: nat)
    requires v in c.labels && Owner(c, order, v).Some?
    ensures IsMethod(c, Owner(c, order, v).value)
  {
  }

  lemma OwnerLookup(c: Graph, order: seq<nat>, byName: map<Bytes, nat>, v: nat)
    requires NamesUpTo(c, order, byName) && v in c.labels && !IsMethod(c, v)
    ensures Owner(c, order, v) == if c.labels[v].decl in byName then Some(byName[c.labels[v].decl]) else None
  {
  }

  lemma MembersNext(c: Graph, order: seq<nat>, ns: seq<Node>, i: nat, p: nat)
    requires i < |ns| && ns[i].id in c.labels
    ensures Members(c, order, ns[..i + 1], p) ==
            Members(c, order, ns[..i], p) +
            if !IsMethod(c, ns[i].id) && Owner(c, order, ns[i].id) == Some(p) then [ns[i].id] else []
  {
    assert ns[..i + 1][..i] == ns[..i];
  }

  ghost predicate BodiesUpTo(g: Cpg, order: seq<nat>, i: nat, bodies: map<nat, seq<nat>>)
    requires i <= |g.nodes|
  {
    && bodies.Keys == Methods(g)
    && forall p :: p in bodies ==> bodies[p] == Members(Content(g), order, g.nodes[..i], p)
  }

  lemma BodiesNext(g: Cpg, order: seq<nat>, i: nat, bodies: map<nat, seq<nat>>)
    requires UniqueIds(g.nodes) && i < |g.nodes| && BodiesUpTo(g, order, i, bodies)
    ensures var v := g.nodes[i].id;
            && v in Content(g).labels
            && (Owner(Content(g), order, v).Some? ==> Owner(Content(g), order, v).value in bodies)
            && BodiesUpTo(g, order, i + 1,
                 match Owner(Content(g), order, v)
                 case Some(p) => if IsMethod(Content(g), v) then bodies else bodies[p := bodies[p] + [v]]
                 case None => bodies)
  {
    hide Owner, Content;
    var v := g.nodes[i].id;
    assert g.nodes[i] in g.nodes;
    if Owner(Content(g), order, v).Some? { OwnerIsMethod(Content(g), order, v); }
    forall p | p in bodies
      ensures Members(Content(g), order, g.nodes[..i + 1], p) ==
              Members(Content(g), order, g.nodes[..i], p) +
              if !IsMethod(Content(g), v) && Owner(Content(g), order, v) == Some(p) then [v] else []
    {
      MembersNext(Content(g), order, g.nodes, i, p);
    }
  }

  method AssignNodes(g: Cpg, ghost order: seq<nat>, byName: map<Bytes, nat>)
    returns (procOf: map<nat, nat>, bodies: map<nat, seq<nat>>)
    requires UniqueIds(g.nodes) && NamesUpTo(Content(g), order, byName)
    ensures procOf == Owners(Content(g), order)
    ensures BodiesUpTo(g, order, |g.nodes|, bodies)
  {
    hide Owner, NamesUpTo, Members, MethodName, Content, OwnersUpTo, BodiesUpTo;
    procOf, bodies := map[], map v | v in Methods(g) :: [];
    assert OwnersUpTo(g, order, 0, procOf) by { NoOwners(g, order); }
    assert BodiesUpTo(g, order, 0, bodies) by { NoBodies(g, order); }
    for i := 0 to |g.nodes|
      invariant OwnersUpTo(g, order, i, procOf) && BodiesUpTo(g, order, i, bodies)
    {
      var n := g.nodes[i];
      assert n in g.nodes;
      ContentLabel(g, n);
      OwnersNext(g, order, i, procOf);
      BodiesNext(g, order, i, bodies);
      if n.fields.kind == METHOD {
        MethodOwnsItself(Content(g), order, n.id);
        procOf := procOf[n.id := n.id];
      } else {
        OwnerLookup(Content(g), order, byName, n.id);
        if n.fields.decl in byName {
          var p := byName[n.fields.decl];
          procOf, bodies := procOf[n.id := p], bodies[p := bodies[p] + [n.id]];
        }
      }
    }
    OwnersDone(g, order, procOf);
  }

  lemma NoOwners(g: Cpg, order: seq<nat>)
    ensures OwnersUpTo(g, order, 0, map[])
  {
  }

  lemma NoBodies(g: Cpg, order: seq<nat>)
    ensures BodiesUpTo(g, order, 0, map v | v in Methods(g) :: [])
  {
    hide Content;
  }

  lemma MethodOwnsItself(c: Graph, order: seq<nat>, v: nat)
    requires IsMethod(c, v)
    ensures Owner(c, order, v) == Some(v)
  {
  }

  // ----- 3. edges, 4. deterministic adjacency

  ghost predicate EdgesUpTo(g: Cpg, owners: map<nat, nat>, es: seq<Edge>, cfg: map<nat, seq<nat>>,
                            calls: map<nat, seq<nat>>) {
    && cfg.Keys == Ids(g) && calls.Keys == Ids(g)
    && (forall v :: v in cfg ==> cfg[v] == CfgTargets(es, v))
    && (forall v :: v in calls ==> calls[v] == CallTargets(Content(g), es, v))
  }

  ghost predicate CallGraphUpTo(g: Cpg, owners: map<nat, nat>, es: seq<Edge>, callees: map<nat, set<nat>>,
                                callers: map<nat, set<nat>>) {
    && callees.Keys == Methods(g) && callers.Keys == Methods(g)
    && (forall q :: q in callers ==> callers[q] == CallersOf(Content(g), owners, es, q))
    && Mirrored(callees, callers)
  }

  ghost predicate Mirrored(callees: map<nat, set<nat>>, callers: map<nat, set<nat>>) {
    && (forall p, q :: p in callees && q in callers ==> (q in callees[p] <==> p in callers[q]))
    && (forall p, q :: p in callees && q in callees[p] ==> q in callers)
  }

  predicate CallsProcedure(g: Cpg, e: Edge) {
    e.kind == CALL && IsMethod(Content(g), e.dst)
  }

  lemma EdgesNext(g: Cpg, owners: map<nat, nat>, i: nat, cfg: map<nat, seq<nat>>, calls: map<nat, seq<nat>>)
    requires i < |g.edges| && EdgesUpTo(g, owners, g.edges[..i], cfg, calls) && g.edges[i].src in Ids(g)
    ensures var e := g.edges[i];
            EdgesUpTo(g, owners, g.edges[..i + 1],
              if e.kind == CFG then cfg[e.src := cfg[e.src] + [e.dst]] else cfg,
              if CallsProcedure(g, e) then calls[e.src := calls[e.src] + [e.dst]] else calls)
  {
    hide Content, IsMethod;
    assert g.edges[..i + 1][..i] == g.edges[..i];
  }

  lemma CallGraphNext(g: Cpg, owners: map<nat, nat>, i: nat, callees: map<nat, set<nat>>, callers: map<nat, set<nat>>)
    requires i < |g.edges| && CallGraphUpTo(g, owners, g.edges[..i], callees, callers)
    requires g.edges[i].dst in Ids(g) && forall v :: v in owners ==> owners[v] in Methods(g)
    ensures var e := g.edges[i];
            if CallsProcedure(g, e) && e.src in owners then
              && owners[e.src] in callees && e.dst in callers
              && CallGraphUpTo(g, owners, g.edges[..i + 1], callees[owners[e.src] := callees[owners[e.src]] + {e.dst}],
                   callers[e.dst := callers[e.dst] + {owners[e.src]}])
            else CallGraphUpTo(g, owners, g.edges[..i + 1], callees, callers)
  {
    hide Content, IsMethod, Mirrored;
    assert g.edges[..i + 1][..i] == g.edges[..i];
    var e := g.edges[i];
    if CallsProcedure(g, e) && e.src in owners { MirroredNext(callees, callers, owners[e.src], e.dst); }
  }

  lemma MirroredNext(callees: map<nat, set<nat>>, callers: map<nat, set<nat>>, p: nat, q: nat)
    requires Mirrored(callees, callers) && p in callees && q in callers
    ensures Mirrored(callees[p := callees[p] + {q}], callers[q := callers[q] + {p}])
  {
  }

  method FillEdges(g: Cpg, owners: map<nat, nat>)
    returns (cfg: map<nat, seq<nat>>, calls: map<nat, seq<nat>>, callees: map<nat, set<nat>>, callers: map<nat,
             set<nat>>)
    requires (forall e :: e in g.edges ==> e.src in Ids(g) && e.dst in Ids(g))
    requires forall v :: v in owners ==> owners[v] in Methods(g)
    ensures EdgesUpTo(g, owners, g.edges, cfg, calls) && CallGraphUpTo(g, owners, g.edges, callees, callers)
  {
    hide EdgesUpTo, CallGraphUpTo, Methods, Content;
    cfg, calls := map v | v in Ids(g) :: [], map v | v in Ids(g) :: [];
    callees, callers := map v | v in Methods(g) :: {}, map v | v in Methods(g) :: {};
    NoEdges(g, owners);
    assert g.edges[..0] == [];
    for i := 0 to |g.edges|
      invariant EdgesUpTo(g, owners, g.edges[..i], cfg, calls)
      invariant CallGraphUpTo(g, owners, g.edges[..i], callees, callers)
    {
      var e := g.edges[i];
      assert e in g.edges;
      EdgesNext(g, owners, i, cfg, calls);
      CallGraphNext(g, owners, i, callees, callers);
      assert CFG != CALL;
      assert e.src in cfg && e.src in calls by { EdgeKeys(g, owners, g.edges[..i], cfg, calls); }
      if e.kind == CFG {
        cfg := cfg[e.src := cfg[e.src] + [e.dst]];
      } else if e.kind == CALL {
        if IsMethod(Content(g), e.dst) {
          calls := calls[e.src := calls[e.src] + [e.dst]];
          if e.src in owners {
            var p := owners[e.src];
            callees, callers := callees[p := callees[p] + {e.dst}], callers[e.dst := callers[e.dst] + {p}];
          }
        }
      }
    }
    assert g.edges[..|g.edges|] == g.edges;
  }

  lemma EdgeKeys(g: Cpg, owners: map<nat, nat>, es: seq<Edge>, cfg: map<nat, seq<nat>>, calls: map<nat, seq<nat>>)
    requires EdgesUpTo(g, owners, es, cfg, calls)
    ensures cfg.Keys == Ids(g) && calls.Keys == Ids(g)
  {
  }

  lemma NoEdges(g: Cpg, owners: map<nat, nat>)
    ensures EdgesUpTo(g, owners, [], map v | v in Ids(g) :: [], map v | v in Ids(g) :: [])
    ensures CallGraphUpTo(g, owners, [], map v | v in Methods(g) :: {}, map v | v in Methods(g) :: {})
  {
    hide Content;
  }

  method SortTable(table: map<nat, seq<nat>>, rank: map<nat, nat>) returns (r: map<nat, seq<nat>>)
    requires forall v, n :: v in table && n in table[v] ==> n in rank
    ensures r.Keys == table.Keys
    ensures forall v :: v in r ==> (forall n :: n in table[v] ==> n in rank) && r[v] == SortByRank(table[v], rank)
  {
    hide SortByRank;
    r := map[];
    var rest := table.Keys;
    while rest != {}
      invariant rest <= table.Keys && r.Keys == table.Keys - rest
      invariant forall v :: v in r ==> r[v] == SortByRank(table[v], rank)
      decreases rest
    {
      var v :| v in rest;
      r, rest := r[v := SortByRank(table[v], rank)], rest - {v};
    }
  }

  /** What the supergraph of a graph under an order holds. */
  ghost predicate Describes(g: Cpg, order: seq<nat>, sg: Supergraph)
    requires WellFormed(Content(g)) && CompleteOrder(Content(g), order)
  {
    && sg.procOf == Owners(Content(g), order) && sg.cfg == CfgTable(g, order) && sg.calls == CallTable(g, order)
    && CallGraphUpTo(g, sg.procOf, g.edges, sg.callees, sg.callers)
    && ProcsDescribed(g, order, sg.procs)
  }

  lemma AppendAscends(s: seq<nat>, x: nat, rank: map<nat, nat>)
    requires x in rank && RanksAscend(s, rank) && forall v :: v in s ==> rank[v] <= rank[x]
    ensures RanksAscend(s + [x], rank)
  {
  }

  lemma LastHighest(s: seq<nat>, rank: map<nat, nat>, v: nat)
    requires s != [] && RanksAscend(s, rank) && v in s
    ensures rank[v] <= rank[s[|s| - 1]]
  {
    var i :| 0 <= i < |s| && s[i] == v;
  }

  lemma FrontAscends(s: seq<nat>, rank: map<nat, nat>)
    requires s != [] && RanksAscend(s, rank)
    ensures RanksAscend(s[..|s| - 1], rank)
  {
  }

  lemma {:induction false} InsertAscends(x: nat, s: seq<nat>, rank: map<nat, nat>)
    requires x in rank && RanksAscend(s, rank)
    ensures RanksAscend(InsertByRank(x, s, rank), rank)
  {
    if s == [] {
    } else if rank[s[|s| - 1]] <= rank[x] {
      forall v | v in s ensures rank[v] <= rank[x] { LastHighest(s, rank, v); }
      AppendAscends(s, x, rank);
    } else {
      var front, last := s[..|s| - 1], s[|s| - 1];
      FrontAscends(s, rank);
      InsertAscends(x, front, rank);
      var r := InsertByRank(x, front, rank);
      forall v | v in r ensures rank[v] <= rank[last] {
        assert v in multiset(r);
        assert v == x || v in s;
        if v != x { LastHighest(s, rank, v); }
      }
      AppendAscends(r, last, rank);
    }
  }

  /** Adjacency lists and bodies come out in canonical order. */
  lemma {:induction false} SortAscends(s: seq<nat>, rank: map<nat, nat>)
    requires forall y :: y in s ==> y in rank
    ensures RanksAscend(SortByRank(s, rank), rank)
  {
    if s != [] {
      SortAscends(s[..|s| - 1], rank);
      InsertAscends(s[|s| - 1], SortByRank(s[..|s| - 1], rank), rank);
    }
  }

  lemma {:induction false} MembersAreNodes(c: Graph, order: seq<nat>, ns: seq<Node>, p: nat, v: nat)
    requires v in Members(c, order, ns, p)
    ensures v in c.labels && !IsMethod(c, v) && Owner(c, order, v) == Some(p)
  {
    hide Owner, IsMethod;
    if v in Members(c, order, ns[..|ns| - 1], p) { MembersAreNodes(c, order, ns[..|ns| - 1], p, v); }
  }

  method SortBodies(g: Cpg, order: seq<nat>, names: map<nat, Bytes>, bodies: map<nat, seq<nat>>)
    returns (procs: map<nat, Procedure>)
    requires CompleteOrder(Content(g), order)
    requires names == (map v | v in Methods(g) :: MethodName(Content(g).labels[v]))
    requires BodiesUpTo(g, order, |g.nodes|, bodies)
    ensures ProcsDescribed(g, order, procs)
  {
    hide Content, MethodName, Members, SortByRank, RanksAscend, CompleteOrder, Ranks;
    assert g.nodes[..|g.nodes|] == g.nodes;
    var rank := Ranks(order);
    forall p, v | p in bodies && v in bodies[p] ensures v in rank {
      MembersAreNodes(Content(g), order, g.nodes, p, v);
      RanksKeys(Content(g), order);
    }
    var sorted := SortTable(bodies, rank);
    procs := map p | p in sorted :: Procedure(names[p], sorted[p]);
    forall p | p in procs ensures RanksAscend(procs[p].body, rank) {
      SortAscends(bodies[p], rank);
    }
  }

  ghost predicate ProcsDescribed(g: Cpg, order: seq<nat>, procs: map<nat, Procedure>) {
    && procs.Keys == Methods(g)
    && forall p :: p in procs ==>
         && procs[p].fqn == MethodName(Content(g).labels[p])
         && multiset(procs[p].body) == multiset(Members(Content(g), order, g.nodes, p))
         && RanksAscend(procs[p].body, Ranks(order))
  }

  lemma OwnersAreMethods(g: Cpg, order: seq<nat>)
    ensures forall v :: v in Owners(Content(g), order) ==> Owners(Content(g), order)[v] in Methods(g)
  {
    hide Owner, Content, IsMethod;
    forall v | v in Owners(Content(g), order) ensures Owners(Content(g), order)[v] in Methods(g) {
      OwnerIsMethod(Content(g), order, v);
      MethodIsNode(Content(g), Owners(Content(g), order)[v]);
    }
  }

  lemma MethodIsNode(c: Graph, v: nat)
    requires IsMethod(c, v)
    ensures v in c.labels
  {
  }

  lemma ValidEnds(g: Cpg)
    requires Valid(g)
    ensures UniqueIds(g.nodes) && forall e :: e in g.edges ==> e.src in Ids(g) && e.dst in Ids(g)
  {
    hide FitsNode;
    forall e | e in g.edges ensures e.src in Ids(g) && e.dst in Ids(g) { assert FitsEdge(g, e); }
  }

  method SortAdjacency(g: Cpg, order: seq<nat>, ghost owners: map<nat, nat>, cfg: map<nat, seq<nat>>,
                       calls: map<nat, seq<nat>>)
    returns (cfgSorted: map<nat, seq<nat>>, callsSorted: map<nat, seq<nat>>)
    requires WellFormed(Content(g)) && CompleteOrder(Content(g), order) && EdgesUpTo(g, owners, g.edges, cfg, calls)
    ensures cfgSorted == CfgTable(g, order) && callsSorted == CallTable(g, order)
  {
    hide WellFormed, CompleteOrder, Content, CfgTargets, CallTargets, SortByRank, Ranks, CfgTable, CallTable, Ids;
    TargetsRanked(g, order);
    cfgSorted := SortTable(cfg, Ranks(order));
    callsSorted := SortTable(calls, Ranks(order));
    CfgSorted(g, order, cfg, cfgSorted);
    CallsSorted(g, order, calls, callsSorted);
  }

  method BuildSupergraph(g: Cpg, order: seq<nat>) returns (sg: Supergraph)
    requires Valid(g) && CompleteOrder(Content(g), order)
    ensures WellFormed(Content(g)) && Describes(g, order, sg)
  {
    ValidEnds(g);
    hide Valid, Content, MethodName, BodiesUpTo, NamesUpTo, CallGraphUpTo, CompleteOrder, WellFormed, Ranks,
      CfgTargets, CallTargets, SortByRank, ProcsDescribed, Owners, Methods, UniqueIds, CfgTable, CallTable, Ids,
      IsMethod, Mirrored, EdgesUpTo;
    ContentWellFormed(g);
    var byName, names := NameProcedures(g, order);
    var procOf, bodies := AssignNodes(g, order, byName);
    var procs := SortBodies(g, order, names, bodies);
    OwnersAreMethods(g, order);
    var cfg, calls, callees, callers := FillEdges(g, procOf);
    var cfgSorted, callsSorted := SortAdjacency(g, order, procOf, cfg, calls);
    sg := Supergraph(procs, procOf, cfgSorted, callsSorted, callees, callers);
  }

  lemma CfgSorted(g: Cpg, order: seq<nat>, table: map<nat, seq<nat>>, sorted: map<nat, seq<nat>>)
    requires WellFormed(Content(g)) && CompleteOrder(Content(g), order)
    requires table.Keys == Ids(g) && forall v :: v in table ==> table[v] == CfgTargets(g.edges, v)
    requires sorted.Keys == table.Keys && forall v :: v in sorted ==>
               (forall n :: n in table[v] ==> n in Ranks(order)) && sorted[v] == SortByRank(table[v], Ranks(order))
    ensures sorted == CfgTable(g, order)
  {
    hide SortByRank, CfgTargets, Ranks, Content;
  }

  lemma CallsSorted(g: Cpg, order: seq<nat>, table: map<nat, seq<nat>>, sorted: map<nat, seq<nat>>)
    requires WellFormed(Content(g)) && CompleteOrder(Content(g), order)
    requires table.Keys == Ids(g) && forall v :: v in table ==> table[v] == CallTargets(Content(g), g.edges, v)
    requires sorted.Keys == table.Keys && forall v :: v in sorted ==>
               (forall n :: n in table[v] ==> n in Ranks(order)) && sorted[v] == SortByRank(table[v], Ranks(order))
    ensures sorted == CallTable(g, order)
  {
    hide SortByRank, CallTargets, Ranks, Content;
  }

  // ----- callers, transitively

  /** `p` is at the top of a chain of at least one call that ends in `seed`. */
  ghost predicate CallsInto(callers: map<nat, set<nat>>, seed: set<nat>, p: nat) {
    exists chain :: CallChain(callers, seed, p, chain)
  }

  ghost predicate CallChain(callers: map<nat, set<nat>>, seed: set<nat>, p: nat, chain: seq<nat>) {
    && |chain| >= 2 && chain[0] == p && chain[|chain| - 1] in seed
    && forall i :: 0 <= i < |chain| - 1 ==> DirectCaller(callers, chain[i], chain[i + 1])
  }

  predicate DirectCaller(callers: map<nat, set<nat>>, p: nat, q: nat) {
    q in callers && p in callers[q]
  }

  lemma CallsIntoSeed(callers: map<nat, set<nat>>, seed: set<nat>, p: nat, q: nat)
    requires DirectCaller(callers, p, q) && (q in seed || CallsInto(callers, seed, q))
    ensures CallsInto(callers, seed, p)
  {
    if q in seed {
      assert CallChain(callers, seed, p, [p, q]);
    } else {
      var chain :| CallChain(callers, seed, q, chain);
      assert CallChain(callers, seed, p, [p] + chain);
    }
  }

  lemma {:induction false} ChainInside(callers: map<nat, set<nat>>, seed: set<nat>, p: nat, chain: seq<nat>,
                                       out: set<nat>)
    requires CallChain(callers, seed, p, chain)
    requires forall p, q :: DirectCaller(callers, p, q) && (q in seed || q in out) ==> p in out
    ensures p in out
    decreases |chain|
  {
    assert DirectCaller(callers, chain[0], chain[0 + 1]);
    if |chain| > 2 {
      assert CallChain(callers, seed, chain[1], chain[1..]);
      ChainInside(callers, seed, chain[1], chain[1..], out);
    }
  }

  /** Every caller of `q` not found before is found and pushed. */
  method PushCallers(callers: map<nat, set<nat>>, ghost seed: set<nat>, q: nat, found: set<nat>, below: seq<nat>)
    returns (out: set<nat>, stack: seq<nat>)
    requires (q in seed || CallsInto(callers, seed, q)) && forall p :: p in found ==> CallsInto(callers, seed, p)
    ensures forall p :: p in out ==> CallsInto(callers, seed, p)
    ensures forall p :: DirectCaller(callers, p, q) ==> p in out
    ensures found <= out && out - found <= AllCallers(callers) && (out == found ==> stack == below)
    ensures forall p :: p in stack <==> p in below || p in out - found
  {
    hide CallsInto, AllCallers;
    out, stack := found, below;
    var rest := if q in callers then callers[q] else {};
    while rest != {}
      invariant forall p :: p in rest ==> DirectCaller(callers, p, q)
      invariant forall p :: p in out ==> CallsInto(callers, seed, p)
      invariant forall p :: DirectCaller(callers, p, q) ==> p in out || p in rest
      invariant found <= out && out - found <= AllCallers(callers) && (out == found ==> stack == below)
      invariant forall p :: p in stack <==> p in below || p in out - found
      decreases rest
    {
      var p :| p in rest;
      rest := rest - {p};
      if p !in out {
        CallsIntoSeed(callers, seed, p, q);
        CallerCounted(callers, q, p);
        out, stack := out + {p}, stack + [p];
      }
    }
  }

  /** Everything found calls into the seed; what is not yet processed is on the stack. */
  ghost predicate Sweeping(callers: map<nat, set<nat>>, seed: set<nat>, out: set<nat>, stack: seq<nat>, done: set<nat>)
  {
    && (forall p :: p in out ==> CallsInto(callers, seed, p))
    && (forall p :: p in stack ==> p in seed || p in out)
    && (forall p, q :: DirectCaller(callers, p, q) && q in done ==> p in out)
    && (forall q :: q in seed || q in out ==> q in done || q in stack)
  }

  lemma SweepNext(callers: map<nat, set<nat>>, seed: set<nat>, out: set<nat>, below: seq<nat>, q: nat, done: set<nat>,
                  out': set<nat>, stack': seq<nat>)
    requires Sweeping(callers, seed, out, below + [q], done) && out <= out'
    requires forall p :: p in out' ==> CallsInto(callers, seed, p)
    requires forall p :: DirectCaller(callers, p, q) ==> p in out'
    requires forall p :: p in stack' <==> p in below || p in out' - out
    ensures Sweeping(callers, seed, out', stack', done + {q})
  {
    hide CallsInto, DirectCaller;
    forall p | p in stack' ensures p in seed || p in out' {
      if p in below { assert p in below + [q]; }
    }
    forall p | p in seed || p in out' ensures p in done + {q} || p in stack' {
      if p in seed || p in out { assert p in below + [q] || p in done; }
    }
  }

  /** Exactly the procedures with a call chain into the seed; the seed itself only
      where it calls back into itself. */
  method TransitiveCallers(callers: map<nat, set<nat>>, seed: set<nat>) returns (out: set<nat>)
    ensures forall p :: p in out <==> CallsInto(callers, seed, p)
  {
    hide CallsInto, AllCallers, DirectCaller, Sweeping;
    out := {};
    var stack := SortFound(seed);
    ghost var done: set<nat> := {};
    SweepStart(callers, seed, stack);
    while stack != []
      invariant Sweeping(callers, seed, out, stack, done)
      decreases AllCallers(callers) - out, |stack|
    {
      var q, below := stack[|stack| - 1], stack[..|stack| - 1];
      assert stack == below + [q];
      SweepTop(callers, seed, out, below, q, done);
      ghost var was := out;
      out, stack := PushCallers(callers, seed, q, out, below);
      SweepNext(callers, seed, was, below, q, done, out, stack);
      done := done + {q};
      assert AllCallers(callers) - out <= AllCallers(callers) - was;
      if out != was {
        var p :| p in out && p !in was;
        assert p in AllCallers(callers) - was;
      }
    }
    forall p ensures p in out <==> CallsInto(callers, seed, p) {
      SweepEnd(callers, seed, out, done, p);
    }
  }

  lemma SweepStart(callers: map<nat, set<nat>>, seed: set<nat>, stack: seq<nat>)
    requires forall p :: p in stack <==> p in seed
    ensures Sweeping(callers, seed, {}, stack, {})
  {
  }

  lemma SweepTop(callers: map<nat, set<nat>>, seed: set<nat>, out: set<nat>, below: seq<nat>, q: nat, done: set<nat>)
    requires Sweeping(callers, seed, out, below + [q], done)
    ensures (q in seed || CallsInto(callers, seed, q)) && forall p :: p in out ==> CallsInto(callers, seed, p)
  {
    hide CallsInto, DirectCaller;
    assert q in below + [q];
  }

  lemma SweepEnd(callers: map<nat, set<nat>>, seed: set<nat>, out: set<nat>, done: set<nat>, p: nat)
    requires Sweeping(callers, seed, out, [], done)
    ensures p in out <==> CallsInto(callers, seed, p)
  {
    hide CallsInto, DirectCaller;
    ClosureExact(callers, seed, out, p);
  }

  lemma ClosureExact(callers: map<nat, set<nat>>, seed: set<nat>, out: set<nat>, p: nat)
    requires p in out ==> CallsInto(callers, seed, p)
    requires forall p, q :: DirectCaller(callers, p, q) && (q in seed || q in out) ==> p in out
    ensures p in out <==> CallsInto(callers, seed, p)
  {
    if CallsInto(callers, seed, p) {
      var chain :| CallChain(callers, seed, p, chain);
      ChainInside(callers, seed, p, chain, out);
    }
  }

  ghost function AllCallers(callers: map<nat, set<nat>>): (r: set<nat>) {
    set q, p | q in callers && p in callers[q] :: p
  }

  lemma CallerCounted(callers: map<nat, set<nat>>, q: nat, p: nat)
    requires q in callers && p in callers[q]
    ensures p in AllCallers(callers)
  {
  }

  predicate RanksAscend(s: seq<nat>, rank: map<nat, nat>) {
    && (forall v :: v in s ==> v in rank)
    && forall i, j :: 0 <= i < j < |s| ==> rank[s[i]] <= rank[s[j]]
  }
}
