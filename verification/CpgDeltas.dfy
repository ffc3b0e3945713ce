/** Incremental graph maintenance: which declarations a change affects, and the
    new graph that keeps every other declaration's node ids. */
module CpgDeltas {
  import opened FiniteSets

  datatype DeclNode = DeclNode(id: nat, decl: string)
  datatype DeclEdge = DeclEdge(src: nat, dst: nat, kind: string)
  datatype DeclGraph = DeclGraph(nodes: seq<DeclNode>, edges: seq<DeclEdge>)

  // ----- the affected set

  type Relation = map<string, set<string>>

  predicate Links(r: Relation, a: string, b: string) {
    a in r && b in r[a]
  }

  ghost predicate Walks(r: Relation, p: seq<string>) {
    p != [] && forall i :: 0 <= i < |p| - 1 ==> Links(r, p[i], p[i + 1])
  }

  ghost predicate WalkTo(r: Relation, seeds: set<string>, b: string, p: seq<string>) {
    Walks(r, p) && p[0] in seeds && p[|p| - 1] == b
  }

  /** Reachable from a seed, the seeds included. */
  ghost predicate Within(r: Relation, seeds: set<string>, b: string) {
    exists p :: WalkTo(r, seeds, b, p)
  }

  lemma WithinSeed(r: Relation, seeds: set<string>, b: string)
    requires b in seeds
    ensures Within(r, seeds, b)
  {
    assert WalkTo(r, seeds, b, [b]);
  }

  lemma WithinNext(r: Relation, seeds: set<string>, a: string, b: string)
    requires Within(r, seeds, a) && Links(r, a, b)
    ensures Within(r, seeds, b)
  {
    hide Links;
    var p :| WalkTo(r, seeds, a, p);
    assert WalkTo(r, seeds, b, p + [b]);
  }

  lemma {:induction false} WalkInside(r: Relation, s: set<string>, p: seq<string>, k: nat)
    requires Walks(r, p) && p[0] in s && k < |p| && forall a, b :: a in s && Links(r, a, b) ==> b in s
    ensures p[k] in s
  {
    hide Links;
    if k > 0 {
      WalkInside(r, s, p, k - 1);
      assert Links(r, p[k - 1], p[k - 1 + 1]);
    }
  }

  lemma ClosureExact(r: Relation, seeds: set<string>, s: set<string>, b: string)
    requires seeds <= s && (b in s ==> Within(r, seeds, b)) && forall a, b :: a in s && Links(r, a, b) ==> b in s
    ensures b in s <==> Within(r, seeds, b)
  {
    hide Links;
    if Within(r, seeds, b) {
      var p :| WalkTo(r, seeds, b, p);
      WalkInside(r, s, p, |p| - 1);
    }
  }

  ghost function Targets(r: Relation): (s: set<string>) {
    set a, b | a in r && b in r[a] :: b
  }

  /** Seen holds only reachable names; what is not yet expanded is on the stack. */
  ghost predicate Expanding(r: Relation, seeds: set<string>, seen: set<string>, stack: seq<string>, done: set<string>) {
    && seeds <= seen && (forall b :: b in seen ==> Within(r, seeds, b)) && (forall b :: b in stack ==> b in seen)
    && (forall b :: b in seen ==> b in done || b in stack)
    && (forall a, b :: a in done && Links(r, a, b) ==> b in seen)
  }

  method Listed(s: set<string>) returns (r: seq<string>)
    ensures forall x :: x in r <==> x in s
  {
    r := [];
    var rest := s;
    while rest != {}
      invariant rest <= s && forall x :: x in r <==> x in s - rest
      decreases rest
    {
      var x :| x in rest;
      r, rest := r + [x], rest - {x};
    }
  }

  /** Expand one name: push whatever it links to that was not seen before. */
  method Expand(r: Relation, ghost seeds: set<string>, a: string, before: set<string>, below: seq<string>)
    returns (seen: set<string>, stack: seq<string>)
    requires Within(r, seeds, a) && forall b :: b in before ==> Within(r, seeds, b)
    ensures before <= seen && (forall b :: b in seen ==> Within(r, seeds, b))
    ensures forall b :: Links(r, a, b) ==> b in seen
    ensures seen - before <= Targets(r) && (seen == before ==> stack == below)
    ensures forall b :: b in stack <==> b in below || b in seen - before
  {
    hide Within, Targets;
    seen, stack := before, below;
    var rest := if a in r then r[a] else {};
    while rest != {}
      invariant forall b :: b in rest ==> Links(r, a, b)
      invariant before <= seen && (forall b :: b in seen ==> Within(r, seeds, b))
      invariant forall b :: Links(r, a, b) ==> b in seen || b in rest
      invariant seen - before <= Targets(r) && (seen == before ==> stack == below)
      invariant forall b :: b in stack <==> b in below || b in seen - before
      decreases rest
    {
      var b :| b in rest;
      rest := rest - {b};
      if b !in seen {
        WithinNext(r, seeds, a, b);
        TargetListed(r, a, b);
        seen, stack := seen + {b}, stack + [b];
      }
    }
  }

  lemma TargetListed(r: Relation, a: string, b: string)
    requires Links(r, a, b)
    ensures b in Targets(r)
  {
  }

  lemma ExpandNext(r: Relation, seeds: set<string>, seen: set<string>, below: seq<string>, a: string,
                   done: set<string>, seen': set<string>, stack': seq<string>)
    requires Expanding(r, seeds, seen, below + [a], done) && seen <= seen'
    requires (forall b :: b in seen' ==> Within(r, seeds, b)) && forall b :: Links(r, a, b) ==> b in seen'
    requires forall b :: b in stack' <==> b in below || b in seen' - seen
    ensures Expanding(r, seeds, seen', stack', done + {a})
  {
    hide Within, Links;
    assert forall b :: b in below + [a] <==> b in below || b == a;
  }

  /** The least set that holds the seeds and is closed under the relation. */
  method TransitiveClosure(seeds: set<string>, r: Relation) returns (seen: set<string>)
    ensures forall b :: b in seen <==> Within(r, seeds, b)
  {
    hide Within, Targets, Links, Expanding;
    seen := seeds;
    var stack := Listed(seeds);
    ghost var done: set<string> := {};
    ExpandStart(r, seeds, stack);
    while stack != []
      invariant Expanding(r, seeds, seen, stack, done)
      decreases Targets(r) - seen, |stack|
    {
      var a, below := stack[|stack| - 1], stack[..|stack| - 1];
      assert stack == below + [a];
      ExpandTop(r, seeds, seen, below, a, done);
      ghost var was := seen;
      seen, stack := Expand(r, seeds, a, seen, below);
      ExpandNext(r, seeds, was, below, a, done, seen, stack);
      done := done + {a};
      assert Targets(r) - seen <= Targets(r) - was;
      if seen != was {
        var b :| b in seen && b !in was;
        assert b in Targets(r) - was;
      }
    }
    forall b ensures b in seen <==> Within(r, seeds, b) { ExpandEnd(r, seeds, seen, done, b); }
  }

  lemma ExpandStart(r: Relation, seeds: set<string>, stack: seq<string>)
    requires forall x :: x in stack <==> x in seeds
    ensures Expanding(r, seeds, seeds, stack, {})
  {
    hide Within;
    forall b | b in seeds ensures Within(r, seeds, b) { WithinSeed(r, seeds, b); }
  }

  lemma ExpandTop(r: Relation, seeds: set<string>, seen: set<string>, below: seq<string>, a: string, done: set<string>)
    requires Expanding(r, seeds, seen, below + [a], done)
    ensures Within(r, seeds, a) && forall b :: b in seen ==> Within(r, seeds, b)
  {
    hide Within;
    assert a in below + [a];
  }

  lemma ExpandEnd(r: Relation, seeds: set<string>, seen: set<string>, done: set<string>, b: string)
    requires Expanding(r, seeds, seen, [], done)
    ensures b in seen <==> Within(r, seeds, b)
  {
    hide Within, Links;
    ClosureExact(r, seeds, seen, b);
  }

  datatype View = View(references: Relation, calls: Relation, subtypes: Relation, typeOf: map<string, string>)

  /** A declaration is affected when it changed, refers to a change however
      indirectly, calls a changed one, or belongs to a subtype of a changed type. */
  ghost predicate Affected(changed: set<string>, types: set<string>, g: View, d: string) {
    || Within(g.references, changed, d)
    || (d in g.calls && g.calls[d] * changed != {})
    || (d in g.typeOf && Within(g.subtypes, types, g.typeOf[d]))
  }

  method ComputeAffected(changed: set<string>, types: set<string>, g: View) returns (r: set<string>)
    ensures changed <= r && forall d :: d in r <==> Affected(changed, types, g, d)
  {
    hide Within;
    var referring := TransitiveClosure(changed, g.references);
    var callers := set d | d in g.calls && g.calls[d] * changed != {};
    var cone := TransitiveClosure(types, g.subtypes);
    var subtyped := set d | d in g.typeOf && g.typeOf[d] in cone;
    r := changed + referring + callers + subtyped;
    forall d | d in changed ensures Within(g.references, changed, d) { WithinSeed(g.references, changed, d); }
  }

  // ----- the new graph

  function IdsIn(ns: seq<DeclNode>): (r: set<nat>) {
    set n | n in ns :: n.id
  }

  function Kept(ns: seq<DeclNode>, affected: set<string>): (r: seq<DeclNode>)
    ensures forall n :: n in r <==> n in ns && n.decl !in affected
  {
    if ns == [] then []
    else
      var n := ns[|ns| - 1];
      Kept(ns[..|ns| - 1], affected) + if n.decl in affected then [] else [n]
  }

  function KeptEdges(es: seq<DeclEdge>, ids: set<nat>): (r: seq<DeclEdge>)
    ensures forall e :: e in r <==> e in es && e.src in ids && e.dst in ids
  {
    if es == [] then []
    else
      var e := es[|es| - 1];
      KeptEdges(es[..|es| - 1], ids) + if e.src in ids && e.dst in ids then [e] else []
  }

  function Above(ns: seq<DeclNode>): (r: nat)
    ensures forall n :: n in ns ==> n.id < r
  {
    if ns == [] then 0
    else
      var r, n := Above(ns[..|ns| - 1]), ns[|ns| - 1];
      if n.id < r then r else n.id + 1
  }

  /** The first id a reparse may use after another. */
  function NextBase(sub: DeclGraph, base: nat): (r: nat) {
    if sub.nodes == [] then base else Above(sub.nodes)
  }

  /** The reparsed declarations, each starting above the one before. */
  function Reparsed(reparse: (string, nat) -> DeclGraph, decls: seq<string>, base: nat): (r: DeclGraph)
    decreases decls
  {
    if decls == [] then DeclGraph([], [])
    else
      var sub := reparse(decls[0], base);
      var rest := Reparsed(reparse, decls[1..], NextBase(sub, base));
      DeclGraph(sub.nodes + rest.nodes, sub.edges + rest.edges)
  }

  datatype Delta = Delta(addedNodes: seq<nat>, removedNodes: seq<nat>, addedEdges: seq<DeclEdge>,
    removedEdges: seq<DeclEdge>)
  datatype Build = Collision | Built(graph: DeclGraph, delta: Delta)

  function IdSeq(ns: seq<DeclNode>): (r: seq<nat>)
    ensures |r| == |ns| && forall v :: v in r <==> v in IdsIn(ns)
  {
    if ns == [] then []
    else
      var front := IdSeq(ns[..|ns| - 1]);
      assert forall n :: n in ns <==> n in ns[..|ns| - 1] || n == ns[|ns| - 1];
      front + [ns[|ns| - 1].id]
  }

  function Gone(ns: seq<DeclNode>, ids: set<nat>): (r: seq<nat>)
    ensures forall v :: v in r <==> v in IdsIn(ns) && v !in ids
  {
    if ns == [] then []
    else
      var n := ns[|ns| - 1];
      assert forall m :: m in ns <==> m in ns[..|ns| - 1] || m == n;
      Gone(ns[..|ns| - 1], ids) + if n.id in ids then [] else [n.id]
  }

  function GoneEdges(es: seq<DeclEdge>, kept: set<DeclEdge>): (r: seq<DeclEdge>)
    ensures forall e :: e in r <==> e in es && e !in kept
  {
    if es == [] then []
    else
      var e := es[|es| - 1];
      GoneEdges(es[..|es| - 1], kept) + if e in kept then [] else [e]
  }

  function EdgeSet(es: seq<DeclEdge>): (r: set<DeclEdge>) {
    set e | e in es
  }

  /** The whole outcome as a function of its inputs. */
  function BuildOf(parent: DeclGraph, affected: set<string>, decls: seq<string>, reparse: (string, nat) -> DeclGraph)
    : (r: Build)
  {
    var kept := Kept(parent.nodes, affected);
    var sub := Reparsed(reparse, decls, Above(kept));
    if IdsIn(sub.nodes) * IdsIn(kept) != {} then Collision
    else
      var g := DeclGraph(kept + sub.nodes, KeptEdges(parent.edges, IdsIn(kept)) + sub.edges);
      Built(g,
            Delta(IdSeq(sub.nodes), Gone(parent.nodes, IdsIn(g.nodes)), sub.edges,
                  GoneEdges(parent.edges, EdgeSet(g.edges))))
  }

  function Joined(a: DeclGraph, b: DeclGraph): (r: DeclGraph) {
    DeclGraph(a.nodes + b.nodes, a.edges + b.edges)
  }

  lemma JoinedNext(done: DeclGraph, sub: DeclGraph, rest: DeclGraph)
    ensures Joined(Joined(done, sub), rest) == Joined(done, Joined(sub, rest))
  {
    assert Joined(Joined(done, sub), rest).nodes == Joined(done, Joined(sub, rest)).nodes;
    assert Joined(Joined(done, sub), rest).edges == Joined(done, Joined(sub, rest)).edges;
  }

  lemma ReparsedNext(reparse: (string, nat) -> DeclGraph, decls: seq<string>, i: nat, base: nat)
    requires i < |decls|
    ensures var sub := reparse(decls[i], base);
            Reparsed(reparse, decls[i..], base) == Joined(sub, Reparsed(reparse, decls[i + 1..], NextBase(sub, base)))
  {
    hide NextBase;
    assert decls[i..][1..] == decls[i + 1..];
  }

  lemma ReparsedEnd(reparse: (string, nat) -> DeclGraph, decls: seq<string>, base: nat, done: DeclGraph)
    ensures Joined(done, Reparsed(reparse, decls[|decls|..], base)) == done
    ensures Reparsed(reparse, decls[0..], base) == Reparsed(reparse, decls, base)
  {
    assert decls[0..] == decls && decls[|decls|..] == [];
  }

  /** Reparse one declaration after another; stop at the first id already kept. */
  method ReparseAll(reparse: (string, nat) -> DeclGraph, decls: seq<string>, first: nat, keptIds: set<nat>)
    returns (clash: bool, added: DeclGraph)
    ensures clash <==> IdsIn(Reparsed(reparse, decls, first).nodes) * keptIds != {}
    ensures !clash ==> added == Reparsed(reparse, decls, first)
  {
    hide Reparsed, NextBase, IdsIn, Joined;
    var base := first;
    added := DeclGraph([], []);
    ghost var whole := Reparsed(reparse, decls, first);
    NothingJoined(whole);
    ReparsedEnd(reparse, decls, base, added);
    for i := 0 to |decls|
      invariant Joined(added, Reparsed(reparse, decls[i..], base)) == whole && IdsIn(added.nodes) * keptIds == {}
    {
      var sub := reparse(decls[i], base);
      ReparsedNext(reparse, decls, i, base);
      ghost var rest := Reparsed(reparse, decls[i + 1..], NextBase(sub, base));
      JoinedNext(added, sub, rest);
      JoinedIds(added, Joined(sub, rest));
      JoinedIds(sub, rest);
      JoinedIds(added, sub);
      if IdsIn(sub.nodes) * keptIds != {} {
        var v :| v in IdsIn(sub.nodes) * keptIds;
        assert v in IdsIn(whole.nodes) * keptIds;
        return true, added;
      }
      added := Joined(added, sub);
      base := NextBase(sub, base);
    }
    ReparsedEnd(reparse, decls, base, added);
    clash := false;
  }

  lemma NothingJoined(g: DeclGraph)
    ensures Joined(DeclGraph([], []), g) == g && IdsIn([]) == {}
  {
  }

  lemma JoinedIds(a: DeclGraph, b: DeclGraph)
    ensures IdsIn(Joined(a, b).nodes) == IdsIn(a.nodes) + IdsIn(b.nodes)
  {
    IdsAppend(a.nodes, b.nodes);
  }

  /** `_build_preserving_new_cpg`. A reparsed id already kept is a hard failure. */
  method BuildPreserving(parent: DeclGraph, affected: set<string>, decls: seq<string>,
                         reparse: (string, nat) -> DeclGraph) returns (r: Build)
    ensures r == BuildOf(parent, affected, decls, reparse)
  {
    hide Kept, KeptEdges, Above, Gone, GoneEdges, IdSeq, Reparsed, IdsIn;
    var kept := Kept(parent.nodes, affected);
    var clash, sub := ReparseAll(reparse, decls, Above(kept), IdsIn(kept));
    if clash { return Collision; }
    var g := DeclGraph(kept + sub.nodes, KeptEdges(parent.edges, IdsIn(kept)) + sub.edges);
    r := Built(g,
               Delta(IdSeq(sub.nodes), Gone(parent.nodes, IdsIn(g.nodes)), sub.edges,
                     GoneEdges(parent.edges, EdgeSet(g.edges))));
  }

  lemma IdsAppend(a: seq<DeclNode>, b: seq<DeclNode>)
    ensures IdsIn(a + b) == IdsIn(a) + IdsIn(b)
  {
    assert forall n :: n in a + b <==> n in a || n in b;
  }

  // ----- what the delta says

  /** Old minus removed plus added is new, for nodes and for edges, and nothing is
      both removed and added. */
  lemma DeltaExact(parent: DeclGraph, affected: set<string>, decls: seq<string>, reparse: (string, nat) -> DeclGraph)
    requires BuildOf(parent, affected, decls, reparse).Built?
    ensures var b := BuildOf(parent, affected, decls, reparse);
            && IdsIn(parent.nodes) - Elements(b.delta.removedNodes) + Elements(b.delta.addedNodes) ==
               IdsIn(b.graph.nodes)
            && EdgeSet(parent.edges) - EdgeSet(b.delta.removedEdges) + EdgeSet(b.delta.addedEdges) ==
               EdgeSet(b.graph.edges)
            && Elements(b.delta.removedNodes) !! Elements(b.delta.addedNodes)
            && EdgeSet(b.delta.removedEdges) !! EdgeSet(b.delta.addedEdges)
  {
    hide Reparsed, Above;
    var kept := Kept(parent.nodes, affected);
    var sub := Reparsed(reparse, decls, Above(kept));
    var b := BuildOf(parent, affected, decls, reparse);
    IdsAppend(kept, sub.nodes);
    DeltaNodes(parent, kept, sub.nodes, b);
    DeltaEdges(parent.edges, KeptEdges(parent.edges, IdsIn(kept)), sub.edges, b.delta.removedEdges);
  }

  lemma DeltaNodes(parent: DeclGraph, kept: seq<DeclNode>, added: seq<DeclNode>, b: Build)
    requires b.Built? && b.graph.nodes == kept + added && IdsIn(kept) <= IdsIn(parent.nodes)
    requires b.delta.addedNodes == IdSeq(added) && b.delta.removedNodes == Gone(parent.nodes, IdsIn(b.graph.nodes))
    ensures IdsIn(parent.nodes) - Elements(b.delta.removedNodes) + Elements(b.delta.addedNodes) == IdsIn(b.graph.nodes)
    ensures Elements(b.delta.removedNodes) !! Elements(b.delta.addedNodes)
  {
    hide IdsIn;
    IdsAppend(kept, added);
  }

  lemma DeltaEdges(before: seq<DeclEdge>, kept: seq<DeclEdge>, added: seq<DeclEdge>, removed: seq<DeclEdge>)
    requires (forall e :: e in kept ==> e in before) && removed == GoneEdges(before, EdgeSet(kept + added))
    ensures EdgeSet(before) - EdgeSet(removed) + EdgeSet(added) == EdgeSet(kept + added)
    ensures EdgeSet(removed) !! EdgeSet(added)
  {
    assert EdgeSet(kept + added) == EdgeSet(kept) + EdgeSet(added);
  }

  /** The ids of the parent's nodes that belong to affected declarations. */
  ghost function AffectedIds(ns: seq<DeclNode>, affected: set<string>): (r: set<nat>) {
    set n | n in ns && n.decl in affected :: n.id
  }

  /** The removed ids are exactly the affected ones if and only if no affected id is
      also a kept one or comes back from the reparser. */
  lemma RemovedExactly(parent: DeclGraph, affected: set<string>, decls: seq<string>,
                       reparse: (string, nat) -> DeclGraph)
    requires BuildOf(parent, affected, decls, reparse).Built?
    ensures var b := BuildOf(parent, affected, decls, reparse);
            var ids := AffectedIds(parent.nodes, affected);
            Elements(b.delta.removedNodes) == ids <==>
              ids !! IdsIn(Kept(parent.nodes, affected)) && ids !! Elements(b.delta.addedNodes)
  {
    hide Reparsed, Above, Kept, IdSeq;
    var b, ids := BuildOf(parent, affected, decls, reparse), AffectedIds(parent.nodes, affected);
    IdsAppend(Kept(parent.nodes, affected), Reparsed(reparse, decls, Above(Kept(parent.nodes, affected))).nodes);
    PartedIds(parent.nodes, affected);
    assert Elements(b.delta.removedNodes) == ids - IdsIn(b.graph.nodes);
  }

  lemma {:induction false} PartedIds(ns: seq<DeclNode>, affected: set<string>)
    ensures IdsIn(ns) == IdsIn(Kept(ns, affected)) + AffectedIds(ns, affected)
  {
    if ns != [] {
      PartedIds(ns[..|ns| - 1], affected);
      assert forall n :: n in ns <==> n in ns[..|ns| - 1] || n == ns[|ns| - 1];
      assert AffectedIds(ns, affected) ==
             AffectedIds(ns[..|ns| - 1], affected) + if ns[|ns| - 1].decl in affected then {ns[|ns| - 1].id} else {};
    }
  }

  // ----- ids are kept and never clash

  predicate UniqueIds(ns: seq<DeclNode>) {
    forall i, j :: 0 <= i < j < |ns| ==> ns[i].id != ns[j].id
  }

  /** A reparser that mints distinct ids from its base up, under its own declaration. */
  ghost predicate WellBehaved(reparse: (string, nat) -> DeclGraph) {
    forall d, b {:trigger reparse(d, b)} :: Behaves(reparse(d, b), d, b)
  }

  predicate Behaves(sub: DeclGraph, d: string, b: nat) {
    UniqueIds(sub.nodes) && forall n :: n in sub.nodes ==> n.id >= b && n.decl == d
  }

  lemma {:induction false} AboveAtLeast(ns: seq<DeclNode>, b: nat)
    requires ns != [] && forall n :: n in ns ==> n.id >= b
    ensures Above(ns) >= b
  {
    assert ns[|ns| - 1] in ns;
  }

  lemma JoinUnique(a: seq<DeclNode>, b: seq<DeclNode>, k: nat)
    requires UniqueIds(a) && UniqueIds(b) && (forall n :: n in a ==> n.id < k) && forall n :: n in b ==> n.id >= k
    ensures UniqueIds(a + b)
  {
  }

  lemma {:induction false} ReparsedFresh(reparse: (string, nat) -> DeclGraph, decls: seq<string>, base: nat)
    requires WellBehaved(reparse)
    ensures UniqueIds(Reparsed(reparse, decls, base).nodes)
    ensures forall n :: n in Reparsed(reparse, decls, base).nodes ==> n.id >= base && n.decl in decls
    decreases decls
  {
    hide Above;
    if decls != [] {
      var sub := reparse(decls[0], base);
      assert Behaves(sub, decls[0], base);
      var next := NextBase(sub, base);
      var rest := Reparsed(reparse, decls[1..], next);
      ReparsedFresh(reparse, decls[1..], next);
      if sub.nodes != [] { AboveAtLeast(sub.nodes, base); }
      JoinUnique(sub.nodes, rest.nodes, next);
    }
  }

  lemma {:induction false} KeptUnique(ns: seq<DeclNode>, affected: set<string>)
    requires UniqueIds(ns)
    ensures UniqueIds(Kept(ns, affected))
  {
    if ns != [] {
      var front, last := ns[..|ns| - 1], ns[|ns| - 1];
      KeptUnique(front, affected);
      var k := Kept(front, affected);
      forall n | n in k ensures n.id != last.id {
        assert n in front;
        var i :| 0 <= i < |front| && front[i] == n;
        assert ns[i].id != last.id;
      }
    }
  }

  function DeclIds(ns: seq<DeclNode>, d: string): (r: set<nat>) {
    set n | n in ns && n.decl == d :: n.id
  }

  /** With a well-behaved reparser there is no collision, ids stay unique, and every
      unaffected declaration keeps exactly its ids. */
  lemma UnaffectedKeepIds(parent: DeclGraph, affected: set<string>, decls: seq<string>,
                          reparse: (string, nat) -> DeclGraph, d: string)
    requires UniqueIds(parent.nodes) && WellBehaved(reparse) && (forall x :: x in decls <==> x in affected)
    ensures var b := BuildOf(parent, affected, decls, reparse);
            && b.Built? && UniqueIds(b.graph.nodes)
            && (d !in affected ==> DeclIds(b.graph.nodes, d) == DeclIds(parent.nodes, d))
            && (d in affected ==> DeclIds(b.graph.nodes, d) !! IdsIn(Kept(parent.nodes, affected)))
  {
    hide Above, WellBehaved, Gone, GoneEdges, IdSeq, KeptEdges;
    var kept := Kept(parent.nodes, affected);
    var base := Above(kept);
    var sub := Reparsed(reparse, decls, base);
    hide Reparsed;
    KeptUnique(parent.nodes, affected);
    ReparsedFresh(reparse, decls, base);
    JoinUnique(kept, sub.nodes, base);
    assert forall n :: n in kept + sub.nodes <==> n in kept || n in sub.nodes;
    NoClash(kept, sub.nodes, base);
  }

  lemma NoClash(a: seq<DeclNode>, b: seq<DeclNode>, k: nat)
    requires (forall n :: n in a ==> n.id < k) && forall n :: n in b ==> n.id >= k
    ensures IdsIn(b) * IdsIn(a) == {}
  {
  }

  // ----- read on the graphs

  /** From one of the seeds to `d`, each step to something listed under the last. */
  ghost predicate LeadsTo(r: Relation, seeds: set<string>, d: string, p: seq<string>) {
    && p != [] && p[0] in seeds && p[|p| - 1] == d
    && forall i :: 0 <= i < |p| - 1 ==> p[i] in r && p[i + 1] in r[p[i]]
  }

  lemma WithinIs(r: Relation, seeds: set<string>, d: string)
    ensures Within(r, seeds, d) <==> exists p :: LeadsTo(r, seeds, d, p)
  {
    if p :| WalkTo(r, seeds, d, p) {
      forall i | 0 <= i < |p| - 1 ensures p[i] in r && p[i + 1] in r[p[i]] { assert Links(r, p[i], p[i + 1]); }
      assert LeadsTo(r, seeds, d, p);
    }
    if p :| LeadsTo(r, seeds, d, p) { assert WalkTo(r, seeds, d, p); }
  }

  /** Affected is what refers to a changed declaration through any number of steps, what calls
      one directly, and the members of every type below a changed type. */
  lemma AffectedIs(changed: set<string>, types: set<string>, g: View, d: string)
    ensures Affected(changed, types, g, d) <==>
              || (exists p :: LeadsTo(g.references, changed, d, p))
              || (d in g.calls && exists c :: c in changed && c in g.calls[d])
              || (d in g.typeOf && exists p :: LeadsTo(g.subtypes, types, g.typeOf[d], p))
  {
    hide Within, LeadsTo;
    WithinIs(g.references, changed, d);
    if d in g.typeOf { WithinIs(g.subtypes, types, g.typeOf[d]); }
    if d in g.calls {
      var both := g.calls[d] * changed;
      if c :| c in changed && c in g.calls[d] { assert c in both; }
      if both != {} { var c :| c in both; }
    }
  }

  /** Fresh ids start one above the greatest id so far, or where they started before. */
  lemma {:induction false} AboveIs(ns: seq<DeclNode>)
    ensures ns == [] ==> Above(ns) == 0
    ensures ns != [] ==> exists n :: n in ns && Above(ns) == n.id + 1
    ensures forall n :: n in ns ==> n.id + 1 <= Above(ns)
  {
    if ns != [] {
      var front, last := ns[..|ns| - 1], ns[|ns| - 1];
      AboveIs(front);
      if front == [] || Above(front) <= last.id {
        assert last in ns && Above(ns) == last.id + 1;
      } else {
        var n :| n in front && Above(front) == n.id + 1;
        assert n in ns && Above(ns) == n.id + 1;
      }
    }
  }

  /** The next declaration is parsed above what the last one left. */
  lemma ReparsedIs(reparse: (string, nat) -> DeclGraph, decl: string, rest: seq<string>, base: nat)
    ensures exists next: nat :: GoesOn(reparse(decl, base), base, next)
              && Reparsed(reparse, [decl] + rest, base) == Joined(reparse(decl, base), Reparsed(reparse, rest, next))
  {
    var sub := reparse(decl, base);
    AboveIs(sub.nodes);
    assert GoesOn(sub, base, NextBase(sub, base));
    assert ([decl] + rest)[0] == decl && ([decl] + rest)[1..] == rest;
  }

  /** One above the greatest id just parsed; the same base if nothing was. */
  ghost predicate GoesOn(sub: DeclGraph, base: nat, next: nat) {
    if sub.nodes == [] then next == base
    else (exists n :: n in sub.nodes && next == n.id + 1) && forall n :: n in sub.nodes ==> n.id < next
  }

  ghost predicate KeptNode(parent: DeclGraph, affected: set<string>, v: nat) {
    exists n :: n in parent.nodes && n.id == v && n.decl !in affected
  }

  /** The new graph: unaffected nodes, the edges among them, and what was parsed again from
      above the kept ids; and what the delta lists. */
  lemma BuiltExactly(parent: DeclGraph, affected: set<string>, decls: seq<string>, reparse: (string, nat) -> DeclGraph)
    returns (first: nat)
    requires BuildOf(parent, affected, decls, reparse).Built?
    ensures (forall v: nat :: KeptNode(parent, affected, v) ==> v < first)
    ensures (first > 0 ==> KeptNode(parent, affected, first - 1))
    ensures var b, sub := BuildOf(parent, affected, decls, reparse), Reparsed(reparse, decls, first);
            && (forall n :: n in b.graph.nodes <==> (n in parent.nodes && n.decl !in affected) || n in sub.nodes)
            && (forall e :: e in b.graph.edges <==>
                  || (e in parent.edges && KeptNode(parent, affected, e.src) && KeptNode(parent, affected, e.dst))
                  || e in sub.edges)
            && (forall v :: v in b.delta.addedNodes <==> exists n :: n in sub.nodes && n.id == v)
            && (forall v :: v in b.delta.removedNodes <==>
                  (exists n :: n in parent.nodes && n.id == v) && !exists n :: n in b.graph.nodes && n.id == v)
            && b.delta.addedEdges == sub.edges
            && (forall e :: e in b.delta.removedEdges <==> e in parent.edges && e !in b.graph.edges)
  {
    hide Reparsed, Above;
    var kept := Kept(parent.nodes, affected);
    first := Above(kept);
    AboveIs(kept);
    forall v: nat ensures KeptNode(parent, affected, v) <==> v in IdsIn(kept) { }
    if first > 0 {
      var n :| n in kept && first == n.id + 1;
      assert n in parent.nodes;
    }
  }

  /** A collision is reported exactly if a parsed node has the id of a kept one. */
  lemma CollidesExactly(parent: DeclGraph, affected: set<string>, decls: seq<string>,
                        reparse: (string, nat) -> DeclGraph)
    ensures BuildOf(parent, affected, decls, reparse).Collision? <==>
              exists n :: n in Reparsed(reparse, decls, Above(Kept(parent.nodes, affected))).nodes
                && KeptNode(parent, affected, n.id)
  {
    hide Reparsed, Above;
    var kept := Kept(parent.nodes, affected);
    var sub := Reparsed(reparse, decls, Above(kept)).nodes;
    forall v: nat ensures KeptNode(parent, affected, v) <==> v in IdsIn(kept) { }
    if n :| n in sub && KeptNode(parent, affected, n.id) { assert n.id in IdsIn(sub) * IdsIn(kept); }
    if IdsIn(sub) * IdsIn(kept) != {} { var v :| v in IdsIn(sub) * IdsIn(kept); }
  }
}
