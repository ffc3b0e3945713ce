/** AST ownership: one parent per node, no cycle among parents, formals directly
    below a METHOD, and the memoised nearest enclosing METHOD of every node. */
module Ownership {
  import opened FiniteSets

  datatype Maybe = Nobody | Just(id: nat)

  // ----- chains of parents

  /** The `n`-th ancestor, if the chain is that long. */
  function Up(parents: map<nat, nat>, v: nat, n: nat): (r: Maybe)
    decreases n
  {
    if n == 0 then Just(v) else if v in parents then Up(parents, parents[v], n - 1) else Nobody
  }

  /** Some node is its own proper ancestor. */
  ghost predicate Cyclic(parents: map<nat, nat>) {
    exists v, n :: Returns(parents, v, n)
  }

  predicate Returns(parents: map<nat, nat>, v: nat, n: nat) {
    n > 0 && Up(parents, v, n) == Just(v)
  }

  /** The chain above a node comes to an end. */
  ghost predicate Grounded(parents: map<nat, nat>, v: nat) {
    exists n :: Up(parents, v, n) == Nobody
  }

  lemma {:induction false} UpAdd(parents: map<nat, nat>, v: nat, m: nat, n: nat)
    requires Up(parents, v, m).Just?
    ensures Up(parents, v, m + n) == Up(parents, Up(parents, v, m).id, n)
    decreases m
  {
    if m > 0 { UpAdd(parents, parents[v], m - 1, n); }
  }

  lemma {:induction false} UpStaysNobody(parents: map<nat, nat>, v: nat, m: nat, n: nat)
    requires Up(parents, v, m) == Nobody && m <= n
    ensures Up(parents, v, n) == Nobody
    decreases m
  {
    if m > 0 && v in parents { UpStaysNobody(parents, parents[v], m - 1, n - 1); }
  }

  /** A node that returns to itself is above itself at arbitrarily large distances. */
  lemma {:induction false} ReturnsForever(parents: map<nat, nat>, v: nat, n: nat, k: nat)
    requires Returns(parents, v, n)
    ensures Up(parents, v, n * k) == Just(v)
  {
    if k > 0 {
      ReturnsForever(parents, v, n, k - 1);
      UpAdd(parents, v, n * (k - 1), n);
      assert n * (k - 1) + n == n * k;
    } else {
      assert n * 0 == 0;
    }
  }

  lemma GroundedNotCyclic(parents: map<nat, nat>, v: nat, n: nat)
    requires Grounded(parents, v)
    ensures !Returns(parents, v, n)
  {
    if Returns(parents, v, n) {
      var m: nat :| Up(parents, v, m) == Nobody;
      ReturnsForever(parents, v, n, m);
      assert n * m >= m;
      UpStaysNobody(parents, v, m, n * m);
    }
  }

  lemma GroundedBelow(parents: map<nat, nat>, v: nat)
    requires v in parents
    ensures Grounded(parents, v) <==> Grounded(parents, parents[v])
  {
    if Grounded(parents, v) {
      var n: nat :| Up(parents, v, n) == Nobody;
      assert Up(parents, parents[v], n - 1) == Nobody;
    }
    if Grounded(parents, parents[v]) {
      var n: nat :| Up(parents, parents[v], n) == Nobody;
      assert Up(parents, v, n + 1) == Nobody;
    }
  }

  lemma RootGrounded(parents: map<nat, nat>, v: nat)
    requires v !in parents
    ensures Grounded(parents, v)
  {
    assert Up(parents, v, 1) == Nobody;
  }

  // ----- the cycle scan

  /** The trail is the chain of parents from its first node to the cursor. */
  ghost predicate Climbs(parents: map<nat, nat>, path: seq<nat>, cursor: nat) {
    && (forall i :: 0 <= i < |path| ==> path[i] in parents)
    && (forall i :: 0 <= i < |path| - 1 ==> parents[path[i]] == path[i + 1])
    && (path != [] ==> parents[path[|path| - 1]] == cursor)
  }

  lemma {:induction false} ClimbsUp(parents: map<nat, nat>, path: seq<nat>, cursor: nat, k: nat)
    requires Climbs(parents, path, cursor) && k < |path|
    ensures Up(parents, path[k], |path| - k) == Just(cursor)
    decreases |path| - k
  {
    if k < |path| - 1 {
      ClimbsUp(parents, path, cursor, k + 1);
      assert parents[path[k]] == path[k + 1];
    } else {
      assert Up(parents, cursor, 0) == Just(cursor);
    }
  }

  lemma TrailMeetsItself(parents: map<nat, nat>, path: seq<nat>, cursor: nat)
    requires Climbs(parents, path, cursor) && cursor in path
    ensures Cyclic(parents)
  {
    var k :| 0 <= k < |path| && path[k] == cursor;
    ClimbsUp(parents, path, cursor, k);
    assert Returns(parents, cursor, |path| - k);
  }

  lemma {:induction false} TrailGrounded(parents: map<nat, nat>, path: seq<nat>, cursor: nat, k: nat)
    requires Climbs(parents, path, cursor) && Grounded(parents, cursor) && k < |path|
    ensures Grounded(parents, path[k])
    decreases |path| - k
  {
    if k < |path| - 1 { TrailGrounded(parents, path, cursor, k + 1); }
    assert parents[path[k]] == if k < |path| - 1 then path[k + 1] else cursor;
    GroundedBelow(parents, path[k]);
  }

  /** One climb: up to a root, a node already checked, or a node met before. */
  method Climb(parents: map<nat, nat>, start: nat, checked: set<nat>) returns (ok: bool, trail: set<nat>)
    requires forall v :: v in checked ==> Grounded(parents, v)
    ensures ok ==> start in parents ==> start in checked || start in trail
    ensures ok ==> trail !! checked && trail <= parents.Keys && forall v :: v in trail ==> Grounded(parents, v)
    ensures !ok ==> Cyclic(parents)
  {
    hide Grounded, Cyclic;
    trail := {};
    var cursor := start;
    ghost var path: seq<nat> := [];
    while cursor in parents && cursor !in checked
      invariant Climbs(parents, path, cursor) && Elements(path) == trail && trail <= parents.Keys && trail !! checked
      invariant path == [] ==> cursor == start
      invariant path != [] ==> start in trail
      decreases parents.Keys - trail
    {
      if cursor in trail {
        assert cursor in Elements(path);
        TrailMeetsItself(parents, path, cursor);
        return false, trail;
      }
      assert cursor in parents.Keys - trail;
      trail, path := trail + {cursor}, path + [cursor];
      cursor := parents[cursor];
    }
    if cursor !in parents { RootGrounded(parents, cursor); }
    forall v | v in trail ensures Grounded(parents, v) {
      assert v in Elements(path);
      var k :| 0 <= k < |path| && path[k] == v;
      TrailGrounded(parents, path, cursor, k);
    }
    ok := true;
  }

  /** The scan accepts exactly the parent maps without a cycle, and no node joins
      two trails: the trails together hold at most one entry per node. */
  method Scan(parents: map<nat, nat>, order: seq<nat>) returns (ok: bool, ghost climbed: nat)
    requires Elements(order) == parents.Keys
    ensures ok <==> !Cyclic(parents)
    ensures climbed <= |parents|
  {
    hide Grounded, Cyclic, Elements;
    var checked: set<nat> := {};
    climbed := 0;
    for i := 0 to |order|
      invariant checked <= parents.Keys && climbed == |checked|
      invariant forall v :: v in checked ==> Grounded(parents, v)
      invariant forall k :: 0 <= k < i ==> order[k] in checked
    {
      var fine, trail := Climb(parents, order[i], checked);
      if !fine {
        Bounded(checked, parents.Keys);
        return false, climbed;
      }
      OrderIsKeys(parents, order, i);
      climbed := climbed + |trail|;
      DisjointSize(checked, trail);
      checked := checked + trail;
    }
    ok := true;
    AllChecked(parents, order, checked);
    Bounded(checked, parents.Keys);
  }

  lemma DisjointSize(a: set<nat>, b: set<nat>)
    requires a !! b
    ensures |a + b| == |a| + |b|
  {
  }

  lemma {:induction false} Bounded(a: set<nat>, b: set<nat>)
    requires a <= b
    ensures |a| <= |b|
  {
    DisjointSize(a, b - a);
    assert a + (b - a) == b;
  }

  lemma OrderIsKeys(parents: map<nat, nat>, order: seq<nat>, i: nat)
    requires Elements(order) == parents.Keys && i < |order|
    ensures order[i] in parents
  {
    assert order[i] in Elements(order);
  }

  lemma AllChecked(parents: map<nat, nat>, order: seq<nat>, checked: set<nat>)
    requires Elements(order) == parents.Keys && (forall k :: 0 <= k < |order| ==> order[k] in checked)
    requires forall v :: v in checked ==> Grounded(parents, v)
    ensures !Cyclic(parents)
  {
    hide Grounded;
    forall v, n ensures !Returns(parents, v, n) {
      if v in parents {
        assert v in Elements(order);
        GroundedNotCyclic(parents, v, n);
      }
    }
  }

  lemma AcyclicGrounded(parents: map<nat, nat>, v: nat)
    requires !Cyclic(parents)
    ensures Grounded(parents, v)
  {
    if !Grounded(parents, v) {
      forall n ensures Up(parents, v, n).Just? { assert Up(parents, v, n) != Nobody; }
      var path := LongChain(parents, v, |parents| + 1);
      Pigeonhole(parents, v, path);
    }
  }

  /** A chain that never ends visits arbitrarily many parents. */
  lemma {:induction false} LongChain(parents: map<nat, nat>, v: nat, n: nat) returns (path: seq<nat>)
    requires forall k :: Up(parents, v, k).Just?
    ensures |path| == n && Climbs(parents, path, Up(parents, v, n).id) && (n > 0 ==> path[0] == v)
  {
    if n == 0 {
      path := [];
    } else {
      path := LongChain(parents, v, n - 1);
      var last := Up(parents, v, n - 1).id;
      UpAdd(parents, v, n - 1, 1);
      assert Up(parents, v, n).Just?;
      assert Up(parents, last, 1) == if last in parents then Up(parents, parents[last], 0) else Nobody;
      path := path + [last];
    }
  }

  lemma Pigeonhole(parents: map<nat, nat>, v: nat, path: seq<nat>)
    requires |path| > |parents| && path != []
    requires exists cursor :: Climbs(parents, path, cursor)
    ensures Cyclic(parents)
  {
    var cursor :| Climbs(parents, path, cursor);
    assert |parents| == |parents.Keys|;
    if forall i, j :: 0 <= i < j < |path| ==> path[i] != path[j] { DistinctFits(path, parents.Keys); }
    var i, j :| 0 <= i < j < |path| && path[i] == path[j];
    var part := path[..j];
    assert Climbs(parents, part, path[j]);
    assert part[i] == path[j];
    TrailMeetsItself(parents, part, path[j]);
  }

  lemma DistinctFits(path: seq<nat>, s: set<nat>)
    requires (forall i, j :: 0 <= i < j < |path| ==> path[i] != path[j]) && forall i :: 0 <= i < |path| ==> path[i] in s
    ensures |path| <= |s|
  {
    DistinctMembers(path);
    Bounded(Elements(path), s);
  }

  lemma {:induction false} DistinctMembers(s: seq<nat>)
    requires forall i, j :: 0 <= i < j < |s| ==> s[i] != s[j]
    ensures |Elements(s)| == |s|
  {
    if s != [] {
      DistinctMembers(s[1..]);
      assert Elements(s) == Elements(s[1..]) + {s[0]};
      assert s[0] !in Elements(s[1..]);
    }
  }

  // ----- the nearest enclosing METHOD

  ghost function Least(parents: map<nat, nat>, v: nat, n: nat): (k: nat)
    requires Up(parents, v, n) == Nobody
    ensures k <= n && Up(parents, v, k) == Nobody
    ensures forall j :: 0 <= j < k ==> Up(parents, v, j).Just?
  {
    if n > 0 && Up(parents, v, n - 1) == Nobody then Least(parents, v, n - 1)
    else
      assert forall j :: 0 <= j < n ==> Up(parents, v, j).Just? by {
        forall j | 0 <= j < n ensures Up(parents, v, j).Just? {
          if Up(parents, v, j) == Nobody { UpStaysNobody(parents, v, j, n - 1); }
        }
      }
      n
  }

  /** The length of the chain above a node. */
  ghost function Height(parents: map<nat, nat>, v: nat): (k: nat)
    requires Grounded(parents, v)
    ensures Up(parents, v, k) == Nobody && forall j :: 0 <= j < k ==> Up(parents, v, j).Just?
  {
    var n: nat :| Up(parents, v, n) == Nobody;
    Least(parents, v, n)
  }

  lemma HeightFalls(parents: map<nat, nat>, v: nat)
    requires Grounded(parents, v) && v in parents
    ensures Grounded(parents, parents[v]) && Height(parents, parents[v]) < Height(parents, v)
  {
    GroundedBelow(parents, v);
    var k := Height(parents, v);
    assert Up(parents, v, k) == Nobody && k > 0;
    assert Up(parents, parents[v], k - 1) == Nobody;
    var j := Height(parents, parents[v]);
    assert forall i :: 0 <= i < j ==> Up(parents, parents[v], i).Just?;
  }

  /** The node itself if it is a METHOD, else the owner of its parent. */
  ghost function Owner(parents: map<nat, nat>, methods: set<nat>, v: nat): (r: Maybe)
    requires Grounded(parents, v)
    decreases Height(parents, v)
  {
    if v in methods then Just(v)
    else if v !in parents then Nobody
    else
      HeightFalls(parents, v);
      Owner(parents, methods, parents[v])
  }

  ghost predicate Owned(parents: map<nat, nat>, methods: set<nat>, owners: map<nat, Maybe>) {
    forall v :: v in owners ==> Grounded(parents, v) && owners[v] == Owner(parents, methods, v)
  }

  ghost predicate SameOwner(parents: map<nat, nat>, methods: set<nat>, v: nat, w: nat) {
    Grounded(parents, v) && Grounded(parents, w) && Owner(parents, methods, v) == Owner(parents, methods, w)
  }

  lemma OwnerOfParent(parents: map<nat, nat>, methods: set<nat>, v: nat)
    requires !Cyclic(parents) && v !in methods && v in parents
    ensures SameOwner(parents, methods, v, parents[v])
  {
    hide Cyclic;
    AcyclicGrounded(parents, v);
    HeightFalls(parents, v);
  }

  /** Nodes below the cursor, still without an owner, that share its owner. */
  ghost predicate Waiting(parents: map<nat, nat>, methods: set<nat>, nodes: set<nat>, known: set<nat>,
                          trail: seq<nat>, cursor: nat) {
    && cursor in nodes && Grounded(parents, cursor)
    && (forall i, j :: 0 <= i < j < |trail| ==> trail[i] != trail[j])
    && (forall v :: v in trail ==> v in nodes && v !in known && Lower(parents, methods, v, cursor))
  }

  /** Parents are nodes. */
  ghost predicate Within(parents: map<nat, nat>, nodes: set<nat>) {
    forall v :: v in parents ==> parents[v] in nodes
  }

  ghost predicate Lower(parents: map<nat, nat>, methods: set<nat>, v: nat, w: nat) {
    SameOwner(parents, methods, v, w) && Height(parents, w) < Height(parents, v)
  }

  lemma WaitingNext(parents: map<nat, nat>, methods: set<nat>, nodes: set<nat>, known: set<nat>, trail: seq<nat>,
                    cursor: nat)
    requires Waiting(parents, methods, nodes, known, trail, cursor) && !Cyclic(parents)
    requires cursor !in known && cursor !in methods && cursor in parents && Within(parents, nodes)
    ensures Waiting(parents, methods, nodes, known, trail + [cursor], parents[cursor])
    ensures parents[cursor] in nodes && Grounded(parents, parents[cursor]) && Grounded(parents, cursor)
    ensures Height(parents, parents[cursor]) < Height(parents, cursor)
  {
    hide Cyclic, Grounded;
    OwnerOfParent(parents, methods, cursor);
    HeightFalls(parents, cursor);
    forall v | v in trail + [cursor] ensures v in nodes && v !in known && Lower(parents, methods, v, parents[cursor]) {
      if v in trail { assert Lower(parents, methods, v, cursor); }
    }
    assert cursor in trail ==> Lower(parents, methods, cursor, cursor);
  }

  lemma OwnedMore(parents: map<nat, nat>, methods: set<nat>, owners: map<nat, Maybe>, v: nat, w: nat)
    requires Owned(parents, methods, owners) && w in owners && SameOwner(parents, methods, v, w)
    ensures Owned(parents, methods, owners[v := owners[w]])
  {
    hide Grounded;
  }

  lemma OwnedTop(parents: map<nat, nat>, methods: set<nat>, owners: map<nat, Maybe>, v: nat)
    requires Owned(parents, methods, owners) && Grounded(parents, v) && (v in methods || v !in parents)
    ensures Owned(parents, methods, owners[v := if v in methods then Just(v) else Nobody])
  {
    hide Grounded;
  }

  /** One node: climb to the first known owner, then hand it to the whole trail. */
  method OwnerTrail(parents: map<nat, nat>, methods: set<nat>, ghost nodes: set<nat>, start: nat,
                    known: map<nat, Maybe>)
    returns (owners: map<nat, Maybe>, ghost climbed: nat)
    requires !Cyclic(parents) && Owned(parents, methods, known) && known.Keys <= nodes && start in nodes
    requires Within(parents, nodes)
    ensures Owned(parents, methods, owners) && start in owners && known.Keys <= owners.Keys <= nodes
    ensures climbed <= |owners| - |known|
  {
    hide Cyclic, Grounded, Owned, Waiting, Within, Handed;
    owners := known;
    var cursor := start;
    var trail: seq<nat> := [];
    WaitingStart(parents, methods, nodes, known.Keys, cursor);
    while cursor !in owners
      invariant owners == known && Waiting(parents, methods, nodes, known.Keys, trail, cursor)
      invariant start == cursor || start in trail
      invariant Grounded(parents, cursor) && cursor in nodes
      decreases Height(parents, cursor)
    {
      if cursor in methods {
        OwnedTop(parents, methods, owners, cursor);
        owners := owners[cursor := Just(cursor)];
        break;
      }
      trail := trail + [cursor];
      if cursor !in parents {
        OwnedTop(parents, methods, owners, cursor);
        RootHanded(parents, methods, nodes, known.Keys, trail[..|trail| - 1], cursor);
        owners := owners[cursor := Nobody];
        break;
      }
      WaitingNext(parents, methods, nodes, known.Keys, trail[..|trail| - 1], cursor);
      cursor := parents[cursor];
    }
    climbed := |trail|;
    if Waiting(parents, methods, nodes, known.Keys, trail, cursor) {
      WaitingHanded(parents, methods, nodes, known.Keys, trail, cursor);
    }
    TrailSize(parents, methods, nodes, known.Keys, trail, cursor);
    owners := HandDown(parents, methods, owners, trail, cursor);
    GrownSize(known, owners, trail);
  }

  lemma WaitingStart(parents: map<nat, nat>, methods: set<nat>, nodes: set<nat>, known: set<nat>, cursor: nat)
    requires !Cyclic(parents) && cursor in nodes
    ensures Waiting(parents, methods, nodes, known, [], cursor) && Grounded(parents, cursor)
  {
    AcyclicGrounded(parents, cursor);
  }

  /** What the trail holds when its owner is known. */
  ghost predicate Handed(parents: map<nat, nat>, methods: set<nat>, nodes: set<nat>, known: set<nat>, trail: seq<nat>,
                         cursor: nat) {
    && (forall i, j :: 0 <= i < j < |trail| ==> trail[i] != trail[j])
    && (forall v :: v in trail ==> v in nodes && v !in known && SameOwner(parents, methods, v, cursor))
  }

  lemma WaitingHanded(parents: map<nat, nat>, methods: set<nat>, nodes: set<nat>, known: set<nat>, trail: seq<nat>,
                      cursor: nat)
    requires Waiting(parents, methods, nodes, known, trail, cursor)
    ensures Handed(parents, methods, nodes, known, trail, cursor)
  {
    hide SameOwner;
    forall v | v in trail ensures SameOwner(parents, methods, v, cursor) { assert Lower(parents, methods, v, cursor); }
  }

  lemma RootHanded(parents: map<nat, nat>, methods: set<nat>, nodes: set<nat>, known: set<nat>, trail: seq<nat>,
                   cursor: nat)
    requires Waiting(parents, methods, nodes, known, trail, cursor) && cursor !in known
    ensures Handed(parents, methods, nodes, known, trail + [cursor], cursor)
  {
    hide Grounded;
    WaitingHanded(parents, methods, nodes, known, trail, cursor);
    assert cursor in trail ==> Lower(parents, methods, cursor, cursor);
  }

  lemma TrailSize(parents: map<nat, nat>, methods: set<nat>, nodes: set<nat>, known: set<nat>, trail: seq<nat>,
                  cursor: nat)
    requires Handed(parents, methods, nodes, known, trail, cursor)
    ensures |Elements(trail) + known| == |trail| + |known| && Elements(trail) <= nodes
    ensures forall v :: v in trail ==> SameOwner(parents, methods, v, cursor)
  {
    hide SameOwner;
    DistinctMembers(trail);
    DisjointSize(Elements(trail), known);
  }

  lemma GrownSize(known: map<nat, Maybe>, owners: map<nat, Maybe>, trail: seq<nat>)
    requires known.Keys <= owners.Keys && (forall v :: v in trail ==> v in owners)
    requires |Elements(trail) + known.Keys| == |trail| + |known.Keys|
    ensures |trail| <= |owners| - |known|
  {
    Bounded(Elements(trail) + known.Keys, owners.Keys);
    assert |known| == |known.Keys| && |owners| == |owners.Keys|;
  }

  method HandDown(ghost parents: map<nat, nat>, ghost methods: set<nat>, before: map<nat, Maybe>, trail: seq<nat>,
                  cursor: nat)
    returns (owners: map<nat, Maybe>)
    requires Owned(parents, methods, before) && cursor in before
    requires forall v :: v in trail ==> SameOwner(parents, methods, v, cursor)
    ensures Owned(parents, methods, owners) && owners.Keys == before.Keys + Elements(trail)
  {
    hide Owned, SameOwner;
    owners := before;
    var owner := owners[cursor];
    for i := 0 to |trail|
      invariant Owned(parents, methods, owners) && owners.Keys == before.Keys + Elements(trail[..i])
      invariant cursor in owners && owners[cursor] == owner
    {
      OwnedMore(parents, methods, owners, trail[i], cursor);
      assert trail[..i + 1] == trail[..i] + [trail[i]];
      owners := owners[trail[i] := owner];
    }
    assert trail[..|trail|] == trail;
  }

  /** The memoised owner map is the recursive one, in linear total work. */
  method Owners(nodes: seq<nat>, methods: set<nat>, parents: map<nat, nat>)
    returns (owners: map<nat, Maybe>, ghost climbed: nat)
    requires !Cyclic(parents) && Within(parents, Elements(nodes))
    ensures owners.Keys == Elements(nodes)
    ensures forall v :: v in owners ==> Grounded(parents, v) && owners[v] == Owner(parents, methods, v)
    ensures climbed <= |Elements(nodes)|
  {
    hide Cyclic, Grounded, Elements, Within, Owned;
    assert Owned(parents, methods, map[]) by { NoneOwned(parents, methods); }
    owners, climbed := map[], 0;
    for i := 0 to |nodes|
      invariant Owned(parents, methods, owners) && owners.Keys <= Elements(nodes) && climbed <= |owners|
      invariant forall k :: 0 <= k < i ==> nodes[k] in owners
    {
      assert nodes[i] in Elements(nodes) by { ListedMember(nodes, i); }
      ghost var more;
      owners, more := OwnerTrail(parents, methods, Elements(nodes), nodes[i], owners);
      climbed := climbed + more;
    }
    AllListed(nodes, owners.Keys);
    assert |owners| == |owners.Keys|;
    OwnedMeans(parents, methods, owners);
  }

  lemma OwnedMeans(parents: map<nat, nat>, methods: set<nat>, owners: map<nat, Maybe>)
    requires Owned(parents, methods, owners)
    ensures forall v :: v in owners ==> Grounded(parents, v) && owners[v] == Owner(parents, methods, v)
  {
    hide Grounded;
  }

  lemma NoneOwned(parents: map<nat, nat>, methods: set<nat>)
    ensures Owned(parents, methods, map[])
  {
  }

  lemma ListedMember(s: seq<nat>, i: nat)
    requires i < |s|
    ensures s[i] in Elements(s)
  {
  }

  lemma AllListed(s: seq<nat>, t: set<nat>)
    requires t <= Elements(s) && forall k :: 0 <= k < |s| ==> s[k] in t
    ensures t == Elements(s)
  {
  }

  // ----- reading parents off the edges, and who must own what

  datatype AstEdge = AstEdge(parent: nat, child: nat)

  /** A child listed under two different parents is refused. */
  ghost predicate OneParent(es: seq<AstEdge>) {
    forall d, e :: d in es && e in es && d.child == e.child ==> d.parent == e.parent
  }

  ghost predicate ParentsOf(es: seq<AstEdge>, parents: map<nat, nat>) {
    && (forall e :: e in es ==> e.child in parents && parents[e.child] == e.parent)
    && (forall v :: v in parents ==> AstEdge(parents[v], v) in es)
  }

  method CollectParents(es: seq<AstEdge>) returns (ok: bool, parents: map<nat, nat>)
    ensures ok <==> OneParent(es)
    ensures ok ==> ParentsOf(es, parents)
  {
    parents := map[];
    for i := 0 to |es|
      invariant ParentsOf(es[..i], parents)
    {
      var e := es[i];
      assert es[..i + 1] == es[..i] + [e];
      if e.child in parents && parents[e.child] != e.parent {
        assert AstEdge(parents[e.child], e.child) in es && e in es;
        return false, parents;
      }
      parents := parents[e.child := e.parent];
    }
    assert es[..|es|] == es;
    ok := true;
  }

  datatype Kind = Method | Formal | Return | OtherKind
  datatype Link = Link(input: nat, output: nat)

  predicate DirectlyOwned(kinds: map<nat, Kind>, parents: map<nat, nat>, v: nat) {
    v in parents && parents[v] in kinds && kinds[parents[v]] == Method
  }

  method ValidateOwnership(kinds: map<nat, Kind>, parents: map<nat, nat>, order: seq<nat>, links: seq<Link>)
    returns (ok: bool)
    requires Elements(order) == parents.Keys
    requires forall l :: l in links ==>
               l.input in kinds && kinds[l.input] == Formal && l.output in kinds && kinds[l.output] == Formal
    ensures ok <==> !Cyclic(parents) && FormalsOwned(kinds, parents) && LinksShare(parents, links)
  {
    hide Cyclic, Elements;
    var fine, climbed := Scan(parents, order);
    if !fine { return false; }
    var rest := kinds.Keys;
    while rest != {}
      invariant rest <= kinds.Keys && forall v :: v in kinds.Keys - rest ==> Placed(kinds, parents, v)
      decreases rest
    {
      var v :| v in rest;
      if !Placed(kinds, parents, v) { return false; }
      rest := rest - {v};
    }
    for i := 0 to |links|
      invariant forall k :: 0 <= k < i ==> Shares(parents, links[k])
    {
      assert links[i] in links;
      assert Placed(kinds, parents, links[i].input) && Placed(kinds, parents, links[i].output);
      if parents[links[i].input] != parents[links[i].output] { return false; }
    }
    ok := true;
  }

  predicate Placed(kinds: map<nat, Kind>, parents: map<nat, nat>, v: nat)
    requires v in kinds
  {
    kinds[v] == Formal || kinds[v] == Return ==> DirectlyOwned(kinds, parents, v)
  }

  /** Formals and returns hang directly below a METHOD. */
  ghost predicate FormalsOwned(kinds: map<nat, Kind>, parents: map<nat, nat>) {
    forall v :: v in kinds ==> Placed(kinds, parents, v)
  }

  predicate Shares(parents: map<nat, nat>, l: Link) {
    l.input in parents && l.output in parents && parents[l.input] == parents[l.output]
  }

  ghost predicate LinksShare(parents: map<nat, nat>, links: seq<Link>) {
    forall l :: l in links ==> Shares(parents, l)
  }

  ghost function MethodsAmong(kinds: map<nat, Kind>): (r: set<nat>) {
    set v | v in kinds && kinds[v] == Method
  }

  /** On an accepted graph the owner of a formal or return is the METHOD right
      above it, and linked formals have one owner. */
  lemma FormalOwner(kinds: map<nat, Kind>, parents: map<nat, nat>, links: seq<Link>, l: Link)
    requires !Cyclic(parents) && FormalsOwned(kinds, parents) && LinksShare(parents, links) && l in links
    requires l.input in kinds && kinds[l.input] == Formal && l.output in kinds && kinds[l.output] == Formal
    ensures Grounded(parents, l.input) && Grounded(parents, l.output) && l.input in parents
    ensures Owner(parents, MethodsAmong(kinds), l.input) == Just(parents[l.input])
    ensures Owner(parents, MethodsAmong(kinds), l.output) == Owner(parents, MethodsAmong(kinds), l.input)
  {
    hide Cyclic, Grounded;
    assert Placed(kinds, parents, l.input) && Placed(kinds, parents, l.output);
    assert Shares(parents, l);
    DirectOwner(kinds, parents, l.input);
    DirectOwner(kinds, parents, l.output);
  }

  lemma DirectOwner(kinds: map<nat, Kind>, parents: map<nat, nat>, v: nat)
    requires !Cyclic(parents) && v in kinds && kinds[v] != Method && DirectlyOwned(kinds, parents, v)
    ensures Grounded(parents, v) && Owner(parents, MethodsAmong(kinds), v) == Just(parents[v])
  {
    hide Cyclic, Grounded;
    OwnerOfParent(parents, MethodsAmong(kinds), v);
  }

  // ----- on the chain of parents

  /** Each node of the path is followed by its parent. */
  ghost predicate Line(parents: map<nat, nat>, path: seq<nat>, v: nat, w: nat) {
    && path != [] && path[0] == v && path[|path| - 1] == w
    && forall i :: 0 <= i < |path| - 1 ==> path[i] in parents && parents[path[i]] == path[i + 1]
  }

  lemma {:induction false} LineUp(parents: map<nat, nat>, path: seq<nat>, v: nat, w: nat)
    requires Line(parents, path, v, w)
    ensures Up(parents, v, |path| - 1) == Just(w)
  {
    if |path| > 1 {
      assert parents[path[0]] == path[0 + 1];
      LineUp(parents, path[1..], path[1], w);
    }
  }

  lemma {:induction false} UpLine(parents: map<nat, nat>, v: nat, n: nat) returns (path: seq<nat>)
    requires Up(parents, v, n).Just?
    ensures |path| == n + 1 && Line(parents, path, v, Up(parents, v, n).id)
    decreases n
  {
    if n == 0 {
      path := [v];
    } else {
      path := UpLine(parents, parents[v], n - 1);
      path := [v] + path;
    }
  }

  /** A cycle is a node that is its own ancestor. */
  lemma CyclicExactly(parents: map<nat, nat>)
    ensures Cyclic(parents) <==> exists path, v :: |path| >= 2 && Line(parents, path, v, v)
  {
    hide Up, Line;
    if v, n :| Returns(parents, v, n) { var path := UpLine(parents, v, n); }
    if path, v :| |path| >= 2 && Line(parents, path, v, v) {
      LineUp(parents, path, v, v);
      assert Returns(parents, v, |path| - 1);
    }
  }

  /** The first METHOD on the way up. */
  ghost predicate FirstMethod(parents: map<nat, nat>, methods: set<nat>, path: seq<nat>, v: nat, p: nat) {
    Line(parents, path, v, p) && p in methods && forall i :: 0 <= i < |path| - 1 ==> path[i] !in methods
  }

  lemma {:induction false} FirstOwns(parents: map<nat, nat>, methods: set<nat>, path: seq<nat>, v: nat, p: nat)
    requires Grounded(parents, v) && FirstMethod(parents, methods, path, v, p)
    ensures Owner(parents, methods, v) == Just(p)
    decreases |path|
  {
    hide Grounded;
    if |path| > 1 {
      assert path[0] in parents && parents[path[0]] == path[0 + 1];
      HeightFalls(parents, v);
      FirstOwns(parents, methods, path[1..], path[1], p);
    }
  }

  lemma {:induction false} OwnerFirst(parents: map<nat, nat>, methods: set<nat>, v: nat) returns (path: seq<nat>)
    requires Grounded(parents, v) && Owner(parents, methods, v).Just?
    ensures FirstMethod(parents, methods, path, v, Owner(parents, methods, v).id)
    decreases Height(parents, v)
  {
    hide Grounded, Height;
    if v in methods {
      path := [v];
    } else {
      HeightFalls(parents, v);
      path := OwnerFirst(parents, methods, parents[v]);
      path := [v] + path;
    }
  }

  /** The owner of a node is the first METHOD on its way up, itself included; there is none
      exactly if no METHOD stands there. */
  lemma OwnerExactly(parents: map<nat, nat>, methods: set<nat>, v: nat, p: nat)
    requires Grounded(parents, v)
    ensures Owner(parents, methods, v) == Just(p) <==> exists path :: FirstMethod(parents, methods, path, v, p)
  {
    hide Grounded, Owner, FirstMethod;
    if Owner(parents, methods, v) == Just(p) { var path := OwnerFirst(parents, methods, v); }
    if path :| FirstMethod(parents, methods, path, v, p) { FirstOwns(parents, methods, path, v, p); }
  }

  /** The three rules: nobody is their own ancestor, formals and returns hang directly below a
      METHOD, linked formals below the same one. */
  lemma RulesAre(kinds: map<nat, Kind>, parents: map<nat, nat>, links: seq<Link>)
    ensures !Cyclic(parents) && FormalsOwned(kinds, parents) && LinksShare(parents, links) <==>
              && (forall path, v :: |path| >= 2 ==> !Line(parents, path, v, v))
              && (forall v :: v in kinds && kinds[v] in {Formal, Return} ==>
                    v in parents && parents[v] in kinds && kinds[parents[v]] == Method)
              && (forall k :: 0 <= k < |links| ==>
                    links[k].input in parents && links[k].output in parents
                    && parents[links[k].input] == parents[links[k].output])
  {
    hide Cyclic, Line;
    CyclicExactly(parents);
    forall k | 0 <= k < |links| ensures links[k] in links { }
  }
}
