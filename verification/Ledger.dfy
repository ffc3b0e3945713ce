/** The planning ledger: milestones and gates with dependencies, a depth-first
    topological order, and completion that must hold all the way down. */
module Ledger {
  import opened FiniteSets

  datatype Item = Item(complete: bool, optional: bool, needs: seq<string>)
  type Ledger = map<string, Item>

  // ----- dependency chains

  ghost predicate Depends(l: Ledger, a: string, b: string) {
    a in l && b in l[a].needs
  }

  ghost predicate Chain(l: Ledger, p: seq<string>) {
    |p| >= 2 && forall i :: 0 <= i < |p| - 1 ==> Depends(l, p[i], p[i + 1])
  }

  /** `b` is needed by `a`, directly or through others. */
  ghost predicate Ancestor(l: Ledger, a: string, b: string) {
    exists p :: ChainFrom(l, a, b, p)
  }

  ghost predicate ChainFrom(l: Ledger, a: string, b: string, p: seq<string>) {
    Chain(l, p) && p[0] == a && p[|p| - 1] == b
  }

  ghost predicate Cyclic(l: Ledger) {
    exists a :: Ancestor(l, a, a)
  }

  ghost predicate Known(l: Ledger) {
    forall a, b :: Depends(l, a, b) ==> b in l
  }

  lemma AncestorDirect(l: Ledger, a: string, b: string)
    requires Depends(l, a, b)
    ensures Ancestor(l, a, b)
  {
    assert ChainFrom(l, a, b, [a, b]);
  }

  lemma AncestorBefore(l: Ledger, a: string, b: string, c: string)
    requires Depends(l, a, b) && Ancestor(l, b, c)
    ensures Ancestor(l, a, c)
  {
    hide Depends;
    var p :| ChainFrom(l, b, c, p);
    assert ChainFrom(l, a, c, [a] + p);
  }

  lemma AncestorAfter(l: Ledger, a: string, b: string, c: string)
    requires Ancestor(l, a, b) && Depends(l, b, c)
    ensures Ancestor(l, a, c)
  {
    hide Depends;
    var p :| ChainFrom(l, a, b, p);
    assert ChainFrom(l, a, c, p + [c]);
  }

  // ----- the order

  /** Every dependency of a listed item is listed before it. */
  ghost predicate DependenciesFirst(l: Ledger, s: seq<string>) {
    forall i, b :: 0 <= i < |s| && Depends(l, s[i], b) ==> b in s[..i]
  }

  lemma {:induction false} ChainDescends(l: Ledger, s: seq<string>, p: seq<string>, i: nat) returns (j: nat)
    requires DependenciesFirst(l, s) && Chain(l, p) && i < |s| && s[i] == p[0]
    ensures j < i && s[j] == p[|p| - 1]
    decreases |p|
  {
    hide Depends;
    assert Depends(l, p[0], p[0 + 1]);
    var k :| 0 <= k < i && s[..i][k] == p[1];
    if |p| == 2 {
      j := k;
    } else {
      forall m | 0 <= m < |p[1..]| - 1
        ensures Depends(l, p[1..][m], p[1..][m + 1]) { assert Depends(l, p[m + 1], p[m + 2]); }
      j := ChainDescends(l, s, p[1..], k);
    }
  }

  /** An order with dependencies first leaves no room for a cycle. */
  lemma OrderedAcyclic(l: Ledger, s: seq<string>)
    requires DependenciesFirst(l, s) && Distinct(s) && Elements(s) == l.Keys
    ensures !Cyclic(l)
  {
    hide DependenciesFirst;
    forall a, p ensures !ChainFrom(l, a, a, p) {
      if ChainFrom(l, a, a, p) {
        assert Depends(l, p[0], p[0 + 1]);
        assert a in Elements(s);
        var i :| 0 <= i < |s| && s[i] == a;
        var j := ChainDescends(l, s, p, i);
      }
    }
  }

  // ----- depth-first search

  class Walk {
    var visited: set<string>
    var visiting: set<string>
    var ordered: seq<string>

    constructor ()
      ensures visited == {} && visiting == {} && ordered == []
    {
      visited, visiting, ordered := {}, {}, [];
    }

    ghost predicate Valid(l: Ledger)
      reads this
    {
      && visited == Elements(ordered) && visiting !! visited && visiting <= l.Keys && visited <= l.Keys
      && Distinct(ordered) && DependenciesFirst(l, ordered)
    }

    /** The items being visited form a chain that ends just above `id`. */
    ghost predicate Under(l: Ledger, stack: seq<string>, id: string)
      reads this
    {
      Elements(stack) == visiting && StackUnder(l, stack, id)
    }

    /** Fails only on a cycle; otherwise `id` and all it needs are listed. */
    method Visit(l: Ledger, id: string, ghost stack: seq<string>) returns (ok: bool)
      requires Valid(l) && Known(l) && id in l && Under(l, stack, id)
      modifies this
      ensures !ok ==> Cyclic(l)
      ensures ok ==> Valid(l) && visiting == old(visiting) && id in visited && old(visited) <= visited
      decreases l.Keys - visiting
    {
      hide Known, Cyclic, DependenciesFirst, Distinct, Depends, StackUnder;
      if id in visiting {
        StackCycle(l, stack, id);
        return false;
      }
      if id in visited { return true; }
      visiting := visiting + {id};
      var needs := l[id].needs;
      ghost var deeper := stack + [id];
      for i := 0 to |needs|
        invariant Valid(l) && visiting == old(visiting) + {id} && old(visited) <= visited && id !in visited
        invariant forall k :: 0 <= k < i ==> needs[k] in visited
      {
        StackDeeper(l, stack, id, needs[i]);
        DependencyKnown(l, id, needs[i]);
        var fine := Visit(l, needs[i], deeper);
        if !fine { return false; }
      }
      visiting := visiting - {id};
      AppendOrdered(l, ordered, id);
      visited := visited + {id};
      ordered := ordered + [id];
      ok := true;
    }
  }

  lemma DependencyKnown(l: Ledger, a: string, b: string)
    requires Known(l) && a in l && b in l[a].needs
    ensures b in l
  {
    assert Depends(l, a, b);
  }

  function After(stack: seq<string>, id: string, i: nat): (r: string)
    requires i < |stack|
  {
    if i + 1 < |stack| then stack[i + 1] else id
  }

  ghost predicate StackUnder(l: Ledger, stack: seq<string>, id: string) {
    forall i :: 0 <= i < |stack| ==> Depends(l, stack[i], After(stack, id, i))
  }

  lemma StackDeeper(l: Ledger, stack: seq<string>, id: string, b: string)
    requires StackUnder(l, stack, id) && id in l && b in l[id].needs
    ensures Elements(stack + [id]) == Elements(stack) + {id} && StackUnder(l, stack + [id], b)
  {
    var s := stack + [id];
    assert Depends(l, id, b);
    hide Depends;
    forall i | 0 <= i < |s| ensures Depends(l, s[i], After(s, b, i)) {
      if i < |stack| { assert Depends(l, stack[i], After(stack, id, i)); }
    }
  }

  lemma StackCycle(l: Ledger, stack: seq<string>, id: string)
    requires StackUnder(l, stack, id) && id in Elements(stack)
    ensures Cyclic(l)
  {
    hide Depends;
    assert id in stack;
    var k :| 0 <= k < |stack| && stack[k] == id;
    var p := stack[k..] + [id];
    forall i | 0 <= i < |p| - 1 ensures Depends(l, p[i], p[i + 1]) {
      assert Depends(l, stack[k + i], After(stack, id, k + i));
    }
    assert ChainFrom(l, id, id, p);
    assert Ancestor(l, id, id);
  }

  lemma AppendOrdered(l: Ledger, s: seq<string>, id: string)
    requires DependenciesFirst(l, s) && Distinct(s) && id !in Elements(s) && id in l
    requires forall k :: 0 <= k < |l[id].needs| ==> l[id].needs[k] in Elements(s)
    ensures DependenciesFirst(l, s + [id]) && Distinct(s + [id]) && Elements(s + [id]) == Elements(s) + {id}
  {
    var t := s + [id];
    forall i, b | 0 <= i < |t| && Depends(l, t[i], b) ensures b in t[..i] {
      if i < |s| {
        assert Depends(l, s[i], b);
        assert t[..i] == s[..i];
      } else {
        assert t[..i] == s;
        var k :| 0 <= k < |l[id].needs| && l[id].needs[k] == b;
      }
    }
  }

  /** Every item once, dependencies first; refused exactly when there is a cycle. */
  method TopologicalOrder(l: Ledger, names: seq<string>) returns (ok: bool, ordered: seq<string>)
    requires Known(l) && Elements(names) == l.Keys
    ensures ok <==> !Cyclic(l)
    ensures ok ==> Elements(ordered) == l.Keys && Distinct(ordered) && DependenciesFirst(l, ordered)
  {
    hide Known, Cyclic, DependenciesFirst, Distinct, Elements, Depends, StackUnder;
    var walk := new Walk();
    ordered := [];
    EmptyOrder(l);
    NothingAbove(l);
    for i := 0 to |names|
      invariant walk.Valid(l) && walk.visiting == {}
      invariant forall k :: 0 <= k < i ==> names[k] in walk.visited
    {
      NamedMember(names, i);
      var fine := walk.Visit(l, names[i], []);
      if !fine { return false, []; }
    }
    ok, ordered := true, walk.ordered;
    AllNamed(names, walk.visited);
    OrderedAcyclic(l, ordered);
  }

  lemma NothingAbove(l: Ledger)
    ensures forall id :: StackUnder(l, [], id)
  {
  }

  lemma EmptyOrder(l: Ledger)
    ensures Elements<string>([]) == {} && Distinct<string>([]) && DependenciesFirst(l, [])
  {
  }

  lemma NamedMember(names: seq<string>, i: nat)
    requires i < |names|
    ensures names[i] in Elements(names)
  {
  }

  lemma AllNamed(names: seq<string>, s: set<string>)
    requires (forall k :: 0 <= k < |names| ==> names[k] in s) && s <= Elements(names)
    ensures s == Elements(names)
  {
  }

  // ----- ancestors

  /** Exactly what an item needs, directly or through others. */
  method Ancestors(l: Ledger, id: string) returns (found: set<string>)
    requires Known(l) && id in l
    ensures forall b :: b in found <==> Ancestor(l, id, b)
  {
    hide Ancestor, Known, Depends;
    found := {};
    var pending := l[id].needs;
    DirectlyPending(l, id);
    while pending != []
      invariant Draining(l, id, found, pending)
      decreases l.Keys - found, |pending|
    {
      var b, rest := pending[|pending| - 1], pending[..|pending| - 1];
      assert pending == rest + [b];
      ghost var was := found;
      PendingKnown(l, id, found, rest, b);
      if b in found {
        DrainSeen(l, id, found, rest, b);
        pending := rest;
      } else {
        DrainNew(l, id, found, rest, b);
        found := found + {b};
        pending := rest + l[b].needs;
        assert b in l.Keys - was;
      }
    }
    forall b ensures b in found <==> Ancestor(l, id, b) { Drained(l, id, found, b); }
  }

  /** Found and pending items are ancestors; what found items need is found or pending. */
  ghost predicate Draining(l: Ledger, id: string, found: set<string>, pending: seq<string>) {
    && (forall b :: b in found || b in pending ==> Ancestor(l, id, b))
    && (forall b :: Depends(l, id, b) ==> b in found || b in pending)
    && (forall a, b :: a in found && Depends(l, a, b) ==> b in found || b in pending)
  }

  lemma DirectlyPending(l: Ledger, id: string)
    requires id in l
    ensures Draining(l, id, {}, l[id].needs)
  {
    hide Ancestor;
    forall b | b in l[id].needs ensures Ancestor(l, id, b) {
      assert Depends(l, id, b);
      AncestorDirect(l, id, b);
    }
  }

  lemma AncestorKnown(l: Ledger, a: string, b: string)
    requires Known(l) && Ancestor(l, a, b)
    ensures b in l
  {
    var p :| ChainFrom(l, a, b, p);
    assert Depends(l, p[|p| - 2], p[|p| - 2 + 1]);
  }

  lemma PendingKnown(l: Ledger, id: string, found: set<string>, rest: seq<string>, b: string)
    requires Known(l) && Draining(l, id, found, rest + [b])
    ensures b in l
  {
    hide Ancestor, Depends;
    assert b in rest + [b];
    AncestorKnown(l, id, b);
  }

  lemma DrainSeen(l: Ledger, id: string, found: set<string>, rest: seq<string>, b: string)
    requires Draining(l, id, found, rest + [b]) && b in found
    ensures Draining(l, id, found, rest)
  {
    hide Ancestor, Depends;
    assert forall x :: x in rest + [b] <==> x in rest || x == b;
  }

  lemma DrainNew(l: Ledger, id: string, found: set<string>, rest: seq<string>, b: string)
    requires Draining(l, id, found, rest + [b]) && b in l
    ensures Draining(l, id, found + {b}, rest + l[b].needs)
  {
    hide Ancestor;
    assert forall x :: x in rest + [b] <==> x in rest || x == b;
    forall x | x in l[b].needs ensures Ancestor(l, id, x) {
      assert Depends(l, b, x);
      AncestorAfter(l, id, b, x);
    }
  }

  lemma {:induction false} ChainFound(l: Ledger, found: set<string>, p: seq<string>, k: nat)
    requires Chain(l, p) && 1 <= k < |p| && p[1] in found
    requires forall a, b :: a in found && Depends(l, a, b) ==> b in found
    ensures p[k] in found
  {
    hide Depends;
    if k > 1 {
      ChainFound(l, found, p, k - 1);
      assert Depends(l, p[k - 1], p[k - 1 + 1]);
    }
  }

  lemma Drained(l: Ledger, id: string, found: set<string>, b: string)
    requires Draining(l, id, found, [])
    ensures b in found <==> Ancestor(l, id, b)
  {
    hide Depends;
    if Ancestor(l, id, b) {
      var p :| ChainFrom(l, id, b, p);
      assert Depends(l, p[0], p[0 + 1]);
      ChainFound(l, found, p, |p| - 1);
    }
  }

  // ----- completion

  /** A complete item needs only complete items. */
  ghost predicate Sound(l: Ledger) {
    forall a, b :: Depends(l, a, b) && l[a].complete ==> b in l && l[b].complete
  }

  /** Completion reaches every ancestor. */
  lemma {:induction false} CompleteAll(l: Ledger, a: string, p: seq<string>, k: nat)
    requires Sound(l) && Chain(l, p) && p[0] == a && a in l && l[a].complete && k < |p|
    ensures p[k] in l && l[p[k]].complete
  {
    if k > 0 {
      CompleteAll(l, a, p, k - 1);
      assert Depends(l, p[k - 1], p[k - 1 + 1]);
    }
  }

  lemma CompleteAncestors(l: Ledger, a: string, b: string)
    requires Sound(l) && a in l && l[a].complete && Ancestor(l, a, b)
    ensures b in l && l[b].complete
  {
    hide Sound;
    var p :| ChainFrom(l, a, b, p);
    CompleteAll(l, a, p, |p| - 1);
  }

  const G0 := "G0"
  const G1 := "G1"
  const G2 := "G2"
  const RELEASE := "G3_RELEASE"
  const STAGE := "G3_STAGE"
  const GATES := {G0, G1, G2, RELEASE, STAGE}
  const INSTALL := "R15.install_verified"
  const STAGED := "R15.stage_verified"
  const CORPUS := "R03.component_verified"
  const CHECKER := "R04.component_verified"
  const COMMANDS := "R05.commands_verified"
  const REFACTORS := "R06.component_verified"
  const RATE := "R11.component_verified"
  const ADAPTER := "R13.component_verified"

  const G1_NEEDS := {
    "R08.implementation_ready", "R09.component_verified", "R10.implementation_ready", "R11.implementation_ready",
    "R12.implementation_ready", "R16.design_ready", "R18.component_verified", "R19.component_verified",
    "R20.component_verified"
  }

  const COMPONENTS := {
    REFACTORS, "R07.component_verified", "R08.component_verified", "R09.component_verified", "R10.component_verified",
    RATE, "R12.component_verified", ADAPTER, "R14.component_verified", "R16.component_verified",
    "R18.component_verified", "R19.component_verified", "R20.component_verified"
  }

  /** What each gate must at least need. */
  const MIN_NEEDS: seq<(string, set<string>)> :=
    [(G1, G1_NEEDS), (G2, {G0, G1} + COMPONENTS), (RELEASE, {G2, INSTALL}), (STAGE, {G2, STAGED})]

  /** The gates, and the milestones the rules below speak of. */
  predicate Present(l: Ledger) {
    GATES <= l.Keys && CORPUS in l && RATE in l && ADAPTER in l
  }

  /** No gate prerequisite of the table was removed. */
  predicate GatesKept(l: Ledger) {
    forall i :: 0 <= i < |MIN_NEEDS| ==> MIN_NEEDS[i].0 in l && MIN_NEEDS[i].1 <= Elements(l[MIN_NEEDS[i].0].needs)
  }

  /** What may and may not stand above what. */
  ghost predicate Placed(l: Ledger)
    requires Present(l)
  {
    && Elements(l[G0].needs) == {CORPUS, CHECKER, COMMANDS}
    && (forall b :: Ancestor(l, G0, b) ==> b in l && !l[b].optional)
    && !Ancestor(l, CORPUS, G0) && Ancestor(l, RATE, ADAPTER) && !Ancestor(l, ADAPTER, RATE)
    && !Ancestor(l, G1, REFACTORS)
  }

  method PlacedCheck(l: Ledger) returns (ok: bool)
    requires Known(l) && Present(l)
    ensures ok <==> Placed(l)
  {
    hide Known, Ancestor;
    var aboveG0 := Ancestors(l, G0);
    var aboveCorpus := Ancestors(l, CORPUS);
    var aboveRate := Ancestors(l, RATE);
    var aboveAdapter := Ancestors(l, ADAPTER);
    var aboveG1 := Ancestors(l, G1);
    forall b | Ancestor(l, G0, b) ensures b in l { AncestorKnown(l, G0, b); }
    ok := && Elements(l[G0].needs) == {CORPUS, CHECKER, COMMANDS}
          && (forall b :: b in aboveG0 ==> !l[b].optional)
          && G0 !in aboveCorpus && ADAPTER in aboveRate && RATE !in aboveAdapter && REFACTORS !in aboveG1;
  }

  method KnownCheck(l: Ledger) returns (ok: bool)
    ensures ok <==> Known(l)
  {
    var rest := l.Keys;
    while rest != {}
      invariant rest <= l.Keys && forall a, b :: a !in rest && Depends(l, a, b) ==> b in l
      decreases rest
    {
      var a :| a in rest;
      for i := 0 to |l[a].needs|
        invariant forall k :: 0 <= k < i ==> l[a].needs[k] in l
      {
        if l[a].needs[i] !in l {
          assert Depends(l, a, l[a].needs[i]);
          return false;
        }
      }
      rest := rest - {a};
    }
    ok := true;
  }

  method SoundCheck(l: Ledger) returns (ok: bool)
    requires Known(l)
    ensures ok <==> Sound(l)
  {
    hide Known;
    var rest := l.Keys;
    while rest != {}
      invariant rest <= l.Keys
      invariant forall a, b :: a !in rest && Depends(l, a, b) && l[a].complete ==> b in l && l[b].complete
      decreases rest
    {
      var a :| a in rest;
      if l[a].complete {
        for i := 0 to |l[a].needs|
          invariant forall k :: 0 <= k < i ==> l[a].needs[k] in l && l[l[a].needs[k]].complete
        {
          DependencyKnown(l, a, l[a].needs[i]);
          if !l[l[a].needs[i]].complete {
            assert Depends(l, a, l[a].needs[i]);
            return false;
          }
        }
      }
      rest := rest - {a};
    }
    ok := true;
  }

  // ----- tasks, claims and readiness

  /** The ledger with its tasks (done or not), its claims (fulfilled or not), the
      submission's own status and the two readiness flags. */
  datatype State = State(items: Ledger, tasks: map<string, bool>, claims: map<string, bool>, fulfilled: bool,
    released: bool, staged: bool)

  const TASK_IDS := {
    "R01", "R02", "R03", "R04", "R05", "R06", "R07", "R08", "R09", "R10",
    "R11", "R12", "R13", "R14", "R15", "R16", "R17", "R18", "R19", "R20"
  }

  const CLAIM_IDS := {
    "C01", "C02", "C03", "C04", "C05", "C06", "C07", "C08", "C09",
    "C10", "C11", "C12", "C13", "C14", "C15", "C16", "C17", "C18"
  }

  const RELEASE_CLAIMS := {"C12", "C17", "C18"}

  predicate Owns(task: string, item: string) {
    |task| < |item| && item[..|task|] == task && item[|task|] == '.'
  }

  /** Exactly the known tasks and claims, both phases of every task, and no
      milestone without an owning task. */
  predicate Inventory(st: State) {
    && st.tasks.Keys == TASK_IDS && st.claims.Keys == CLAIM_IDS
    && (forall t :: t in TASK_IDS ==> t + ".design_ready" in st.items && t + ".component_verified" in st.items)
    && (forall m :: m in st.items && m !in GATES ==> exists t :: t in TASK_IDS && (m == t || Owns(t, m)))
  }

  /** A fulfilled claim has passed its gates. */
  predicate ClaimHolds(st: State, id: string)
    requires Present(st.items) && id in st.claims
  {
    st.claims[id] ==> st.items[G2].complete && (id in RELEASE_CLAIMS ==> st.items[RELEASE].complete)
  }

  /** A finished task has no unfinished required milestone. */
  predicate TaskHolds(st: State, id: string)
    requires id in st.tasks
  {
    st.tasks[id] ==> forall m :: m in st.items && m !in GATES && Owns(id, m) && !st.items[m].optional ==>
          st.items[m].complete
  }

  predicate StatusesHold(st: State)
    requires Present(st.items)
  {
    && (forall id :: id in st.claims ==> ClaimHolds(st, id))
    && (forall id :: id in st.tasks ==> TaskHolds(st, id))
    && (st.fulfilled ==> forall id :: id in st.claims ==> st.claims[id])
    && (st.released ==> st.items[RELEASE].complete) && (st.staged ==> st.items[STAGE].complete)
  }

  /** The states the checker accepts, as far as graph and statuses go. */
  ghost predicate Acceptable(st: State) {
    && Present(st.items) && GatesKept(st.items) && Known(st.items) && Sound(st.items) && !Cyclic(st.items)
    && Placed(st.items)
    && Inventory(st) && StatusesHold(st)
  }

  /** `validate_state`: exactly the acceptable states get an order. */
  method Validate(st: State, names: seq<string>) returns (ok: bool, ordered: seq<string>)
    requires Elements(names) == st.items.Keys
    ensures ok <==> Acceptable(st)
    ensures ok ==> Elements(ordered) == st.items.Keys && Distinct(ordered) && DependenciesFirst(st.items, ordered)
  {
    hide Known, Cyclic, DependenciesFirst, Distinct, Elements, Sound, Placed, GatesKept, StatusesHold, Inventory;
    var l := st.items;
    ordered := [];
    if !Present(l) || !GatesKept(l) { return false, []; }
    var known := KnownCheck(l);
    if !known { return false, []; }
    var sound := SoundCheck(l);
    if !sound { return false, []; }
    var acyclic;
    acyclic, ordered := TopologicalOrder(l, names);
    if !acyclic { return false, []; }
    var placed := PlacedCheck(l);
    if !placed { return false, []; }
    ok := Inventory(st) && StatusesHold(st);
  }

  lemma GateNeeds(l: Ledger, b: string)
    requires Present(l) && GatesKept(l)
    ensures b in G1_NEEDS ==> Depends(l, G1, b)
    ensures b in {G0, G1} + COMPONENTS ==> Depends(l, G2, b)
    ensures b in {G2, INSTALL} ==> Depends(l, RELEASE, b)
    ensures b in {G2, STAGED} ==> Depends(l, STAGE, b)
  {
    assert MIN_NEEDS[0] == (G1, G1_NEEDS) && MIN_NEEDS[1] == (G2, {G0, G1} + COMPONENTS);
    assert MIN_NEEDS[2] == (RELEASE, {G2, INSTALL}) && MIN_NEEDS[3] == (STAGE, {G2, STAGED});
  }

  /** Everything a passed G2 stands on. */
  ghost predicate Demanded(b: string) {
    b in G1_NEEDS || b in COMPONENTS || b in {G0, G1, CORPUS, CHECKER, COMMANDS}
  }

  lemma G2Ancestors(l: Ledger, b: string)
    requires Present(l) && GatesKept(l) && Placed(l) && Demanded(b)
    ensures Ancestor(l, G2, b)
  {
    hide GatesKept, Ancestor, Depends;
    if b in COMPONENTS || b in {G0, G1} {
      GateNeeds(l, b);
      AncestorDirect(l, G2, b);
    } else if b in G1_NEEDS {
      GateNeeds(l, b);
      GateNeeds(l, G1);
      AncestorDirect(l, G1, b);
      AncestorBefore(l, G2, G1, b);
    } else {
      GateNeeds(l, G0);
      G0Needs(l, b);
      AncestorDirect(l, G0, b);
      AncestorBefore(l, G2, G0, b);
    }
  }

  lemma G0Needs(l: Ledger, b: string)
    requires Present(l) && Placed(l) && b in {CORPUS, CHECKER, COMMANDS}
    ensures Depends(l, G0, b)
  {
    assert b in Elements(l[G0].needs);
  }

  /** Once G2 is passed, every demanded milestone and gate is complete. */
  lemma PassedG2(st: State, b: string)
    requires Acceptable(st) && st.items[G2].complete && Demanded(b)
    ensures b in st.items && st.items[b].complete
  {
    hide Ancestor, Sound, Cyclic, Placed, Known, GatesKept, Demanded;
    G2Ancestors(st.items, b);
    CompleteAncestors(st.items, G2, b);
  }

  lemma PassedG3(st: State, gate: string)
    requires Acceptable(st) && (gate == RELEASE || gate == STAGE) && st.items[gate].complete
    ensures st.items[G2].complete
    ensures gate == RELEASE ==> INSTALL in st.items && st.items[INSTALL].complete
    ensures gate == STAGE ==> STAGED in st.items && st.items[STAGED].complete
  {
    hide Cyclic, Placed, Known, GatesKept;
    GateNeeds(st.items, G2);
    GateNeeds(st.items, INSTALL);
    GateNeeds(st.items, STAGED);
  }

  lemma Fulfilled(st: State)
    requires Acceptable(st) && st.fulfilled
    ensures st.items[G2].complete && st.items[RELEASE].complete && INSTALL in st.items && st.items[INSTALL].complete
  {
    hide Cyclic, Placed, Known, GatesKept, Sound, Inventory;
    assert "C12" in st.claims by { ReleaseClaim(st); }
    assert ClaimHolds(st, "C12");
    PassedG3(st, RELEASE);
  }

  lemma ReleaseClaim(st: State)
    requires Inventory(st)
    ensures "C12" in st.claims && "C12" in RELEASE_CLAIMS
  {
  }

  /** A ready release or stage, and a submission that claims to be fulfilled, has
      every ancestor of its gate complete, and with them G0, G1, G2, every required
      component and the install or stage milestone. */
  lemma ReadyPassedGates(st: State, b: string)
    requires Acceptable(st)
    ensures st.released ==> (Ancestor(st.items, RELEASE, b) ==> b in st.items && st.items[b].complete)
    ensures st.staged ==> (Ancestor(st.items, STAGE, b) ==> b in st.items && st.items[b].complete)
    ensures st.released || st.staged || st.fulfilled ==>
              st.items[G2].complete && (Demanded(b) ==> b in st.items && st.items[b].complete)
    ensures st.released || st.fulfilled ==> INSTALL in st.items && st.items[INSTALL].complete
    ensures st.staged ==> STAGED in st.items && st.items[STAGED].complete
    ensures st.fulfilled ==> st.items[RELEASE].complete
  {
    hide Ancestor, Sound, Cyclic, Placed, Known, GatesKept, Demanded;
    if st.released {
      PassedG3(st, RELEASE);
      if Ancestor(st.items, RELEASE, b) { CompleteAncestors(st.items, RELEASE, b); }
    }
    if st.staged {
      PassedG3(st, STAGE);
      if Ancestor(st.items, STAGE, b) { CompleteAncestors(st.items, STAGE, b); }
    }
    if st.fulfilled { Fulfilled(st); }
    if st.items[G2].complete && Demanded(b) { PassedG2(st, b); }
  }

  // ----- the rules, by number and name

  function Task(n: nat): (r: string)
    requires n < 100
  {
    ['R', '0' + (n / 10) as char, '0' + (n % 10) as char]
  }

  function Claim(n: nat): (r: string)
    requires n < 100
  {
    ['C', '0' + (n / 10) as char, '0' + (n % 10) as char]
  }

  lemma FirstTasks()
    ensures Task(1) == "R01"
    ensures Task(2) == "R02"
    ensures Task(3) == "R03"
    ensures Task(4) == "R04"
    ensures Task(5) == "R05"
    ensures Task(6) == "R06"
    ensures Task(7) == "R07"
    ensures Task(8) == "R08"
    ensures Task(9) == "R09"
    ensures Task(10) == "R10"
  {
  }

  lemma LastTasks()
    ensures Task(11) == "R11"
    ensures Task(12) == "R12"
    ensures Task(13) == "R13"
    ensures Task(14) == "R14"
    ensures Task(15) == "R15"
    ensures Task(16) == "R16"
    ensures Task(17) == "R17"
    ensures Task(18) == "R18"
    ensures Task(19) == "R19"
    ensures Task(20) == "R20"
  {
  }

  lemma TasksNumbered(t: string)
    ensures t in TASK_IDS <==> exists n: nat :: 1 <= n <= 20 && t == Task(n)
  {
    hide Task;
    FirstTasks();
    LastTasks();
  }

  lemma ClaimsNumbered(t: string)
    ensures t in CLAIM_IDS <==> exists n: nat :: 1 <= n <= 18 && t == Claim(n)
    ensures t in RELEASE_CLAIMS <==> t == Claim(12) || t == Claim(17) || t == Claim(18)
  {
    assert Claim(1) == "C01" && Claim(2) == "C02" && Claim(3) == "C03" && Claim(4) == "C04" && Claim(5) == "C05";
    assert Claim(6) == "C06" && Claim(7) == "C07" && Claim(8) == "C08" && Claim(9) == "C09" && Claim(10) == "C10";
    assert Claim(11) == "C11" && Claim(12) == "C12" && Claim(13) == "C13" && Claim(14) == "C14" && Claim(15) == "C15";
    assert Claim(16) == "C16" && Claim(17) == "C17" && Claim(18) == "C18";
  }

  lemma SpeltSixToEight()
    ensures "R06" + ".component_verified" == "R06.component_verified"
    ensures "R07" + ".component_verified" == "R07.component_verified"
    ensures "R08" + ".component_verified" == "R08.component_verified"
  {
  }

  lemma SpeltNineToEleven()
    ensures "R09" + ".component_verified" == "R09.component_verified"
    ensures "R10" + ".component_verified" == "R10.component_verified"
    ensures "R11" + ".component_verified" == "R11.component_verified"
  {
  }

  lemma SpeltTwelveToFourteen()
    ensures "R12" + ".component_verified" == "R12.component_verified"
    ensures "R13" + ".component_verified" == "R13.component_verified"
    ensures "R14" + ".component_verified" == "R14.component_verified"
  {
  }

  lemma SpeltSixteenEighteen()
    ensures "R16" + ".component_verified" == "R16.component_verified"
    ensures "R18" + ".component_verified" == "R18.component_verified"
  {
  }

  lemma SpeltNineteenTwenty()
    ensures "R19" + ".component_verified" == "R19.component_verified"
    ensures "R20" + ".component_verified" == "R20.component_verified"
  {
  }

  lemma ReadyEightTen()
    ensures "R08" + ".implementation_ready" == "R08.implementation_ready"
    ensures "R10" + ".implementation_ready" == "R10.implementation_ready"
  {
  }

  lemma ReadyElevenTwelve()
    ensures "R11" + ".implementation_ready" == "R11.implementation_ready"
    ensures "R12" + ".implementation_ready" == "R12.implementation_ready"
  {
  }

  lemma DesignSixteen()
    ensures "R16" + ".design_ready" == "R16.design_ready"
  {
  }

  const COMPONENT_TASKS := {"R06", "R07", "R08", "R09", "R10", "R11", "R12", "R13", "R14", "R16", "R18", "R19", "R20"}

  /** G2 waits for these components. */
  lemma ComponentsAre(b: string)
    ensures b in COMPONENTS <==> exists t :: t in COMPONENT_TASKS && b == t + ".component_verified"
  {
    SpeltSixToEight();
    SpeltNineToEleven();
    SpeltTwelveToFourteen();
    SpeltSixteenEighteen();
    SpeltNineteenTwenty();
  }

  /** G1 waits for less. */
  lemma EarlyNeedsAre(b: string)
    ensures b in G1_NEEDS <==>
              || (exists t :: t in {"R08", "R10", "R11", "R12"} && b == t + ".implementation_ready")
              || b == "R16" + ".design_ready"
              || (exists t :: t in {"R09", "R18", "R19", "R20"} && b == t + ".component_verified")
  {
    ReadyEightTen();
    ReadyElevenTwelve();
    DesignSixteen();
    SpeltNineToEleven();
    SpeltSixteenEighteen();
    SpeltNineteenTwenty();
  }

  ghost predicate Needs(l: Ledger, a: string, b: string) {
    a in l && b in l[a].needs
  }

  /** What the shared gates may not give up. */
  lemma GatesKeptIs(l: Ledger)
    ensures GatesKept(l) <==>
              && "G1" in l && "G2" in l && "G3_RELEASE" in l && "G3_STAGE" in l
              && (forall b :: b in G1_NEEDS ==> Needs(l, "G1", b))
              && Needs(l, "G2", "G0") && Needs(l, "G2", "G1") && (forall b :: b in COMPONENTS ==> Needs(l, "G2", b))
              && Needs(l, "G3_RELEASE", "G2") && Needs(l, "G3_RELEASE", "R15.install_verified")
              && Needs(l, "G3_STAGE", "G2") && Needs(l, "G3_STAGE", "R15.stage_verified")
  {
    var t := MIN_NEEDS;
    assert t[0] == ("G1", G1_NEEDS) && t[1] == ("G2", {"G0", "G1"} + COMPONENTS);
    assert t[2] == ("G3_RELEASE", {"G2", "R15.install_verified"}) && t[3] == ("G3_STAGE", {"G2", "R15.stage_verified"});
    if GatesKept(l) {
      forall i | 0 <= i < 4 ensures t[i].0 in l && t[i].1 <= Elements(l[t[i].0].needs) { }
      assert t[0].0 in l && t[1].0 in l && t[2].0 in l && t[3].0 in l;
      assert G1_NEEDS <= Elements(l["G1"].needs) && {"G0", "G1"} + COMPONENTS <= Elements(l["G2"].needs);
      assert "G0" in {"G0", "G1"} + COMPONENTS && "G1" in {"G0", "G1"} + COMPONENTS;
      assert {"G2", "R15.install_verified"} <= Elements(l["G3_RELEASE"].needs);
      assert {"G2", "R15.stage_verified"} <= Elements(l["G3_STAGE"].needs);
    }
  }

  /** Where the gates stand in the graph. */
  lemma PlacedIs(l: Ledger)
    requires Present(l)
    ensures Placed(l) <==>
              && (forall b :: Needs(l, "G0", b) <==>
                    b == "R03.component_verified" || b == "R04.component_verified" || b == "R05.commands_verified")
              && (forall b :: Ancestor(l, "G0", b) ==> b in l && !l[b].optional)
              && !Ancestor(l, "R03.component_verified", "G0")
              && Ancestor(l, "R11.component_verified", "R13.component_verified")
              && !Ancestor(l, "R13.component_verified", "R11.component_verified")
              && !Ancestor(l, "G1", "R06.component_verified")
  {
    hide Ancestor;
    forall b ensures Needs(l, "G0", b) <==> b in Elements(l[G0].needs) { }
  }

  /** What a status may claim. */
  lemma StatusesAre(st: State)
    requires Present(st.items)
    ensures StatusesHold(st) <==>
              && (forall id :: id in st.claims && st.claims[id] ==> st.items["G2"].complete)
              && (forall id :: id in st.claims && st.claims[id] && id in RELEASE_CLAIMS ==>
                    st.items["G3_RELEASE"].complete)
              && (forall id, m :: id in st.tasks && st.tasks[id] && m in st.items && Below(id, m) && m !in GATES ==>
                    st.items[m].optional || st.items[m].complete)
              && (st.fulfilled ==> forall id :: id in st.claims ==> st.claims[id])
              && (st.released ==> st.items["G3_RELEASE"].complete) && (st.staged ==> st.items["G3_STAGE"].complete)
  {
    hide Owns, Below;
    forall id: string, m: string ensures Owns(id, m) <==> Below(id, m) { OwnsIs(id, m); }
  }

  /** The name begins with that of its owner and a dot. */
  predicate Below(id: string, m: string) {
    |id| < |m| && m[..|id| + 1] == id + "."
  }

  lemma OwnsIs(id: string, m: string)
    ensures Owns(id, m) <==> Below(id, m)
  {
    if |id| < |m| {
      assert m[..|id| + 1] == m[..|id|] + [m[|id|]];
      if m[..|id| + 1] == id + "." { assert m[..|id| + 1][|id|] == '.'; }
    }
  }

  /** What stands before the first dot. */
  function FirstPart(m: string): (r: string) {
    if m == "" || m[0] == '.' then "" else [m[0]] + FirstPart(m[1..])
  }

  lemma {:induction false} FirstPartIs(m: string, t: string)
    requires '.' !in t
    ensures FirstPart(m) == t <==> m == t || Below(t, m)
  {
    if Below(t, m) { BelowFirst(t, m); }
    if m == "" || m[0] == '.' {
      if t == "" && m != "" { assert m[..1] == "" + "."; }
    } else if t != "" {
      FirstPartIs(m[1..], t[1..]);
      assert t == [t[0]] + t[1..] && m == [m[0]] + m[1..];
      BelowTail(t, m);
    }
  }

  lemma BelowFirst(t: string, m: string)
    requires Below(t, m)
    ensures m != "" && m[0] == if t == "" then '.' else t[0]
  {
    assert m[..|t| + 1][0] == (t + ".")[0];
  }

  lemma BelowTail(t: string, m: string)
    requires t != "" && m != ""
    ensures Below(t, m) <==> t[0] == m[0] && Below(t[1..], m[1..])
  {
    if |t| < |m| {
      assert m[..|t| + 1] == [m[0]] + m[1..][..|t|] && t + "." == [t[0]] + (t[1..] + ".");
      assert m[..|t| + 1][1..] == m[1..][..|t|] && (t + ".")[1..] == t[1..] + ".";
    }
  }

  lemma NoDots(t: string)
    requires t in TASK_IDS
    ensures '.' !in t
  {
    TasksNumbered(t);
    var n: nat :| 1 <= n <= 20 && t == Task(n);
  }

  /** The inventory: exactly these tasks and claims, two milestones for each task, and every
      milestone named after a task. */
  lemma InventoryIs(st: State)
    ensures Inventory(st) <==>
              && st.tasks.Keys == TASK_IDS && st.claims.Keys == CLAIM_IDS
              && (forall t :: t in TASK_IDS ==>
                    t + ".design_ready" in st.items && t + ".component_verified" in st.items)
              && (forall m :: m in st.items && m !in GATES ==> FirstPart(m) in TASK_IDS)
  {
    hide FirstPart, Below, Owns;
    forall m: string ensures FirstPart(m) in TASK_IDS <==> exists t :: t in TASK_IDS && (m == t || Owns(t, m)) {
      if FirstPart(m) in TASK_IDS {
        NoDots(FirstPart(m));
        FirstPartIs(m, FirstPart(m));
        OwnsIs(FirstPart(m), m);
      }
      if t :| t in TASK_IDS && (m == t || Owns(t, m)) {
        NoDots(t);
        FirstPartIs(m, t);
        OwnsIs(t, m);
      }
    }
  }
}
