/** `_tabulate`: the worklist loop over mutable tables, proved against the run
    that takes the canonical-minimum item each time. */
module TabulationRuns {
  import opened Tabulation
  import opened Cells
  import opened Slices

  /** What the loop carries: discoverers, facts per node, the worklist, and the
      procedures touched so far. */
  datatype Progress = Progress(pred: map<Item, Origin>, facts: map<nat, set<nat>>, work: seq<Item>, visited: set<nat>)

  type Summaries = map<nat, map<nat, set<nat>>>

  ghost function Queue(work: seq<Item>): (r: set<Item>) {
    set x | x in work
  }

  ghost predicate NoRepeat(work: seq<Item>) {
    forall x :: multiset(work)[x] <= 1
  }

  ghost predicate FactsMatch(facts: map<nat, set<nat>>, pred: map<Item, Origin>) {
    && (forall n, f :: n in facts ==> (f in facts[n] <==> Item(n, f) in pred))
    && (forall x :: x in pred ==> x.node in facts)
  }

  ghost predicate Tracks(pb: Problem, p: Progress) {
    && p.facts.Keys == pb.nodes && FactsMatch(p.facts, p.pred)
    && Queue(p.work) <= p.pred.Keys && NoRepeat(p.work)
    && p.visited == Touched(pb, p.pred)
  }

  ghost function StateOf(p: Progress): (r: State) {
    State(p.pred, Queue(p.work))
  }

  function Discover(pred: map<Item, Origin>, ys: set<Item>, o: Origin): (r: map<Item, Origin>) {
    pred + map y | y in ys - pred.Keys :: o
  }

  /** Everything in `ys` not known before is discovered with origin `o` and queued. */
  ghost predicate Grown(p: Progress, ys: set<Item>, o: Origin, q: Progress) {
    q.pred == Discover(p.pred, ys, o) && Queue(q.work) == Queue(p.work) + (ys - p.pred.Keys)
  }

  lemma GrownTwice(p: Progress, ys: set<Item>, q: Progress, zs: set<Item>, r: Progress, o: Origin)
    requires Grown(p, ys, o, q) && Grown(q, zs, o, r)
    ensures Grown(p, ys + zs, o, r)
  {
    hide Queue;
    assert r.pred == Discover(p.pred, ys + zs, o);
  }

  lemma GrownNothing(p: Progress, o: Origin)
    ensures Grown(p, {}, o, p)
  {
  }

  lemma AppendNew(work: seq<Item>, x: Item)
    requires NoRepeat(work) && x !in work
    ensures NoRepeat(work + [x]) && Queue(work + [x]) == Queue(work) + {x}
  {
    assert x !in multiset(work);
  }

  lemma TouchedNext(pb: Problem, pred: map<Item, Origin>, x: Item, o: Origin)
    ensures Touched(pb, pred[x := o]) == Touched(pb, pred) + if x.node in pb.procOf then {pb.procOf[x.node]} else {}
  {
    var t := Touched(pb, pred[x := o]);
    assert x in pred[x := o];
    forall q | q in Touched(pb, pred) ensures q in t {
      var y :| y in pred && y.node in pb.procOf && pb.procOf[y.node] == q;
      assert y in pred[x := o];
    }
  }

  lemma FactAt(p: Progress, x: Item)
    requires FactsMatch(p.facts, p.pred) && x.node in p.facts
    ensures x.fact in p.facts[x.node] <==> x in p.pred
  {
    assert x == Item(x.node, x.fact);
  }

  lemma FactsNext(p: Progress, x: Item, o: Origin)
    requires FactsMatch(p.facts, p.pred) && x.node in p.facts
    ensures FactsMatch(p.facts[x.node := p.facts[x.node] + {x.fact}], p.pred[x := o])
  {
    assert x == Item(x.node, x.fact);
  }

  lemma DiscoverOne(pred: map<Item, Origin>, x: Item, o: Origin)
    ensures Discover(pred, {x}, o) == if x in pred then pred else pred[x := o]
  {
    assert Discover(pred, {x}, o) == if x in pred then pred else pred[x := o];
  }

  method Add(pb: Problem, p: Progress, x: Item, o: Origin) returns (q: Progress)
    requires Tracks(pb, p) && x.node in pb.nodes
    ensures Tracks(pb, q) && Grown(p, {x}, o, q)
  {
    hide NoRepeat, Touched, FactsMatch, Discover;
    q := p;
    FactAt(p, x);
    DiscoverOne(p.pred, x, o);
    if x.fact !in p.facts[x.node] {
      FactsNext(p, x, o);
      assert x !in p.work by { assert x in p.work ==> x in Queue(p.work); }
      AppendNew(p.work, x);
      hide Queue;
      TouchedNext(pb, p.pred, x, o);
      q := Progress(p.pred[x := o], p.facts[x.node := p.facts[x.node] + {x.fact}], p.work + [x],
                    if x.node in pb.procOf then p.visited + {pb.procOf[x.node]} else p.visited);
    }
  }

  method AddAll(pb: Problem, p: Progress, xs: seq<Item>, o: Origin) returns (q: Progress)
    requires Tracks(pb, p) && forall x :: x in xs ==> x.node in pb.nodes
    ensures Tracks(pb, q) && Grown(p, Queue(xs), o, q)
  {
    hide Tracks, Grown;
    q := p;
    GrownNothing(p, o);
    assert Queue(xs[..0]) == {};
    for i := 0 to |xs|
      invariant Tracks(pb, q) && Grown(p, Queue(xs[..i]), o, q)
    {
      var was := q;
      q := Add(pb, q, xs[i], o);
      GrownTwice(p, Queue(xs[..i]), was, {xs[i]}, q, o);
      assert Queue(xs[..i + 1]) == Queue(xs[..i]) + {xs[i]};
    }
    assert xs[..|xs|] == xs;
  }

  // ----- processing one item

  function Carry(targets: seq<nat>, fact: nat): (r: seq<Item>)
    ensures |r| == |targets|
  {
    seq(|targets|, i requires 0 <= i < |targets| => Item(targets[i], fact))
  }

  lemma CarryMembers(targets: seq<nat>, fact: nat)
    ensures Queue(Carry(targets, fact)) == set n | n in targets :: Item(n, fact)
  {
    var r := Carry(targets, fact);
    forall n | n in targets ensures Item(n, fact) in r {
      var i :| 0 <= i < |targets| && targets[i] == n;
      assert r[i] == Item(n, fact);
    }
  }

  /** Facts known to leave the callee return to the call's own successors. */
  function Spliced(exits: seq<nat>, targets: seq<nat>): (r: seq<Item>) {
    if exits == [] then [] else Carry(targets, exits[0]) + Spliced(exits[1..], targets)
  }

  lemma SplicedNodes(exits: seq<nat>, targets: seq<nat>, x: Item)
    requires x in Spliced(exits, targets)
    ensures x.node in targets
  {
  }

  lemma SplicedInside(pb: Problem, exits: seq<nat>, n: nat)
    requires WellFormed(pb) && n in pb.nodes
    ensures forall y :: y in Spliced(exits, pb.cfg[n]) ==> y.node in pb.nodes
  {
    hide Spliced;
    forall y | y in Spliced(exits, pb.cfg[n]) ensures y.node in pb.nodes {
      SplicedNodes(exits, pb.cfg[n], y);
    }
  }

  function Exits(summaries: Summaries, callee: nat, fact: nat): (r: set<nat>) {
    if callee in summaries && fact in summaries[callee] then summaries[callee][fact] else {}
  }

  /** The items that one callee adds: its entry, and its summary's exits at the return sites. */
  ghost function EnteredAt(pb: Problem, s: Scope, summaries: Summaries, x: Item, c: nat): (r: set<Item>)
    requires x.node in pb.cfg
  {
    if InScope(s, c) then {Item(c, x.fact)} + Returns(pb, summaries, x, c) else {}
  }

  ghost function Returns(pb: Problem, summaries: Summaries, x: Item, c: nat): (r: set<Item>)
    requires x.node in pb.cfg
  {
    set f, n | f in Exits(summaries, c, x.fact) && n in pb.cfg[x.node] :: Item(n, f)
  }

  ghost function Entered(pb: Problem, s: Scope, summaries: Summaries, x: Item, calls: seq<nat>): (r: set<Item>)
    requires x.node in pb.cfg
  {
    set c, y | c in calls && y in EnteredAt(pb, s, summaries, x, c) :: y
  }

  /** Where the loop goes from an item, summaries spliced in. */
  ghost function Steps(pb: Problem, s: Scope, summaries: Summaries, x: Item): (r: set<Item>)
    requires WellFormed(pb)
  {
    if x.node !in pb.nodes || x.node in pb.sanitised then {}
    else (set n | n in pb.cfg[x.node] :: Item(n, x.fact)) + Entered(pb, s, summaries, x, pb.calls[x.node])
  }

  /** No procedure in scope has a summary, so nothing is ever spliced. */
  ghost predicate Invalidated(s: Scope, summaries: Summaries) {
    forall p :: p in summaries ==> !InScope(s, p)
  }

  lemma NothingSpliced(pb: Problem, s: Scope, summaries: Summaries, x: Item)
    requires WellFormed(pb) && Invalidated(s, summaries)
    ensures Steps(pb, s, summaries, x) == Successors(pb, s, x)
  {
    hide Returns;
    if x.node in pb.nodes && x.node !in pb.sanitised {
      var into := set c | c in pb.calls[x.node] && InScope(s, c) :: Item(c, x.fact);
      forall c | c in pb.calls[x.node] && InScope(s, c) ensures EnteredAt(pb, s, summaries, x, c) == {Item(c, x.fact)} {
        NoReturns(pb, summaries, x, c);
      }
      assert Entered(pb, s, summaries, x, pb.calls[x.node]) == into;
    }
  }

  lemma NoReturns(pb: Problem, summaries: Summaries, x: Item, c: nat)
    requires x.node in pb.cfg && c !in summaries
    ensures Returns(pb, summaries, x, c) == {}
  {
  }

  lemma {:induction false} SplicedMembers(exits: seq<nat>, targets: seq<nat>, x: Item)
    ensures x in Spliced(exits, targets) <==> x.fact in exits && x.node in targets
  {
    if exits != [] {
      SplicedMembers(exits[1..], targets, x);
      CarryMembers(targets, exits[0]);
      assert x in Carry(targets, exits[0]) <==> x in Queue(Carry(targets, exits[0]));
      assert x == Item(x.node, x.fact);
      assert exits == [exits[0]] + exits[1..];
    }
  }

  lemma SplicedReturns(pb: Problem, summaries: Summaries, x: Item, c: nat, exits: seq<nat>)
    requires x.node in pb.cfg && forall f :: f in exits <==> f in Exits(summaries, c, x.fact)
    ensures Queue(Spliced(exits, pb.cfg[x.node])) == Returns(pb, summaries, x, c)
  {
    hide Spliced, Exits;
    forall y ensures y in Spliced(exits, pb.cfg[x.node]) <==> y in Returns(pb, summaries, x, c) {
      SplicedMembers(exits, pb.cfg[x.node], y);
      assert y == Item(y.node, y.fact);
    }
  }

  method EnterCallees(pb: Problem, s: Scope, summaries: Summaries, p: Progress, x: Item) returns (q: Progress)
    requires WellFormed(pb) && Tracks(pb, p) && x.node in pb.nodes
    ensures Tracks(pb, q) && Grown(p, Entered(pb, s, summaries, x, pb.calls[x.node]), From(x), q)
  {
    hide Tracks, Grown, Queue, Ascending, Entered, Returns, Exits, Spliced;
    var calls := pb.calls[x.node];
    q := p;
    GrownNothing(p, From(x));
    assert Entered(pb, s, summaries, x, calls[..0]) == {} by { NoneEntered(pb, s, summaries, x); }
    for i := 0 to |calls|
      invariant Tracks(pb, q) && Grown(p, Entered(pb, s, summaries, x, calls[..i]), From(x), q)
    {
      ghost var was := q;
      var c := calls[i];
      if InScope(s, c) {
        q := Add(pb, q, Item(c, x.fact), From(x));
        ghost var mid := q;
        var exits := SortFound(Exits(summaries, c, x.fact));
        SplicedInside(pb, exits, x.node);
        SplicedReturns(pb, summaries, x, c, exits);
        q := AddAll(pb, q, Spliced(exits, pb.cfg[x.node]), From(x));
        GrownTwice(was, {Item(c, x.fact)}, mid, Returns(pb, summaries, x, c), q, From(x));
        GrownTwice(p, Entered(pb, s, summaries, x, calls[..i]), was, EnteredAt(pb, s, summaries, x, c), q, From(x));
      }
      EnteredNext(pb, s, summaries, x, calls, i);
    }
    assert calls[..|calls|] == calls;
  }

  lemma NoneEntered(pb: Problem, s: Scope, summaries: Summaries, x: Item)
    requires x.node in pb.cfg
    ensures Entered(pb, s, summaries, x, []) == {}
  {
  }

  lemma EmptyQueue()
    ensures Queue([]) == {}
  {
  }

  lemma EnteredNext(pb: Problem, s: Scope, summaries: Summaries, x: Item, calls: seq<nat>, i: nat)
    requires x.node in pb.cfg && i < |calls|
    ensures Entered(pb, s, summaries, x, calls[..i + 1]) ==
            Entered(pb, s, summaries, x, calls[..i]) + EnteredAt(pb, s, summaries, x, calls[i])
    ensures !InScope(s, calls[i]) ==>
              Entered(pb, s, summaries, x, calls[..i + 1]) == Entered(pb, s, summaries, x, calls[..i])
  {
    hide Returns;
    assert calls[..i + 1] == calls[..i] + [calls[i]];
  }

  method Process(pb: Problem, s: Scope, summaries: Summaries, p: Progress, x: Item) returns (q: Progress)
    requires WellFormed(pb) && Tracks(pb, p) && x.node in pb.nodes
    ensures Tracks(pb, q) && Grown(p, Steps(pb, s, summaries, x), From(x), q)
  {
    hide Tracks, Grown, Queue, Entered;
    q := p;
    GrownNothing(p, From(x));
    if x.node !in pb.sanitised {
      forall y | y in Carry(pb.cfg[x.node], x.fact) ensures y.node in pb.nodes {
      }
      CarryMembers(pb.cfg[x.node], x.fact);
      q := AddAll(pb, p, Carry(pb.cfg[x.node], x.fact), From(x));
      ghost var mid := q;
      q := EnterCallees(pb, s, summaries, q, x);
      GrownTwice(p, set n | n in pb.cfg[x.node] :: Item(n, x.fact), mid,
                 Entered(pb, s, summaries, x, pb.calls[x.node]), q, From(x));
    }
  }

  // ----- what a run with summaries discovers

  ghost predicate SplicedPath(pb: Problem, s: Scope, summaries: Summaries, p: seq<Item>, x: Item)
    requires WellFormed(pb)
  {
    && p != [] && p[0] in SeedItems(pb, s) && p[|p| - 1] == x
    && forall i :: 0 <= i < |p| - 1 ==> p[i + 1] in Steps(pb, s, summaries, p[i])
  }

  /** Reachable from a seed along edges, calls and spliced returns. */
  ghost predicate Attained(pb: Problem, s: Scope, summaries: Summaries, x: Item)
    requires WellFormed(pb)
  {
    exists p :: SplicedPath(pb, s, summaries, p, x)
  }

  lemma AttainedNext(pb: Problem, s: Scope, summaries: Summaries, x: Item, y: Item)
    requires WellFormed(pb) && Attained(pb, s, summaries, x) && y in Steps(pb, s, summaries, x)
    ensures Attained(pb, s, summaries, y)
  {
    hide Steps, SeedItems, WellFormed;
    var p :| SplicedPath(pb, s, summaries, p, x);
    assert SplicedPath(pb, s, summaries, p + [y], y);
  }

  ghost predicate Spreading(pb: Problem, s: Scope, summaries: Summaries, st: State)
    requires WellFormed(pb)
  {
    && SeedItems(pb, s) <= st.pred.Keys && (forall x :: x in st.pred ==> Attained(pb, s, summaries, x))
    && (forall x :: x in st.pred && x !in st.work ==> Steps(pb, s, summaries, x) <= st.pred.Keys)
    && forall x :: x in st.pred ==> OriginHolds(pb, s, summaries, st.pred, x)
  }

  ghost predicate OriginHolds(pb: Problem, s: Scope, summaries: Summaries, pred: map<Item, Origin>, x: Item)
    requires WellFormed(pb) && x in pred
  {
    match pred[x]
    case Seed => x in SeedItems(pb, s)
    case From(y) => y in pred && x in Steps(pb, s, summaries, y)
  }

  lemma SpreadStart(pb: Problem, s: Scope, summaries: Summaries)
    requires WellFormed(pb)
    ensures Spreading(pb, s, summaries, Start(pb, s))
  {
    hide Steps, SeedItems, WellFormed;
    forall x | x in SeedItems(pb, s)
      ensures Attained(pb, s, summaries, x) { assert SplicedPath(pb, s, summaries, [x], x); }
  }

  lemma SpreadNext(pb: Problem, s: Scope, summaries: Summaries, was: State, x: Item, next: State)
    requires WellFormed(pb) && Spreading(pb, s, summaries, was) && x in was.pred
    requires next.pred == Discover(was.pred, Steps(pb, s, summaries, x), From(x))
    requires next.work == was.work - {x} + (Steps(pb, s, summaries, x) - was.pred.Keys)
    ensures Spreading(pb, s, summaries, next)
  {
    hide Steps, SeedItems, WellFormed, Attained;
    forall y | y in next.pred ensures Attained(pb, s, summaries, y) && OriginHolds(pb, s, summaries, next.pred, y) {
      if y in was.pred {
        assert OriginHolds(pb, s, summaries, was.pred, y);
      } else {
        AttainedNext(pb, s, summaries, x, y);
      }
    }
  }

  lemma {:induction false} PathHeld(pb: Problem, s: Scope, summaries: Summaries, st: State, p: seq<Item>, x: Item,
                                    i: nat)
    requires WellFormed(pb) && Spreading(pb, s, summaries, st) && st.work == {} && SplicedPath(pb, s, summaries, p, x)
    requires i < |p|
    ensures p[i] in st.pred
  {
    hide Steps, SeedItems, WellFormed, Attained, OriginHolds;
    if i > 0 {
      PathHeld(pb, s, summaries, st, p, x, i - 1);
      assert p[i - 1 + 1] in Steps(pb, s, summaries, p[i - 1]);
    }
  }

  /** When nothing is left to process, exactly the attained items are known. */
  lemma SpreadExact(pb: Problem, s: Scope, summaries: Summaries, st: State, x: Item)
    requires WellFormed(pb) && Spreading(pb, s, summaries, st) && st.work == {}
    ensures x in st.pred <==> Attained(pb, s, summaries, x)
  {
    hide Steps, SeedItems, WellFormed, OriginHolds;
    if Attained(pb, s, summaries, x) {
      var p :| SplicedPath(pb, s, summaries, p, x);
      PathHeld(pb, s, summaries, st, p, x, |p| - 1);
    }
  }

  /** Every fact a seed or a summary can bring in, at every node. */
  ghost function Range(pb: Problem, summaries: Summaries): (r: set<Item>) {
    set n, f | n in pb.nodes && f in Facts(pb) + SummaryFacts(summaries) :: Item(n, f)
  }

  ghost function SummaryFacts(summaries: Summaries): (r: set<nat>) {
    set c, e, f | c in summaries && e in summaries[c] && f in summaries[c][e] :: f
  }

  lemma SeedsInRange(pb: Problem, s: Scope, summaries: Summaries)
    requires WellFormed(pb)
    ensures SeedItems(pb, s) <= Range(pb, summaries)
  {
    forall x | x in SeedItems(pb, s) ensures x in Range(pb, summaries) { assert x.fact in Facts(pb); }
  }

  lemma StepsInRange(pb: Problem, s: Scope, summaries: Summaries, x: Item)
    requires WellFormed(pb) && x in Range(pb, summaries)
    ensures Steps(pb, s, summaries, x) <= Range(pb, summaries)
  {
    hide Facts, SummaryFacts, Entered;
    forall y | y in Steps(pb, s, summaries, x) ensures y in Range(pb, summaries) {
      if y in Entered(pb, s, summaries, x, pb.calls[x.node]) { EnteredInRange(pb, s, summaries, x, y); }
    }
  }

  lemma EnteredInRange(pb: Problem, s: Scope, summaries: Summaries, x: Item, y: Item)
    requires WellFormed(pb) && x in Range(pb, summaries) && x.node in pb.nodes
    requires y in Entered(pb, s, summaries, x, pb.calls[x.node])
    ensures y in Range(pb, summaries)
  {
    hide Facts, SummaryFacts, Exits;
    var c :| c in pb.calls[x.node] && y in EnteredAt(pb, s, summaries, x, c);
    if y in Returns(pb, summaries, x, c) { ExitKnown(summaries, c, x.fact, y.fact); }
    assert y == Item(y.node, y.fact);
  }

  lemma ExitKnown(summaries: Summaries, c: nat, fact: nat, f: nat)
    requires f in Exits(summaries, c, fact)
    ensures f in SummaryFacts(summaries)
  {
  }

  // ----- the worklist

  function InsertItem(pb: Problem, x: Item, s: seq<Item>): (r: seq<Item>)
    requires x.node in pb.rank && forall y :: y in s ==> y.node in pb.rank
    ensures multiset(r) == multiset(s) + multiset{x}
  {
    if s == [] then [x]
    else
      assert s == [s[0]] + s[1..];
      if Sooner(pb, x, s[0]) then [x] + s else [s[0]] + InsertItem(pb, x, s[1..])
  }

  function SortWork(pb: Problem, s: seq<Item>): (r: seq<Item>)
    requires forall y :: y in s ==> y.node in pb.rank
    ensures multiset(r) == multiset(s)
  {
    if s == [] then []
    else
      assert s == [s[0]] + s[1..];
      var rest := SortWork(pb, s[1..]);
      assert forall y :: y in rest ==> y in multiset(rest);
      InsertItem(pb, s[0], rest)
  }

  lemma InsertFirst(pb: Problem, x: Item, s: seq<Item>)
    requires x.node in pb.rank && s != [] && IsFirst(pb, Queue(s), s[0]) && forall y :: y in s ==> y.node in pb.rank
    ensures var r := InsertItem(pb, x, s); r != [] && r[0] == if Sooner(pb, x, s[0]) then x else s[0]
    ensures IsFirst(pb, Queue(s) + {x}, InsertItem(pb, x, s)[0])
  {
  }

  lemma {:induction false} SortWorkFirst(pb: Problem, s: seq<Item>)
    requires s != [] && forall y :: y in s ==> y.node in pb.rank
    ensures var r := SortWork(pb, s); r != [] && IsFirst(pb, Queue(s), r[0])
  {
    hide IsFirst;
    if |s| > 1 {
      var rest := SortWork(pb, s[1..]);
      SortWorkFirst(pb, s[1..]);
      assert Queue(rest) == Queue(s[1..]) by { SameQueue(rest, s[1..]); }
      forall y | y in rest ensures y.node in pb.rank { assert y in multiset(rest); }
      InsertFirst(pb, s[0], rest);
      assert Queue(s) == Queue(s[1..]) + {s[0]};
    } else {
      assert s == [s[0]];
      assert Queue(s) == {s[0]};
      LoneFirst(pb, s[0]);
    }
  }

  lemma SameQueue(a: seq<Item>, b: seq<Item>)
    requires multiset(a) == multiset(b)
    ensures Queue(a) == Queue(b)
  {
    forall x ensures x in a <==> x in b {
      assert x in a <==> x in multiset(a);
      assert x in b <==> x in multiset(b);
    }
  }

  /** Sorting and popping the front takes the canonical-minimum item and leaves the others. */
  lemma PopFront(pb: Problem, work: seq<Item>, sorted: seq<Item>)
    requires WellFormed(pb) && work != [] && NoRepeat(work) && (forall y :: y in work ==> y.node in pb.rank)
    requires sorted == SortWork(pb, work)
    ensures sorted != [] && Queue(work) != {} && (forall y :: y in Queue(work) ==> y.node in pb.rank)
    ensures sorted[0] == First(pb, Queue(work))
    ensures NoRepeat(sorted[1..]) && Queue(sorted[1..]) == Queue(work) - {sorted[0]}
  {
    hide SortWork, First, WellFormed;
    SortWorkFirst(pb, work);
    FirstUnique(pb, Queue(work), sorted[0], First(pb, Queue(work)));
    assert sorted == [sorted[0]] + sorted[1..];
    assert multiset(sorted) == multiset{sorted[0]} + multiset(sorted[1..]);
    forall y ensures y in Queue(sorted[1..]) <==> y in Queue(work) - {sorted[0]} {
      assert y in sorted[1..] <==> y in multiset(sorted[1..]);
      assert y in work <==> y in multiset(work);
    }
    forall y ensures multiset(sorted[1..])[y] <= 1 {
      assert multiset(work)[y] <= 1;
    }
  }

  ghost function SeedsAmong(pb: Problem, s: Scope, ns: seq<nat>): (r: set<Item>) {
    set n, f | n in ns && n in pb.seeds && f in pb.seeds[n] && NodeInScope(pb, s, n) :: Item(n, f)
  }

  function AtNode(n: nat, facts: seq<nat>): (r: seq<Item>)
    ensures |r| == |facts|
  {
    seq(|facts|, i requires 0 <= i < |facts| => Item(n, facts[i]))
  }

  lemma AtNodeMembers(pb: Problem, n: nat, facts: seq<nat>, x: Item)
    requires n in pb.seeds && facts == Ascending(pb.seeds[n])
    ensures x in Queue(AtNode(n, facts)) <==> x.node == n && x.fact in pb.seeds[n]
  {
    hide Ascending;
    var r := AtNode(n, facts);
    if x.node == n && x.fact in pb.seeds[n] {
      var k :| 0 <= k < |facts| && facts[k] == x.fact;
      assert r[k] == x;
    }
  }

  lemma SeedsAmongMembers(pb: Problem, s: Scope, ns: seq<nat>, x: Item)
    ensures x in SeedsAmong(pb, s, ns) <==>
              x.node in ns && x.node in pb.seeds && x.fact in pb.seeds[x.node] && NodeInScope(pb, s, x.node)
  {
    assert x == Item(x.node, x.fact);
  }

  lemma SeedsNext(pb: Problem, s: Scope, ns: seq<nat>, i: nat, facts: seq<nat>)
    requires i < |ns| && ns[i] in pb.seeds && facts == Ascending(pb.seeds[ns[i]])
    ensures SeedsAmong(pb, s, ns[..i + 1]) ==
            if NodeInScope(pb, s, ns[i]) then SeedsAmong(pb, s, ns[..i]) + Queue(AtNode(ns[i], facts))
            else SeedsAmong(pb, s, ns[..i])
  {
    hide NodeInScope, SeedsAmong, Queue, AtNode, Ascending;
    assert ns[..i + 1] == ns[..i] + [ns[i]];
    forall x ensures x in SeedsAmong(pb, s, ns[..i + 1]) <==>
                     x in SeedsAmong(pb, s,
                                     ns[..i]) || (NodeInScope(pb, s, ns[i]) && x in Queue(AtNode(ns[i], facts))) {
      AtNodeMembers(pb, ns[i], facts, x);
      SeedsAmongMembers(pb, s, ns[..i], x);
      SeedsAmongMembers(pb, s, ns[..i + 1], x);
    }
  }

  lemma BlankTracks(pb: Problem)
    ensures Tracks(pb, Progress(map[], map n | n in pb.nodes :: {}, [], {}))
  {
  }

  method Sow(pb: Problem, s: Scope) returns (p: Progress)
    requires WellFormed(pb)
    ensures Tracks(pb, p) && StateOf(p) == Start(pb, s)
  {
    hide Ascending, WellFormed, NodeInScope, Tracks, Grown, Queue, SeedsAmong, StateOf;
    var ns := SortFound(pb.seeds.Keys);
    p := Progress(map[], map n | n in pb.nodes :: {}, [], {});
    ghost var blank := p;
    BlankTracks(pb);
    SeedsKnown(pb);
    GrownNothing(p, Seed);
    assert SeedsAmong(pb, s, ns[..0]) == {} by { NoSeeds(pb, s, ns[..0]); }
    for i := 0 to |ns|
      invariant Tracks(pb, p) && Grown(blank, SeedsAmong(pb, s, ns[..i]), Seed, p)
    {
      var facts := SortFound(pb.seeds[ns[i]]);
      SeedsNext(pb, s, ns, i, facts);
      if NodeInScope(pb, s, ns[i]) {
        ghost var was := p;
        forall x | x in AtNode(ns[i], facts) ensures x.node in pb.nodes { }
        p := AddAll(pb, p, AtNode(ns[i], facts), Seed);
        GrownTwice(blank, SeedsAmong(pb, s, ns[..i]), was, Queue(AtNode(ns[i], facts)), p, Seed);
      }
    }
    SownAll(pb, s, ns);
    SownState(pb, s, blank, p);
  }

  lemma NoSeeds(pb: Problem, s: Scope, ns: seq<nat>)
    requires ns == []
    ensures SeedsAmong(pb, s, ns) == {}
  {
  }

  lemma SeedsKnown(pb: Problem)
    requires WellFormed(pb)
    ensures pb.seeds.Keys <= pb.nodes
  {
  }

  lemma SownAll(pb: Problem, s: Scope, ns: seq<nat>)
    requires forall n :: n in ns <==> n in pb.seeds
    ensures SeedsAmong(pb, s, ns[..|ns|]) == SeedItems(pb, s)
  {
    assert ns[..|ns|] == ns;
  }

  lemma SownState(pb: Problem, s: Scope, blank: Progress, p: Progress)
    requires blank.pred == map[] && blank.work == [] && Grown(blank, SeedItems(pb, s), Seed, p)
    ensures StateOf(p) == Start(pb, s)
  {
    hide SeedItems;
    assert SeedItems(pb, s) - blank.pred.Keys == SeedItems(pb, s);
  }

  /** Whatever the cache holds, the loop discovers exactly what seeds, edges, calls and
      spliced summaries attain; without a summary in scope it is the canonical run. */
  method Saturate(pb: Problem, s: Scope, summaries: Summaries) returns (p: Progress)
    requires WellFormed(pb)
    ensures Tracks(pb, p)
    ensures forall x :: x in p.pred <==> Attained(pb, s, summaries, x)
    ensures forall x :: x in p.pred ==> OriginHolds(pb, s, summaries, p.pred, x)
    ensures Invalidated(s, summaries) ==> p.pred == Tabulated(pb, s).pred
  {
    hide WellFormed, Invalidated, Universe, Run, Within, Successors, Queue, NoRepeat, Touched, FactsMatch, SortWork,
      Steps, Attained, OriginHolds, Spreading, Range;
    p := Sow(pb, s);
    StartWithin(pb, s);
    SpreadStart(pb, s, summaries);
    SeedsInRange(pb, s, summaries);
    while p.work != []
      invariant Tracks(pb, p) && p.pred.Keys <= Range(pb, summaries) && Spreading(pb, s, summaries, StateOf(p))
      invariant Invalidated(s, summaries) ==> Within(pb, StateOf(p)) && Run(pb, s, StateOf(p)) == Tabulated(pb, s)
      decreases Range(pb, summaries) - p.pred.Keys, Queue(p.work)
    {
      WorkQueued(pb, p);
      var sorted := SortWork(pb, p.work);
      PopFront(pb, p.work, sorted);
      var x := sorted[0];
      ghost var was := StateOf(p);
      var popped := p.(work := sorted[1..]);
      assert Tracks(pb, popped);
      NodeKnown(pb, p, x);
      p := Process(pb, s, summaries, popped, x);
      GrownSpread(pb, s, summaries, was, popped, x, p);
      StepsInRange(pb, s, summaries, x);
      if Invalidated(s, summaries) {
        StepWithin(pb, s, was, x);
        RunStep(pb, s, was);
        NothingSpliced(pb, s, summaries, x);
        GrownStep(pb, s, was, popped, x, p);
      }
    }
    EmptyQueue();
    forall x ensures x in p.pred <==> Attained(pb, s, summaries, x) { SpreadExact(pb, s, summaries, StateOf(p), x); }
    SpreadOrigins(pb, s, summaries, StateOf(p));
    if Invalidated(s, summaries) { RunDone(pb, s, StateOf(p)); }
  }

  lemma SpreadOrigins(pb: Problem, s: Scope, summaries: Summaries, st: State)
    requires WellFormed(pb) && Spreading(pb, s, summaries, st)
    ensures forall x :: x in st.pred ==> OriginHolds(pb, s, summaries, st.pred, x)
  {
  }

  lemma GrownSpread(pb: Problem, s: Scope, summaries: Summaries, was: State, popped: Progress, x: Item, p: Progress)
    requires WellFormed(pb) && popped.pred == was.pred && Queue(popped.work) == was.work - {x} && x in was.pred
    requires Grown(popped, Steps(pb, s, summaries, x), From(x), p) && Spreading(pb, s, summaries, was)
    ensures Spreading(pb, s, summaries, StateOf(p)) && p.pred.Keys == was.pred.Keys + Steps(pb, s, summaries, x)
    ensures Queue(p.work) == was.work - {x} + (Steps(pb, s, summaries, x) - was.pred.Keys)
  {
    hide Steps, Queue, WellFormed, Spreading;
    SpreadNext(pb, s, summaries, was, x, StateOf(p));
  }

  lemma WorkQueued(pb: Problem, p: Progress)
    requires WellFormed(pb) && Tracks(pb, p) && p.work != []
    ensures forall y :: y in p.work ==> y.node in pb.rank
    ensures Queue(p.work) != {}
  {
    hide NoRepeat, Touched;
    forall y | y in p.work ensures y.node in pb.rank { assert y in Queue(p.work); }
    assert p.work[0] in Queue(p.work);
  }

  lemma NodeKnown(pb: Problem, p: Progress, x: Item)
    requires Tracks(pb, p) && x in Queue(p.work)
    ensures x.node in pb.nodes
  {
  }

  lemma RunStep(pb: Problem, s: Scope, st: State)
    requires WellFormed(pb) && Within(pb, st) && st.work != {} && forall y :: y in st.work ==> y.node in pb.rank
    requires Within(pb, StepOn(pb, s, st, First(pb, st.work)))
    ensures Run(pb, s, st) == Run(pb, s, StepOn(pb, s, st, First(pb, st.work)))
  {
    hide WellFormed, Universe, Within, Successors;
  }

  lemma RunDone(pb: Problem, s: Scope, st: State)
    requires WellFormed(pb) && Within(pb, st) && st.work == {}
    ensures Run(pb, s, st) == st
  {
  }

  lemma GrownStep(pb: Problem, s: Scope, was: State, popped: Progress, x: Item, p: Progress)
    requires WellFormed(pb) && popped.pred == was.pred && Queue(popped.work) == was.work - {x}
    requires Grown(popped, Successors(pb, s, x), From(x), p)
    ensures StateOf(p) == StepOn(pb, s, was, x)
  {
    hide Successors, Queue, WellFormed;
  }
}
