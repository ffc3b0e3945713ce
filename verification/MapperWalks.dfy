/** The mapper's pre-order walk over the AST: an explicit stack, children in key
    order, and four facts recorded per node. */
module MapperWalks {
  import opened FiniteSets
  import opened KeyedOrders
  import opened JoinedTexts

  /** What the mapper reads of a node; its id is the key of the table. */
  datatype RawNode = RawNode(kind: Text, fullName: Text, filename: Text, line: int, col: int, code: Text, name: Text,
    callee: Text)
  type Table = map<Text, RawNode>
  type Parents = map<Text, Text>

  const METHOD: Text := [77, 69, 84, 72, 79, 68]
  const TYPE_DECL: Text := [84, 89, 80, 69, 95, 68, 69, 67, 76]

  predicate IsDecl(n: RawNode) {
    n.kind == METHOD || n.kind == TYPE_DECL
  }

  /** The nearest declaration at or above a node. */
  datatype Home = Nowhere | At(id: Text)

  /** A stack entry, and what is recorded when it is popped. The structural path
      is kept as its list of positions. */
  datatype Frame = Frame(id: Text, decl: Text, file: Text, path: seq<nat>, home: Home)
  datatype Info = Info(rank: nat, path: seq<nat>, decl: Text, file: Text, home: Home)

  function InfoOf(t: Table, f: Frame, rank: nat): (r: Info)
    requires f.id in t
  {
    var n := t[f.id];
    var d := IsDecl(n);
    Info(rank, if d then [] else f.path, if d then n.fullName else f.decl,
         if n.filename != [] then n.filename else f.file,
         if d then At(f.id) else f.home)
  }

  function ChildKeys(t: Table, inherited: Text): (r: Keys)
    ensures r.Keys == t.Keys
  {
    map v | v in t :: Key(if t[v].filename != [] then t[v].filename else inherited, t[v].line, t[v].col, v)
  }

  lemma ChildKeysApart(t: Table, inherited: Text, s: set<Text>)
    requires s <= t.Keys
    ensures Apart(ChildKeys(t, inherited), s)
  {
  }

  function Kids(parent: Parents, p: Text): (r: set<Text>) {
    set c | c in parent && parent[c] == p
  }

  function Roots(t: Table, parent: Parents): (r: set<Text>) {
    set v | v in t && v !in parent
  }

  ghost function KidsInOrder(t: Table, parent: Parents, p: Text, file: Text): (r: seq<Text>)
    requires parent.Keys <= t.Keys
  {
    ChildKeysApart(t, file, Kids(parent, p));
    OrderBy(ChildKeys(t, file), Kids(parent, p))
  }

  function FrameOf(info: Info, kids: seq<Text>, i: nat): (f: Frame)
    requires i < |kids|
  {
    Frame(kids[i], info.decl, info.file, info.path + [i], info.home)
  }

  /** The last child first, so that the first child is on top. */
  function Pushed(info: Info, kids: seq<Text>): (r: seq<Frame>)
    ensures |r| == |kids|
  {
    seq(|kids|, i requires 0 <= i < |kids| => FrameOf(info, kids, |kids| - 1 - i))
  }

  function RootFrame(v: Text): (f: Frame) {
    Frame(v, [], [], [], Nowhere)
  }

  function RootFrames(vs: seq<Text>): (r: seq<Frame>)
    ensures |r| == |vs|
  {
    seq(|vs|, i requires 0 <= i < |vs| => RootFrame(vs[|vs| - 1 - i]))
  }

  // ----- what holds between pops

  predicate OnStack(stack: seq<Frame>, v: Text) {
    exists i :: 0 <= i < |stack| && stack[i].id == v
  }

  predicate ParentSeen(parent: Parents, out: map<Text, Info>, v: Text) {
    v in parent ==> parent[v] in out
  }

  ghost predicate Forest(t: Table, parent: Parents) {
    parent.Keys <= t.Keys && forall c :: c in parent ==> parent[c] in t
  }

  ghost predicate Sane(t: Table, parent: Parents, stack: seq<Frame>, out: map<Text, Info>) {
    && Forest(t, parent) && out.Keys <= t.Keys
    && (forall i :: 0 <= i < |stack| ==>
          stack[i].id in t && stack[i].id !in out && ParentSeen(parent, out, stack[i].id))
    && (forall i, j {:trigger stack[i], stack[j]} :: 0 <= i < j < |stack| ==> stack[i].id != stack[j].id)
    && (forall v :: v in out ==> ParentSeen(parent, out, v))
    && (forall c :: c in parent && parent[c] in out ==> c in out || OnStack(stack, c))
    && (forall v :: v in Roots(t, parent) ==> v in out || OnStack(stack, v))
  }

  ghost function Popped(t: Table, parent: Parents, stack: seq<Frame>, out: map<Text, Info>): (r: seq<Frame>)
    requires stack != [] && Forest(t, parent) && stack[|stack| - 1].id in t
  {
    var f := stack[|stack| - 1];
    var info := InfoOf(t, f, |out|);
    stack[..|stack| - 1] + Pushed(info, KidsInOrder(t, parent, f.id, info.file))
  }

  lemma PushedIds(info: Info, kids: seq<Text>, v: Text)
    ensures OnStack(Pushed(info, kids), v) <==> v in kids
  {
    var r := Pushed(info, kids);
    if v in kids {
      var i :| 0 <= i < |kids| && kids[i] == v;
      var k := |kids| - 1 - i;
      assert |kids| - 1 - k == i;
      PushedAt(info, kids, k);
      assert r[k].id == v;
    }
    if OnStack(r, v) {
      var k :| 0 <= k < |r| && r[k].id == v;
      PushedAt(info, kids, k);
      assert kids[|kids| - 1 - k] in kids;
    }
  }

  lemma PushedAt(info: Info, kids: seq<Text>, k: nat)
    requires k < |kids|
    ensures Pushed(info, kids)[k] == FrameOf(info, kids, |kids| - 1 - k)
  {
  }

  lemma OnStackAppend(a: seq<Frame>, b: seq<Frame>, v: Text)
    ensures OnStack(a + b, v) <==> OnStack(a, v) || OnStack(b, v)
  {
    if OnStack(a, v) {
      var i :| 0 <= i < |a| && a[i].id == v;
      assert (a + b)[i].id == v;
    }
    if OnStack(b, v) {
      var i :| 0 <= i < |b| && b[i].id == v;
      assert (a + b)[|a| + i].id == v;
    }
  }

  lemma KidsMembers(t: Table, parent: Parents, p: Text, file: Text, v: Text)
    requires Forest(t, parent)
    ensures v in KidsInOrder(t, parent, p, file) <==> v in parent && parent[v] == p
  {
    var r := KidsInOrder(t, parent, p, file);
    assert v in r <==> v in Elements(r);
  }

  lemma KidsDistinct(t: Table, parent: Parents, p: Text, file: Text, i: nat, j: nat)
    requires Forest(t, parent) && i < j < |KidsInOrder(t, parent, p, file)|
    ensures KidsInOrder(t, parent, p, file)[i] != KidsInOrder(t, parent, p, file)[j]
  {
    var r, keys := KidsInOrder(t, parent, p, file), ChildKeys(t, file);
    KeyLessTotal(keys[r[i]], keys[r[j]]);
  }

  /** A new child was neither recorded nor waiting: its parent had not been popped. */
  lemma ChildIsNew(t: Table, parent: Parents, stack: seq<Frame>, out: map<Text, Info>, c: Text)
    requires Sane(t, parent, stack, out) && stack != [] && c in parent && parent[c] == stack[|stack| - 1].id
    ensures c !in out && !OnStack(stack, c)
  {
    assert stack[|stack| - 1].id !in out;
  }

  lemma PoppedAt(t: Table, parent: Parents, stack: seq<Frame>, out: map<Text, Info>, i: nat)
    requires Sane(t, parent, stack, out) && stack != [] && i < |Popped(t, parent, stack, out)|
    ensures var next, p := Popped(t, parent, stack, out), stack[|stack| - 1].id;
            if i < |stack| - 1 then next[i] == stack[i]
            else next[i].id in parent && parent[next[i].id] == p && next[i].id !in out && !OnStack(stack, next[i].id)
  {
    hide Sane, KidsInOrder, OnStack;
    SaneForest(t, parent, stack, out);
    var f := stack[|stack| - 1];
    var info := InfoOf(t, f, |out|);
    var kids := KidsInOrder(t, parent, f.id, info.file);
    if i >= |stack| - 1 {
      var k := i - (|stack| - 1);
      assert Popped(t, parent, stack, out)[i] == Pushed(info, kids)[k];
      var c := kids[|kids| - 1 - k];
      assert c in kids;
      KidsMembers(t, parent, f.id, info.file, c);
      ChildIsNew(t, parent, stack, out, c);
    }
  }

  lemma SaneForest(t: Table, parent: Parents, stack: seq<Frame>, out: map<Text, Info>)
    requires Sane(t, parent, stack, out)
    ensures Forest(t, parent) && out.Keys <= t.Keys
    ensures stack != [] ==> stack[|stack| - 1].id in t && stack[|stack| - 1].id !in out
  {
  }

  lemma PushedDistinct(t: Table, parent: Parents, p: Text, info: Info, i: nat, j: nat)
    requires Forest(t, parent) && i < j < |KidsInOrder(t, parent, p, info.file)|
    ensures var r := Pushed(info, KidsInOrder(t, parent, p, info.file)); r[i].id != r[j].id
  {
    hide KidsInOrder;
    var kids := KidsInOrder(t, parent, p, info.file);
    KidsDistinct(t, parent, p, info.file, |kids| - 1 - j, |kids| - 1 - i);
    PushedAt(info, kids, i);
    PushedAt(info, kids, j);
  }

  lemma StackDistinct(t: Table, parent: Parents, stack: seq<Frame>, out: map<Text, Info>, i: nat, j: nat)
    requires Sane(t, parent, stack, out) && i < j < |stack|
    ensures stack[i].id != stack[j].id && OnStack(stack, stack[i].id)
  {
  }

  lemma PoppedDistinct(t: Table, parent: Parents, stack: seq<Frame>, out: map<Text, Info>, i: nat, j: nat)
    requires Sane(t, parent, stack, out) && stack != [] && i < j < |Popped(t, parent, stack, out)|
    ensures Popped(t, parent, stack, out)[i].id != Popped(t, parent, stack, out)[j].id
  {
    hide KidsInOrder, Sane, OnStack, Pushed;
    SaneForest(t, parent, stack, out);
    var next, n := Popped(t, parent, stack, out), |stack| - 1;
    PoppedAt(t, parent, stack, out, i);
    PoppedAt(t, parent, stack, out, j);
    if i < n {
      StackDistinct(t, parent, stack, out, i, if j < n then j else n);
    } else {
      var info := InfoOf(t, stack[n], |out|);
      var kids := KidsInOrder(t, parent, stack[n].id, info.file);
      assert next[i] == Pushed(info, kids)[i - n] && next[j] == Pushed(info, kids)[j - n];
      PushedDistinct(t, parent, stack[n].id, info, i - n, j - n);
    }
  }

  lemma PoppedHolds(t: Table, parent: Parents, stack: seq<Frame>, out: map<Text, Info>, v: Text)
    requires Sane(t, parent, stack, out) && stack != []
    ensures var next, f := Popped(t, parent, stack, out), stack[|stack| - 1];
            OnStack(next, v) <==> (OnStack(stack, v) && v != f.id) || (v in parent && parent[v] == f.id)
  {
    hide KidsInOrder;
    var f := stack[|stack| - 1];
    var info := InfoOf(t, f, |out|);
    var kids := KidsInOrder(t, parent, f.id, info.file);
    OnStackAppend(stack[..|stack| - 1], Pushed(info, kids), v);
    PushedIds(info, kids, v);
    KidsMembers(t, parent, f.id, info.file, v);
    if OnStack(stack, v) && v != f.id {
      var i :| 0 <= i < |stack| && stack[i].id == v;
      assert stack[..|stack| - 1][i].id == v;
    }
    if OnStack(stack[..|stack| - 1], v) {
      var i :| 0 <= i < |stack| - 1 && stack[..|stack| - 1][i].id == v;
      assert stack[i].id == v && stack[i].id != stack[|stack| - 1].id;
    }
  }

  /** Popping keeps the walk sane. */
  lemma SaneNext(t: Table, parent: Parents, stack: seq<Frame>, out: map<Text, Info>)
    requires Sane(t, parent, stack, out) && stack != []
    ensures stack[|stack| - 1].id in t && stack[|stack| - 1].id !in out
    ensures Sane(t, parent, Popped(t, parent, stack, out),
                 out[stack[|stack| - 1].id := InfoOf(t, stack[|stack| - 1], |out|)])
  {
    hide KidsInOrder, OnStack, Popped, Roots;
    var f := stack[|stack| - 1];
    var next, out' := Popped(t, parent, stack, out), out[f.id := InfoOf(t, f, |out|)];
    forall i | 0 <= i < |next| ensures next[i].id in t && next[i].id !in out' && ParentSeen(parent, out', next[i].id) {
      PoppedAt(t, parent, stack, out, i);
      if i >= |stack| - 1 { TopOnStack(stack); }
    }
    forall i, j {:trigger next[i], next[j]} | 0 <= i < j < |next| ensures next[i].id != next[j].id {
      PoppedDistinct(t, parent, stack, out, i, j);
    }
    forall v | v in out' ensures ParentSeen(parent, out', v) {
      assert v in out ==> ParentSeen(parent, out, v);
      assert ParentSeen(parent, out, f.id);
    }
    forall c | c in parent && parent[c] in out'
      ensures c in out' || OnStack(next, c) { PoppedHolds(t, parent, stack, out, c); }
    forall v | v in Roots(t, parent) ensures v in out' || OnStack(next, v) { PoppedHolds(t, parent, stack, out, v); }
  }

  lemma TopOnStack(stack: seq<Frame>)
    requires stack != []
    ensures OnStack(stack, stack[|stack| - 1].id)
  {
  }

  /** The whole walk as a function of the table and the parents alone. */
  ghost function Run(t: Table, parent: Parents, stack: seq<Frame>, out: map<Text, Info>): (r: map<Text, Info>)
    requires Sane(t, parent, stack, out)
    ensures Sane(t, parent, [], r)
    decreases t.Keys - out.Keys
  {
    if stack == [] then out
    else
      var f := stack[|stack| - 1];
      SaneNext(t, parent, stack, out);
      assert f.id in t.Keys - out.Keys;
      Run(t, parent, Popped(t, parent, stack, out), out[f.id := InfoOf(t, f, |out|)])
  }

  // ----- what is recorded

  ghost predicate ChildOf(t: Table, parent: Parents, out: map<Text, Info>, f: Frame, i: nat)
    requires Forest(t, parent) && f.id in parent && parent[f.id] in out
  {
    var p := parent[f.id];
    var kids := KidsInOrder(t, parent, p, out[p].file);
    i < |kids| && f == FrameOf(out[p], kids, i)
  }

  /** A waiting entry is a root, or the child of a recorded node at its place. */
  ghost predicate FrameRight(t: Table, parent: Parents, out: map<Text, Info>, f: Frame)
    requires Forest(t, parent)
  {
    if f.id in parent then parent[f.id] in out && exists i :: ChildOf(t, parent, out, f, i) else f == RootFrame(f.id)
  }

  ghost predicate FromFrame(t: Table, parent: Parents, out: map<Text, Info>, v: Text, f: Frame)
    requires Forest(t, parent) && v in out && v in t
  {
    f.id == v && FrameRight(t, parent, out, f) && out[v] == InfoOf(t, f, out[v].rank)
  }

  ghost predicate InfoRight(t: Table, parent: Parents, out: map<Text, Info>, v: Text)
    requires Forest(t, parent) && v in out && v in t
  {
    && (exists f :: FromFrame(t, parent, out, v, f))
    && (v in parent ==> parent[v] in out && out[parent[v]].rank < out[v].rank)
  }

  ghost predicate Ranked(out: map<Text, Info>) {
    && (forall v :: v in out ==> out[v].rank < |out|)
    && forall u, v {:trigger out[u], out[v]} :: u in out && v in out && out[u].rank == out[v].rank ==> u == v
  }

  ghost predicate Recorded(t: Table, parent: Parents, stack: seq<Frame>, out: map<Text, Info>) {
    && Sane(t, parent, stack, out) && Ranked(out)
    && (forall i :: 0 <= i < |stack| ==> FrameRight(t, parent, out, stack[i]))
    && (forall v :: v in out ==> InfoRight(t, parent, out, v))
  }

  lemma FrameStays(t: Table, parent: Parents, out: map<Text, Info>, f: Frame, v: Text, info: Info)
    requires Forest(t, parent) && FrameRight(t, parent, out, f) && v !in out
    ensures FrameRight(t, parent, out[v := info], f)
  {
    if f.id in parent {
      var i :| ChildOf(t, parent, out, f, i);
      assert ChildOf(t, parent, out[v := info], f, i);
    }
  }

  lemma InfoStays(t: Table, parent: Parents, out: map<Text, Info>, u: Text, v: Text, info: Info)
    requires Forest(t, parent) && u in out && u in t && InfoRight(t, parent, out, u) && v !in out
    ensures InfoRight(t, parent, out[v := info], u)
  {
    hide FrameRight;
    var f :| FromFrame(t, parent, out, u, f);
    FrameStays(t, parent, out, f, v, info);
    assert FromFrame(t, parent, out[v := info], u, f);
  }

  lemma RankedNext(out: map<Text, Info>, v: Text, info: Info)
    requires Ranked(out) && v !in out && info.rank == |out|
    ensures Ranked(out[v := info])
  {
    assert |out[v := info]| == |out| + 1 by {
      assert out[v := info].Keys == out.Keys + {v};
      assert |out[v := info]| == |out[v := info].Keys| && |out| == |out.Keys|;
    }
  }

  lemma PushedRight(t: Table, parent: Parents, stack: seq<Frame>, out: map<Text, Info>, i: nat)
    requires Recorded(t, parent, stack, out) && stack != [] && stack[|stack| - 1].id in t
    requires stack[|stack| - 1].id !in out
    requires i < |Popped(t, parent, stack, out)|
    ensures var f := stack[|stack| - 1];
            FrameRight(t, parent, out[f.id := InfoOf(t, f, |out|)], Popped(t, parent, stack, out)[i])
  {
    hide KidsInOrder, Sane, FrameRight, Ranked;
    SaneForest(t, parent, stack, out);
    var f, n := stack[|stack| - 1], |stack| - 1;
    var info := InfoOf(t, f, |out|);
    var kids := KidsInOrder(t, parent, f.id, info.file);
    var out' := out[f.id := info];
    var g := Popped(t, parent, stack, out)[i];
    if i < n {
      assert g == stack[i];
      FrameStays(t, parent, out, g, f.id, info);
    } else {
      assert g == Pushed(info, kids)[i - n];
      PushedAt(info, kids, i - n);
      PushedFrameRight(t, parent, out', f.id, |kids| - 1 - (i - n));
    }
  }

  lemma PushedFrameRight(t: Table, parent: Parents, out: map<Text, Info>, p: Text, k: nat)
    requires Forest(t, parent) && p in out && k < |KidsInOrder(t, parent, p, out[p].file)|
    ensures FrameRight(t, parent, out, FrameOf(out[p], KidsInOrder(t, parent, p, out[p].file), k))
  {
    hide KidsInOrder;
    var kids := KidsInOrder(t, parent, p, out[p].file);
    var g := FrameOf(out[p], kids, k);
    assert kids[k] in kids;
    KidsMembers(t, parent, p, out[p].file, kids[k]);
    assert ChildOf(t, parent, out, g, k);
  }

  lemma RecordedNext(t: Table, parent: Parents, stack: seq<Frame>, out: map<Text, Info>)
    requires Recorded(t, parent, stack, out) && stack != []
    ensures stack[|stack| - 1].id in t && stack[|stack| - 1].id !in out
    ensures Recorded(t, parent, Popped(t, parent, stack, out),
                     out[stack[|stack| - 1].id := InfoOf(t, stack[|stack| - 1], |out|)])
  {
    hide KidsInOrder, Sane, FrameRight, Ranked, InfoRight, Popped;
    SaneNext(t, parent, stack, out);
    SaneForest(t, parent, stack, out);
    var f := stack[|stack| - 1];
    var info := InfoOf(t, f, |out|);
    var next, out' := Popped(t, parent, stack, out), out[f.id := info];
    RankedNext(out, f.id, info);
    forall i | 0 <= i < |next| ensures FrameRight(t, parent, out', next[i]) { PushedRight(t, parent, stack, out, i); }
    forall v | v in out' ensures v in t && InfoRight(t, parent, out', v) {
      if v == f.id { TopRight(t, parent, stack, out); } else { InfoStays(t, parent, out, v, f.id, info); }
    }
  }

  lemma TopRight(t: Table, parent: Parents, stack: seq<Frame>, out: map<Text, Info>)
    requires Recorded(t, parent, stack, out) && stack != []
    ensures var f := stack[|stack| - 1];
            f.id in t && f.id !in out && InfoRight(t, parent, out[f.id := InfoOf(t, f, |out|)], f.id)
  {
    hide KidsInOrder, Ranked;
    var f := stack[|stack| - 1];
    var info := InfoOf(t, f, |out|);
    var out' := out[f.id := info];
    FrameStays(t, parent, out, f, f.id, info);
    assert FromFrame(t, parent, out', f.id, f);
    if f.id in parent {
      assert ParentSeen(parent, out, f.id);
      RankBelow(out, parent[f.id]);
    }
  }

  lemma RankBelow(out: map<Text, Info>, v: Text)
    requires Ranked(out) && v in out
    ensures out[v].rank < |out|
  {
  }

  lemma {:induction false} RunRecorded(t: Table, parent: Parents, stack: seq<Frame>, out: map<Text, Info>)
    requires Recorded(t, parent, stack, out)
    ensures Recorded(t, parent, [], Run(t, parent, stack, out))
    decreases t.Keys - out.Keys
  {
    hide Sane, FrameRight, Ranked, InfoRight, Popped, InfoOf;
    if stack != [] {
      var f := stack[|stack| - 1];
      RecordedNext(t, parent, stack, out);
      SaneForest(t, parent, stack, out);
      assert f.id in t.Keys - out.Keys;
      RunRecorded(t, parent, Popped(t, parent, stack, out), out[f.id := InfoOf(t, f, |out|)]);
    }
  }

  // ----- the start

  ghost function StartStack(t: Table, parent: Parents): (r: seq<Frame>) {
    ChildKeysApart(t, [], Roots(t, parent));
    RootFrames(OrderBy(ChildKeys(t, []), Roots(t, parent)))
  }

  lemma RootAt(vs: seq<Text>, i: nat)
    requires i < |vs|
    ensures RootFrames(vs)[i] == RootFrame(vs[|vs| - 1 - i])
  {
  }

  lemma StartAt(t: Table, parent: Parents, i: nat)
    requires i < |StartStack(t, parent)|
    ensures StartStack(t, parent)[i] == RootFrame(StartStack(t, parent)[i].id)
    ensures StartStack(t, parent)[i].id in Roots(t, parent)
  {
    ChildKeysApart(t, [], Roots(t, parent));
    var vs := OrderBy(ChildKeys(t, []), Roots(t, parent));
    RootAt(vs, i);
    assert vs[|vs| - 1 - i] in Elements(vs);
  }

  lemma StartHolds(t: Table, parent: Parents, v: Text)
    requires v in Roots(t, parent)
    ensures OnStack(StartStack(t, parent), v)
  {
    hide Roots, KeyLess, Ascends, Apart, RootFrames, ChildKeys;
    assert Roots(t, parent) <= t.Keys by { RootsKnown(t, parent); }
    ChildKeysApart(t, [], Roots(t, parent));
    var vs := OrderBy(ChildKeys(t, []), Roots(t, parent));
    assert v in Elements(vs);
    var i :| 0 <= i < |vs| && vs[i] == v;
    var k := |vs| - 1 - i;
    RootAt(vs, k);
    assert RootFrames(vs)[k].id == v;
  }

  lemma StartDistinct(t: Table, parent: Parents, i: nat, j: nat)
    requires i < j < |StartStack(t, parent)|
    ensures StartStack(t, parent)[i].id != StartStack(t, parent)[j].id
  {
    ChildKeysApart(t, [], Roots(t, parent));
    var keys := ChildKeys(t, []);
    var vs := OrderBy(keys, Roots(t, parent));
    RootAt(vs, i);
    RootAt(vs, j);
    KeyLessTotal(keys[vs[|vs| - 1 - j]], keys[vs[|vs| - 1 - i]]);
  }

  lemma StartRecorded(t: Table, parent: Parents)
    requires Forest(t, parent)
    ensures Recorded(t, parent, StartStack(t, parent), map[])
  {
    hide StartStack;
    var stack := StartStack(t, parent);
    forall i | 0 <= i < |stack|
      ensures stack[i].id in t && ParentSeen(parent, map[], stack[i].id) && FrameRight(t, parent, map[], stack[i])
    {
      StartAt(t, parent, i);
    }
    forall i, j {:trigger stack[i], stack[j]} | 0 <= i < j < |stack|
      ensures stack[i].id != stack[j].id { StartDistinct(t, parent, i, j); }
    forall v | v in Roots(t, parent) ensures OnStack(stack, v) { StartHolds(t, parent, v); }
  }

  /** Everything the walk records. */
  ghost function Walked(t: Table, parent: Parents): (r: map<Text, Info>)
    requires Forest(t, parent)
    ensures Recorded(t, parent, [], r)
  {
    hide Recorded, StartStack;
    StartRecorded(t, parent);
    assert Sane(t, parent, StartStack(t, parent), map[]) by { RecordedSane(t, parent, StartStack(t, parent), map[]); }
    RunRecorded(t, parent, StartStack(t, parent), map[]);
    Run(t, parent, StartStack(t, parent), map[])
  }

  lemma RecordedSane(t: Table, parent: Parents, stack: seq<Frame>, out: map<Text, Info>)
    requires Recorded(t, parent, stack, out)
    ensures Sane(t, parent, stack, out)
  {
  }

  // ----- who is visited

  /** A chain of parents from the node up to a root. */
  ghost predicate Rooted(t: Table, parent: Parents, v: Text) {
    exists p :: RootedBy(t, parent, v, p)
  }

  predicate IsChild(parent: Parents, c: Text, p: Text) {
    c in parent && parent[c] == p
  }

  ghost predicate RootedBy(t: Table, parent: Parents, v: Text, p: seq<Text>) {
    && p != [] && p[|p| - 1] == v && p[0] in Roots(t, parent)
    && forall i :: 0 <= i < |p| - 1 ==> IsChild(parent, p[i + 1], p[i])
  }

  lemma RootedNext(t: Table, parent: Parents, v: Text)
    requires v in parent && Rooted(t, parent, parent[v])
    ensures Rooted(t, parent, v)
  {
    hide Roots;
    var p :| RootedBy(t, parent, parent[v], p);
    assert RootedBy(t, parent, v, p + [v]);
  }

  lemma {:induction false} VisitedRooted(t: Table, parent: Parents, out: map<Text, Info>, v: Text)
    requires Recorded(t, parent, [], out) && v in out
    ensures Rooted(t, parent, v)
    decreases out[v].rank
  {
    hide KidsInOrder, Ranked;
    assert InfoRight(t, parent, out, v);
    if v in parent {
      VisitedRooted(t, parent, out, parent[v]);
      RootedNext(t, parent, v);
    } else {
      assert RootedBy(t, parent, v, [v]);
    }
  }

  lemma {:induction false} ChainVisited(t: Table, parent: Parents, out: map<Text, Info>, v: Text, p: seq<Text>, i: nat)
    requires Sane(t, parent, [], out) && RootedBy(t, parent, v, p) && i < |p|
    ensures p[i] in out
  {
    if i > 0 {
      ChainVisited(t, parent, out, v, p, i - 1);
      assert IsChild(parent, p[i - 1 + 1], p[i - 1]);
    }
  }

  /** The walk visits exactly the nodes below a root, each once: ranks are distinct
      and below the number of visited nodes. */
  lemma WalkVisits(t: Table, parent: Parents, v: Text)
    requires Forest(t, parent)
    ensures v in Walked(t, parent) <==> Rooted(t, parent, v)
    ensures Ranked(Walked(t, parent))
  {
    hide Walked, Ranked, Rooted;
    var out := Walked(t, parent);
    RecordedSane(t, parent, [], out);
    if v in out { VisitedRooted(t, parent, out, v); }
    if Rooted(t, parent, v) { RootedVisited(t, parent, out, v); }
  }

  lemma RootedVisited(t: Table, parent: Parents, out: map<Text, Info>, v: Text)
    requires Sane(t, parent, [], out) && Rooted(t, parent, v)
    ensures v in out
  {
    hide Sane;
    var p :| RootedBy(t, parent, v, p);
    ChainVisited(t, parent, out, v, p, |p| - 1);
  }

  // ----- structural paths

  lemma PathOf(t: Table, parent: Parents, out: map<Text, Info>, v: Text)
    requires Recorded(t, parent, [], out) && v in out && out[v].home.At?
    ensures v in t && (IsDecl(t[v]) ==> out[v].home == At(v) && out[v].path == [])
    ensures !IsDecl(t[v]) ==>
              && v in parent && parent[v] in out && out[v].path != [] && out[parent[v]].home == out[v].home
              && out[parent[v]].path == out[v].path[..|out[v].path| - 1]
              && var kids := KidsInOrder(t, parent, parent[v], out[parent[v]].file);
                 out[v].path[|out[v].path| - 1] < |kids| && kids[out[v].path[|out[v].path| - 1]] == v
  {
    hide KidsInOrder, Ranked, IsDecl;
    assert InfoRight(t, parent, out, v);
    var f :| FromFrame(t, parent, out, v, f);
    if !IsDecl(t[v]) && v in parent {
      var i :| ChildOf(t, parent, out, f, i);
    }
  }

  /** Distinct nodes with the same nearest declaration have distinct structural paths. */
  lemma {:induction false} PathsApart(t: Table, parent: Parents, out: map<Text, Info>, u: Text, v: Text)
    requires Recorded(t, parent, [], out) && u in out && v in out
    requires out[u].home.At? && out[u].home == out[v].home && out[u].path == out[v].path
    ensures u == v
    decreases |out[u].path|
  {
    hide KidsInOrder, IsDecl, Recorded;
    PathOf(t, parent, out, u);
    PathOf(t, parent, out, v);
    if out[u].path != [] { PathsApart(t, parent, out, parent[u], parent[v]); }
  }

  /** The same for the dotted text that is stored. */
  lemma PathTextsApart(t: Table, parent: Parents, out: map<Text, Info>, u: Text, v: Text)
    requires Recorded(t, parent, [], out) && u in out && v in out && u != v && out[u].home.At?
    requires out[u].home == out[v].home
    ensures Dotted(out[u].path) != Dotted(out[v].path)
  {
    hide Recorded, Dotted;
    if Dotted(out[u].path) == Dotted(out[v].path) {
      DottedInjective(out[u].path, out[v].path);
      PathsApart(t, parent, out, u, v);
    }
  }

  // ----- one step

  lemma RunStep(t: Table, parent: Parents, stack: seq<Frame>, out: map<Text, Info>)
    requires Sane(t, parent, stack, out) && stack != [] && stack[|stack| - 1].id in t
    requires Sane(t, parent, Popped(t, parent, stack, out),
                  out[stack[|stack| - 1].id := InfoOf(t, stack[|stack| - 1], |out|)])
    ensures Run(t, parent, stack, out) == Run(t, parent, Popped(t, parent, stack, out),
                                              out[stack[|stack| - 1].id := InfoOf(t, stack[|stack| - 1], |out|)])
  {
    hide Sane, Popped, InfoOf;
  }

  lemma RootsKnown(t: Table, parent: Parents)
    ensures Roots(t, parent) <= t.Keys
  {
  }
}
