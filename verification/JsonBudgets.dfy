/** `_json_budget`: a stack walk that charges every value before anything is
    printed, and admits exactly what fits. */
module JsonBudgets {
  import opened ByteStrings
  import opened JsonTexts

  const MAX_VALUES := 100_000
  const MAX_DEPTH := 24
  const MAX_BYTES := 8 * 1024 * 1024

  /** What the budget admits. */
  predicate Fits(v: Value, maximum: int) {
    && 1 <= maximum <= MAX_BYTES
    && Typed(v) && Count(v) <= MAX_VALUES && Deepest(v) <= MAX_DEPTH && Size(v) <= maximum
  }

  // ----- values waiting to be charged

  datatype Task = Task(value: Value, depth: nat)

  function CountTasks(ts: seq<Task>): (n: nat)
    ensures n >= |ts|
  {
    if ts == [] then 0 else CountTasks(ts[..|ts| - 1]) + Count(ts[|ts| - 1].value)
  }

  function SizeTasks(ts: seq<Task>): (n: nat) {
    if ts == [] then 0 else SizeTasks(ts[..|ts| - 1]) + Size(ts[|ts| - 1].value)
  }

  predicate Good(t: Task) {
    Typed(t.value) && t.depth + Deepest(t.value) <= MAX_DEPTH
  }

  predicate GoodAll(ts: seq<Task>) {
    forall t :: t in ts ==> Good(t)
  }

  lemma {:induction false} TasksAppend(ts: seq<Task>, us: seq<Task>)
    ensures CountTasks(ts + us) == CountTasks(ts) + CountTasks(us)
    ensures SizeTasks(ts + us) == SizeTasks(ts) + SizeTasks(us)
  {
    if us == [] {
      assert ts + us == ts;
    } else {
      assert (ts + us)[..|ts + us| - 1] == ts + us[..|us| - 1];
      TasksAppend(ts, us[..|us| - 1]);
    }
  }

  lemma GoodAppend(ts: seq<Task>, us: seq<Task>)
    ensures GoodAll(ts + us) <==> GoodAll(ts) && GoodAll(us)
  {
    hide Good;
    if GoodAll(ts + us) {
      forall t | t in ts ensures Good(t) { assert t in ts + us; }
      forall t | t in us ensures Good(t) { assert t in ts + us; }
    }
  }

  function ItemTasks(vs: seq<Value>, depth: nat): (r: seq<Task>)
    ensures |r| == |vs|
  {
    if vs == [] then [] else [Task(vs[0], depth)] + ItemTasks(vs[1..], depth)
  }

  function EntryTasks(es: seq<Entry>, depth: nat): (r: seq<Task>)
    ensures |r| == 2 * |es|
  {
    if es == [] then [] else [Task(es[0].key, depth), Task(es[0].child, depth)] + EntryTasks(es[1..], depth)
  }

  predicate StringKeys(es: seq<Entry>) {
    forall e :: e in es ==> e.key.Str?
  }

  lemma LoneTask(t: Task)
    ensures CountTasks([t]) == Count(t.value) && SizeTasks([t]) == Size(t.value) && (GoodAll([t]) <==> Good(t))
  {
    assert [t][..0] == [];
    assert CountTasks([]) == 0 && SizeTasks([]) == 0;
    assert t in [t];
  }

  lemma {:induction false} ItemTasksTotal(vs: seq<Value>, depth: nat)
    ensures CountTasks(ItemTasks(vs, depth)) == CountItems(vs) && SizeTasks(ItemTasks(vs, depth)) == SizeItems(vs)
    ensures GoodAll(ItemTasks(vs, depth)) <==>
              (forall x :: x in vs ==> Typed(x)) && (vs != [] ==> depth + DeepestItem(vs) <= MAX_DEPTH)
  {
    if vs != [] {
      ItemTasksTotal(vs[1..], depth);
      TasksAppend([Task(vs[0], depth)], ItemTasks(vs[1..], depth));
      GoodAppend([Task(vs[0], depth)], ItemTasks(vs[1..], depth));
      LoneTask(Task(vs[0], depth));
      assert vs[0] in vs && forall x :: x in vs <==> x == vs[0] || x in vs[1..];
      assert ItemTasks(vs, depth) == [Task(vs[0], depth)] + ItemTasks(vs[1..], depth);
    } else {
      NothingWaits();
    }
  }

  lemma PairTasks(e: Entry, depth: nat)
    ensures var ts := [Task(e.key, depth), Task(e.child, depth)];
            && CountTasks(ts) == CountEntry(e) && SizeTasks(ts) == SizeEntry(e)
            && (GoodAll(ts) <==> Typed(e.key) && Typed(e.child) && depth + DeepestOf(e) <= MAX_DEPTH)
  {
    var a, b := [Task(e.key, depth)], [Task(e.child, depth)];
    assert a + b == [Task(e.key, depth), Task(e.child, depth)];
    TasksAppend(a, b);
    GoodAppend(a, b);
    LoneTask(Task(e.key, depth));
    LoneTask(Task(e.child, depth));
  }

  lemma {:induction false} EntryTasksTotal(es: seq<Entry>, depth: nat)
    ensures CountTasks(EntryTasks(es, depth)) == CountEntries(es) && SizeTasks(EntryTasks(es, depth)) == SizeEntries(es)
    ensures StringKeys(es) && GoodAll(EntryTasks(es, depth)) <==>
              (forall e :: e in es ==> TypedEntry(e)) && (es != [] ==> depth + DeepestEntry(es) <= MAX_DEPTH)
  {
    if es != [] {
      EntryTasksTotal(es[1..], depth);
      var ts := [Task(es[0].key, depth), Task(es[0].child, depth)];
      PairTasks(es[0], depth);
      TasksAppend(ts, EntryTasks(es[1..], depth));
      GoodAppend(ts, EntryTasks(es[1..], depth));
      assert es[0] in es && forall x :: x in es <==> x == es[0] || x in es[1..];
      assert EntryTasks(es, depth) == ts + EntryTasks(es[1..], depth);
    } else {
      NothingWaits();
    }
  }

  // ----- the walk

  lemma {:induction false} CodeSizeAppend(codes: seq<nat>, c: nat)
    ensures CodeSize(codes + [c]) == CodeSize(codes) + CharSize(c)
  {
    if codes == [] {
      assert (codes + [c])[1..] == [];
    } else {
      assert (codes + [c])[1..] == codes[1..] + [c];
      CodeSizeAppend(codes[1..], c);
    }
  }

  lemma {:induction false} CodeSizePrefix(codes: seq<nat>, k: nat)
    requires k <= |codes|
    ensures CodeSize(codes[..k]) <= CodeSize(codes)
  {
    if k > 0 {
      CodeSizePrefix(codes[1..], k - 1);
      assert codes[..k][1..] == codes[1..][..k - 1];
    }
  }

  predicate Surrogate(c: nat) {
    0xD800 <= c <= 0xDFFF
  }

  /** One string, character by character. */
  method ChargeString(codes: seq<Code>, maximum: nat, before: nat) returns (ok: bool, encoded: nat)
    requires before <= maximum
    ensures ok ==> encoded == before + 2 + CodeSize(codes) <= maximum
    ensures ok ==> TypedScalar(Str(codes))
    ensures !ok ==> !TypedScalar(Str(codes)) || before + 2 + CodeSize(codes) > maximum
  {
    hide CharSize;
    ok, encoded := false, before;
    if |codes| > SHORT || |codes| > maximum - encoded { return; }
    encoded := encoded + 2;
    for k := 0 to |codes|
      invariant encoded == before + 2 + CodeSize(codes[..k])
      invariant k > 0 ==> encoded <= maximum
      invariant forall i :: 0 <= i < k ==> !Surrogate(codes[i])
    {
      var c := codes[k];
      if Surrogate(c) { return; }
      assert codes[..k + 1] == codes[..k] + [c];
      CodeSizeAppend(codes[..k], c);
      CodeSizePrefix(codes, k + 1);
      encoded := encoded + CharSize(c);
      if encoded > maximum { return; }
    }
    assert codes[..|codes|] == codes;
    ok := encoded <= maximum;
  }

  /** One value of any type: its own charge and the values it puts on the stack. */
  method Charge(t: Task, maximum: nat, before: nat, count: nat, waiting: nat)
    returns (ok: bool, encoded: nat, more: seq<Task>)
    requires before <= maximum && count <= MAX_VALUES && t.depth <= MAX_DEPTH
    ensures ok ==> before <= encoded <= maximum && encoded + SizeTasks(more) == before + Size(t.value)
    ensures ok ==> CountTasks(more) + 1 == Count(t.value) && (GoodAll(more) <==> Good(t))
    ensures !ok ==> !Good(t) || before + Size(t.value) > maximum || count + waiting + Count(t.value) - 1 > MAX_VALUES
  {
    hide CodeSize, TypedScalar, GoodAll, IntText, CountItems, CountEntries, SizeItems, SizeEntries, DeepestItem,
      DeepestEntry, CountTasks, SizeTasks, ItemTasks, EntryTasks, Commas, Good;
    LeafGood(t);
    ok, encoded, more := false, before, [];
    NothingWaits();
    ConstantsTyped();
    match t.value {
      case Null => encoded := encoded + 4;
      case Bool(b) => encoded := encoded + if b then 4 else 5;
      case Int(i) =>
        IntTyped(i);
        if !(-TWO_63 <= i < TWO_63) { return; }
        encoded := encoded + |IntText(i)|;
      case Str(codes) =>
        ok, encoded := ChargeString(codes, maximum, encoded);
        if !ok { return; }
      case List(items) =>
        ListUnfolds(items, t.depth);
        if |items| > MAX_VALUES - count - waiting { return; }
        encoded := encoded + 2 + Commas(|items|);
        more := ItemTasks(items, t.depth + 1);
      case Dict(entries) =>
        DictUnfolds(entries, t.depth);
        if |entries| * 2 > MAX_VALUES - count - waiting { return; }
        encoded := encoded + 2 + Commas(|entries|) + |entries|;
        var strings := AllStrings(entries);
        if !strings { return; }
        more := EntryTasks(entries, t.depth + 1);
      case Other => return;
    }
    ok := encoded <= maximum;
  }

  lemma NothingWaits()
    ensures CountTasks([]) == 0 && SizeTasks([]) == 0 && GoodAll([])
  {
  }

  lemma ConstantsTyped()
    ensures TypedScalar(Null) && TypedScalar(Bool(false)) && TypedScalar(Bool(true))
  {
  }

  lemma IntTyped(i: int)
    ensures TypedScalar(Int(i)) <==> -TWO_63 <= i < TWO_63
  {
  }

  lemma LeafGood(t: Task)
    requires t.depth <= MAX_DEPTH
    ensures !t.value.List? && !t.value.Dict? ==> (Good(t) <==> TypedScalar(t.value))
    ensures !TypedScalar(Other)
  {
  }

  lemma ListUnfolds(items: seq<Value>, depth: nat)
    requires depth <= MAX_DEPTH
    ensures var ts := ItemTasks(items, depth + 1);
            && SizeTasks(ts) + 2 + Commas(|items|) == Size(List(items)) && CountTasks(ts) + 1 == Count(List(items))
            && CountTasks(ts) >= |items|
            && (GoodAll(ts) <==> Good(Task(List(items), depth)))
  {
    hide GoodAll, CountTasks, SizeTasks, ItemTasks;
    ItemTasksTotal(items, depth + 1);
  }

  lemma DictUnfolds(es: seq<Entry>, depth: nat)
    requires depth <= MAX_DEPTH
    ensures var ts := EntryTasks(es, depth + 1);
            && SizeTasks(ts) + 2 + Commas(|es|) + |es| == Size(Dict(es)) && CountTasks(ts) + 1 == Count(Dict(es))
            && CountTasks(ts) >= 2 * |es|
            && (StringKeys(es) && GoodAll(ts) <==> Good(Task(Dict(es), depth)))
  {
    hide GoodAll, CountTasks, SizeTasks, EntryTasks, StringKeys, TypedEntry;
    EntryTasksTotal(es, depth + 1);
  }

  method AllStrings(es: seq<Entry>) returns (ok: bool)
    ensures ok == StringKeys(es)
  {
    for i := 0 to |es|
      invariant forall k :: 0 <= k < i ==> es[k].key.Str?
    {
      if !es[i].key.Str? {
        assert es[i] in es;
        return false;
      }
    }
    ok := true;
  }

  /** The budget admits exactly the values that fit. */
  method JsonBudget(value: Value, maximum: int) returns (ok: bool)
    ensures ok <==> Fits(value, maximum)
  {
    hide CountTasks, SizeTasks, GoodAll, Good;
    ok := false;
    if !(1 <= maximum <= MAX_BYTES) { return; }
    var pending := [Task(value, 0)];
    var count, encoded := 0, 0;
    LoneTask(Task(value, 0));
    while pending != []
      invariant 0 <= encoded <= maximum && count <= MAX_VALUES
      invariant count + CountTasks(pending) == Count(value) && encoded + SizeTasks(pending) == Size(value)
      invariant GoodAll(pending) <==> Good(Task(value, 0))
      decreases CountTasks(pending)
    {
      var t, rest := pending[|pending| - 1], pending[..|pending| - 1];
      assert pending == rest + [t];
      TasksAppend(rest, [t]);
      GoodAppend(rest, [t]);
      LoneTask(t);
      WaitingCounted(rest);
      pending, count := rest, count + 1;
      if count > MAX_VALUES || t.depth > MAX_DEPTH {
        TooDeep(t);
        RootGood(value);
        return;
      }
      var fine, charged, more := Charge(t, maximum, encoded, count, |pending|);
      if !fine {
        RootGood(value);
        return;
      }
      TasksAppend(pending, more);
      GoodAppend(pending, more);
      pending, encoded := pending + more, charged;
    }
    NothingWaits();
    RootGood(value);
    ok := true;
  }

  lemma WaitingCounted(ts: seq<Task>)
    ensures CountTasks(ts) >= |ts|
  {
  }

  lemma TooDeep(t: Task)
    ensures t.depth > MAX_DEPTH ==> !Good(t)
  {
  }

  lemma RootGood(v: Value)
    ensures Good(Task(v, 0)) <==> Typed(v) && Deepest(v) <= MAX_DEPTH
  {
  }

  // ----- the printed text

  datatype Printed = TooBig | Text(bytes: Bytes)

  /** `canonical_bytes`: the length check after printing can never fire. */
  method CanonicalBytes(value: Value, maximum: int) returns (r: Printed)
    ensures r.Text? <==> Fits(value, maximum)
    ensures r.Text? ==> r.bytes == Print(Sorted(value)) && |r.bytes| == Size(value) <= maximum
  {
    var ok := JsonBudget(value, maximum);
    if !ok { return TooBig; }
    var text := Print(Sorted(value));
    PrintLength(Sorted(value));
    SortedMeasure(value);
    assert |text| <= maximum;
    r := Text(text);
  }
}
