/** Names put in order by keys that end in something unique: one list per set. */
module KeyedOrders {
  import opened FiniteSets
  import opened ByteStrings

  type Text = seq<nat>

  /** File, line, column and a last resort that differs between any two names. */
  datatype Key = Key(file: Text, line: int, col: int, last: seq<nat>)

  predicate KeyLess(a: Key, b: Key) {
    || Less(a.file, b.file)
    || (a.file == b.file && a.line < b.line)
    || (a.file == b.file && a.line == b.line && a.col < b.col)
    || (a.file == b.file && a.line == b.line && a.col == b.col && Less(a.last, b.last))
  }

  lemma KeyLessTotal(a: Key, b: Key)
    ensures KeyLess(a, b) || a == b || KeyLess(b, a)
    ensures !(KeyLess(a, b) && KeyLess(b, a)) && !KeyLess(a, a)
  {
    hide Less;
    LessTotal(a.file, b.file);
    LessTotal(a.last, b.last);
    LessIrreflexive(a.file);
    LessIrreflexive(a.last);
    if Less(a.file, b.file) && Less(b.file, a.file) { LessTransitive(a.file, b.file, a.file); }
    if Less(a.last, b.last) && Less(b.last, a.last) { LessTransitive(a.last, b.last, a.last); }
  }

  lemma KeyLessTransitive(a: Key, b: Key, c: Key)
    requires KeyLess(a, b) && KeyLess(b, c)
    ensures KeyLess(a, c)
  {
    hide Less;
    if Less(a.file, b.file) && Less(b.file, c.file) { LessTransitive(a.file, b.file, c.file); }
    if Less(a.last, b.last) && Less(b.last, c.last) { LessTransitive(a.last, b.last, c.last); }
  }

  type Keys = map<Text, Key>

  ghost predicate Apart(keys: Keys, s: set<Text>) {
    s <= keys.Keys && forall u, v {:trigger keys[u], keys[v]} :: u in s && v in s && keys[u] == keys[v] ==> u == v
  }

  ghost predicate Ascends(keys: Keys, s: seq<Text>) {
    && (forall v :: v in s ==> v in keys)
    && forall i, j {:trigger s[i], s[j]} :: 0 <= i < j < |s| ==> KeyLess(keys[s[i]], keys[s[j]])
  }

  function Insert(keys: Keys, x: Text, s: seq<Text>): (r: seq<Text>)
    requires x in keys && forall v :: v in s ==> v in keys
    ensures forall v :: v in r <==> v == x || v in s
  {
    if s == [] then [x]
    else if KeyLess(keys[x], keys[s[0]]) then [x] + s
    else [s[0]] + Insert(keys, x, s[1..])
  }

  /** A name below every name of an ascending list goes in front. */
  lemma PrependAscends(keys: Keys, x: Text, s: seq<Text>)
    requires x in keys && Ascends(keys, s) && forall v :: v in s ==> KeyLess(keys[x], keys[v])
    ensures Ascends(keys, [x] + s)
  {
    hide KeyLess;
    var r := [x] + s;
    forall i, j {:trigger r[i], r[j]} | 0 <= i < j < |r| ensures KeyLess(keys[r[i]], keys[r[j]]) {
      assert r[j] == s[j - 1] && s[j - 1] in s;
      if i > 0 { assert r[i] == s[i - 1]; }
    }
  }

  lemma {:induction false} InsertAscends(keys: Keys, x: Text, s: seq<Text>)
    requires x in keys && Ascends(keys, s) && forall v :: v in s ==> keys[v] != keys[x]
    ensures Ascends(keys, Insert(keys, x, s))
  {
    hide KeyLess, Ascends;
    if s == [] {
      LoneAscends(keys, x);
    } else {
      assert s[0] in s;
      AscendsKnown(keys, s, s[0]);
      AscendsTail(keys, s);
      KeyLessTotal(keys[x], keys[s[0]]);
      forall v | v in s ensures v in keys && (v == s[0] || KeyLess(keys[s[0]], keys[v])) {
        AscendsKnown(keys, s, v);
        AscendsHead(keys, s, v);
      }
      if KeyLess(keys[x], keys[s[0]]) {
        forall v | v in s ensures KeyLess(keys[x], keys[v]) {
          if v != s[0] { KeyLessTransitive(keys[x], keys[s[0]], keys[v]); }
        }
        PrependAscends(keys, x, s);
      } else {
        InsertAscends(keys, x, s[1..]);
        forall v | v in Insert(keys, x, s[1..]) ensures KeyLess(keys[s[0]], keys[v]) {
          if v != x {
            assert v in Elements(s[1..]);
            assert v in s && v != s[0];
          }
        }
        PrependAscends(keys, s[0], Insert(keys, x, s[1..]));
      }
    }
  }

  lemma LoneAscends(keys: Keys, x: Text)
    requires x in keys
    ensures Ascends(keys, [x])
  {
  }

  lemma InsertNames(keys: Keys, x: Text, s: seq<Text>)
    requires x in keys && forall v :: v in s ==> v in keys
    ensures Elements(Insert(keys, x, s)) == Elements(s) + {x}
  {
    hide Insert;
  }

  lemma AscendsHead(keys: Keys, s: seq<Text>, v: Text)
    requires Ascends(keys, s) && v in s
    ensures v == s[0] || KeyLess(keys[s[0]], keys[v])
  {
    hide KeyLess;
  }

  lemma AscendsTail(keys: Keys, s: seq<Text>)
    requires Ascends(keys, s) && s != []
    ensures Ascends(keys, s[1..]) && Elements(s[1..]) == Elements(s) - {s[0]}
  {
    forall i | 1 <= i < |s| ensures s[i] != s[0] { KeyLessTotal(keys[s[0]], keys[s[i]]); }
  }

  /** A set of names has one ascending list. */
  lemma {:induction false} AscendsUnique(keys: Keys, s: seq<Text>, t: seq<Text>)
    requires Ascends(keys, s) && Ascends(keys, t) && Elements(s) == Elements(t)
    ensures s == t
  {
    hide KeyLess, Ascends;
    assert |t| > 0 ==> t[0] in Elements(t);
    if s != [] {
      assert s[0] in Elements(t);
      assert t[0] in Elements(s);
      AscendsHead(keys, s, t[0]);
      AscendsHead(keys, t, s[0]);
      AscendsKnown(keys, s, s[0]);
      AscendsKnown(keys, t, t[0]);
      KeyLessTotal(keys[s[0]], keys[t[0]]);
      AscendsTail(keys, s);
      AscendsTail(keys, t);
      AscendsUnique(keys, s[1..], t[1..]);
    }
  }

  lemma AscendsKnown(keys: Keys, s: seq<Text>, v: Text)
    requires Ascends(keys, s) && v in s
    ensures v in keys
  {
  }

  /** The ascending list of a set. */
  ghost function OrderBy(keys: Keys, s: set<Text>): (r: seq<Text>)
    requires Apart(keys, s)
    ensures Ascends(keys, r) && Elements(r) == s
  {
    if s == {} then []
    else
      var x :| x in s;
      var rest := OrderBy(keys, s - {x});
      assert forall v :: v in rest ==> v in Elements(rest);
      InsertAscends(keys, x, rest);
      InsertNames(keys, x, rest);
      assert s - {x} + {x} == s;
      Insert(keys, x, rest)
  }

  /** Sorting a list gives the one ascending list of its names. */
  method SortNames(keys: Keys, list: seq<Text>) returns (r: seq<Text>)
    requires Apart(keys, Elements(list)) && forall i, j :: 0 <= i < j < |list| ==> list[i] != list[j]
    ensures r == OrderBy(keys, Elements(list))
  {
    hide KeyLess, Insert;
    r := [];
    for i := 0 to |list|
      invariant Ascends(keys, r) && Elements(r) == Elements(list[..i])
    {
      NextApart(keys, list, i, r);
      r := Insert(keys, list[i], r);
      assert Elements(list[..i + 1]) == Elements(list[..i]) + {list[i]};
    }
    assert list[..|list|] == list;
    AscendsUnique(keys, r, OrderBy(keys, Elements(list)));
  }

  lemma NextApart(keys: Keys, list: seq<Text>, i: nat, r: seq<Text>)
    requires Apart(keys, Elements(list)) && (forall i, j :: 0 <= i < j < |list| ==> list[i] != list[j])
    requires i < |list| && Ascends(keys, r) && Elements(r) == Elements(list[..i])
    ensures list[i] in keys && Ascends(keys, Insert(keys, list[i], r))
    ensures Elements(Insert(keys, list[i], r)) == Elements(r) + {list[i]}
  {
    hide KeyLess;
    var x := list[i];
    assert x in Elements(list);
    forall v | v in r ensures keys[v] != keys[x] {
      assert v in Elements(list[..i]);
      var k :| 0 <= k < i && list[..i][k] == v;
      assert list[k] in Elements(list);
    }
    InsertAscends(keys, x, r);
  }
}
