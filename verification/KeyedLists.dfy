/** Names put in order by key when some may be listed more than once: one list per
    multiset. */
module KeyedLists {
  import opened FiniteSets
  import opened KeyedOrders

  predicate Known(keys: Keys, s: seq<Text>) {
    forall v :: v in s ==> v in keys
  }

  ghost predicate Rises(keys: Keys, s: seq<Text>) {
    && Known(keys, s)
    && forall i, j {:trigger s[i], s[j]} :: 0 <= i < j < |s| ==> !KeyLess(keys[s[j]], keys[s[i]])
  }

  function Place(keys: Keys, x: Text, s: seq<Text>): (r: seq<Text>)
    requires x in keys && Known(keys, s)
    ensures multiset(r) == multiset(s) + multiset{x}
  {
    if s == [] then [x]
    else
      assert s == [s[0]] + s[1..];
      if KeyLess(keys[x], keys[s[0]]) then [x] + s else [s[0]] + Place(keys, x, s[1..])
  }

  lemma NotLessChain(a: Key, b: Key, c: Key)
    requires !KeyLess(b, a) && !KeyLess(c, b)
    ensures !KeyLess(c, a)
  {
    hide KeyLess;
    KeyLessTotal(a, b);
    KeyLessTotal(b, c);
    KeyLessTotal(a, c);
    if KeyLess(a, b) && KeyLess(b, c) { KeyLessTransitive(a, b, c); }
  }

  lemma PrependRises(keys: Keys, x: Text, s: seq<Text>)
    requires x in keys && Rises(keys, s) && forall v :: v in s ==> !KeyLess(keys[v], keys[x])
    ensures Rises(keys, [x] + s)
  {
    hide KeyLess;
    var r := [x] + s;
    forall i, j {:trigger r[i], r[j]} | 0 <= i < j < |r|
      ensures r[i] in keys && r[j] in keys && !KeyLess(keys[r[j]], keys[r[i]]) {
      assert r[j] == s[j - 1] && s[j - 1] in s;
      if i > 0 { assert r[i] == s[i - 1]; }
    }
  }

  lemma RisesHead(keys: Keys, s: seq<Text>, v: Text)
    requires Rises(keys, s) && v in s
    ensures v in keys && s[0] in keys && !KeyLess(keys[v], keys[s[0]])
  {
    hide KeyLess;
    assert s[0] in s;
    KeyLessTotal(keys[v], keys[v]);
  }

  lemma RisesTail(keys: Keys, s: seq<Text>)
    requires Rises(keys, s) && s != []
    ensures Rises(keys, s[1..]) && s[0] in keys && multiset(s[1..]) == multiset(s) - multiset{s[0]}
  {
    hide KeyLess;
    assert s == [s[0]] + s[1..];
    assert s[0] in s;
  }

  lemma {:induction false} PlaceRises(keys: Keys, x: Text, s: seq<Text>)
    requires x in keys && Known(keys, s) && Rises(keys, s)
    ensures Rises(keys, Place(keys, x, s))
  {
    hide KeyLess, Rises;
    if s == [] {
      LoneRises(keys, x);
    } else {
      RisesTail(keys, s);
      KeyLessTotal(keys[x], keys[s[0]]);
      if KeyLess(keys[x], keys[s[0]]) {
        forall v | v in s ensures !KeyLess(keys[v], keys[x]) {
          RisesHead(keys, s, v);
          NotLessChain(keys[x], keys[s[0]], keys[v]);
        }
        PrependRises(keys, x, s);
      } else {
        var rest := Place(keys, x, s[1..]);
        RisesKnown(keys, s[1..]);
        PlaceRises(keys, x, s[1..]);
        forall v | v in rest ensures v in keys && !KeyLess(keys[v], keys[s[0]]) {
          SameMembers(rest, s[1..] + [x], v);
          if v in s[1..] { RisesHead(keys, s, v); }
        }
        PrependRises(keys, s[0], rest);
      }
    }
  }

  lemma LoneRises(keys: Keys, x: Text)
    requires x in keys
    ensures Rises(keys, [x])
  {
  }

  lemma RisesKnown(keys: Keys, s: seq<Text>)
    requires Rises(keys, s)
    ensures Known(keys, s)
  {
  }

  /** Where equal keys mean equal names, a multiset has one rising list. */
  lemma {:induction false} RisesUnique(keys: Keys, s: seq<Text>, t: seq<Text>)
    requires Rises(keys, s) && Rises(keys, t) && multiset(s) == multiset(t) && Apart(keys, Elements(s))
    ensures s == t
  {
    hide KeyLess, Rises;
    assert |s| == |multiset(s)| == |multiset(t)| == |t|;
    if s != [] {
      assert s[0] in s && t[0] in t;
      SameMembers(s, t, s[0]);
      SameMembers(s, t, t[0]);
      RisesHead(keys, s, t[0]);
      RisesHead(keys, t, s[0]);
      KeyLessTotal(keys[s[0]], keys[t[0]]);
      assert s[0] in Elements(s) && t[0] in Elements(s);
      RisesTail(keys, s);
      RisesTail(keys, t);
      TailApart(keys, s);
      RisesUnique(keys, s[1..], t[1..]);
    }
  }

  lemma TailApart(keys: Keys, s: seq<Text>)
    requires Apart(keys, Elements(s)) && s != []
    ensures Apart(keys, Elements(s[1..]))
  {
    assert Elements(s[1..]) <= Elements(s);
  }

  ghost predicate Covers(keys: Keys, m: multiset<Text>) {
    forall v :: v in m ==> v in keys
  }

  lemma {:induction false} ListingExists(keys: Keys, m: multiset<Text>) returns (r: seq<Text>)
    requires Covers(keys, m)
    ensures Rises(keys, r) && multiset(r) == m
    decreases |m|
  {
    hide KeyLess, Rises;
    if |m| == 0 {
      r := [];
      NoneRises(keys);
    } else {
      var x :| x in m;
      var rest := ListingExists(keys, m - multiset{x});
      RisesKnown(keys, rest);
      PlaceRises(keys, x, rest);
      r := Place(keys, x, rest);
    }
  }

  lemma NoneRises(keys: Keys)
    ensures Rises(keys, [])
  {
  }

  /** The rising list of a multiset of names. */
  ghost function Listing(keys: Keys, m: multiset<Text>): (r: seq<Text>)
    requires Covers(keys, m)
    ensures Rises(keys, r) && multiset(r) == m
  {
    assert exists r :: Rises(keys, r) && multiset(r) == m by { var r := ListingExists(keys, m); }
    var r :| Rises(keys, r) && multiset(r) == m;
    r
  }

  /** Sorting a list, repetitions included, gives the one rising list of its multiset. */
  method SortList(keys: Keys, list: seq<Text>) returns (r: seq<Text>)
    requires Covers(keys, multiset(list)) && Apart(keys, Elements(list))
    ensures r == Listing(keys, multiset(list))
  {
    hide KeyLess, Rises, Apart;
    r := [];
    NoneRises(keys);
    assert list[..0] == [];
    for i := 0 to |list|
      invariant Rises(keys, r) && multiset(r) == multiset(list[..i])
    {
      assert list[i] in multiset(list);
      assert list[..i + 1] == list[..i] + [list[i]];
      RisesKnown(keys, r);
      PlaceRises(keys, list[i], r);
      r := Place(keys, list[i], r);
    }
    assert list[..|list|] == list;
    SameElements(r, list);
    RisesUnique(keys, r, Listing(keys, multiset(list)));
  }

  lemma SameElements(s: seq<Text>, t: seq<Text>)
    requires multiset(s) == multiset(t)
    ensures Elements(s) == Elements(t)
  {
    forall v ensures v in s <==> v in t { SameMembers(s, t, v); }
  }

  lemma ListingMembers(keys: Keys, m: multiset<Text>, v: Text)
    requires Covers(keys, m)
    ensures v in Listing(keys, m) <==> v in m
  {
    hide Rises;
    assert v in Listing(keys, m) <==> v in multiset(Listing(keys, m));
  }

  /** Without repetitions this is the ascending list of the set. */
  lemma ListingOfSet(keys: Keys, s: set<Text>)
    requires Apart(keys, s)
    ensures Covers(keys, multiset(s)) && Listing(keys, multiset(s)) == OrderBy(keys, s)
  {
    var r := OrderBy(keys, s);
    AscendsRises(keys, r);
    AscendsOnce(keys, r);
    hide Ascends, Rises, KeyLess;
    assert multiset(r) == multiset(s);
    RisesUnique(keys, r, Listing(keys, multiset(s)));
  }

  lemma AscendsRises(keys: Keys, s: seq<Text>)
    requires Ascends(keys, s)
    ensures Rises(keys, s)
  {
    hide KeyLess;
    forall i, j {:trigger s[i], s[j]} | 0 <= i < j < |s| ensures !KeyLess(keys[s[j]], keys[s[i]]) {
      KeyLessTotal(keys[s[i]], keys[s[j]]);
    }
  }

  lemma {:induction false} AscendsOnce(keys: Keys, s: seq<Text>)
    requires Ascends(keys, s)
    ensures multiset(s) == multiset(Elements(s))
  {
    hide KeyLess;
    if s != [] {
      AscendsTail(keys, s);
      AscendsOnce(keys, s[1..]);
      assert s == [s[0]] + s[1..];
      assert Elements(s) == Elements(s[1..]) + {s[0]};
    }
  }
}
