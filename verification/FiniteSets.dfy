/** Counting facts about finite sets and finite maps. */
module FiniteSets {

  // ----- lists

  function Elements<T(==)>(s: seq<T>): (r: set<T>) {
    set x | x in s
  }

  lemma SameMembers<T>(s: seq<T>, t: seq<T>, x: T)
    requires multiset(s) == multiset(t)
    ensures x in s <==> x in t
  {
    assert x in s <==> x in multiset(s);
    assert x in t <==> x in multiset(t);
  }

  predicate Distinct<T(==)>(s: seq<T>) {
    forall i, j :: 0 <= i < j < |s| ==> s[i] != s[j]
  }

  predicate Injective(f: map<nat, nat>) {
    forall x, y {:trigger f[x], f[y]} :: x in f && y in f && f[x] == f[y] ==> x == y
  }

  function Image(f: map<nat, nat>, s: set<nat>): (r: set<nat>)
    requires s <= f.Keys
  {
    set x | x in s :: f[x]
  }

  lemma {:induction false} ImageSize(f: map<nat, nat>, s: set<nat>)
    requires s <= f.Keys && Injective(f)
    ensures |Image(f, s)| == |s|
  {
    if s != {} {
      var x :| x in s;
      ImageSize(f, s - {x});
      assert Image(f, s) == Image(f, s - {x}) + {f[x]};
    } else {
      assert Image(f, s) == {};
    }
  }

  lemma SubsetSize<T>(a: set<T>, b: set<T>)
    requires a <= b
    ensures |a| <= |b|
    ensures |a| == |b| ==> a == b
  {
    assert b == a + (b - a);
    assert |b| == |a| + |b - a|;
  }

  ghost function Below(k: nat): (r: set<nat>)
    ensures |r| == k
    ensures forall i :: i in r <==> 0 <= i < k
  {
    if k == 0 then {} else Below(k - 1) + {k - 1}
  }

  /** A relation that assigns to every x in `a` some y in `b`, never the same y
      to two different x, makes `b` at least as large. */
  lemma {:induction false} MatchSize<T, U>(a: set<T>, b: set<U>, f: map<T, U>)
    requires a <= f.Keys
    requires forall x :: x in a ==> f[x] in b
    requires forall x, y :: x in a && y in a && f[x] == f[y] ==> x == y
    ensures |a| <= |b|
  {
    if a != {} {
      var x :| x in a;
      MatchSize(a - {x}, b - {f[x]}, f);
    }
  }

  // ----- bijections

  ghost predicate Hit(f: map<nat, nat>, y: nat) {
    exists x :: x in f && f[x] == y
  }

  predicate Lands(f: map<nat, nat>, x: nat, b: set<nat>) {
    x in f && f[x] in b
  }

  // The quantifiers wait for Lands and Hit to be mentioned: for a bijection of a
  // set with itself, free instantiation would never end.
  ghost predicate Bijection(f: map<nat, nat>, a: set<nat>, b: set<nat>) {
    && f.Keys == a && Injective(f)
    && (forall x {:trigger Lands(f, x, b)} :: x in f ==> Lands(f, x, b))
    && (forall y {:trigger Hit(f, y)} :: y in b ==> Hit(f, y))
  }

  lemma BijectionLands(f: map<nat, nat>, a: set<nat>, b: set<nat>)
    requires Bijection(f, a, b)
    ensures forall x {:trigger f[x]} :: x in f ==> f[x] in b
  {
    forall x | x in f ensures f[x] in b {
      assert Lands(f, x, b);
    }
  }

  lemma PreimageOf(f: map<nat, nat>, a: set<nat>, b: set<nat>, y: nat) returns (x: nat)
    requires Bijection(f, a, b) && y in b
    ensures x in f && f[x] == y
  {
    assert Hit(f, y);
    x :| x in f && f[x] == y;
  }

  function Compose(f: map<nat, nat>, g: map<nat, nat>): (r: map<nat, nat>)
    requires forall x {:trigger Lands(f, x, g.Keys)} :: x in f ==> Lands(f, x, g.Keys)
  {
    map x | x in f :: assert Lands(f, x, g.Keys); g[f[x]]
  }

  lemma ComposeBijection(f: map<nat, nat>, g: map<nat, nat>, a: set<nat>, b: set<nat>, c: set<nat>)
    requires Bijection(f, a, b) && Bijection(g, b, c)
    ensures Bijection(Compose(f, g), a, c)
  {
    var r := Compose(f, g);
    forall x | x in r ensures Lands(r, x, c) {
      assert Lands(f, x, b) && Lands(g, f[x], c);
    }
    forall z | z in c ensures Hit(r, z) {
      var y := PreimageOf(g, b, c, z);
      var x := PreimageOf(f, a, b, y);
      assert r[x] == z;
    }
    forall x, y | x in r && y in r && r[x] == r[y] ensures x == y {
      assert Lands(f, x, b) && Lands(f, y, b);
    }
  }

  ghost function Inverse(f: map<nat, nat>, b: set<nat>): (r: map<nat, nat>)
    requires Bijection(f, f.Keys, b)
    ensures Bijection(r, b, f.Keys)
    ensures forall x {:trigger r[f[x]]} :: x in f ==> f[x] in r && r[f[x]] == x
    ensures forall y {:trigger f[r[y]]} :: y in b ==> r[y] in f && f[r[y]] == y
  {
    BijectionLands(f, f.Keys, b);
    assert forall y :: y in b ==> Hit(f, y);
    var r := map y | y in b :: var x :| x in f && f[x] == y; x;
    assert forall x :: x in f ==> r[f[x]] == x;
    r
  }
}
