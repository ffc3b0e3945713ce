/** Sorted lists of typed records read off an edge list. A record is a kind and
    two integers: (kind, colour, 0) for a neighbour of a node during refinement,
    (kind, source rank, target rank) for an encoded edge, (kind, 0, 0) for one
    of the parallel edges between two fixed nodes. */
module Arcs {
  import opened ByteStrings
  import opened Graphs

  datatype Arc = Arc(kind: Bytes, a: nat, b: nat)
  datatype Choice = Skip | Keep(arc: Arc)

  predicate ArcLess(x: Arc, y: Arc) {
    Less(x.kind, y.kind) || (x.kind == y.kind && (x.a < y.a || (x.a == y.a && x.b < y.b)))
  }

  lemma ArcLessTotal(x: Arc, y: Arc)
    ensures ArcLess(x, y) || x == y || ArcLess(y, x)
    ensures !(ArcLess(x, y) && ArcLess(y, x))
    ensures !ArcLess(x, x)
  {
    LessTotal(x.kind, y.kind);
    LessIrreflexive(x.kind);
    if Less(x.kind, y.kind) && Less(y.kind, x.kind) { LessTransitive(x.kind, y.kind, x.kind); }
  }

  lemma ArcLessTransitive(x: Arc, y: Arc, z: Arc)
    requires !ArcLess(y, x) && !ArcLess(z, y)
    ensures !ArcLess(z, x)
  {
    ArcLessTotal(x, y);
    ArcLessTotal(y, z);
    if Less(x.kind, y.kind) && Less(y.kind, z.kind) { LessTransitive(x.kind, y.kind, z.kind); }
    ArcLessTotal(x, z);
  }

  // ----- collecting records from an edge list

  function Chosen(c: Choice): (r: seq<Arc>) {
    match c case Skip => [] case Keep(x) => [x]
  }

  function Collect(es: seq<Edge>, f: Edge -> Choice): (r: seq<Arc>) {
    if es == [] then []
    else Chosen(f(es[0])) + Collect(es[1..], f)
  }

  lemma {:induction false} CollectAppend(es: seq<Edge>, fs: seq<Edge>, f: Edge -> Choice)
    ensures Collect(es + fs, f) == Collect(es, f) + Collect(fs, f)
  {
    if es == [] {
      assert es + fs == fs;
    } else {
      CollectAppend(es[1..], fs, f);
      assert (es + fs)[1..] == es[1..] + fs;
      Associative(Chosen(f(es[0])), Collect(es[1..], f), Collect(fs, f));
    }
  }

  lemma RemoveAt<T>(s: seq<T>, j: nat)
    requires j < |s|
    ensures s == s[..j] + [s[j]] + s[j + 1..]
    ensures multiset(s[..j] + s[j + 1..]) == multiset(s) - multiset{s[j]}
  {
    assert s == s[..j] + [s[j]] + s[j + 1..];
  }

  lemma CollectSplit(es: seq<Edge>, j: nat, f: Edge -> Choice)
    requires j < |es|
    ensures multiset(Collect(es, f)) == multiset(Collect(es[..j] + es[j + 1..], f)) + multiset(Chosen(f(es[j])))
  {
    RemoveAt(es, j);
    CollectAppend(es[..j], es[j + 1..], f);
    CollectAppend(es[..j] + [es[j]], es[j + 1..], f);
    CollectAppend(es[..j], [es[j]], f);
    assert Collect([es[j]], f) == Chosen(f(es[j]));
  }

  lemma {:induction false} CollectPermuted(es: seq<Edge>, fs: seq<Edge>, f: Edge -> Choice)
    requires multiset(es) == multiset(fs)
    ensures multiset(Collect(es, f)) == multiset(Collect(fs, f))
  {
    assert |es| == |multiset(es)| == |multiset(fs)| == |fs|;
    if es != [] {
      assert es[0] in multiset(fs);
      var j :| 0 <= j < |fs| && fs[j] == es[0];
      RemoveAt(fs, j);
      RemoveAt(es, 0);
      CollectPermuted(es[..0] + es[1..], fs[..j] + fs[j + 1..], f);
      CollectSplit(fs, j, f);
      CollectSplit(es, 0, f);
    }
  }

  lemma {:induction false} CollectMoved(m: map<nat, nat>, es: seq<Edge>, f: Edge -> Choice, f': Edge -> Choice)
    requires Covers(m, es)
    requires forall e :: e in es ==> f'(Move(m, e)) == f(e)
    ensures Collect(MoveAll(m, es), f') == Collect(es, f)
  {
    if es != [] {
      assert es[0] in es;
      CollectMoved(m, es[1..], f, f');
    }
  }

  /** Isomorphic graphs give permuted records, for any two readings that agree
      along the bijection. */
  lemma CollectIsomorphic(g: Graph, h: Graph, m: map<nat, nat>, f: Edge -> Choice, f': Edge -> Choice)
    requires WellFormed(g) && WellFormed(h) && Isomorphism(g, h, m)
    requires forall e :: e in g.edges ==> f'(Move(m, e)) == f(e)
    ensures multiset(Collect(g.edges, f)) == multiset(Collect(h.edges, f'))
  {
    IsomorphismMovesEdges(g, h, m);
    CollectMoved(m, g.edges, f, f');
    CollectPermuted(MoveAll(m, g.edges), h.edges, f');
  }

  lemma {:induction false} CollectLength(es: seq<Edge>, f: Edge -> Choice)
    ensures |Collect(es, f)| <= |es|
  {
    if es != [] { CollectLength(es[1..], f); }
  }

  lemma {:induction false} CollectMember(es: seq<Edge>, f: Edge -> Choice, x: Arc)
    requires x in Collect(es, f)
    ensures exists e :: e in es && f(e) == Keep(x)
  {
    if f(es[0]) == Keep(x) {
      assert es[0] in es;
    } else {
      CollectMember(es[1..], f, x);
      var e :| e in es[1..] && f(e) == Keep(x);
      assert e in es;
    }
  }

  // ----- sorting

  predicate Ordered(s: seq<Arc>) {
    forall i, j :: 0 <= i < j < |s| ==> !ArcLess(s[j], s[i])
  }

  function Insert(x: Arc, s: seq<Arc>): (r: seq<Arc>)
    ensures multiset(r) == multiset(s) + multiset{x}
  {
    if s == [] || !ArcLess(s[0], x) then [x] + s
    else
      assert s == [s[0]] + s[1..];
      [s[0]] + Insert(x, s[1..])
  }

  lemma {:induction false} InsertOrdered(x: Arc, s: seq<Arc>)
    requires Ordered(s)
    ensures Ordered(Insert(x, s))
  {
    if s == [] {
    } else if !ArcLess(s[0], x) {
      var r := [x] + s;
      forall i, j | 0 <= i < j < |r| ensures !ArcLess(r[j], r[i]) {
        if i == 0 && j > 1 { ArcLessTransitive(x, s[0], s[j - 1]); }
      }
    } else {
      InsertOrdered(x, s[1..]);
      var t := Insert(x, s[1..]);
      var r := [s[0]] + t;
      forall i, j | 0 <= i < j < |r| ensures !ArcLess(r[j], r[i]) {
        if i == 0 {
          assert t[j - 1] in multiset(t);
          ArcLessTotal(s[0], x);
          if t[j - 1] != x {
            assert t[j - 1] in multiset(s[1..]);
            var k :| 0 <= k < |s[1..]| && s[1..][k] == t[j - 1];
            assert !ArcLess(s[k + 1], s[0]);
          }
        }
      }
    }
  }

  /** The records in ascending order, duplicates kept. */
  function Sort(s: seq<Arc>): (r: seq<Arc>)
    ensures multiset(r) == multiset(s)
    ensures |r| == |s|
  {
    if s == [] then []
    else
      assert s == [s[0]] + s[1..];
      var r := Insert(s[0], Sort(s[1..]));
      assert |multiset(r)| == |multiset(s)|;
      r
  }

  lemma {:induction false} SortOrdered(s: seq<Arc>)
    ensures Ordered(Sort(s))
  {
    if s != [] {
      SortOrdered(s[1..]);
      InsertOrdered(s[0], Sort(s[1..]));
    }
  }

  lemma OrderedHead(s: seq<Arc>, t: seq<Arc>)
    requires Ordered(s) && Ordered(t) && multiset(s) == multiset(t) && s != [] && t != []
    ensures s[0] == t[0]
  {
    assert s[0] in multiset(t) && t[0] in multiset(s);
    var i :| 0 <= i < |t| && t[i] == s[0];
    var j :| 0 <= j < |s| && s[j] == t[0];
    ArcLessTotal(s[0], t[0]);
    if i > 0 && j > 0 {
      assert !ArcLess(t[i], t[0]) && !ArcLess(s[j], s[0]);
    }
  }

  lemma OrderedTail(s: seq<Arc>)
    requires Ordered(s) && s != []
    ensures Ordered(s[1..])
  {
    forall i, j | 0 <= i < j < |s[1..]| ensures !ArcLess(s[1..][j], s[1..][i]) {
      assert !ArcLess(s[j + 1], s[i + 1]);
    }
  }

  lemma {:induction false} OrderedUnique(s: seq<Arc>, t: seq<Arc>)
    requires Ordered(s) && Ordered(t) && multiset(s) == multiset(t)
    ensures s == t
  {
    assert |s| == |multiset(s)| == |multiset(t)| == |t|;
    if s != [] {
      OrderedHead(s, t);
      RemoveAt(s, 0);
      RemoveAt(t, 0);
      assert s[..0] + s[1..] == s[1..] && t[..0] + t[1..] == t[1..];
      OrderedTail(s);
      OrderedTail(t);
      OrderedUnique(s[1..], t[1..]);
    }
  }

  lemma SortCollectMember(es: seq<Edge>, f: Edge -> Choice, x: Arc)
    requires x in Sort(Collect(es, f))
    ensures exists e :: e in es && f(e) == Keep(x)
  {
    assert x in multiset(Collect(es, f));
    CollectMember(es, f, x);
  }

  /** A sorted list is exactly as informative as the multiset it came from. */
  lemma SortCanonical(s: seq<Arc>, t: seq<Arc>)
    ensures Sort(s) == Sort(t) <==> multiset(s) == multiset(t)
  {
    SortOrdered(s);
    SortOrdered(t);
    if multiset(s) == multiset(t) { OrderedUnique(Sort(s), Sort(t)); }
  }
}
