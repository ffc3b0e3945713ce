/** What the text of the solution hash tells: the sink, the fact and the witness of every
    finding in canonical order, as long as no number begins with the byte of the bar. */
module SolutionHashes {
  import opened FiniteSets
  import opened ByteStrings
  import opened Incremental
  import opened Findings
  import opened Solutions
  import opened GraphVectors
  import T = Tabulation

  const BAR_BYTE: Byte := 124

  /** Below this an eight-byte number begins with a byte before the bar. */
  const LOW: nat := 124 * 0x100_0000_0000_0000

  /** What is hashed of a finding. */
  datatype Told = Told(sink: nat, fact: nat, trail: seq<nat>)

  function Tell(f: Finding): (r: Told) {
    Told(f.sink, f.fact, f.trail)
  }

  function TellAll(fs: seq<Finding>): (r: seq<Told>)
    ensures |r| == |fs| && forall i :: 0 <= i < |fs| ==> r[i] == Tell(fs[i])
  {
    if fs == [] then [] else [Tell(fs[0])] + TellAll(fs[1..])
  }

  predicate LowTrail(t: seq<nat>) {
    forall i :: 0 <= i < |t| ==> t[i] < LOW
  }

  predicate LowFinding(f: Finding) {
    f.sink < LOW && f.fact < LOW && LowTrail(f.trail)
  }

  predicate LowFindings(fs: seq<Finding>) {
    forall f :: f in fs ==> LowFinding(f)
  }

  // ----- the bar stands out

  lemma {:induction false} FirstByte(v: nat, k: nat, b: nat)
    requires k >= 1 && b <= 256 && v < b * Power256(k - 1)
    ensures BigEndian(v, k)[0] < b
  {
    if k > 1 {
      var m := b * Power256(k - 2);
      assert b * Power256(k - 1) == 256 * m;
      FirstByte(v / 256, k - 1, b);
    }
  }

  lemma LowFirst(v: nat)
    requires v < LOW
    ensures v < TWO_64 && U64(v)[0] < BAR_BYTE
  {
    assert Power256(7) == 0x100_0000_0000_0000 by { SeventhPower(); }
    FirstByte(v, 8, 124);
  }

  lemma SeventhPower()
    ensures Power256(7) == 0x100_0000_0000_0000
  {
    assert Power256(3) == 0x100_0000;
    assert Power256(5) == 256 * 256 * Power256(3);
    assert Power256(7) == 256 * 256 * Power256(5);
  }

  // ----- reading from the front

  lemma {:induction false} TrailFront(t: seq<nat>)
    requires t != []
    ensures TrailBytes(t) == U64(t[0]) + TrailBytes(t[1..])
  {
    hide U64;
    if |t| > 1 {
      var front, last := t[..|t| - 1], t[|t| - 1];
      TrailFront(front);
      assert front[1..] == t[1..][..|t[1..]| - 1];
      assert TrailBytes(t[1..]) == TrailBytes(front[1..]) + U64(last);
    } else {
      assert t[..0] == [] && t[1..] == [];
    }
  }

  lemma BarIs()
    ensures BAR == [BAR_BYTE]
  {
  }

  /** Two witnesses, each closed by a bar, can be told apart whatever follows. */
  lemma {:induction false} TrailCancel(t: seq<nat>, u: seq<nat>, x: Bytes, y: Bytes)
    requires LowTrail(t) && LowTrail(u) && TrailBytes(t) + ([BAR_BYTE] + x) == TrailBytes(u) + ([BAR_BYTE] + y)
    ensures t == u && x == y
  {
    hide U64;
    var a, b := TrailBytes(t) + ([BAR_BYTE] + x), TrailBytes(u) + ([BAR_BYTE] + y);
    if t != [] {
      TrailFront(t);
      LowFirst(t[0]);
      assert a[0] == U64(t[0])[0];
    }
    if u != [] {
      TrailFront(u);
      LowFirst(u[0]);
      assert b[0] == U64(u[0])[0];
    }
    if t == [] || u == [] {
      assert t == [] && u == [];
      assert a[1..] == x && b[1..] == y;
    } else {
      var p, q := TrailBytes(t[1..]) + ([BAR_BYTE] + x), TrailBytes(u[1..]) + ([BAR_BYTE] + y);
      assert a == U64(t[0]) + p && b == U64(u[0]) + q;
      U64Cancel(t[0], u[0], p, q);
      TrailCancel(t[1..], u[1..], x, y);
      assert t == [t[0]] + t[1..] && u == [u[0]] + u[1..];
    }
  }

  function ItemBytes(f: Finding): (r: Bytes) {
    U64(f.sink) + (U64(f.fact) + (TrailBytes(f.trail) + [BAR_BYTE]))
  }

  lemma {:induction false} SolutionFront(fs: seq<Finding>)
    requires fs != []
    ensures SolutionBytes(fs) == ItemBytes(fs[0]) + SolutionBytes(fs[1..])
  {
    hide U64, TrailBytes;
    BarIs();
    var front, last := fs[..|fs| - 1], fs[|fs| - 1];
    assert SolutionBytes(fs) == SolutionBytes(front) + ItemBytes(last);
    if |fs| > 1 {
      SolutionFront(front);
      assert front[1..] == fs[1..][..|fs[1..]| - 1];
      assert SolutionBytes(fs[1..]) == SolutionBytes(front[1..]) + ItemBytes(last);
    } else {
      assert front == [] && fs[1..] == [];
    }
  }

  lemma ItemCancel(f: Finding, g: Finding, x: Bytes, y: Bytes)
    requires LowFinding(f) && LowFinding(g) && ItemBytes(f) + x == ItemBytes(g) + y
    ensures Tell(f) == Tell(g) && x == y
  {
    hide U64, TrailBytes;
    LowFirst(f.sink);
    LowFirst(g.sink);
    LowFirst(f.fact);
    LowFirst(g.fact);
    var p, q := TrailBytes(f.trail) + ([BAR_BYTE] + x), TrailBytes(g.trail) + ([BAR_BYTE] + y);
    assert ItemBytes(f) + x == U64(f.sink) + (U64(f.fact) + p);
    assert ItemBytes(g) + y == U64(g.sink) + (U64(g.fact) + q);
    U64Cancel(f.sink, g.sink, U64(f.fact) + p, U64(g.fact) + q);
    U64Cancel(f.fact, g.fact, p, q);
    TrailCancel(f.trail, g.trail, x, y);
  }

  /** Where all numbers are low, the text is the same exactly for the same sinks, facts and
      witnesses in the same order. */
  lemma {:induction false} SolutionExact(fs: seq<Finding>, gs: seq<Finding>)
    requires LowFindings(fs) && LowFindings(gs)
    ensures SolutionBytes(fs) == SolutionBytes(gs) <==> TellAll(fs) == TellAll(gs)
  {
    hide SolutionBytes, ItemBytes, LowFinding;
    if fs != [] { SolutionFront(fs); }
    if gs != [] { SolutionFront(gs); }
    NoneEmpty();
    if fs != [] && gs != [] {
      var x, y := SolutionBytes(fs[1..]), SolutionBytes(gs[1..]);
      ItemsNotEmpty(fs[0]);
      SolutionExact(fs[1..], gs[1..]);
      if SolutionBytes(fs) == SolutionBytes(gs) { ItemCancel(fs[0], gs[0], x, y); }
      if TellAll(fs) == TellAll(gs) {
        TellTail(fs, gs);
        SameItems(fs[0], gs[0]);
      }
    } else {
      if fs != [] { ItemsNotEmpty(fs[0]); }
      if gs != [] { ItemsNotEmpty(gs[0]); }
    }
  }

  lemma TellTail(fs: seq<Finding>, gs: seq<Finding>)
    requires fs != [] && gs != [] && TellAll(fs) == TellAll(gs)
    ensures Tell(fs[0]) == Tell(gs[0]) && TellAll(fs[1..]) == TellAll(gs[1..])
  {
    assert TellAll(fs)[1..] == TellAll(fs[1..]) && TellAll(gs)[1..] == TellAll(gs[1..]);
  }

  lemma SameItems(f: Finding, g: Finding)
    requires Tell(f) == Tell(g)
    ensures ItemBytes(f) == ItemBytes(g)
  {
  }

  lemma NoneEmpty()
    ensures SolutionBytes([]) == []
  {
  }

  lemma ItemsNotEmpty(f: Finding)
    ensures |ItemBytes(f)| >= 17
  {
  }

  // ----- the order of the text

  /** The rank of a sink; without one it counts as 2 to the 30. */
  function RankOf(rank: map<nat, nat>, sink: nat): (r: nat) {
    if sink in rank then rank[sink] else 1073741824
  }

  /** Findings are hashed by the rank of the sink and then by fact. */
  lemma HashedOrder(rank: map<nat, nat>, fs: seq<Finding>, i: nat, j: nat)
    requires i < j < |SortFindings(rank, fs)|
    ensures var f, g := SortFindings(rank, fs)[i], SortFindings(rank, fs)[j];
            var a, b := RankOf(rank, f.sink), RankOf(rank, g.sink);
            a < b || (a == b && f.fact <= g.fact)
  {
    SortRises(rank, fs);
  }

  ghost predicate Rises(rank: map<nat, nat>, fs: seq<Finding>) {
    forall i, j {:trigger fs[i], fs[j]} :: 0 <= i < j < |fs| ==> AtMost(rank, fs[i], fs[j])
  }

  lemma {:induction false} InsertRises(rank: map<nat, nat>, f: Finding, fs: seq<Finding>)
    requires Rises(rank, fs)
    ensures Rises(rank, InsertFinding(rank, f, fs))
  {
    if fs != [] {
      var front, last := fs[..|fs| - 1], fs[|fs| - 1];
      if !AtMost(rank, last, f) {
        InsertRises(rank, f, front);
        var r := InsertFinding(rank, f, front);
        forall i | 0 <= i < |r| ensures AtMost(rank, r[i], last) {
          assert r[i] in r;
          if r[i] != f { var k :| 0 <= k < |front| && front[k] == r[i]; }
        }
      }
    }
  }

  lemma {:induction false} SortRises(rank: map<nat, nat>, fs: seq<Finding>)
    ensures Rises(rank, SortFindings(rank, fs))
  {
    hide Rises;
    if fs != [] {
      SortRises(rank, fs[..|fs| - 1]);
      InsertRises(rank, fs[|fs| - 1], SortFindings(rank, fs[..|fs| - 1]));
    } else {
      NothingRises(rank);
    }
  }

  lemma NothingRises(rank: map<nat, nat>)
    ensures Rises(rank, [])
  {
  }

  // ----- whole solves

  ghost function Tells(s: set<Finding>): (r: set<Told>) {
    set f | f in s :: Tell(f)
  }

  lemma ListTells(fs: seq<Finding>, s: set<Finding>)
    requires forall f :: f in fs <==> f in s
    ensures Elements(TellAll(fs)) == Tells(s)
  {
    forall t | t in Tells(s) ensures t in Elements(TellAll(fs)) {
      var f :| f in s && Tell(f) == t;
      var i :| 0 <= i < |fs| && fs[i] == f;
      assert TellAll(fs)[i] == t;
    }
    forall t | t in Elements(TellAll(fs)) ensures t in Tells(s) {
      var i :| 0 <= i < |fs| && TellAll(fs)[i] == t;
      assert fs[i] in s;
    }
  }

  lemma HashTells(rank: map<nat, nat>, found: set<Finding>, kept: set<Finding>, h: Bytes) returns (fs: seq<Finding>)
    requires Hashes(rank, found, kept, h)
    ensures h == SolutionBytes(fs) && forall f :: f in fs <==> f in found + kept
  {
    hide SolutionBytes;
    var a, b :| Lists(a, found) && Lists(b, kept) && h == SolutionBytes(SortFindings(rank, a + b));
    fs := SortFindings(rank, a + b);
    forall f ensures f in fs <==> f in found + kept {
      assert f in found + kept <==> f in Elements(a) || f in Elements(b);
    }
  }

  /** Two solves, full or restricted, on whatever graphs: one hashed text means the same sinks,
      facts and witnesses. */
  lemma HashedTextTells(pb: T.Problem, s: T.Scope, kept: set<Finding>, stamp: Stamp, a: Solution, qb: T.Problem,
                        r: T.Scope, held: set<Finding>, other: Stamp, b: Solution)
    requires T.WellFormed(pb) && IsSolution(pb, s, kept, stamp, a)
    requires T.WellFormed(qb) && IsSolution(qb, r, held, other, b)
    requires (forall f :: f in a.findings ==> LowFinding(f)) && forall f :: f in b.findings ==> LowFinding(f)
    requires a.hashed == b.hashed
    ensures Tells(a.findings) == Tells(b.findings)
  {
    hide SolutionBytes, LowFinding, FindingsOf, T.Tabulated, T.Touched, T.WellFormed, Hashes, Tells;
    var fs := HashTells(pb.rank, FindingsOf(pb, s, stamp), kept, a.hashed);
    var gs := HashTells(qb.rank, FindingsOf(qb, r, other), held, b.hashed);
    SolutionExact(fs, gs);
    ListTells(fs, a.findings);
    ListTells(gs, b.findings);
  }

  // ----- written out

  /** Sink, fact, witness and bar of one finding. */
  lemma SolutionVector(stamp: Stamp)
    ensures SolutionBytes([Finding(2, 5, [0, 1, 2], stamp)]) ==
            ZEROS + [2] + (ZEROS + [5] + (ZEROS + [0] + (ZEROS + [1] + (ZEROS + [2] + [124]))))
  {
    hide U64;
    var f := Finding(2, 5, [0, 1, 2], stamp);
    SolutionFront([f]);
    SmallNumber(0);
    SmallNumber(1);
    SmallNumber(2);
    SmallNumber(5);
    TrailFront([0, 1, 2]);
    TrailFront([1, 2]);
    TrailFront([2]);
    assert [0, 1, 2][1..] == [1, 2] && [1, 2][1..] == [2] && [2][1..] == [] && [f][1..] == [];
  }

  // ----- where a number begins with the bar

  lemma {:induction false} HighByte(b: Byte, k: nat)
    ensures BigEndian(b * Power256(k), k + 1) == [b] + seq(k, i => 0)
  {
    if k > 0 {
      var m := b * Power256(k - 1);
      assert b * Power256(k) == 256 * m;
      HighByte(b, k - 1);
      assert BigEndian(256 * m, k + 1) == BigEndian(m, k) + [0];
    } else {
      assert BigEndian(b, 1) == BigEndian(b / 256, 0) + [b];
    }
  }

  lemma BarNumber()
    ensures U64(LOW) == [BAR_BYTE] + ZEROS
  {
    hide Power256, BigEndian;
    SeventhPower();
    HighByte(124, 7);
  }

  lemma TwoItems(f: Finding, g: Finding)
    ensures SolutionBytes([f, g]) == ItemBytes(f) + ItemBytes(g)
  {
    hide ItemBytes, SolutionBytes;
    SolutionFront([f, g]);
    SolutionFront([g]);
    NoneEmpty();
    assert [f, g][1..] == [g] && [g][1..] == [];
  }

  lemma TwoNodes(a: nat, b: nat)
    ensures TrailBytes([a]) == U64(a) && TrailBytes([a, b]) == U64(a) + U64(b)
  {
    hide U64, TrailBytes;
    TrailFront([a]);
    TrailFront([a, b]);
    TrailFront([b]);
    NoTrail();
    assert [a, b][1..] == [b] && [b][1..] == [] && [a][1..] == [];
  }

  lemma NoTrail()
    ensures TrailBytes([]) == []
  {
  }

  /** A bar before 124 reads as a number followed by a bar. */
  lemma BarMoves(p: Bytes, q: Bytes)
    ensures p + [BAR_BYTE] + (U64(124) + q) == p + U64(LOW) + [BAR_BYTE] + q
  {
    hide U64;
    SmallNumber(124);
    BarNumber();
    assert [BAR_BYTE] + (ZEROS + [124]) == [BAR_BYTE] + ZEROS + [BAR_BYTE];
  }

  /** A node whose number begins with the bar makes two different solutions share a text. */
  lemma HighNumberClashes(stamp: Stamp)
    ensures var fs := [Finding(0, 0, [0], stamp), Finding(124, 0, [0, 0], stamp)];
            var gs := [Finding(0, 0, [0, LOW], stamp), Finding(0, 0, [0], stamp)];
            SolutionBytes(fs) == SolutionBytes(gs) && TellAll(fs) != TellAll(gs)
  {
    hide U64, SolutionBytes, TrailBytes;
    var fs := [Finding(0, 0, [0], stamp), Finding(124, 0, [0, 0], stamp)];
    var gs := [Finding(0, 0, [0, LOW], stamp), Finding(0, 0, [0], stamp)];
    TwoItems(fs[0], fs[1]);
    TwoItems(gs[0], gs[1]);
    TwoNodes(0, 0);
    TwoNodes(0, LOW);
    var n := U64(0);
    var p, q := n + n + n, n + n + n + [BAR_BYTE];
    assert ItemBytes(fs[0]) == p + [BAR_BYTE] && ItemBytes(fs[1]) == U64(124) + q;
    assert ItemBytes(gs[0]) == p + U64(LOW) + [BAR_BYTE] && ItemBytes(gs[1]) == q;
    BarMoves(p, q);
    assert TellAll(fs)[1].sink != TellAll(gs)[1].sink;
  }
}
