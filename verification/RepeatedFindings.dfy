/** A finding listed both as fresh and as kept makes the hashed bytes longer. */
module RepeatedFindings {
  import opened FiniteSets
  import opened ByteStrings
  import opened Incremental
  import opened Findings
  import opened Solutions

  function Weight(f: Finding): (w: nat)
    ensures w > 0
  {
    |U64(f.sink)| + |U64(f.fact)| + |TrailBytes(f.trail)| + 1
  }

  function Total(fs: seq<Finding>): (n: nat) {
    if fs == [] then 0 else Total(fs[..|fs| - 1]) + Weight(fs[|fs| - 1])
  }

  lemma {:induction false} BytesTotal(fs: seq<Finding>)
    ensures |SolutionBytes(fs)| == Total(fs)
  {
    hide U64, TrailBytes;
    if fs != [] {
      BytesTotal(fs[..|fs| - 1]);
      assert |BAR| == 1;
    }
  }

  lemma {:induction false} TotalJoined(fs: seq<Finding>, gs: seq<Finding>)
    ensures Total(fs + gs) == Total(fs) + Total(gs)
  {
    hide Weight;
    if gs == [] {
      assert fs + gs == fs;
    } else {
      TotalJoined(fs, gs[..|gs| - 1]);
      assert (fs + gs)[..|fs + gs| - 1] == fs + gs[..|gs| - 1];
    }
  }

  lemma NoneTotal()
    ensures Total([]) == 0
  {
  }

  lemma LoneTotal(f: Finding)
    ensures Total([f]) == Weight(f)
  {
    hide Weight;
    assert [f][..0] == [];
  }

  lemma {:induction false} InsertTotal(rank: map<nat, nat>, f: Finding, fs: seq<Finding>)
    ensures Total(InsertFinding(rank, f, fs)) == Total(fs) + Weight(f)
  {
    hide Weight, AtMost, Total;
    LoneTotal(f);
    if fs == [] {
      NoneTotal();
    } else {
      var front, last := fs[..|fs| - 1], fs[|fs| - 1];
      assert fs == front + [last];
      if AtMost(rank, last, f) {
        TotalJoined(fs, [f]);
      } else {
        InsertTotal(rank, f, front);
        LoneTotal(last);
        TotalJoined(InsertFinding(rank, f, front), [last]);
        TotalJoined(front, [last]);
      }
    }
  }

  lemma {:induction false} SortTotal(rank: map<nat, nat>, fs: seq<Finding>)
    ensures Total(SortFindings(rank, fs)) == Total(fs)
  {
    hide Weight, InsertFinding;
    if fs != [] {
      SortTotal(rank, fs[..|fs| - 1]);
      InsertTotal(rank, fs[|fs| - 1], SortFindings(rank, fs[..|fs| - 1]));
    }
  }

  /** The members of `fs` that `seen` does not list. */
  ghost function Unseen(seen: seq<Finding>, fs: seq<Finding>): (r: seq<Finding>) {
    if fs == [] then []
    else
      var f, front := fs[|fs| - 1], Unseen(seen, fs[..|fs| - 1]);
      if f in seen then front else front + [f]
  }

  lemma {:induction false} UnseenOnce(seen: seq<Finding>, fs: seq<Finding>)
    requires Distinct(fs)
    ensures Distinct(Unseen(seen, fs)) && forall f :: f in Unseen(seen, fs) <==> f in fs && f !in seen
  {
    if fs != [] {
      UnseenOnce(seen, fs[..|fs| - 1]);
    }
  }

  lemma {:induction false} UnseenTotal(seen: seq<Finding>, fs: seq<Finding>)
    ensures Total(Unseen(seen, fs)) <= Total(fs)
    ensures (exists f :: f in fs && f in seen) ==> Total(Unseen(seen, fs)) < Total(fs)
  {
    hide Weight;
    if fs != [] {
      var f, front := fs[|fs| - 1], fs[..|fs| - 1];
      UnseenTotal(seen, front);
      assert forall h :: h in fs ==> h == f || h in front;
      if f !in seen { assert (Unseen(seen, front) + [f])[..|Unseen(seen, front)|] == Unseen(seen, front); }
    }
  }

  lemma UnseenJoined(fs: seq<Finding>, gs: seq<Finding>)
    requires Distinct(fs) && Distinct(gs)
    ensures Distinct(fs + Unseen(fs, gs)) && Elements(fs + Unseen(fs, gs)) == Elements(fs) + Elements(gs)
  {
    UnseenOnce(fs, gs);
    var r := Unseen(fs, gs);
    forall i, j | 0 <= i < |fs| && 0 <= j < |r| ensures fs[i] != r[j] { assert r[j] in r; }
    forall f | f in Elements(fs) + Elements(gs) ensures f in fs + r { }
  }

  /** Of two lists over the same findings, the one that repeats some hashes longer. */
  lemma RepeatsLengthen(rank: map<nat, nat>, all: set<Finding>, found: set<Finding>, kept: set<Finding>, full: Bytes,
                        part: Bytes)
    requires KeysApart(rank, all) && found + kept == all && found * kept != {}
    requires Hashes(rank, all, {}, full) && Hashes(rank, found, kept, part)
    ensures |part| > |full|
  {
    hide KeysApart, SortFindings, SolutionBytes, Total, Unseen, Distinct;
    var a, b :| Lists(a, all) && Lists(b, {}) && full == SolutionBytes(SortFindings(rank, a + b));
    var d, e :| Lists(d, found) && Lists(e, kept) && part == SolutionBytes(SortFindings(rank, d + e));
    NothingListed(b);
    assert a + b == a;
    UnseenJoined(d, e);
    SortedOnce(rank, a, d + Unseen(d, e));
    SortTotal(rank, a);
    SortTotal(rank, d + Unseen(d, e));
    SortTotal(rank, d + e);
    TotalJoined(d, e);
    TotalJoined(d, Unseen(d, e));
    UnseenTotal(d, e);
    var f :| f in found * kept;
    assert f in Elements(d) && f in Elements(e);
    BytesTotal(SortFindings(rank, a));
    BytesTotal(SortFindings(rank, d + e));
  }

  /** Every finite set of findings can be listed. */
  lemma {:induction false} Listing(s: set<Finding>) returns (fs: seq<Finding>)
    ensures Lists(fs, s)
  {
    if s == {} {
      fs := [];
      assert Elements(fs) == {};
    } else {
      var f :| f in s;
      var front := Listing(s - {f});
      fs := front + [f];
      ListMore(front, s - {f}, f);
      assert s == s - {f} + {f};
    }
  }
}
