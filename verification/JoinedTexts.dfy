/** Parts joined by a separator none of them contains can be told apart again. */
module JoinedTexts {
  import opened ByteStrings
  import opened Normalisation

  function Join(sep: Byte, parts: seq<Bytes>): (r: Bytes)
    decreases |parts|, 1
  {
    if parts == [] then [] else parts[0] + AfterFirst(sep, parts)
  }

  function AfterFirst(sep: Byte, parts: seq<Bytes>): (r: Bytes)
    requires parts != []
    decreases |parts|, 0
  {
    if |parts| == 1 then [] else [sep] + Join(sep, parts[1..])
  }

  predicate Free(sep: Byte, parts: seq<Bytes>) {
    forall i :: 0 <= i < |parts| ==> sep !in parts[i]
  }

  lemma SeparatorAfter(sep: Byte, a: Bytes, x: Bytes, b: Bytes, y: Bytes)
    requires sep !in b && a + x == b + y && (x == [] || x[0] == sep)
    ensures |b| <= |a|
  {
    var s := a + x;
    assert |s| == |b| + |y| && s == b + y;
    assert x != [] ==> s[|a|] == x[0];
    forall k | 0 <= k < |b| ensures s[k] != sep { assert s[k] == b[k] && b[k] in b; }
  }

  lemma SplitAtSeparator(sep: Byte, a: Bytes, x: Bytes, b: Bytes, y: Bytes)
    requires sep !in a && sep !in b && a + x == b + y && (x == [] || x[0] == sep) && (y == [] || y[0] == sep)
    ensures a == b && x == y
  {
    SeparatorAfter(sep, a, x, b, y);
    SeparatorAfter(sep, b, y, a, x);
    assert a == (a + x)[..|a|] && b == (b + y)[..|b|];
    assert x == (a + x)[|a|..] && y == (b + y)[|b|..];
  }

  /** Distinct lists of parts stay distinct as text. */
  lemma {:induction false} JoinInjective(sep: Byte, p: seq<Bytes>, q: seq<Bytes>)
    requires Free(sep, p) && Free(sep, q) && p != [] && q != [] && Join(sep, p) == Join(sep, q)
    ensures p == q
  {
    SplitAtSeparator(sep, p[0], AfterFirst(sep, p), q[0], AfterFirst(sep, q));
    if |p| > 1 && |q| > 1 {
      assert AfterFirst(sep, p)[1..] == Join(sep, p[1..]) && AfterFirst(sep, q)[1..] == Join(sep, q[1..]);
      JoinInjective(sep, p[1..], q[1..]);
      assert p == [p[0]] + p[1..] && q == [q[0]] + q[1..];
    } else {
      assert |p| == 1 && |q| == 1;
      assert p == [p[0]] && q == [q[0]];
    }
  }

  // ----- positions joined by dots

  lemma {:induction false} DecimalInjective(m: nat, n: nat)
    requires Decimal(m) == Decimal(n)
    ensures m == n
  {
    var a, b := Decimal(m), Decimal(n);
    DecimalDigits(m / 10);
    DecimalDigits(n / 10);
    assert m >= 10 ==> |a| >= 2;
    assert n >= 10 ==> |b| >= 2;
    assert a[|a| - 1] == 48 + m % 10 && b[|b| - 1] == 48 + n % 10;
    if m >= 10 && n >= 10 {
      assert a[..|a| - 1] == Decimal(m / 10) && b[..|b| - 1] == Decimal(n / 10);
      DecimalInjective(m / 10, n / 10);
    }
  }

  function Digits(path: seq<nat>): (r: seq<Bytes>)
    ensures |r| == |path|
  {
    seq(|path|, i requires 0 <= i < |path| => Decimal(path[i]))
  }

  /** A path of positions as the text the mapper stores. */
  function Dotted(path: seq<nat>): (r: Bytes) {
    Join(DOT, Digits(path))
  }

  lemma DigitsFree(path: seq<nat>)
    ensures Free(DOT, Digits(path))
  {
    forall i | 0 <= i < |path| ensures DOT !in Digits(path)[i] {
      DecimalDigits(path[i]);
    }
  }

  lemma DottedNonEmpty(path: seq<nat>)
    requires path != []
    ensures Dotted(path) != []
  {
    DecimalDigits(path[0]);
  }

  lemma DottedInjective(p: seq<nat>, q: seq<nat>)
    requires Dotted(p) == Dotted(q)
    ensures p == q
  {
    hide Join;
    NothingJoined();
    if p != [] && q != [] {
      DigitsFree(p);
      DigitsFree(q);
      JoinInjective(DOT, Digits(p), Digits(q));
      forall i | 0 <= i < |p| ensures p[i] == q[i] {
        assert Digits(p)[i] == Decimal(p[i]) && Digits(q)[i] == Decimal(q[i]);
        DecimalInjective(p[i], q[i]);
      }
    } else if p != [] {
      DottedNonEmpty(p);
    } else if q != [] {
      DottedNonEmpty(q);
    }
  }

  lemma NothingJoined()
    ensures Join(DOT, Digits([])) == []
  {
  }
}
