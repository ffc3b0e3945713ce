/** Byte strings, their lexicographic order, and the fixed-width framing that
    every signature and every encoded graph is built from. */
module ByteStrings {
  datatype Option<+T> = None | Some(value: T)

  type Byte = b: int | 0 <= b < 256
  type Bytes = seq<Byte>

  const TWO_64: nat := 0x1_0000_0000_0000_0000

  /** Strict lexicographic order; a proper prefix comes first. */
  predicate Less(a: seq<int>, b: seq<int>) {
    b != [] && (a == [] || a[0] < b[0] || (a[0] == b[0] && Less(a[1..], b[1..])))
  }

  lemma {:induction false} LessIrreflexive(a: seq<int>)
    ensures !Less(a, a)
  {
    if a != [] { LessIrreflexive(a[1..]); }
  }

  lemma {:induction false} LessTotal(a: seq<int>, b: seq<int>)
    ensures Less(a, b) || a == b || Less(b, a)
  {
    if a != [] && b != [] && a[0] == b[0] {
      LessTotal(a[1..], b[1..]);
      assert a == [a[0]] + a[1..] && b == [b[0]] + b[1..];
    }
  }

  lemma {:induction false} LessTransitive(a: seq<int>, b: seq<int>, c: seq<int>)
    requires Less(a, b) && Less(b, c)
    ensures Less(a, c)
  {
    if a != [] && a[0] == b[0] == c[0] { LessTransitive(a[1..], b[1..], c[1..]); }
  }

  lemma {:induction false} LessAfterPrefix(p: seq<int>, a: seq<int>, b: seq<int>)
    ensures Less(p + a, p + b) <==> Less(a, b)
  {
    if p == [] {
      assert p + a == a && p + b == b;
    } else {
      LessAfterPrefix(p[1..], a, b);
      assert (p + a)[1..] == p[1..] + a && (p + b)[1..] == p[1..] + b;
    }
  }

  function Larger(a: nat, b: nat): (r: nat) {
    if a < b then b else a
  }

  /** A lower-case hexadecimal digit. */
  function HexDigit(n: nat): (r: Byte)
    requires n < 16
  {
    if n < 10 then 48 + n else 87 + n
  }

  lemma Associative<T>(a: seq<T>, b: seq<T>, c: seq<T>)
    ensures (a + b) + c == a + (b + c)
  {
  }

  function Power256(k: nat): (r: nat)
    ensures r >= 1
  {
    if k == 0 then 1 else 256 * Power256(k - 1)
  }

  function BigEndian(v: nat, k: nat): (r: Bytes)
    ensures |r| == k
  {
    if k == 0 then [] else BigEndian(v / 256, k - 1) + [v % 256]
  }

  /** Eight big-endian bytes. Values outside 64 bits never reach this function:
      such a graph is reported as malformed before it is encoded. */
  function U64(v: nat): (r: Bytes)
    ensures |r| == 8
  {
    BigEndian(v, 8)
  }

  /** Big-endian frames of one width compare as the numbers they hold,
      whatever follows them. */
  lemma {:induction false} BigEndianMonotone(v: nat, w: nat, k: nat, x: Bytes, y: Bytes)
    requires v < w < Power256(k)
    ensures Less(BigEndian(v, k) + x, BigEndian(w, k) + y)
  {
    if k > 0 {
      var p, q := BigEndian(v / 256, k - 1), BigEndian(w / 256, k - 1);
      assert BigEndian(v, k) + x == p + ([v % 256] + x);
      assert BigEndian(w, k) + y == q + ([w % 256] + y);
      if v / 256 < w / 256 {
        BigEndianMonotone(v / 256, w / 256, k - 1, [v % 256] + x, [w % 256] + y);
      } else {
        LessAfterPrefix(p, [v % 256] + x, [w % 256] + y);
      }
    }
  }

  lemma U64Range()
    ensures Power256(8) == TWO_64
  {
    assert Power256(1) == 256;
    assert Power256(2) == 0x1_0000;
    assert Power256(3) == 0x100_0000;
    assert Power256(4) == 0x1_0000_0000;
    assert Power256(5) == 0x100_0000_0000;
    assert Power256(6) == 0x1_0000_0000_0000;
    assert Power256(7) == 0x100_0000_0000_0000;
  }

  lemma U64Monotone(v: nat, w: nat, x: Bytes, y: Bytes)
    requires v < w < TWO_64
    ensures Less(U64(v) + x, U64(w) + y)
  {
    U64Range();
    BigEndianMonotone(v, w, 8, x, y);
  }

  /** A 64-bit frame can be read back from the front of any string. */
  lemma U64Cancel(v: nat, w: nat, x: Bytes, y: Bytes)
    requires v < TWO_64 && w < TWO_64
    requires U64(v) + x == U64(w) + y
    ensures v == w && x == y
  {
    LessIrreflexive(U64(v) + x);
    if v < w { U64Monotone(v, w, x, y); }
    if w < v { U64Monotone(w, v, y, x); }
    assert x == (U64(v) + x)[8..] && y == (U64(w) + y)[8..];
  }

  /** `_text`: the length, then the bytes. */
  function Text(s: Bytes): (r: Bytes) {
    U64(|s|) + s
  }

  lemma TextCancel(s: Bytes, t: Bytes, x: Bytes, y: Bytes)
    requires |s| < TWO_64 && |t| < TWO_64
    requires Text(s) + x == Text(t) + y
    ensures s == t && x == y
  {
    Associative(U64(|s|), s, x);
    Associative(U64(|t|), t, y);
    U64Cancel(|s|, |t|, s + x, t + y);
    assert s == (s + x)[..|s|] && t == (t + y)[..|t|];
    assert x == (s + x)[|s|..] && y == (t + y)[|t|..];
  }

  lemma PrefixCancel(p: Bytes, x: Bytes, y: Bytes)
    requires p + x == p + y
    ensures x == y
  {
    assert x == (p + x)[|p|..] && y == (p + y)[|p|..];
  }
}
