/** Little-endian encoding of unsigned integers. */
module Bytes {
  import opened Powers

  type Byte = b: nat | b < 256

  /** The n low bytes of x, lowest first. */
  function Le(x: nat, n: nat): seq<Byte> {
    if n == 0 then [] else [x % 256] + Le(x / 256, n - 1)
  }

  function LeValue(s: seq<Byte>): nat {
    if s == [] then 0 else s[0] + 256 * LeValue(s[1..])
  }

  lemma {:induction false} LeLength(x: nat, n: nat)
    ensures |Le(x, n)| == n
  {
    if n > 0 {
      LeLength(x / 256, n - 1);
    }
  }

  /** The value fits n bytes. */
  predicate FitsBytes(x: nat, n: nat) {
    if n == 0 then x == 0 else FitsBytes(x / 256, n - 1)
  }

  lemma Fits2(x: nat)
    requires x < 0x1_0000
    ensures FitsBytes(x, 2)
  {
  }

  lemma Fits4(x: nat)
    requires x < 0x1_0000_0000
    ensures FitsBytes(x, 4)
  {
    var y := x / 256;
    var z := y / 256;
    Fits2(z);
    assert FitsBytes(y, 3) == FitsBytes(z, 2);
  }

  lemma Fits8(x: nat)
    requires x < WORD
    ensures FitsBytes(x, 8)
  {
    var a := x / 256;
    var b := a / 256;
    var c := b / 256;
    var d := c / 256;
    Fits4(d);
    assert FitsBytes(c, 5) == FitsBytes(d, 4);
    assert FitsBytes(b, 6) == FitsBytes(c, 5);
    assert FitsBytes(a, 7) == FitsBytes(b, 6);
  }

  /** Decoding undoes encoding. */
  lemma {:induction false} LeRoundTrip(x: nat, n: nat)
    requires FitsBytes(x, n)
    ensures LeValue(Le(x, n)) == x
    decreases n
  {
    if n > 0 {
      LeRoundTrip(x / 256, n - 1);
      assert Le(x, n)[1..] == Le(x / 256, n - 1);
    }
  }

  /** The low bytes of a number are the number modulo a power of two. */
  lemma {:induction false} LowBytes(s: seq<Byte>, n: nat)
    requires n <= |s|
    ensures LeValue(s[..n]) == LeValue(s) % Pow2(8 * n) && LeValue(s[..n]) < Pow2(8 * n)
    decreases n
  {
    if n > 0 {
      LowBytes(s[1..], n - 1);
      assert s[..n][1..] == s[1..][..n - 1];
      EightMore(n);
      LowStep(s[0], LeValue(s[1..]), Pow2(8 * (n - 1)));
    } else {
      UniqueMod(LeValue(s), LeValue(s), 1, 0);
    }
  }

  lemma LowStep(b: nat, v: nat, m: nat)
    requires b < 256 && m > 0
    ensures (b + 256 * v) % (256 * m) == b + 256 * (v % m) < 256 * m
  {
    var q, low := v / m, v % m;
    ScaledSum(b, q, m, low);
    UniqueMod(b + 256 * v, q, 256 * m, b + 256 * low);
  }

  lemma EightMore(n: nat)
    requires n > 0
    ensures Pow2(8 * n) == 256 * Pow2(8 * (n - 1))
  {
    var k := 8 * (n - 1);
    Pow2Add(8, k);
    assert Pow2(8) == 256;
  }

  lemma ScaledSum(a: nat, q: nat, m: nat, low: nat)
    requires a < 256 && low < m
    ensures a + 256 * (q * m + low) == q * (256 * m) + (a + 256 * low)
    ensures a + 256 * low < 256 * m
  {
  }

  /** A zeroed field reads as zero. */
  lemma {:induction false} ZeroValue(s: seq<Byte>)
    requires forall i :: 0 <= i < |s| ==> s[i] == 0
    ensures LeValue(s) == 0
    decreases |s|
  {
    if s != [] {
      ZeroValue(s[1..]);
    }
  }

  function ReadLe(s: seq<Byte>, at: nat, n: nat): nat
    requires at + n <= |s|
  {
    LeValue(s[at..at + n])
  }

  /** A field found where it was put. */
  lemma ReadBack(s: seq<Byte>, at: nat, n: nat, x: nat)
    requires at + n <= |s| && s[at..at + n] == Le(x, n) && FitsBytes(x, n)
    ensures ReadLe(s, at, n) == x
  {
    LeRoundTrip(x, n);
  }

  lemma SliceOfSlice<T>(s: seq<T>, a: nat, b: nat, i: nat, j: nat)
    requires a <= b <= |s| && i <= j <= b - a
    ensures s[a..b][i..j] == s[a + i..a + j]
  {
    var u, v := s[a..b][i..j], s[a + i..a + j];
    forall k | 0 <= k < j - i
      ensures u[k] == v[k]
    {
      assert u[k] == s[a..b][i + k] == s[a + (i + k)];
      assert v[k] == s[(a + i) + k];
    }
  }

  /** A stretch of a sequence that was found inside another one. */
  lemma SubSlice<T>(s: seq<T>, at: nat, p: seq<T>, x: nat, y: nat)
    requires at + |p| <= |s| && s[at..at + |p|] == p && x <= y <= |p|
    ensures s[at + x..at + y] == p[x..y]
  {
    SliceOfSlice(s, at, at + |p|, x, y);
  }

  lemma MiddleSlice<T>(a: seq<T>, b: seq<T>, c: seq<T>, x: nat, y: nat)
    requires x <= y <= |b|
    ensures (a + b + c)[|a| + x..|a| + y] == b[x..y]
  {
  }

  lemma LastSlice<T>(a: seq<T>, b: seq<T>, x: nat, y: nat)
    requires x <= y <= |b|
    ensures (a + b)[|a| + x..|a| + y] == b[x..y]
  {
  }

  // ---- structures of 64-bit words ----

  function PackWords(ws: seq<nat>): seq<Byte> {
    if ws == [] then [] else Le(ws[0], 8) + PackWords(ws[1..])
  }

  lemma {:induction false} WordsLength(ws: seq<nat>)
    ensures |PackWords(ws)| == 8 * |ws|
    decreases |ws|
  {
    if ws != [] {
      LeLength(ws[0], 8);
      WordsLength(ws[1..]);
    }
  }

  lemma {:induction false} WordAt(ws: seq<nat>, k: nat)
    requires k < |ws|
    ensures |PackWords(ws)| == 8 * |ws| && PackWords(ws)[8 * k..8 * k + 8] == Le(ws[k], 8)
    decreases |ws|
  {
    LeLength(ws[0], 8);
    WordsLength(ws);
    WordsLength(ws[1..]);
    if k > 0 {
      WordAt(ws[1..], k - 1);
      LastSlice(Le(ws[0], 8), PackWords(ws[1..]), 8 * (k - 1), 8 * (k - 1) + 8);
    }
  }

  lemma WordInSlice(s: seq<Byte>, at: nat, p: seq<Byte>, i: nat, x: nat)
    requires at + |p| <= |s| && s[at..at + |p|] == p && i + 8 <= |p|
    requires p[i..i + 8] == Le(x, 8) && x < WORD
    ensures ReadLe(s, at + i, 8) == x
  {
    SubSlice(s, at, p, i, i + 8);
    Fits8(x);
    ReadBack(s, at + i, 8, x);
  }

  /** Reading word k of a structure that lies at this place. */
  lemma ReadWordOf(s: seq<Byte>, at: nat, ws: seq<nat>, k: nat)
    requires at + |PackWords(ws)| <= |s| && s[at..at + |PackWords(ws)|] == PackWords(ws)
    requires k < |ws| && ws[k] < WORD
    ensures at + 8 * k + 8 <= |s| && ReadLe(s, at + 8 * k, 8) == ws[k]
  {
    var i := 8 * k;
    WordAt(ws, k);
    WordInSlice(s, at, PackWords(ws), i, ws[k]);
  }
}
