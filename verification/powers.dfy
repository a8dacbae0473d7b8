/** Powers of two, integer logarithms and trailing zeros over the naturals.
    Machine words of the modelled program are naturals below Pow2(64); every
    place that can wrap writes the reduction out. */
module Powers {

  function Pow2(n: nat): (r: nat)
    ensures r > 0
  {
    if n == 0 then 1 else 2 * Pow2(n - 1)
  }

  const WORD: nat := 0x1_0000_0000_0000_0000

  function WrappingAdd(a: nat, b: nat): nat {
    if a + b < WORD then a + b else a + b - WORD
  }

  function WrappingSub(a: nat, b: nat): int {
    if b <= a then a - b else a - b + WORD
  }

  function RoundDown(n: nat, x: nat): nat
    requires x > 0
  {
    n - n % x
  }

  function RoundUp(n: nat, x: nat): nat
    requires x > 0
  {
    var m := n % x;
    if m == 0 then n else n + x - m
  }

  lemma {:induction false} Pow2Add(a: nat, b: nat)
    ensures Pow2(a + b) == Pow2(a) * Pow2(b)
  {
    if a == 0 {
    } else {
      Pow2Add(a - 1, b);
      assert Pow2(a + b) == 2 * Pow2(a - 1 + b);
      assert 2 * (Pow2(a - 1) * Pow2(b)) == (2 * Pow2(a - 1)) * Pow2(b);
    }
  }

  lemma {:induction false} Pow2Mono(a: nat, b: nat)
    requires a <= b
    ensures Pow2(a) <= Pow2(b)
    decreases b - a
  {
    if a == b {
    } else {
      Pow2Mono(a + 1, b);
    }
  }

  lemma Pow2Square(k: nat, v: nat)
    requires Pow2(k) == v
    ensures Pow2(2 * k) == v * v
  {
    Pow2Add(k, k);
  }

  lemma Pow2Is32()
    ensures Pow2(32) == 0x1_0000_0000
  {
    assert Pow2(4) == 16;
    Pow2Square(4, 16);
    Pow2Square(8, 0x100);
    Pow2Square(16, 0x1_0000);
  }

  lemma Pow2Is64()
    ensures Pow2(64) == WORD
  {
    Pow2Is32();
    Pow2Square(32, 0x1_0000_0000);
  }

  /** Rust's `ilog2` and the tool's `msb`. */
  function Log2(x: nat): nat
    requires x > 0
  {
    if x == 1 then 0 else Log2(x / 2) + 1
  }

  lemma {:induction false} Log2Bounds(x: nat)
    requires x > 0
    ensures Pow2(Log2(x)) <= x < Pow2(Log2(x) + 1)
  {
    if x == 1 {
    } else {
      Log2Bounds(x / 2);
    }
  }

  lemma Log2Unique(x: nat, k: nat)
    requires x > 0 && Pow2(k) <= x < Pow2(k + 1)
    ensures Log2(x) == k
  {
    var r := Log2(x);
    Log2Bounds(x);
    if r < k {
      Pow2Mono(r + 1, k);
    } else if k < r {
      Pow2Mono(k + 1, r);
    }
  }

  lemma Log2Mono(x: nat, y: nat)
    requires 0 < x <= y
    ensures Log2(x) <= Log2(y)
  {
    Log2Bounds(x);
    Log2Bounds(y);
    if Log2(y) < Log2(x) {
      Pow2Mono(Log2(y) + 1, Log2(x));
    }
  }

  lemma Log2AtLeast(x: nat, k: nat)
    requires x > 0
    ensures Pow2(k) <= x <==> k <= Log2(x)
  {
    Log2Bounds(x);
    if k <= Log2(x) {
      Pow2Mono(k, Log2(x));
    } else {
      Pow2Mono(Log2(x) + 1, k);
    }
  }

  lemma Log2OfPow2(k: nat)
    ensures Log2(Pow2(k)) == k
  {
    Log2Unique(Pow2(k), k);
  }

  // ---- divisibility by powers of two ----

  /** The low `bits` bits of x are zero. Halving keeps the reasoning linear;
      AlignedIsMod gives the usual reading. */
  ghost predicate Aligned(x: int, bits: nat)
    decreases bits
  {
    bits == 0 || (x % 2 == 0 && Aligned(x / 2, bits - 1))
  }

  lemma {:induction false} AlignedIsMod(x: int, bits: nat)
    ensures Aligned(x, bits) <==> x % Pow2(bits) == 0
    decreases bits
  {
    if bits == 0 {
    } else {
      AlignedIsMod(x / 2, bits - 1);
      DoubleMod(x, Pow2(bits - 1));
    }
  }

  lemma DoubleMod(x: int, m: nat)
    requires m > 0
    ensures x % (2 * m) == 0 <==> x % 2 == 0 && (x / 2) % m == 0
  {
    if x % (2 * m) == 0 {
      var q := x / (2 * m);
      assert x == 2 * (q * m);
      MultipleMod(q, m);
    }
    if x % 2 == 0 && (x / 2) % m == 0 {
      var q := (x / 2) / m;
      assert x == q * (2 * m);
      MultipleMod(q, 2 * m);
    }
  }

  lemma HalveMod(x: nat, m: nat)
    requires m > 0
    ensures x % (2 * m) == 2 * ((x / 2) % m) + x % 2
  {
    var h, b := x / 2, x % 2;
    var q, r := h / m, h % m;
    assert x == 2 * (q * m + r) + b;
    assert 2 * (q * m) == q * (2 * m);
    UniqueMod(x, q, 2 * m, 2 * r + b);
  }

  lemma UniqueMod(x: int, q: int, m: nat, r: nat)
    requires r < m && x == q * m + r
    ensures x / m == q && x % m == r
  {
    var k := x / m - q;
    assert x == (x / m) * m + x % m;
    assert k * m == r - x % m;
    MulBounds(k, m);
  }

  lemma MulBounds(a: int, m: int)
    requires m > 0
    ensures a >= 1 ==> a * m >= m
    ensures a <= -1 ==> a * m <= -m
  {
    if a >= 1 {
      assert (a - 1) * m >= 0;
    } else if a <= -1 {
      assert (-1 - a) * m >= 0;
    }
  }

  lemma MultipleMod(k: int, m: nat)
    requires m > 0
    ensures (k * m) % m == 0 && (k * m) / m == k
  {
    var q, r := (k * m) / m, (k * m) % m;
    assert k * m == q * m + r;
    assert (k - q) * m == r;
    MulBounds(k - q, m);
  }

  lemma {:induction false} AlignedAdd(x: int, y: int, bits: nat)
    requires Aligned(x, bits) && Aligned(y, bits)
    ensures Aligned(x + y, bits) && Aligned(x - y, bits)
    decreases bits
  {
    if bits == 0 {
    } else {
      AlignedAdd(x / 2, y / 2, bits - 1);
      assert (x + y) / 2 == x / 2 + y / 2 && (x - y) / 2 == x / 2 - y / 2;
    }
  }

  lemma {:induction false} AlignedWeaken(x: int, a: nat, b: nat)
    requires b <= a && Aligned(x, a)
    ensures Aligned(x, b)
    decreases b
  {
    if b == 0 {
    } else {
      AlignedWeaken(x / 2, a - 1, b - 1);
    }
  }

  lemma {:induction false} AlignedPow2(a: nat, b: nat)
    requires b <= a
    ensures Aligned(Pow2(a), b)
  {
    if b == 0 {
    } else {
      AlignedPow2(a - 1, b - 1);
      var x := Pow2(a - 1);
      assert Pow2(a) == 2 * x && (2 * x) / 2 == x && (2 * x) % 2 == 0;
    }
  }

  lemma {:induction false} AlignedZero(bits: nat)
    ensures Aligned(0, bits)
  {
    if bits == 0 {
    } else {
      AlignedZero(bits - 1);
    }
  }

  /** A positive multiple of 2^bits is at least 2^bits. */
  lemma {:induction false} AlignedAtLeast(x: int, bits: nat)
    requires x > 0 && Aligned(x, bits)
    ensures x >= Pow2(bits)
    decreases bits
  {
    if bits == 0 {
    } else {
      AlignedAtLeast(x / 2, bits - 1);
    }
  }

  /** Rust's `trailing_zeros` on a non-zero word; the tool's `lsb`. */
  function TrailingZeros(x: nat): nat
    requires x > 0
  {
    if x % 2 == 1 then 0 else TrailingZeros(x / 2) + 1
  }

  lemma {:induction false} TrailingZerosAligned(x: nat)
    requires x > 0
    ensures Aligned(x, TrailingZeros(x)) && !Aligned(x, TrailingZeros(x) + 1)
  {
    if x % 2 == 1 {
    } else {
      TrailingZerosAligned(x / 2);
    }
  }

  lemma TrailingZerosMax(x: nat, k: nat)
    requires x > 0
    ensures Aligned(x, k) <==> k <= TrailingZeros(x)
  {
    var r := TrailingZeros(x);
    TrailingZerosAligned(x);
    if k <= r {
      AlignedWeaken(x, r, k);
    } else if Aligned(x, k) {
      AlignedWeaken(x, k, r + 1);
    }
  }

  lemma TrailingZerosAtMost(x: nat)
    requires x > 0
    ensures Pow2(TrailingZeros(x)) <= x
    ensures TrailingZeros(x) <= Log2(x)
  {
    TrailingZerosAligned(x);
    AlignedAtLeast(x, TrailingZeros(x));
    Log2AtLeast(x, TrailingZeros(x));
  }

  /** Adding the lowest set bit clears it. */
  lemma {:induction false} AddLowestBit(x: nat)
    requires x > 0
    ensures Aligned(x + Pow2(TrailingZeros(x)), TrailingZeros(x) + 1)
  {
    if x % 2 == 1 {
    } else {
      AddLowestBit(x / 2);
    }
  }
}
