/** The checksum of tool/microkit/src/crc32.rs: the CRC of clause 3.2.9 of IEEE 802.3. */
module Crc32 {
  import opened Powers
  import opened Words
  import Encoding = Bytes

  type Byte = Encoding.Byte

  const POLYNOMIAL: nat := 0xEDB8_8320

  /** One division step of the reflected polynomial. */
  function Shift(crc: nat): nat {
    if crc % 2 == 1 then Xor(crc / 2, POLYNOMIAL) else crc / 2
  }

  function Shifts(n: nat, crc: nat): nat {
    if n == 0 then crc else Shifts(n - 1, Shift(crc))
  }

  function Bytes(crc: nat, bytes: seq<Byte>): nat
    decreases |bytes|
  {
    if bytes == [] then crc else Bytes(Shifts(8, Xor(crc, bytes[0])), bytes[1..])
  }

  /** Complement of a 32-bit word. */
  function Complement(x: nat): nat {
    if x <= 0xFFFF_FFFF then 0xFFFF_FFFF - x else 0
  }

  function Checksum(bytes: seq<Byte>): nat {
    Complement(Bytes(0xFFFF_FFFF, bytes))
  }

  method ComputeCrc32(bytes: seq<Byte>) returns (r: nat)
    ensures r == Checksum(bytes)
  {
    var crc := 0xFFFF_FFFF;
    var i := 0;
    while i < |bytes|
      invariant 0 <= i <= |bytes|
      invariant Bytes(crc, bytes[i..]) == Bytes(0xFFFF_FFFF, bytes)
    {
      assert bytes[i..][0] == bytes[i] && bytes[i..][1..] == bytes[i + 1..];
      crc := Xor(crc, bytes[i]);
      ghost var mixed := crc;
      var n := 0;
      while n < 8
        invariant 0 <= n <= 8 && Shifts(8 - n, crc) == Shifts(8, mixed)
      {
        if crc % 2 != 0 {
          crc := Xor(crc / 2, POLYNOMIAL);
        } else {
          crc := crc / 2;
        }
        n := n + 1;
      }
      i := i + 1;
    }
    return Complement(crc);
  }

  // ---- the state is a 32-bit word ----

  lemma PolynomialFits()
    ensures Pow2(32) == 0x1_0000_0000 && Pow2(31) == 0x8000_0000
  {
    Pow2Is32();
  }

  lemma ShiftFits(crc: nat)
    requires crc < Pow2(32)
    ensures Shift(crc) < Pow2(32)
  {
    PolynomialFits();
    XorFits(crc / 2, POLYNOMIAL, 32);
  }

  lemma {:induction false} ShiftsFit(n: nat, crc: nat)
    requires crc < Pow2(32)
    ensures Shifts(n, crc) < Pow2(32)
  {
    if n > 0 {
      ShiftFits(crc);
      ShiftsFit(n - 1, Shift(crc));
    }
  }

  lemma {:induction false} BytesFit(crc: nat, bytes: seq<Byte>)
    requires crc < Pow2(32)
    ensures Bytes(crc, bytes) < Pow2(32)
    decreases |bytes|
  {
    if bytes != [] {
      PolynomialFits();
      XorFits(crc, bytes[0], 32);
      ShiftsFit(8, Xor(crc, bytes[0]));
      BytesFit(Shifts(8, Xor(crc, bytes[0])), bytes[1..]);
    }
  }

  // ---- the bit-serial form ----

  function AsWord(b: bool): nat {
    if b then 1 else 0
  }

  function BitStep(crc: nat, b: bool): nat {
    Shift(Xor(crc, AsWord(b)))
  }

  function Bits(crc: nat, bits: seq<bool>): nat
    decreases |bits|
  {
    if bits == [] then crc else Bits(BitStep(crc, bits[0]), bits[1..])
  }

  /** The n low bits of a byte, lowest first. */
  function LowBits(n: nat, byte: nat): seq<bool> {
    if n == 0 then [] else [byte % 2 == 1] + LowBits(n - 1, byte / 2)
  }

  /** A message as a bit string, the low bit of each byte first. */
  function MessageBits(bytes: seq<Byte>): seq<bool> {
    if bytes == [] then [] else LowBits(8, bytes[0]) + MessageBits(bytes[1..])
  }

  /** The low bit of what is mixed in enters now, the rest one place lower. */
  lemma ShiftTakesBit(crc: nat, w: nat)
    ensures Shift(Xor(crc, w)) == Xor(BitStep(crc, w % 2 == 1), w / 2)
  {
    var bit := AsWord(w % 2 == 1);
    XorHalves(crc, w);
    XorHalves(crc, bit);
    assert Xor(crc / 2, 0) == crc / 2;
    XorAssociative(crc / 2, w / 2, POLYNOMIAL);
    XorCommutes(w / 2, POLYNOMIAL);
    XorAssociative(crc / 2, POLYNOMIAL, w / 2);
  }

  /** Mixing in a byte and shifting is feeding its bits one by one. */
  lemma {:induction false} ByteIsBits(n: nat, crc: nat, byte: nat)
    requires byte < Pow2(n)
    ensures Shifts(n, Xor(crc, byte)) == Bits(crc, LowBits(n, byte))
    decreases n
  {
    if n == 0 {
      assert byte == 0 && Xor(crc, 0) == crc;
    } else {
      ShiftTakesBit(crc, byte);
      ByteIsBits(n - 1, BitStep(crc, byte % 2 == 1), byte / 2);
      assert LowBits(n, byte)[1..] == LowBits(n - 1, byte / 2);
    }
  }

  lemma {:induction false} BitsAppend(crc: nat, p: seq<bool>, q: seq<bool>)
    ensures Bits(crc, p + q) == Bits(Bits(crc, p), q)
    decreases |p|
  {
    if p == [] {
      assert p + q == q;
    } else {
      assert (p + q)[1..] == p[1..] + q;
      BitsAppend(BitStep(crc, p[0]), p[1..], q);
    }
  }

  /** The byte loop equals the bit-serial form. */
  lemma {:induction false} BytesAreBits(crc: nat, bytes: seq<Byte>)
    ensures Bytes(crc, bytes) == Bits(crc, MessageBits(bytes))
    decreases |bytes|
  {
    if bytes != [] {
      assert Pow2(8) == 256 by {
        assert Pow2(4) == 16;
      }
      ByteIsBits(8, crc, bytes[0]);
      BitsAppend(crc, LowBits(8, bytes[0]), MessageBits(bytes[1..]));
      BytesAreBits(Shifts(8, Xor(crc, bytes[0])), bytes[1..]);
    }
  }

  // ---- burst errors ----

  lemma ShiftIsLinear(x: nat, y: nat)
    ensures Xor(Shift(x), Shift(y)) == Shift(Xor(x, y))
  {
    XorHalves(x, y);
    var p := POLYNOMIAL;
    var a, b := x / 2, y / 2;
    if x % 2 == 1 {
      if y % 2 == 1 {
        XorSwap(a, p, b, p);
        XorSelf(p, p);
      } else {
        XorAssociative(a, p, b);
        XorCommutes(p, b);
        XorAssociative(a, b, p);
      }
    } else if y % 2 == 1 {
      XorAssociative(a, b, p);
    }
  }

  /** Two states that step together differ by the step of their difference. */
  lemma StepDifference(x: nat, y: nat, b: bool, c: bool)
    ensures Xor(BitStep(x, b), BitStep(y, c)) == Shift(Xor(Xor(x, y), AsWord(b != c)))
  {
    ShiftIsLinear(Xor(x, AsWord(b)), Xor(y, AsWord(c)));
    XorSwap(x, AsWord(b), y, AsWord(c));
    XorSelf(1, 1);
  }

  /** A difference with a bit at k or above keeps one at k - 1 or above, whatever bit enters. */
  lemma DifferenceHalves(d: nat, k: nat, b: bool)
    requires 0 < k && Pow2(k) <= d < Pow2(32)
    ensures Pow2(k - 1) <= Shift(Xor(d, AsWord(b)))
  {
    var bit := AsWord(b);
    var x := Xor(d, bit);
    XorHalves(d, bit);
    assert Xor(d / 2, 0) == d / 2;
    OddShift(x);
    if x % 2 == 1 {
      if k - 1 <= 31 {
        Pow2Mono(k - 1, 31);
      } else {
        Pow2Mono(32, k);
      }
    }
  }

  /** An odd word sets the top bit when it is shifted. */
  lemma OddShift(x: nat)
    requires x / 2 < Pow2(31)
    ensures x % 2 == 1 ==> Shift(x) >= Pow2(31)
  {
    PolynomialFits();
    LeadingBitStays(x / 2, POLYNOMIAL, 31);
  }

  lemma LeadingBitStays(x: nat, p: nat, k: nat)
    requires x < Pow2(k) <= p < Pow2(k + 1)
    ensures Xor(x, p) >= Pow2(k)
  {
    LeadingBit(p, k);
    HighBits(x, k, k);
    XorBits(x, p, k);
    BitAtLeast(Xor(x, p), k);
  }

  /** A step without a new difference loses none. */
  lemma ShiftInjective(d: nat)
    requires 0 < d < Pow2(32)
    ensures Shift(d) > 0
  {
    OddShift(d);
  }

  lemma DifferenceFits(x: nat, y: nat, b: bool, c: bool)
    requires x < Pow2(32) && y < Pow2(32)
    ensures Xor(x, y) < Pow2(32) && BitStep(x, b) < Pow2(32) && BitStep(y, c) < Pow2(32)
  {
    PolynomialFits();
    XorFits(x, y, 32);
    XorFits(x, AsWord(b), 32);
    XorFits(y, AsWord(c), 32);
    ShiftFits(Xor(x, AsWord(b)));
    ShiftFits(Xor(y, AsWord(c)));
  }

  /** States that differ at bit k or above stay different if the bits that follow differ at
      most in the next k places. */
  lemma {:induction false} StaysDifferent(x: nat, y: nat, p: seq<bool>, q: seq<bool>, k: nat)
    requires x < Pow2(32) && y < Pow2(32) && |p| == |q| && Xor(x, y) >= Pow2(k)
    requires forall j :: k <= j < |p| ==> p[j] == q[j]
    ensures Bits(x, p) != Bits(y, q)
    decreases |p|
  {
    if p == [] {
      XorSelf(x, y);
    } else {
      var left := if k > 0 then k - 1 else 0;
      DifferenceFits(x, y, p[0], q[0]);
      DifferenceStays(x, y, p[0], q[0], k, left);
      StaysDifferent(BitStep(x, p[0]), BitStep(y, q[0]), p[1..], q[1..], left);
    }
  }

  /** One step costs the difference at most one bit, and none of equal inputs all of it. */
  lemma DifferenceStays(x: nat, y: nat, b: bool, c: bool, k: nat, left: nat)
    requires Pow2(k) <= Xor(x, y) < Pow2(32) && (k == 0 ==> b == c)
    requires left == if k > 0 then k - 1 else 0
    ensures Xor(BitStep(x, b), BitStep(y, c)) >= Pow2(left)
  {
    StepDifference(x, y, b, c);
    ShiftedDifference(Xor(x, y), b != c, k, left);
  }

  lemma ShiftedDifference(d: nat, differ: bool, k: nat, left: nat)
    requires Pow2(k) <= d < Pow2(32) && (k == 0 ==> !differ)
    requires left == if k > 0 then k - 1 else 0
    ensures Shift(Xor(d, AsWord(differ))) >= Pow2(left)
  {
    if k > 0 {
      DifferenceHalves(d, k, differ);
    } else {
      DifferenceShifts(d, differ);
    }
  }

  lemma DifferenceShifts(d: nat, differ: bool)
    requires 0 < d < Pow2(32) && !differ
    ensures Shift(Xor(d, AsWord(differ))) > 0
  {
    assert Xor(d, 0) == d;
    ShiftInjective(d);
  }

  /** The first bit that differs sets the top bit of the difference. */
  lemma FirstDifference(crc: nat, b: bool, c: bool)
    requires b != c
    ensures Xor(BitStep(crc, b), BitStep(crc, c)) >= Pow2(31)
  {
    StepDifference(crc, crc, b, c);
    XorSelf(crc, crc);
    assert Xor(0, 1) == 1;
    OddShift(1);
  }

  /** All places where the strings differ lie within 32 consecutive ones. */
  ghost predicate WithinBurst(p: seq<bool>, q: seq<bool>) {
    && |p| == |q|
    && forall j, k :: 0 <= j < |p| && 0 <= k < |p| && p[j] != q[j] && p[k] != q[k] ==> k < j + 32
  }

  lemma {:induction false} BitsDiffer(crc: nat, p: seq<bool>, q: seq<bool>)
    requires crc < Pow2(32) && WithinBurst(p, q) && p != q
    ensures Bits(crc, p) != Bits(crc, q)
    decreases |p|
  {
    DifferenceFits(crc, crc, p[0], q[0]);
    if p[0] == q[0] {
      assert p == [p[0]] + p[1..] && q == [q[0]] + q[1..];
      TailWithinBurst(p, q);
      BitsDiffer(BitStep(crc, p[0]), p[1..], q[1..]);
    } else {
      FirstDifference(crc, p[0], q[0]);
      forall j | 31 <= j < |p| - 1
        ensures p[1..][j] == q[1..][j]
      {
        assert p[0] != q[0] && p[1..][j] == p[j + 1] && q[1..][j] == q[j + 1];
      }
      StaysDifferent(BitStep(crc, p[0]), BitStep(crc, q[0]), p[1..], q[1..], 31);
    }
  }

  lemma TailWithinBurst(p: seq<bool>, q: seq<bool>)
    requires WithinBurst(p, q) && p != []
    ensures WithinBurst(p[1..], q[1..])
  {
    var s, t := p[1..], q[1..];
    forall j, k | 0 <= j < |s| && 0 <= k < |s| && s[j] != t[j] && s[k] != t[k]
      ensures k < j + 32
    {
      assert p[j + 1] != q[j + 1] && p[k + 1] != q[k + 1];
    }
  }

  lemma {:induction false} LowBitsInjective(n: nat, a: nat, b: nat)
    requires a < Pow2(n) && b < Pow2(n)
    ensures |LowBits(n, a)| == |LowBits(n, b)| == n
    ensures LowBits(n, a) == LowBits(n, b) ==> a == b
    decreases n
  {
    if n > 0 {
      LowBitsInjective(n - 1, a / 2, b / 2);
      assert LowBits(n, a)[1..] == LowBits(n - 1, a / 2) && LowBits(n, b)[1..] == LowBits(n - 1, b / 2);
      assert LowBits(n, a)[0] == (a % 2 == 1) && LowBits(n, b)[0] == (b % 2 == 1);
    }
  }

  /** Different messages of one length are different bit strings of one length. */
  lemma {:induction false} MessageBitsInjective(a: seq<Byte>, b: seq<Byte>)
    requires |a| == |b|
    ensures |MessageBits(a)| == |MessageBits(b)| == 8 * |a|
    ensures MessageBits(a) == MessageBits(b) ==> a == b
    decreases |a|
  {
    if a != [] {
      MessageBitsInjective(a[1..], b[1..]);
      assert Pow2(8) == 256 by {
        assert Pow2(4) == 16;
      }
      LowBitsInjective(8, a[0], b[0]);
      assert MessageBits(a)[..8] == LowBits(8, a[0]) && MessageBits(a)[8..] == MessageBits(a[1..]);
      assert MessageBits(b)[..8] == LowBits(8, b[0]) && MessageBits(b)[8..] == MessageBits(b[1..]);
      assert a == [a[0]] + a[1..] && b == [b[0]] + b[1..];
    }
  }

  /** Every burst of up to 32 bits changes the checksum. */
  lemma BurstDetected(a: seq<Byte>, b: seq<Byte>)
    requires |a| == |b| && a != b && WithinBurst(MessageBits(a), MessageBits(b))
    ensures Checksum(a) != Checksum(b)
  {
    MessageBitsInjective(a, b);
    BytesAreBits(0xFFFF_FFFF, a);
    BytesAreBits(0xFFFF_FFFF, b);
    PolynomialFits();
    BytesFit(0xFFFF_FFFF, a);
    BytesFit(0xFFFF_FFFF, b);
    BitsDiffer(0xFFFF_FFFF, MessageBits(a), MessageBits(b));
  }
}
