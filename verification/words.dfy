/** Bits of unsigned machine words, as natural numbers. */
module Words {
  import opened Powers

  predicate Bit(x: nat, i: nat) {
    if i == 0 then x % 2 == 1 else Bit(x / 2, i - 1)
  }

  function Or(x: nat, y: nat): nat {
    if x == 0 then y
    else if y == 0 then x
    else 2 * Or(x / 2, y / 2) + (if x % 2 == 1 || y % 2 == 1 then 1 else 0)
  }

  function Xor(x: nat, y: nat): nat {
    if x == 0 then y
    else if y == 0 then x
    else 2 * Xor(x / 2, y / 2) + (if x % 2 != y % 2 then 1 else 0)
  }

  lemma {:induction false} ZeroBits(i: nat)
    ensures !Bit(0, i)
  {
    if i > 0 {
      ZeroBits(i - 1);
    }
  }

  lemma {:induction false} OrBits(x: nat, y: nat, i: nat)
    ensures Bit(Or(x, y), i) <==> Bit(x, i) || Bit(y, i)
    decreases i
  {
    if x == 0 || y == 0 {
      ZeroBits(i);
    } else {
      var h, b := Or(x / 2, y / 2), if x % 2 == 1 || y % 2 == 1 then 1 else 0;
      assert Or(x, y) == 2 * h + b;
      assert (2 * h + b) / 2 == h && (2 * h + b) % 2 == b;
      if i > 0 {
        OrBits(x / 2, y / 2, i - 1);
      }
    }
  }

  lemma XorHalves(x: nat, y: nat)
    ensures Xor(x, y) / 2 == Xor(x / 2, y / 2) && Xor(x, y) % 2 == (if x % 2 != y % 2 then 1 else 0)
  {
    var h := Xor(x / 2, y / 2);
    assert (2 * h + 1) / 2 == h && (2 * h) / 2 == h;
  }

  lemma {:induction false} XorBits(x: nat, y: nat, i: nat)
    ensures Bit(Xor(x, y), i) <==> Bit(x, i) != Bit(y, i)
    decreases i
  {
    XorHalves(x, y);
    if i > 0 {
      XorBits(x / 2, y / 2, i - 1);
    }
  }

  /** Words with the same bits are equal. */
  lemma {:induction false} SameBits(x: nat, y: nat)
    requires forall i: nat :: Bit(x, i) <==> Bit(y, i)
    ensures x == y
    decreases x + y
  {
    assert Bit(x, 0) <==> Bit(y, 0);
    if x > 0 || y > 0 {
      forall i: nat
        ensures Bit(x / 2, i) <==> Bit(y / 2, i)
      {
        assert Bit(x, i + 1) <==> Bit(y, i + 1);
      }
      SameBits(x / 2, y / 2);
    }
  }

  lemma XorAssociative(x: nat, y: nat, z: nat)
    ensures Xor(Xor(x, y), z) == Xor(x, Xor(y, z))
  {
    forall i: nat
      ensures Bit(Xor(Xor(x, y), z), i) <==> Bit(Xor(x, Xor(y, z)), i)
    {
      XorBits(x, y, i);
      XorBits(y, z, i);
      XorBits(Xor(x, y), z, i);
      XorBits(x, Xor(y, z), i);
    }
    SameBits(Xor(Xor(x, y), z), Xor(x, Xor(y, z)));
  }

  lemma {:induction false} XorCommutes(x: nat, y: nat)
    ensures Xor(x, y) == Xor(y, x)
    decreases x
  {
    if x > 0 && y > 0 {
      XorCommutes(x / 2, y / 2);
    }
  }

  lemma {:induction false} XorSelf(x: nat, y: nat)
    ensures Xor(x, y) == 0 <==> x == y
    decreases x
  {
    if x > 0 && y > 0 {
      XorSelf(x / 2, y / 2);
      assert x == 2 * (x / 2) + x % 2 && y == 2 * (y / 2) + y % 2;
    }
  }

  /** Exclusive or of four words in another order. */
  lemma XorSwap(a: nat, b: nat, c: nat, d: nat)
    ensures Xor(Xor(a, b), Xor(c, d)) == Xor(Xor(a, c), Xor(b, d))
  {
    XorAssociative(a, b, Xor(c, d));
    XorAssociative(b, c, d);
    XorCommutes(b, c);
    XorAssociative(c, b, d);
    XorAssociative(a, c, Xor(b, d));
  }

  lemma XorFits(x: nat, y: nat, k: nat)
    requires x < Pow2(k) && y < Pow2(k)
    ensures Xor(x, y) < Pow2(k)
  {
    forall i: nat | k <= i
      ensures !Bit(Xor(x, y), i)
    {
      XorBits(x, y, i);
      HighBits(x, k, i);
      HighBits(y, k, i);
    }
    Fits(Xor(x, y), k);
  }

  lemma {:induction false} BitAtLeast(x: nat, i: nat)
    requires Bit(x, i)
    ensures x >= Pow2(i)
    decreases i
  {
    if i > 0 {
      BitAtLeast(x / 2, i - 1);
    }
  }

  /** 1 << k has exactly bit k. */
  lemma {:induction false} OneBit(k: nat, i: nat)
    ensures Bit(Pow2(k), i) <==> i == k
    decreases k
  {
    if k > 0 {
      assert Pow2(k) / 2 == Pow2(k - 1) && Pow2(k) % 2 == 0;
      if i > 0 {
        OneBit(k - 1, i - 1);
      }
    } else if i > 0 {
      ZeroBits(i - 1);
    }
  }

  /** A word fits in k bits exactly when no bit from k on is set. */
  lemma {:induction false} HighBits(x: nat, k: nat, i: nat)
    requires x < Pow2(k) && k <= i
    ensures !Bit(x, i)
    decreases k
  {
    if k == 0 {
      ZeroBits(i);
    } else {
      HighBits(x / 2, k - 1, i - 1);
    }
  }

  lemma {:induction false} HighBit(x: nat, k: nat) returns (i: nat)
    ensures x >= Pow2(k) ==> k <= i && Bit(x, i)
    decreases x
  {
    if x <= 1 {
      i := 0;
    } else {
      var h := HighBit(x / 2, if k == 0 then 0 else k - 1);
      i := h + 1;
    }
  }

  lemma Fits(x: nat, k: nat)
    requires forall i: nat :: k <= i ==> !Bit(x, i)
    ensures x < Pow2(k)
  {
    var i := HighBit(x, k);
  }

  lemma {:induction false} LeadingBit(x: nat, k: nat)
    requires Pow2(k) <= x < Pow2(k + 1)
    ensures Bit(x, k)
    decreases k
  {
    if k > 0 {
      LeadingBit(x / 2, k - 1);
    }
  }

  /** Words with disjoint bits are added by OR. */
  lemma {:induction false} OrAdds(k: nat, y: nat)
    requires y < Pow2(k)
    ensures Or(Pow2(k), y) == Pow2(k) + y
    decreases k
  {
    if k > 0 && y > 0 {
      OrAdds(k - 1, y / 2);
    }
  }

  // ---- the set bits in ascending order ----

  function BitsFrom(x: nat, base: nat): seq<nat> {
    if x == 0 then []
    else (if x % 2 == 1 then [base] else []) + BitsFrom(x / 2, base + 1)
  }

  ghost predicate Ascending(s: seq<nat>) {
    forall i, j :: 0 <= i < j < |s| ==> s[i] < s[j]
  }

  lemma {:induction false} BitsFromAreBits(x: nat, base: nat, i: nat)
    ensures i in BitsFrom(x, base) <==> base <= i && Bit(x, i - base)
    decreases x
  {
    if x == 0 {
      if base <= i {
        ZeroBits(i - base);
      }
    } else {
      BitsFromAreBits(x / 2, base + 1, i);
    }
  }

  lemma {:induction false} BitsFromAscend(x: nat, base: nat)
    ensures Ascending(BitsFrom(x, base))
    decreases x
  {
    if x > 0 {
      BitsFromAscend(x / 2, base + 1);
      var rest := BitsFrom(x / 2, base + 1);
      forall j | 0 <= j < |rest|
        ensures base < rest[j]
      {
        assert rest[j] in rest;
        BitsFromAreBits(x / 2, base + 1, rest[j]);
      }
      assert BitsFrom(x, base) == (if x % 2 == 1 then [base] else []) + rest;
    }
  }

  /** OR of the single bits 1 << id. */
  function OrAll(ids: seq<nat>): nat {
    if ids == [] then 0 else Or(OrAll(ids[..|ids| - 1]), Pow2(ids[|ids| - 1]))
  }

  lemma {:induction false} OrAllBits(ids: seq<nat>, i: nat)
    ensures Bit(OrAll(ids), i) <==> i in ids
    decreases |ids|
  {
    if ids == [] {
      ZeroBits(i);
    } else {
      var init, last := ids[..|ids| - 1], ids[|ids| - 1];
      assert ids == init + [last];
      OrAllBits(init, i);
      OrBits(OrAll(init), Pow2(last), i);
      OneBit(last, i);
    }
  }

  /** OR of a word whose low k bits are clear with a word of k bits is their sum. */
  lemma {:induction false} OrDisjoint(a: nat, k: nat, y: nat)
    requires y < Pow2(k)
    ensures Or(a * Pow2(k), y) == a * Pow2(k) + y
    decreases k
  {
    if k > 0 && a > 0 && y > 0 {
      var x := a * Pow2(k);
      assert x == 2 * (a * Pow2(k - 1));
      assert x > 0;
      OrDisjoint(a, k - 1, y / 2);
    } else if k == 0 {
      assert y == 0;
    }
  }

  /** The same for given numbers: m is a power of two that divides x and exceeds y. */
  lemma OrSum(x: nat, y: nat, a: nat, k: nat, m: nat)
    requires m == Pow2(k) && x == a * m && y < m
    ensures Or(x, y) == x + y
  {
    OrDisjoint(a, k, y);
  }
}
