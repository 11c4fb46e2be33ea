/** Bit registers. A register is a natural number; `|`, `&`, `& ~` and `1 << i` are the bitwise
    operators of the drivers, read bit by bit. Clients reason through `Bit` and `Members`. */
module Bits {

  /** The value 2^32 that a 32-bit register stays below. */
  const WORD: nat := 0x1_0000_0000

  /** Bit `i` of `x`. */
  predicate Bit(x: nat, i: nat) {
    if i == 0 then x % 2 == 1 else Bit(x / 2, i - 1)
  }

  /** `1 << i` */
  function Mask(i: nat): (m: nat)
    ensures m > 0
  {
    if i == 0 then 1 else 2 * Mask(i - 1)
  }

  /** `x | y` */
  function Or(x: nat, y: nat): nat {
    if x == 0 && y == 0 then 0
    else 2 * Or(x / 2, y / 2) + (if x % 2 == 1 || y % 2 == 1 then 1 else 0)
  }

  /** `x & y` */
  function And(x: nat, y: nat): nat {
    if x == 0 || y == 0 then 0
    else 2 * And(x / 2, y / 2) + (if x % 2 == 1 && y % 2 == 1 then 1 else 0)
  }

  /** `x & ~y` */
  function AndNot(x: nat, y: nat): nat {
    if x == 0 then 0
    else 2 * AndNot(x / 2, y / 2) + (if x % 2 == 1 && y % 2 == 0 then 1 else 0)
  }

  /** The positions of the set bits of a 32-bit register. */
  ghost function Members(x: nat): set<nat> {
    set i: nat | i < 32 && Bit(x, i)
  }

  lemma {:induction false} ZeroHasNoBit(i: nat)
    ensures !Bit(0, i)
  {
    if i > 0 {
      ZeroHasNoBit(i - 1);
    }
  }

  lemma {:induction false} OrBit(x: nat, y: nat, i: nat)
    ensures Bit(Or(x, y), i) <==> Bit(x, i) || Bit(y, i)
    decreases i
  {
    if x == 0 && y == 0 {
      ZeroHasNoBit(i);
    } else if i > 0 {
      OrBit(x / 2, y / 2, i - 1);
    }
  }

  lemma {:induction false} AndBit(x: nat, y: nat, i: nat)
    ensures Bit(And(x, y), i) <==> Bit(x, i) && Bit(y, i)
    decreases i
  {
    if x == 0 || y == 0 {
      ZeroHasNoBit(i);
    } else if i > 0 {
      AndBit(x / 2, y / 2, i - 1);
    }
  }

  lemma {:induction false} AndNotBit(x: nat, y: nat, i: nat)
    ensures Bit(AndNot(x, y), i) <==> Bit(x, i) && !Bit(y, i)
    decreases i
  {
    if x == 0 {
      ZeroHasNoBit(i);
    } else if i > 0 {
      AndNotBit(x / 2, y / 2, i - 1);
    }
  }

  lemma {:induction false} MaskBit(i: nat, j: nat)
    ensures Bit(Mask(i), j) <==> i == j
  {
    if i == 0 && j > 0 {
      ZeroHasNoBit(j - 1);
    } else if i > 0 && j > 0 {
      MaskBit(i - 1, j - 1);
    }
  }

  lemma {:induction false} TopBit(x: nat, k: nat) returns (j: nat)
    requires x >= Mask(k)
    ensures k <= j && Bit(x, j)
  {
    if k > 0 {
      j := TopBit(x / 2, k - 1);
      j := j + 1;
    } else if x % 2 == 1 {
      j := 0;
    } else {
      j := TopBit(x / 2, 0);
      j := j + 1;
    }
  }

  lemma {:induction false} NoBitAbove(x: nat, k: nat, j: nat)
    requires x < Mask(k) && k <= j
    ensures !Bit(x, j)
  {
    if k == 0 {
      ZeroHasNoBit(j);
    } else {
      NoBitAbove(x / 2, k - 1, j - 1);
    }
  }

  lemma WordIsMask()
    ensures Mask(32) == WORD
  {
    assert Mask(8) == 256;
    assert Mask(16) == 256 * Mask(8);
    assert Mask(24) == 256 * Mask(16);
  }

  /** A 32-bit register is at least `1 << k` exactly when some bit at or above `k` is set. */
  lemma AtLeastMask(x: nat, k: nat)
    requires x < WORD
    ensures x >= Mask(k) <==> exists j :: j in Members(x) && k <= j
  {
    WordIsMask();
    if x >= Mask(k) {
      var j := TopBit(x, k);
      if j >= 32 { NoBitAbove(x, 32, j); }
      assert j in Members(x);
    } else if j :| j in Members(x) && k <= j {
      NoBitAbove(x, k, j);
    }
  }

  /** A 32-bit register is zero exactly when it has no member. */
  lemma ZeroIsEmpty(x: nat)
    requires x < WORD
    ensures x == 0 <==> Members(x) == {}
  {
    if x == 0 {
      forall i: nat ensures !Bit(x, i) { ZeroHasNoBit(i); }
    } else {
      var j := TopBit(x, 0);
      WordIsMask();
      if j >= 32 { NoBitAbove(x, 32, j); }
      assert j in Members(x);
    }
  }

  /** The driver's test `x & (1 << i)`. */
  lemma TestIsBit(x: nat, i: nat)
    ensures And(x, Mask(i)) != 0 <==> Bit(x, i)
  {
    AndBit(x, Mask(i), i);
    MaskBit(i, i);
    if And(x, Mask(i)) != 0 {
      var j := TopBit(And(x, Mask(i)), 0);
      AndBit(x, Mask(i), j);
      MaskBit(i, j);
    } else {
      ZeroHasNoBit(i);
    }
  }

  /** The driver's `x |= 1 << i` on a 32-bit register. */
  lemma SetBit(x: nat, i: nat)
    requires x < WORD && i < 32
    ensures Or(x, Mask(i)) < WORD
    ensures Members(Or(x, Mask(i))) == Members(x) + {i}
  {
    forall j: nat
      ensures Bit(Or(x, Mask(i)), j) <==> Bit(x, j) || j == i
    {
      OrBit(x, Mask(i), j);
      MaskBit(i, j);
    }
    WordIsMask();
    if Or(x, Mask(i)) >= WORD {
      var j := TopBit(Or(x, Mask(i)), 32);
      assert Bit(Or(x, Mask(i)), j);
      NoBitAbove(x, 32, j);
    }
  }

  /** The driver's `x &= ~(1 << i)` on a 32-bit register. */
  lemma ClearBit(x: nat, i: nat)
    requires x < WORD && i < 32
    ensures AndNot(x, Mask(i)) < WORD
    ensures Members(AndNot(x, Mask(i))) == Members(x) - {i}
  {
    forall j: nat
      ensures Bit(AndNot(x, Mask(i)), j) <==> Bit(x, j) && j != i
    {
      AndNotBit(x, Mask(i), j);
      MaskBit(i, j);
    }
    WordIsMask();
    if AndNot(x, Mask(i)) >= WORD {
      var j := TopBit(AndNot(x, Mask(i)), 32);
      assert Bit(AndNot(x, Mask(i)), j);
      NoBitAbove(x, 32, j);
    }
  }

  /** The bits of the two-bit mask `3 << k`. */
  lemma {:induction false} PairBit(k: nat, j: nat)
    ensures Bit(3 * Mask(k), j) <==> j == k || j == k + 1
  {
    if k == 0 {
      if j > 1 { ZeroHasNoBit(j - 2); }
    } else if j > 0 {
      PairBit(k - 1, j - 1);
    }
  }
}
