// Unbounded, non-negative integers as bit strings, least significant bit first.
module Bits {

  type Byte = x: int | 0 <= x < 256

  predicate Bit(x: nat, k: nat) {
    if k == 0 then x % 2 == 1 else Bit(x / 2, k - 1)
  }

  // Bitwise inclusive or.
  function BitOr(a: nat, b: nat): nat
    decreases a + b
  {
    if a == 0 && b == 0 then 0
    else 2 * BitOr(a / 2, b / 2) + (if a % 2 == 1 || b % 2 == 1 then 1 else 0)
  }

  lemma {:induction false} BitOrBit(a: nat, b: nat, k: nat)
    ensures Bit(BitOr(a, b), k) <==> Bit(a, k) || Bit(b, k)
    decreases k
  {
    if a == 0 && b == 0 {
      ZeroHasNoBits(k);
    } else if k > 0 {
      assert BitOr(a, b) / 2 == BitOr(a / 2, b / 2);
      BitOrBit(a / 2, b / 2, k - 1);
    }
  }

  lemma {:induction false} ZeroHasNoBits(k: nat)
    ensures !Bit(0, k)
  {
    if k > 0 {
      ZeroHasNoBits(k - 1);
    }
  }

  // A number is determined by its bits.
  lemma {:induction false} BitsDetermine(a: nat, b: nat)
    requires forall k: nat :: Bit(a, k) <==> Bit(b, k)
    ensures a == b
    decreases a + b
  {
    if a == 0 && b == 0 {
    } else {
      assert Bit(a, 0) <==> Bit(b, 0);
      forall k: nat
        ensures Bit(a / 2, k) <==> Bit(b / 2, k)
      {
        assert Bit(a, k + 1) <==> Bit(b, k + 1);
      }
      BitsDetermine(a / 2, b / 2);
    }
  }

  // Or and sum agree when no bit is shared.
  lemma {:induction false} DisjointOrIsSum(a: nat, b: nat)
    requires forall k: nat :: !(Bit(a, k) && Bit(b, k))
    ensures BitOr(a, b) == a + b
    decreases a + b
  {
    if a == 0 && b == 0 {
    } else {
      assert !(Bit(a, 0) && Bit(b, 0));
      forall k: nat
        ensures !(Bit(a / 2, k) && Bit(b / 2, k))
      {
        assert !(Bit(a, k + 1) && Bit(b, k + 1));
      }
      DisjointOrIsSum(a / 2, b / 2);
    }
  }

  function Pow2(k: nat): (p: nat)
    ensures p > 0
  {
    if k == 0 then 1 else 2 * Pow2(k - 1)
  }

  lemma {:induction false} Pow2Bit(k: nat, j: nat)
    ensures Bit(Pow2(k), j) <==> j == k
  {
    if k == 0 {
      if j > 0 {
        ZeroHasNoBits(j - 1);
      }
    } else if j > 0 {
      Pow2Bit(k - 1, j - 1);
    }
  }

  // x >> m.
  function ShiftRight(x: nat, m: nat): nat {
    if m == 0 then x else ShiftRight(x / 2, m - 1)
  }

  lemma {:induction false} ShiftBit(x: nat, m: nat, k: nat)
    ensures Bit(ShiftRight(x, m), k) <==> Bit(x, k + m)
    decreases m
  {
    if m > 0 {
      ShiftBit(x / 2, m - 1, k);
    }
  }

  // Bitwise and.
  function BitAnd(a: nat, b: nat): nat
    decreases a
  {
    if a == 0 then 0
    else 2 * BitAnd(a / 2, b / 2) + (if a % 2 == 1 && b % 2 == 1 then 1 else 0)
  }

  lemma {:induction false} BitAndBit(a: nat, b: nat, k: nat)
    ensures Bit(BitAnd(a, b), k) <==> Bit(a, k) && Bit(b, k)
    decreases k
  {
    if a == 0 {
      ZeroHasNoBits(k);
    } else if k > 0 {
      assert BitAnd(a, b) / 2 == BitAnd(a / 2, b / 2);
      BitAndBit(a / 2, b / 2, k - 1);
    }
  }
}
