// The control byte as a set of flags: the compiler's or and the validator's sum agree.
module FlagControl {
  import opened Bits
  import opened Wrappers
  import opened Contract
  import opened Proposal
  import opened Compiler
  import opened Validator

  predicate KnownFlags(flags: seq<FlagSymbol>) {
    forall f :: f in flags ==> FlagBit(f).Some?
  }

  // The bits of control are exactly the flags'.
  ghost predicate ControlOf(control: nat, flags: seq<FlagSymbol>) {
    forall k: nat :: Bit(control, k) <==> HasBit(flags, k)
  }

  predicate HasBit(flags: seq<FlagSymbol>, k: nat) {
    exists i :: 0 <= i < |flags| && FlagBit(flags[i]) == Some(k)
  }

  lemma SmallPowers(k: nat)
    requires k < 6
    ensures Pow2(k) / 64 == 0
  {
    assert Pow2(0) == 1 && Pow2(1) == 2 && Pow2(2) == 4 && Pow2(3) == 8 && Pow2(4) == 16 && Pow2(5) == 32;
  }

  // Folding known flags into a control byte never blocks, and sets exactly their bits.
  lemma {:induction false} FoldSetsBits(flags: seq<FlagSymbol>, control: nat)
    requires KnownFlags(flags)
    ensures
      var folded := FoldFlags(flags, FlagTable(PRODUCTION_FLAGS), control);
      folded.Ok? && forall k: nat :: Bit(folded.value, k) <==> Bit(control, k) || HasBit(flags, k)
  {
    hide FlagBit, FlagTable, Bit, BitOr, Pow2;
    if flags != [] {
      FlagLookup(flags[0]);
      var bit := FlagBit(flags[0]).value;
      SmallPowers(bit);
      var next := BitOr(control, Pow2(bit));
      FoldSetsBits(flags[1..], next);
      var folded := FoldFlags(flags, FlagTable(PRODUCTION_FLAGS), control);
      assert folded == FoldFlags(flags[1..], FlagTable(PRODUCTION_FLAGS), next);
      forall k: nat
        ensures Bit(folded.value, k) <==> Bit(control, k) || HasBit(flags, k)
      {
        BitOrBit(control, Pow2(bit), k);
        Pow2Bit(bit, k);
        HeadHasBit(flags, k);
      }
    }
  }

  lemma HeadHasBit(flags: seq<FlagSymbol>, k: nat)
    requires flags != []
    ensures HasBit(flags, k) <==> FlagBit(flags[0]) == Some(k) || HasBit(flags[1..], k)
  {
    hide FlagBit;
    if HasBit(flags, k) {
      var i :| 0 <= i < |flags| && FlagBit(flags[i]) == Some(k);
      assert i > 0 ==> flags[1..][i - 1] == flags[i];
    }
    if HasBit(flags[1..], k) {
      var i :| 0 <= i < |flags[1..]| && FlagBit(flags[1..][i]) == Some(k);
      assert flags[i + 1] == flags[1..][i];
    }
  }

  lemma FlagBitsAreDistinct(f: FlagSymbol, g: FlagSymbol)
    requires FlagBit(f).Some? && FlagBit(f) == FlagBit(g)
    ensures f == g
  {
  }

  // Or equals sum when no flag repeats and none is already set.
  lemma {:induction false} OrIsSum(flags: seq<FlagSymbol>, control: nat)
    requires KnownFlags(flags) && Distinct(flags)
    requires forall k: nat :: !(Bit(control, k) && HasBit(flags, k))
    ensures
      var table := FlagTable(PRODUCTION_FLAGS);
      FoldFlags(flags, table, control) == Ok(control + SumFlags(flags, table))
  {
    hide FlagBit, FlagTable, Bit, BitOr, Pow2;
    if flags != [] {
      var table := FlagTable(PRODUCTION_FLAGS);
      FlagLookup(flags[0]);
      var bit := FlagBit(flags[0]).value;
      SmallPowers(bit);
      forall k: nat
        ensures !(Bit(control, k) && Bit(Pow2(bit), k))
        ensures !(Bit(BitOr(control, Pow2(bit)), k) && HasBit(flags[1..], k))
      {
        Pow2Bit(bit, k);
        BitOrBit(control, Pow2(bit), k);
        HeadHasBit(flags, k);
        if HasBit(flags[1..], k) && k == bit {
          var i :| 0 <= i < |flags[1..]| && FlagBit(flags[1..][i]) == Some(k);
          FlagBitsAreDistinct(flags[0], flags[i + 1]);
        }
      }
      DisjointOrIsSum(control, Pow2(bit));
      OrIsSum(flags[1..], BitOr(control, Pow2(bit)));
    }
  }

  lemma {:induction false} NoHighBits(x: nat, m: nat)
    requires forall k: nat :: k >= m ==> !Bit(x, k)
    ensures x < Pow2(m)
    decreases m, x
  {
    if m == 0 {
      if x > 0 {
        assert !Bit(x, 0);
        forall k: nat
          ensures !Bit(x / 2, k)
        {
          assert !Bit(x, k + 1);
        }
        NoHighBits(x / 2, 0);
      }
    } else {
      forall k: nat | k >= m - 1
        ensures !Bit(x / 2, k)
      {
        assert !Bit(x, k + 1);
      }
      NoHighBits(x / 2, m - 1);
    }
  }

  // For a step's distinct known flags: the compiler's control byte has exactly the flags' bits,
  // fits in six bits, and equals the validator's sum.
  lemma ControlByteOfFlags(flags: seq<FlagSymbol>)
    requires KnownFlags(flags) && Distinct(flags)
    ensures
      var table := FlagTable(PRODUCTION_FLAGS);
      var folded := FoldFlags(flags, table, 0);
      && folded.Ok?
      && folded.value == SumFlags(flags, table) < 64
      && ControlOf(folded.value, flags)
      && BitAnd(folded.value, 63) == folded.value
  {
    hide FlagTable, FoldFlags, SumFlags;
    var control := FoldFlags(flags, FlagTable(PRODUCTION_FLAGS), 0);
    FoldSetsBits(flags, 0);
    forall k: nat
      ensures !Bit(0, k)
    {
      ZeroHasNoBits(k);
    }
    OrIsSum(flags, 0);
    forall k: nat | k >= 6
      ensures !Bit(control.value, k)
    {
    }
    NoHighBits(control.value, 6);
    assert Pow2(6) == 64;
    MaskKeeps(control.value);
  }

  lemma MaskKeeps(x: nat)
    requires forall k: nat :: k >= 6 ==> !Bit(x, k)
    ensures BitAnd(x, 63) == x
  {
    forall k: nat
      ensures Bit(BitAnd(x, 63), k) <==> Bit(x, k)
    {
      BitAndBit(x, 63, k);
      if k < 6 {
        assert Bit(63, 0) && Bit(31, 0) && Bit(15, 0) && Bit(7, 0) && Bit(3, 0) && Bit(1, 0);
        assert Bit(63, 1) && Bit(63, 2) && Bit(63, 3) && Bit(63, 4) && Bit(63, 5);
      }
    }
    BitsDetermine(BitAnd(x, 63), x);
  }
}
