/** What the bit tricks on a bucket's `unused` mask mean: bit j is set iff slot j is free. */
module SlotMask {
  import opened Words
  import opened Bits

  /** `table_bucket_mask` for n slots. */
  function Mask(n: nat): nat { Pow2(n) - 1 }

  lemma MaskTest(x: nat, n: nat)
    ensures And(x, Mask(n)) != 0 <==> exists j: nat :: j < n && Bit(x, j)
  {
    var y := And(x, Mask(n));
    if y != 0 {
      var j := Ctz(y);
      NonZeroHasBit(y);
      BitAnd(x, Mask(n), j);
      BitMask(n, j);
      assert j < n && Bit(x, j);
    } else {
      forall j: nat
        ensures !(j < n && Bit(x, j))
      {
        BitZero(j);
        BitAnd(x, Mask(n), j);
        BitMask(n, j);
      }
    }
  }

  /** `__builtin_ctz(unused)` reads only the low 32 bits of the 64-bit mask. */
  function Ctz32(x: nat): nat
    requires Wrap32(x) != 0
  {
    Ctz(Wrap32(x))
  }

  lemma LowWord(x: nat, i: nat)
    ensures Bit(Wrap32(x), i) == (Bit(x, i) && i < 32)
  {
    Pow2Values();
    MaskIsRemainder(x, 32);
    BitAnd(x, Pow2(32) - 1, i);
    BitMask(32, i);
  }

  lemma LowestIsUnique(x: nat, y: nat)
    requires x != 0 && y != 0 && Bit(x, Ctz(y)) && Bit(y, Ctz(x))
    ensures Ctz(x) == Ctz(y)
  {
    NonZeroHasBit(x);
    NonZeroHasBit(y);
  }

  /** Taking a free slot: `__builtin_ctz` finds one, and `unused & (unused - 1)` takes that one. */
  lemma TakeSlot(unused: nat, n: nat)
    requires n <= 32 && And(unused, Mask(n)) != 0
    ensures Wrap32(unused) != 0 && unused != 0
    ensures Ctz32(unused) < n && Bit(unused, Ctz32(unused)) && forall i: nat | i < Ctz32(unused) :: !Bit(unused, i)
    ensures forall i: nat :: Bit(And(unused, unused - 1), i) == (Bit(unused, i) && i != Ctz32(unused))
  {
    MaskTest(unused, n);
    var j: nat :| j < n && Bit(unused, j);
    LowWord(unused, j);
    BitZero(j);
    var low := Wrap32(unused);
    NonZeroHasBit(low);
    NonZeroHasBit(unused);
    LowWord(unused, Ctz(low));
    LowWord(unused, Ctz(unused));
    LowestIsUnique(unused, low);
    forall i: nat | i < Ctz32(unused)
      ensures !Bit(unused, i)
    {
      LowWord(unused, i);
    }
    forall i: nat
      ensures Bit(And(unused, unused - 1), i) == (Bit(unused, i) && i != Ctz32(unused))
    {
      ClearLowest(unused, i);
    }
  }

  /** The mask of a new bucket, `~0`. */
  const NEW_MASK: Uint64 := TWO_64 - 1

  lemma NewMask(j: nat)
    requires j < 64
    ensures Bit(NEW_MASK, j)
  {
    Pow2Values();
    BitMask(64, j);
  }

  /** `~1`, the mask of a bucket that was added to take one entry. */
  lemma NewMaskLess0(j: nat)
    requires j < 64
    ensures Bit(NEW_MASK - 1, j) == (j != 0)
  {
    NewMask(j);
    if j > 0 {
      NewMask(j - 1);
      assert (NEW_MASK - 1) / 2 == NEW_MASK / 2;
    }
  }

  /** `(~unused) & table_bucket_mask`: the slots in use. */
  function Used(unused: Uint64, n: nat): nat { And(Not64(unused), Mask(n)) }

  lemma UsedBits(unused: Uint64, n: nat, j: nat)
    requires n <= 64
    ensures Bit(Used(unused, n), j) == (j < n && !Bit(unused, j))
  {
    BitAnd(Not64(unused), Mask(n), j);
    BitMask(n, j);
    if j < 64 {
      BitNot64(unused, j);
    }
  }

  /** Visiting the lowest used slot and dropping it from the set still to visit. */
  lemma NextUsed(used: nat)
    requires used != 0
    ensures Bit(used, Ctz(used)) && And(used, used - 1) < used
    ensures forall i: nat :: Bit(And(used, used - 1), i) == (Bit(used, i) && i != Ctz(used))
  {
    NonZeroHasBit(used);
    ClearLowest(used, 0);
    forall i: nat
      ensures Bit(And(used, used - 1), i) == (Bit(used, i) && i != Ctz(used))
    {
      ClearLowest(used, i);
    }
  }

  /** `1 << index` is an `int`: at index 31 it is negative and converts to a mask of bits 31 to 63. */
  function IntShift(index: nat): Uint64
    requires index <= 31
  {
    if index < 31 then Pow2Below31(index) else TWO_64 - TWO_31
  }

  function Pow2Below31(n: nat): (p: Uint64)
    requires n < 31
    ensures p == Pow2(n)
  {
    Pow2Monotonic(n, 31);
    Pow2Values();
    Pow2(n)
  }

  /** Below 31, `unused & (1 << index)` tests the slot and `unused |= 1 << index` frees it. */
  lemma ReleaseSlot(unused: Uint64, index: nat)
    requires index < 31
    ensures And(unused, IntShift(index)) != 0 <==> Bit(unused, index)
    ensures Or(unused, IntShift(index)) < TWO_64
    ensures forall i: nat :: Bit(Or(unused, IntShift(index)), i) == (Bit(unused, i) || i == index)
  {
    var y := And(unused, IntShift(index));
    BitAnd(unused, IntShift(index), index);
    BitPow2(index, index);
    BitZero(index);
    if y != 0 {
      NonZeroHasBit(y);
      BitAnd(unused, IntShift(index), Ctz(y));
      BitPow2(index, Ctz(y));
    }
    forall i: nat
      ensures Bit(Or(unused, IntShift(index)), i) == (Bit(unused, i) || i == index)
    {
      BitOr(unused, IntShift(index), i);
      BitPow2(index, i);
    }
    Pow2Values();
    OrBound(unused, IntShift(index), 64);
  }

  /** At index 31 the test succeeds whenever a bit above the bucket is set. */
  lemma Slot31LooksFree(unused: Uint64)
    requires Bit(unused, 32)
    ensures And(unused, IntShift(31)) != 0
  {
    var y := And(unused, IntShift(31));
    Pow2Values();
    BitAnd(unused, IntShift(31), 32);
    BitComplement(TWO_31 - 1, 64, 32);
    BitMask(31, 32);
    BitZero(32);
  }
}
