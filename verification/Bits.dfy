/** Bitwise operations on unsigned integers, bit by bit. */
module Bits {
  import opened Words

  function Bit(x: nat, i: nat): bool {
    if i == 0 then x % 2 == 1 else Bit(x / 2, i - 1)
  }

  /** `x & y` */
  function And(x: nat, y: nat): nat {
    if x == 0 || y == 0 then 0
    else 2 * And(x / 2, y / 2) + if x % 2 == 1 && y % 2 == 1 then 1 else 0
  }

  /** `x | y` */
  function Or(x: nat, y: nat): nat {
    if x == 0 then y
    else if y == 0 then x
    else 2 * Or(x / 2, y / 2) + if x % 2 == 1 || y % 2 == 1 then 1 else 0
  }

  /** `~x` for a `uint64_t` */
  function Not64(x: Uint64): Uint64 { TWO_64 - 1 - x }

  /** `__builtin_ctz(x)`: the number of trailing zero bits. */
  function Ctz(x: nat): nat
    requires x != 0
  {
    if x % 2 == 1 then 0 else 1 + Ctz(x / 2)
  }

  lemma {:induction false} BitZero(i: nat)
    ensures !Bit(0, i)
  {
    if i > 0 {
      BitZero(i - 1);
    }
  }

  lemma {:induction false} BitAnd(x: nat, y: nat, i: nat)
    ensures Bit(And(x, y), i) == (Bit(x, i) && Bit(y, i))
  {
    if x == 0 || y == 0 {
      BitZero(i);
    } else if i > 0 {
      BitAnd(x / 2, y / 2, i - 1);
    }
  }

  lemma {:induction false} BitOr(x: nat, y: nat, i: nat)
    ensures Bit(Or(x, y), i) == (Bit(x, i) || Bit(y, i))
  {
    if x == 0 || y == 0 {
      BitZero(i);
    } else if i > 0 {
      BitOr(x / 2, y / 2, i - 1);
    }
  }

  /** Bit i of the complement within n bits. */
  lemma {:induction false} BitComplement(x: nat, n: nat, i: nat)
    requires x < Pow2(n) && i < n
    ensures Bit(Pow2(n) - 1 - x, i) == !Bit(x, i)
  {
    if i > 0 {
      assert (Pow2(n) - 1 - x) / 2 == Pow2(n - 1) - 1 - x / 2;
      BitComplement(x / 2, n - 1, i - 1);
    }
  }

  lemma BitNot64(x: Uint64, i: nat)
    requires i < 64
    ensures Bit(Not64(x), i) == !Bit(x, i)
  {
    Pow2Values();
    BitComplement(x, 64, i);
  }

  lemma {:induction false} BitPow2(n: nat, i: nat)
    ensures Bit(Pow2(n), i) == (i == n)
  {
    if n == 0 && i > 0 {
      BitZero(i - 1);
    } else if n > 0 && i > 0 {
      BitPow2(n - 1, i - 1);
    }
  }

  /** `(1 << n) - 1` is the mask of the n low bits. */
  lemma {:induction false} BitMask(n: nat, i: nat)
    ensures Bit(Pow2(n) - 1, i) == (i < n)
  {
    if n == 0 {
      BitZero(i);
    } else if i > 0 {
      assert (Pow2(n) - 1) / 2 == Pow2(n - 1) - 1;
      BitMask(n - 1, i - 1);
    }
  }

  /** A number is zero exactly when it has no bits. */
  lemma {:induction false} NonZeroHasBit(x: nat)
    requires x != 0
    ensures Bit(x, Ctz(x))
    ensures forall i: nat :: i < Ctz(x) ==> !Bit(x, i)
  {
    if x % 2 == 0 {
      NonZeroHasBit(x / 2);
    }
  }

  /** `x & (x - 1)` resets the lowest set bit, and only that. */
  lemma {:induction false} ClearLowest(x: nat, i: nat)
    requires x != 0
    ensures And(x, x - 1) < x
    ensures Bit(And(x, x - 1), i) == (Bit(x, i) && i != Ctz(x))
  {
    if x % 2 == 1 {
      AndSelf(x / 2);
      if i > 0 && x == 1 {
        BitZero(i);
        BitZero(i - 1);
      }
    } else {
      assert (x - 1) / 2 == x / 2 - 1;
      if i > 0 {
        ClearLowest(x / 2, i - 1);
      } else {
        ClearLowest(x / 2, 0);
      }
    }
  }

  lemma {:induction false} AndSelf(x: nat)
    ensures And(x, x) == x
  {
    if x != 0 {
      AndSelf(x / 2);
    }
  }

  lemma ModDouble(x: nat, m: nat)
    requires m > 0
    ensures x % (2 * m) == 2 * ((x / 2) % m) + x % 2
  {
    var q, r := (x / 2) / m, (x / 2) % m;
    assert x / 2 == q * m + r;
    assert q * (2 * m) == 2 * (q * m);
    DivModUnique(x, 2 * m, q, 2 * r + x % 2);
  }

  /** Masking with a power of two less one is the remainder. */
  lemma {:induction false} MaskIsRemainder(x: nat, n: nat)
    ensures And(x, Pow2(n) - 1) == x % Pow2(n)
  {
    if n > 0 {
      MaskIsRemainder(x / 2, n - 1);
      ModDouble(x, Pow2(n - 1));
      assert (Pow2(n) - 1) / 2 == Pow2(n - 1) - 1;
    }
    if x == 0 {
      DivModUnique(0, Pow2(n), 0, 0);
    }
  }

  lemma {:induction false} AndBound(x: nat, y: nat)
    ensures And(x, y) <= x && And(x, y) <= y
  {
    if x != 0 && y != 0 {
      AndBound(x / 2, y / 2);
    }
  }

  /** The union of two n-bit numbers has n bits. */
  lemma {:induction false} OrBound(x: nat, y: nat, n: nat)
    requires x < Pow2(n) && y < Pow2(n)
    ensures Or(x, y) < Pow2(n)
  {
    if x != 0 && y != 0 {
      OrBound(x / 2, y / 2, n - 1);
    }
  }
}
