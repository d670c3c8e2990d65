/** Machine integers: the wrap-around and sign conversions that the C code relies on. */
module Words {

  const TWO_31: int := 0x8000_0000
  const TWO_32: int := 0x1_0000_0000
  const TWO_64: int := 0x1_0000_0000_0000_0000

  type Uint32 = x: int | 0 <= x < TWO_32
  type Uint64 = x: int | 0 <= x < TWO_64

  /** The value of a `uint32_t` expression. */
  function Wrap32(x: int): Uint32 { x % TWO_32 }

  /** The value of a `uint64_t` expression. */
  function Wrap64(x: int): Uint64 { x % TWO_64 }

  /** `(int32_t)x` for a `uint32_t` expression x. */
  function Signed32(x: int): int {
    var w := Wrap32(x);
    if w < TWO_31 then w else w - TWO_32
  }

  function Pow2(n: nat): (p: nat)
    ensures p >= 1
  {
    if n == 0 then 1 else 2 * Pow2(n - 1)
  }

  ghost predicate IsPow2(x: int) {
    exists n: nat :: x == Pow2(n)
  }

  lemma {:induction false} Pow2Divides(m: nat, n: nat) returns (q: nat)
    requires m <= n
    ensures q >= 1 && Pow2(n) == q * Pow2(m)
  {
    if m == n {
      q := 1;
    } else {
      var r := Pow2Divides(m, n - 1);
      q := 2 * r;
    }
  }

  lemma {:induction false} Pow2Monotonic(m: nat, n: nat)
    requires m < n
    ensures Pow2(m) < Pow2(n)
    decreases n
  {
    if m < n - 1 {
      Pow2Monotonic(m, n - 1);
    }
  }

  lemma Pow2Values()
    ensures Pow2(16) == 0x1_0000 && Pow2(31) == TWO_31 && Pow2(32) == TWO_32 && Pow2(64) == TWO_64
  {
    assert Pow2(8) == 0x100;
    assert Pow2(16) == 0x1_0000;
    assert Pow2(24) == 0x100_0000;
    assert Pow2(32) == TWO_32;
    assert Pow2(40) == 0x100_0000_0000;
    assert Pow2(48) == 0x1_0000_0000_0000;
    assert Pow2(56) == 0x100_0000_0000_0000;
  }

  /** A power of two up to 2^31 divides 2^32. */
  lemma CapacityDivides(capacity: int) returns (q: nat)
    requires IsPow2(capacity) && capacity <= TWO_31
    ensures q >= 1 && TWO_32 == q * capacity
  {
    var n: nat :| capacity == Pow2(n);
    Pow2Values();
    if n > 32 {
      Pow2Monotonic(32, n);
    }
    q := Pow2Divides(n, 32);
  }

  /** Division and remainder are determined by any decomposition with a remainder in range. */
  lemma DivModUnique(x: int, m: int, q: int, r: int)
    requires 0 <= r < m && x == q * m + r
    ensures x / m == q && x % m == r
  {
    var d := q - x / m;
    assert d * m == x % m - r;
    assert d >= 1 ==> d * m >= m;
    assert d <= -1 ==> d * m <= -m;
  }

  /** Reducing modulo a multiple first does not change the remainder. */
  lemma ModMod(x: int, m: int, q: int)
    requires m > 0 && q > 0
    ensures q * m > 0 && (x % (q * m)) % m == x % m
  {
    assert q * m > 0;
    var n := q * m;
    var y := x % n;
    var d := (x / n) * q + y / m;
    assert x == (x / n) * n + y;
    assert (x / n) * n == ((x / n) * q) * m;
    assert x == d * m + y % m by {
      assert ((x / n) * q) * m + (y / m) * m == d * m;
    }
    DivModUnique(x, m, d, y % m);
  }

  /** Different integers less than m apart have different remainders. */
  lemma ModApart(j: int, k: int, m: int)
    requires m > 0 && 0 < j - k < m
    ensures j % m != k % m
  {
    var d := j / m - k / m;
    assert j - k == d * m + (j % m - k % m);
    assert d >= 1 ==> d * m >= m;
    assert d <= 0 ==> d * m <= 0;
  }

  lemma ModRepeat(k: int, m: int)
    requires m > 0
    ensures (k + m) % m == k % m
  {
    assert (k / m + 1) * m == k / m * m + m;
    DivModUnique(k + m, m, k / m + 1, k % m);
  }

  /** Differences of wrapped numbers, read as signed, are exact within half the range. */
  lemma WrapDiff(a: int, b: int)
    requires 0 - TWO_31 <= a - b < TWO_31
    ensures Signed32(Wrap32(a) - Wrap32(b)) == a - b
    ensures Wrap32(a) == Wrap32(b) <==> a == b
  {
  }

  /** Wrapped numbers less than 2^32 apart are equal only if the numbers are. */
  lemma WrapEqual(a: int, b: int)
    requires 0 <= a - b < TWO_32
    ensures Wrap32(a) == Wrap32(b) <==> a == b
  {
  }

  lemma WrapAdd(x: int, d: int)
    ensures Wrap32(Wrap32(x) + d) == Wrap32(x + d)
  {
  }
}
