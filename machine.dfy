/** Fixed-width C integer arithmetic, stated on mathematical integers.
    Unsigned arithmetic in C is arithmetic modulo 2^width; the helpers here
    write that reduction out so that the rest of the model can say exactly
    where the original code wraps around. Bitwise AND is defined bit by bit
    on natural numbers, so that the bit tricks of the helper macros can be
    related to ordinary arithmetic by induction. */
module Machine {

  const TWO_16: int := 0x1_0000
  const TWO_32: int := 0x1_0000_0000
  const TWO_64: int := 0x1_0000_0000_0000_0000

  type u8 = x: int | 0 <= x < 0x100
  type u16 = x: int | 0 <= x < TWO_16
  type u32 = x: int | 0 <= x < TWO_32
  type u64 = x: int | 0 <= x < TWO_64
  type s32 = x: int | -0x8000_0000 <= x < 0x8000_0000
  type s64 = x: int | -0x8000_0000_0000_0000 <= x < 0x8000_0000_0000_0000

  const U64_MAX: u64 := TWO_64 - 1
  const S32_MIN: s32 := -0x8000_0000
  const S32_MAX: s32 := 0x7FFF_FFFF
  const S64_MIN: s64 := -0x8000_0000_0000_0000

  /** 2^k */
  function Pow2(k: nat): (r: nat)
    ensures r >= 1
  {
    if k == 0 then 1 else 2 * Pow2(k - 1)
  }

  /** Reduction of a mathematical integer to an unsigned 64-bit value. */
  function Wrap64(x: int): (r: u64)
    ensures 0 <= x < TWO_64 ==> r == x
  {
    x % TWO_64
  }

  function Wrap32(x: int): (r: u32)
    ensures 0 <= x < TWO_32 ==> r == x
  {
    x % TWO_32
  }

  function Wrap16(x: int): (r: u16)
    ensures 0 <= x < TWO_16 ==> r == x
  {
    x % TWO_16
  }

  /** Two's-complement reduction of a mathematical integer to an s64. */
  function WrapS64(x: int): (r: s64)
    ensures -0x8000_0000_0000_0000 <= x < 0x8000_0000_0000_0000 ==> r == x
    ensures x == 0x8000_0000_0000_0000 ==> r == S64_MIN
  {
    (x - S64_MIN) % TWO_64 + S64_MIN
  }

  /** u64 addition: the true sum, minus 2^64 when it carries out. */
  function Add64(a: u64, b: u64): (r: u64)
    ensures a + b < TWO_64 ==> r == a + b
    ensures a + b >= TWO_64 ==> r == a + b - TWO_64
  {
    Wrap64(a + b)
  }

  /** u64 subtraction: the true difference, plus 2^64 when it borrows. */
  function Sub64(a: u64, b: u64): (r: u64)
    ensures a >= b ==> r == a - b
    ensures a < b ==> r == a - b + TWO_64
  {
    Wrap64(a - b)
  }

  function Mul64(a: u64, b: u64): (r: u64)
    ensures a * b < TWO_64 ==> r == a * b
  {
    Wrap64(a * b)
  }

  /** C's `~` on a u64. */
  function Not64(a: u64): (r: u64)
    ensures a + r == U64_MAX
  {
    U64_MAX - a
  }

  /** C's `x << k` on a u64: by the C standard, x * 2^k reduced modulo 2^64. */
  function Shl64(x: u64, k: nat): u64
  {
    Wrap64(x * Pow2(k))
  }

  /** C's integer `/` truncates toward zero (Dafny's `/` is Euclidean). */
  function CDiv(a: int, b: int): (q: int)
    requires b > 0
    ensures a >= 0 ==> q == a / b
    ensures a < 0 && -a < b ==> q == 0
  {
    if a >= 0 then a / b else -((-a) / b)
  }

  /** Bitwise AND of two non-negative integers, bit by bit from the lowest. */
  function And(a: nat, b: nat): (r: nat)
    ensures r <= a && r <= b
  {
    if a == 0 || b == 0 then 0
    else 2 * And(a / 2, b / 2) + (if a % 2 == 1 && b % 2 == 1 then 1 else 0)
  }

  // ---------------------------------------------------------------------
  // Modular arithmetic facts

  /** Division and remainder are determined by any decomposition y == m*t + r with 0 <= r < m. */
  lemma DivModUnique(y: int, m: int, t: int, r: int)
    requires m > 0 && 0 <= r < m && y == m * t + r
    ensures y % m == r && y / m == t
  {
    var q, s := y / m, y % m;
    assert y == m * q + s;
    assert m * (t - q) == s - r;
    if t > q {
      MulAtLeast(m, t - q);
    } else if t < q {
      MulAtLeast(m, q - t);
    }
  }

  lemma {:induction false} MulAtLeast(m: int, d: int)
    requires m > 0 && d >= 1
    ensures m * d >= m
  {
    if d > 1 {
      MulAtLeast(m, d - 1);
      assert m * d == m * (d - 1) + m;
    }
  }

  /** Adding a multiple of the modulus does not change the remainder. */
  lemma ModAddMultiple(z: int, m: int, t: int)
    requires m > 0
    ensures (m * t + z) % m == z % m
  {
    assert z == m * (z / m) + z % m;
    assert m * t + z == m * (t + z / m) + z % m;
    DivModUnique(m * t + z, m, t + z / m, z % m);
  }

  /** Reducing a factor first does not change the product's remainder. */
  lemma MulMod(a: int, b: int, m: int)
    requires m > 0
    ensures ((a % m) * b) % m == (a * b) % m
  {
    var q := a / m;
    assert a == m * q + a % m;
    assert a * b == m * (q * b) + (a % m) * b;
    ModAddMultiple((a % m) * b, m, q * b);
  }

  /** Reducing a summand first does not change the sum's remainder. */
  lemma AddMod(a: int, b: int, m: int)
    requires m > 0
    ensures ((a % m) + b) % m == (a + b) % m
  {
    var q := a / m;
    assert a == m * q + a % m;
    ModAddMultiple((a % m) + b, m, q);
  }

  /** A multiple of m leaves no remainder. */
  lemma MulIsMultiple(m: int, q: int)
    requires m > 0
    ensures (m * q) % m == 0
  {
    DivModUnique(m * q, m, q, 0);
  }

  /** The remainder modulo 2^k splits into the lowest bit and the remainder of the rest. */
  lemma ModPow2Split(y: nat, k: nat)
    requires k >= 1
    ensures y % Pow2(k) == y % 2 + 2 * ((y / 2) % Pow2(k - 1))
  {
    var p := Pow2(k - 1);
    var q, s := (y / 2) / p, (y / 2) % p;
    assert y / 2 == p * q + s;
    assert y == Pow2(k) * q + (2 * s + y % 2);
    DivModUnique(y, Pow2(k), q, 2 * s + y % 2);
  }

  lemma Pow2Add(a: nat, b: nat)
    ensures Pow2(a + b) == Pow2(a) * Pow2(b)
  {
    if a > 0 {
      Pow2Add(a - 1, b);
    }
  }

  /** Powers of two are strictly increasing. */
  lemma Pow2Monotone(a: nat, b: nat)
    requires a < b
    ensures Pow2(a) < Pow2(b)
  {
    if b > a + 1 {
      Pow2Monotone(a, b - 1);
    }
  }

  lemma Pow2At64()
    ensures Pow2(64) == TWO_64
  {
    assert Pow2(2) == 4;
    Pow2Add(2, 2);
    Pow2Add(4, 4);
    Pow2Add(8, 8);
    Pow2Add(16, 16);
    Pow2Add(32, 32);
  }

  // ---------------------------------------------------------------------
  // Bitwise AND facts

  lemma {:induction false} AndSelf(a: nat)
    ensures And(a, a) == a
  {
    if a != 0 {
      AndSelf(a / 2);
    }
  }

  /** AND with the all-ones mask of n bits keeps every value below 2^n. */
  lemma {:induction false} AndOnes(y: nat, n: nat)
    requires y < Pow2(n)
    ensures And(y, Pow2(n) - 1) == y
  {
    if n > 0 && y != 0 {
      assert (Pow2(n) - 1) / 2 == Pow2(n - 1) - 1;
      AndOnes(y / 2, n - 1);
    }
  }

  lemma AndEvenMask(y: nat, half: nat)
    requires y != 0 && half != 0
    ensures And(y, 2 * half) == 2 * And(y / 2, half)
  {
    assert (2 * half) / 2 == half && (2 * half) % 2 == 0;
  }

  /** AND with the mask whose bits k..n-1 are set clears the k lowest bits:
      the value is rounded down to a multiple of 2^k. */
  lemma {:induction false} AndClearsLowBits(y: nat, n: nat, k: nat, mask: nat)
    requires y < Pow2(n) && k <= n && mask + Pow2(k) == Pow2(n)
    ensures And(y, mask) == y - y % Pow2(k)
  {
    if k == 0 {
      AndOnes(y, n);
      DivModUnique(y, 1, y, 0);
    } else if k == n {
      DivModUnique(y, Pow2(n), 0, y);
    } else if y == 0 {
      DivModUnique(0, Pow2(k), 0, 0);
    } else {
      Pow2Monotone(k - 1, n - 1);
      var half: nat := Pow2(n - 1) - Pow2(k - 1);
      var low := (y / 2) % Pow2(k - 1);
      assert mask == 2 * half && half != 0;
      AndEvenMask(y, half);
      AndClearsLowBits(y / 2, n - 1, k - 1, half);
      assert And(y / 2, half) == y / 2 - low;
      ModPow2Split(y, k);
      assert y % Pow2(k) == y % 2 + 2 * low;
    }
  }

}
