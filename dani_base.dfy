/** The integer helper macros of dani_base.h.
    Each macro is a pure expression, so each becomes a function; where the
    macro relies on unsigned wrap-around the function reduces explicitly
    modulo 2^width. The unsigned operand types are those the macros cast to
    (u64 for the binary units, the u16/u32/u64 byte splats); the decimal
    units, IsPower2 and AlignPower2 are stated for a u64 operand. */
module DaniBase {
  import opened Machine

  type b32 = u32

  const B32_TRUE: b32 := 1
  const B32_FALSE: b32 := 0
  const B32_SUCCESS: b32 := B32_TRUE
  const B32_FAILURE: b32 := B32_FALSE

  // ---------------------------------------------------------------------
  // Boolean helpers: any non-zero b32 is true.

  /** Every non-zero value is true, not only B32_TRUE; truth and success coincide. */
  function IsTrue(x: b32): (r: bool)
    ensures r <==> IsSuccess(x)
    ensures x == B32_TRUE ==> r
  {
    x != B32_FALSE
  }

  function IsFalse(x: b32): (r: bool)
    ensures r <==> !IsTrue(x)
  {
    x == B32_FALSE
  }

  function IsSuccess(x: b32): (r: bool)
    ensures r <==> !IsFailure(x)
  {
    x != B32_FALSE
  }

  /** Failure is exactly the B32_FAILURE value. */
  function IsFailure(x: b32): (r: bool)
    ensures r <==> x == B32_FAILURE
  {
    x == B32_FALSE
  }

  // ---------------------------------------------------------------------
  // Binary units: the operand is converted to u64, then shifted.

  /** 2^10 == 1024, reached through doubling the exponent. */
  lemma Pow2Of10()
    ensures Pow2(10) == 0x400
  {
    assert Pow2(2) == 4;
    Pow2Add(2, 2);
    Pow2Add(4, 4);
    Pow2Add(8, 2);
  }

  /** Shifting the u64 conversion of x is multiplying x itself, modulo 2^64. */
  lemma ShlOfWrapped(x: int, k: nat)
    ensures Shl64(Wrap64(x), k) == Wrap64(x * Pow2(k))
  {
    MulMod(x, Pow2(k), TWO_64);
  }

  function KiB(x: int): (r: u64)
    ensures r == Wrap64(x * 0x400)
  {
    Pow2Of10();
    ShlOfWrapped(x, 10);
    Shl64(Wrap64(x), 10)
  }

  function MiB(x: int): (r: u64)
    ensures r == Wrap64(x * 0x10_0000)
  {
    Pow2Of10();
    Pow2Add(10, 10);
    ShlOfWrapped(x, 20);
    Shl64(Wrap64(x), 20)
  }

  function GiB(x: int): (r: u64)
    ensures r == Wrap64(x * 0x4000_0000)
  {
    Pow2Of10();
    Pow2Add(10, 10);
    Pow2Add(20, 10);
    ShlOfWrapped(x, 30);
    Shl64(Wrap64(x), 30)
  }

  function TiB(x: int): (r: u64)
    ensures r == Wrap64(x * 0x100_0000_0000)
  {
    Pow2Of10();
    Pow2Add(10, 10);
    Pow2Add(20, 20);
    Pow2Add(40, 0);
    ShlOfWrapped(x, 40);
    Shl64(Wrap64(x), 40)
  }

  /** Each binary unit is 1024 of the one below it, wrap-around included. */
  lemma BinaryUnitsChain(x: int)
    ensures MiB(x) == KiB(KiB(x))
    ensures GiB(x) == KiB(MiB(x))
    ensures TiB(x) == KiB(GiB(x))
  {
    MulMod(x * 0x400, 0x400, TWO_64);
    MulMod(x * 0x10_0000, 0x400, TWO_64);
    MulMod(x * 0x4000_0000, 0x400, TWO_64);
  }

  /** Without overflow, dividing by the unit recovers the count. */
  lemma BinaryUnitsRoundTrip(x: nat)
    requires x < 0x100_0000
    ensures KiB(x) / 0x400 == x && MiB(x) / 0x10_0000 == x
    ensures GiB(x) / 0x4000_0000 == x && TiB(x) / 0x100_0000_0000 == x
  {
  }

  // ---------------------------------------------------------------------
  // Decimal units: each multiplies the one below it by 1000.

  function Kilo(x: u64): (r: u64)
    ensures x * 1000 < TWO_64 ==> r == x * 1000
  {
    Mul64(x, 1000)
  }

  function Mega(x: u64): (r: u64)
    ensures r == Wrap64(x * 1_000_000)
  {
    MulMod(x * 1000, 1000, TWO_64);
    Mul64(Kilo(x), 1000)
  }

  function Giga(x: u64): (r: u64)
    ensures r == Wrap64(x * 1_000_000_000)
  {
    MulMod(x * 1_000_000, 1000, TWO_64);
    Mul64(Mega(x), 1000)
  }

  function Tera(x: u64): (r: u64)
    ensures r == Wrap64(x * 1_000_000_000_000)
  {
    MulMod(x * 1_000_000_000, 1000, TWO_64);
    Mul64(Giga(x), 1000)
  }

  function Thousand(x: u64): (r: u64)
    ensures r == Wrap64(x * 1000)
  {
    Kilo(x)
  }

  function Million(x: u64): (r: u64)
    ensures r == Wrap64(x * 1_000_000)
  {
    Mega(x)
  }

  function Billion(x: u64): (r: u64)
    ensures r == Wrap64(x * 1_000_000_000)
  {
    Giga(x)
  }

  function Trillion(x: u64): (r: u64)
    ensures r == Wrap64(x * 1_000_000_000_000)
  {
    Tera(x)
  }

  // ---------------------------------------------------------------------
  // Min, Max, Clamp

  function Min(a: int, b: int): (r: int)
    ensures r == a || r == b
    ensures r <= a && r <= b
  {
    if a < b then a else b
  }

  function Max(a: int, b: int): (r: int)
    ensures r == a || r == b
    ensures r >= a && r >= b
  {
    if a > b then a else b
  }

  function ClampCeiling(x: int, ceiling: int): (r: int)
    ensures r <= ceiling
    ensures x <= ceiling ==> r == x
  {
    Min(x, ceiling)
  }

  function ClampFloor(x: int, floor: int): (r: int)
    ensures r >= floor
    ensures x >= floor ==> r == x
  {
    Max(x, floor)
  }

  /** The floor is applied first and the ceiling last, so an empty range
      (floor > ceiling) yields the ceiling. */
  function Clamp(x: int, floor: int, ceiling: int): (r: int)
    ensures floor <= ceiling ==> floor <= r <= ceiling
    ensures floor <= x <= ceiling ==> r == x
    ensures x < floor <= ceiling ==> r == floor
    ensures floor <= ceiling < x ==> r == ceiling
    ensures floor > ceiling ==> r == ceiling
  {
    ClampCeiling(ClampFloor(x, floor), ceiling)
  }

  // ---------------------------------------------------------------------
  // Powers of two

  /** x is 2^k for some k. */
  predicate PowerOfTwo(x: nat)
  {
    x == 1 || (x >= 2 && x % 2 == 0 && PowerOfTwo(x / 2))
  }

  function Log2(x: nat): (k: nat)
    requires PowerOfTwo(x)
    ensures Pow2(k) == x
  {
    if x == 1 then 0 else 1 + Log2(x / 2)
  }

  lemma {:induction false} Pow2IsPowerOfTwo(k: nat)
    ensures PowerOfTwo(Pow2(k))
  {
    if k > 0 {
      Pow2IsPowerOfTwo(k - 1);
    }
  }

  /** For a positive x, (x - 1) & x clears the lowest set bit; it is zero
      exactly when that bit was the only one. */
  lemma {:induction false} LowestBitIsOnlyBit(x: nat)
    requires x >= 1
    ensures And(x - 1, x) == 0 <==> PowerOfTwo(x)
  {
    if x == 1 {
    } else if x % 2 == 1 {
      AndSelf(x / 2);
      assert (x - 1) / 2 == x / 2;
      assert And(x - 1, x) == 2 * And(x / 2, x / 2);
    } else {
      LowestBitIsOnlyBit(x / 2);
      assert (x - 1) / 2 == x / 2 - 1;
      assert And(x - 1, x) == 2 * And(x / 2 - 1, x / 2);
    }
  }

  /** IsPower2 on an unsigned operand; zero passes the test too, because
      0 - 1 wraps to all ones and all ones & 0 == 0. */
  function IsPower2(x: u64): (r: bool)
    ensures r <==> x == 0 || PowerOfTwo(x)
  {
    if x >= 1 then LowestBitIsOnlyBit(x); And(Sub64(x, 1), x) == 0
    else And(Sub64(x, 1), x) == 0
  }

  /** The same test, against the exponent form: x is 0 or 2^k for a k below 64. */
  lemma IsPower2Exponent(x: u64)
    ensures IsPower2(x) <==> x == 0 || exists k: nat :: k < 64 && Pow2(k) == x
  {
    if x != 0 && IsPower2(x) {
      var k := Log2(x);
      Pow2At64();
      if k >= 64 {
        if k > 64 {
          Pow2Monotone(64, k);
        }
        assert false;
      }
      assert k < 64 && Pow2(k) == x;
    }
    if x != 0 && exists k: nat :: k < 64 && Pow2(k) == x {
      var k: nat :| k < 64 && Pow2(k) == x;
      Pow2IsPowerOfTwo(k);
      assert PowerOfTwo(x);
    }
  }

  /** Rounds x up to a multiple of the alignment; every u64 operation wraps. */
  function AlignPower2(x: u64, alignment: u64): (r: u64)
    ensures PowerOfTwo(alignment) ==>
      r == Wrap64(x + alignment - 1) - Wrap64(x + alignment - 1) % alignment
  {
    var y := Wrap64(x + alignment - 1);
    if PowerOfTwo(alignment) then
      AlignMask(y, alignment);
      And(y, Not64(Sub64(alignment, 1)))
    else
      And(y, Not64(Sub64(alignment, 1)))
  }

  /** The mask ~(a - 1) of a power of two a below 2^64 clears the low bits of
      the wrapped sum y, rounding it down to a multiple of a. */
  lemma AlignMask(y: u64, a: u64)
    requires PowerOfTwo(a)
    ensures And(y, Not64(Sub64(a, 1))) == y - y % a
  {
    var k := Log2(a);
    Pow2At64();
    if k >= 64 {
      if k > 64 {
        Pow2Monotone(64, k);
      }
      assert false;
    }
    AndClearsLowBits(y, 64, k, TWO_64 - a);
  }

  /** Without overflow, AlignPower2 yields the least multiple of the
      alignment that is not below x. */
  lemma AlignPower2RoundsUp(x: u64, a: u64)
    requires PowerOfTwo(a) && x + a - 1 < TWO_64
    ensures AlignPower2(x, a) % a == 0
    ensures x <= AlignPower2(x, a) < x + a
    ensures x % a == 0 ==> AlignPower2(x, a) == x
  {
    var y: u64 := x + a - 1;
    assert Wrap64(x + a - 1) == y;
    AlignMask(y, a);
    RoundDownIsMultiple(y, a);
    if x % a == 0 {
      AlignedSum(x, a);
    }
  }

  /** For x a multiple of a, x + a - 1 leaves the remainder a - 1. */
  lemma AlignedSum(x: nat, a: nat)
    requires a > 0 && x % a == 0
    ensures (x + a - 1) % a == a - 1
  {
    assert x == a * (x / a);
    DivModUnique(x + a - 1, a, x / a, a - 1);
  }


  lemma RoundDownIsMultiple(y: nat, a: nat)
    requires a > 0
    ensures (y - y % a) % a == 0
  {
    assert y - y % a == a * (y / a);
    MulIsMultiple(a, y / a);
  }

  /** When x + a - 1 overflows, the wrapped sum is below a and AlignPower2 yields 0. */
  lemma AlignPower2Overflow(x: u64, a: u64)
    requires PowerOfTwo(a) && x + a - 1 >= TWO_64
    ensures AlignPower2(x, a) == 0
  {
    var y := Wrap64(x + a - 1);
    assert y == x + a - 1 - TWO_64;
    AlignMask(y, a);
    DivModUnique(y, a, 0, y);
  }

  // ---------------------------------------------------------------------
  // Byte splats

  /** Byte k of v, counting from the least significant byte. */
  function ByteOf(v: nat, k: nat): nat
  {
    if k == 0 then v % 256 else ByteOf(v / 256, k - 1)
  }

  /** The value whose n low bytes are 0x01. */
  function OnesBytes(n: nat): nat
  {
    if n == 0 then 0 else 1 + 256 * OnesBytes(n - 1)
  }

  lemma {:induction false} SplatBytes(b: nat, n: nat)
    ensures b < 256 ==> forall k :: 0 <= k < n ==> ByteOf(b * OnesBytes(n), k) == b
  {
    if n > 0 && b < 256 {
      var rest := b * OnesBytes(n - 1);
      assert b * OnesBytes(n) == 256 * rest + b;
      DivModUnique(b * OnesBytes(n), 256, rest, b);
      SplatBytes(b, n - 1);
    }
  }

  lemma OnesBytesValues()
    ensures OnesBytes(2) == 0x0101
    ensures OnesBytes(4) == 0x0101_0101
    ensures OnesBytes(8) == 0x0101_0101_0101_0101
  {
    assert OnesBytes(1) == 1;
    assert OnesBytes(2) == 0x0101;
    assert OnesBytes(3) == 0x01_0101;
    assert OnesBytes(4) == 0x0101_0101;
    assert OnesBytes(5) == 0x01_0101_0101;
    assert OnesBytes(6) == 0x0101_0101_0101;
    assert OnesBytes(7) == 0x01_0101_0101_0101;
  }

  /** ByteSplat16 as the macro is written: `~(u16)U16_MIN` promotes its u16
      operand to int, so the complement is the int -1; C's truncating
      division then gives -1 / 255 == 0, and the product is always 0. */
  function ByteSplat16AsWritten(x: u16): (r: int)
    ensures r == 0
  {
    var promoted: int := 0;
    var complement := -promoted - 1;
    CDiv(complement, 255) * x
  }

  lemma ByteSplat16AsWrittenMissesSplat()
    ensures ByteSplat16AsWritten(1) != ByteSplat16(1)
  {
    assert ByteSplat16(1) == 0x0101;
  }

  /** ByteSplat16 as intended: (0xFFFF / 255) * x in u16 arithmetic. */
  function ByteSplat16(x: u16): (r: u16)
    ensures x < 256 ==> ByteOf(r, 0) == x && ByteOf(r, 1) == x
  {
    SplatFits16(x);
    SplatBytes(x, 2);
    Wrap16((0xFFFF / 255) * x)
  }

  lemma SplatFits16(x: u16)
    ensures x < 256 ==> Wrap16((0xFFFF / 255) * x) == x * OnesBytes(2)
  {
    OnesBytesValues();
    if x < 256 {
      assert x * 0x0101 <= 255 * 0x0101;
    }
  }


  function ByteSplat32(x: u32): (r: u32)
    ensures x < 256 ==> forall k :: 0 <= k < 4 ==> ByteOf(r, k) == x
  {
    SplatFits32(x);
    SplatBytes(x, 4);
    Wrap32((0xFFFF_FFFF / 255) * x)
  }

  lemma SplatFits32(x: u32)
    ensures x < 256 ==> Wrap32((0xFFFF_FFFF / 255) * x) == x * OnesBytes(4)
  {
    OnesBytesValues();
    if x < 256 {
      assert x * 0x0101_0101 <= 255 * 0x0101_0101;
    }
  }


  function ByteSplat64(x: u64): (r: u64)
    ensures x < 256 ==> forall k :: 0 <= k < 8 ==> ByteOf(r, k) == x
  {
    SplatFits64(x);
    SplatBytes(x, 8);
    Mul64(U64_MAX / 255, x)
  }

  lemma SplatFits64(x: u64)
    ensures x < 256 ==> Mul64(U64_MAX / 255, x) == x * OnesBytes(8)
  {
    OnesBytesValues();
    if x < 256 {
      assert x * 0x0101_0101_0101_0101 <= 255 * 0x0101_0101_0101_0101;
    }
  }


  // ---------------------------------------------------------------------
  // Abs

  /** Abs on an s64. C leaves -S64_MIN undefined; the model takes the
      two's-complement result, which is S64_MIN again. */
  function Abs(x: s64): (r: s64)
    ensures x != S64_MIN ==> r >= 0 && (r == x || r == -x)
    ensures x == S64_MIN ==> r == S64_MIN
  {
    if x >= 0 then x else WrapS64(-(x as int))
  }
}
