/** Fixed-width integers as subsets of `int`, with the C++ conversions the programs use.

    Dafny's `/` and `%` by a positive literal are the floor quotient and the
    non-negative remainder, so `x / 256` is the arithmetic right shift `x >> 8` and
    `x % 256` is `static_cast<uint8_t>(x)`, for negative `x` too. */
module MachineInts {

  type byte = x: int | 0 <= x < 0x100
  type int16 = x: int | -0x8000 <= x < 0x8000
  type uint16 = x: int | 0 <= x < 0x1_0000
  type int32 = x: int | -0x8000_0000 <= x < 0x8000_0000
  type uint32 = x: int | 0 <= x < 0x1_0000_0000

  /** The lowest byte. */
  function LowByte(x: int): byte {
    x % 0x100
  }

  /** The byte above the lowest. */
  function HighByte(x: int): byte {
    x / 0x100 % 0x100
  }

  /** The value a 32-bit two's complement register holds after computing x. */
  function WrapI32(x: int): int32 {
    (x + 0x8000_0000) % 0x1_0000_0000 - 0x8000_0000
  }

  /** static_cast<int8_t>(b) */
  function AsI8(b: byte): int {
    if b < 0x80 then b else b - 0x100
  }

  /** static_cast<int16_t>(u) */
  function AsI16(u: uint16): int16 {
    if u < 0x8000 then u else u - 0x1_0000
  }

  /** A signed 16-bit value as an unsigned one; AsI16 undoes it. */
  function ToU16(x: int16): (u: uint16)
    ensures AsI16(u) == x
  {
    if x < 0 then x + 0x1_0000 else x
  }

  /** Signed saturation to 16 bits. */
  function SatI16(x: int): int16 {
    if x < -0x8000 then -0x8000 else if x > 0x7FFF then 0x7FFF else x
  }

  /** Unsigned saturation to 16 bits. */
  function SatU16(x: int): uint16 {
    if x < 0 then 0 else if x > 0xFFFF then 0xFFFF else x
  }

  /** Unsigned saturation to 8 bits. */
  function SatU8(x: int): byte {
    if x < 0 then 0 else if x > 0xFF then 0xFF else x
  }

  /** The 16-bit number with the given low and high byte. */
  function Word2(b0: int, b1: int): int {
    b0 + 0x100 * b1
  }

  /** The 32-bit number with the given bytes, lowest first. */
  function Word4(b0: int, b1: int, b2: int, b3: int): int {
    b0 + 0x100 * b1 + 0x1_0000 * b2 + 0x100_0000 * b3
  }

  function Clamp(x: int, lo: int, hi: int): int {
    if x < lo then lo else if x > hi then hi else x
  }

  function Max(x: int32, y: int32): int32 {
    if x < y then y else x
  }

  function Min(x: int32, y: int32): int32 {
    if x < y then x else y
  }

  function Pow2(k: nat): (p: nat)
    ensures p >= 1
  {
    if k == 0 then 1 else 2 * Pow2(k - 1)
  }

  lemma {:induction false} Pow2Monotone(a: nat, b: nat)
    requires a <= b
    ensures Pow2(a) <= Pow2(b)
    decreases b - a
  {
    if a < b {
      Pow2Monotone(a + 1, b);
    }
  }

  lemma {:induction false} Pow2Add(a: nat, b: nat)
    ensures Pow2(a + b) == Pow2(a) * Pow2(b)
  {
    if a > 0 {
      Pow2Add(a - 1, b);
      assert a + b - 1 == (a - 1) + b;
    }
  }

  lemma Pow2Values()
    ensures Pow2(8) == 0x100
    ensures Pow2(15) == 0x8000
    ensures Pow2(16) == 0x1_0000
  {
    assert Pow2(4) == 16;
    Pow2Add(4, 4);
    Pow2Add(8, 8);
  }

  // ---------------------------------------------------------------------------
  // Bitwise operators on non-negative integers
  // ---------------------------------------------------------------------------

  /** Bitwise or, bit by bit from the low end. */
  function BitOr(a: nat, b: nat): nat {
    if a == 0 && b == 0 then 0
    else 2 * BitOr(a / 2, b / 2) + (if a % 2 == 1 || b % 2 == 1 then 1 else 0)
  }

  /** Bitwise and, bit by bit from the low end. */
  function BitAnd(a: nat, b: nat): nat {
    if a == 0 && b == 0 then 0
    else 2 * BitAnd(a / 2, b / 2) + (if a % 2 == 1 && b % 2 == 1 then 1 else 0)
  }

  /** Bit k of x, counting from the low end. */
  predicate Bit(x: nat, k: nat) {
    if k == 0 then x % 2 == 1 else Bit(x / 2, k - 1)
  }

  lemma {:induction false} BitOfOr(a: nat, b: nat, k: nat)
    ensures Bit(BitOr(a, b), k) == (Bit(a, k) || Bit(b, k))
  {
    if a == 0 && b == 0 {
      BitOfZero(k);
    } else if k > 0 {
      BitOfOr(a / 2, b / 2, k - 1);
    }
  }

  lemma {:induction false} BitOfAnd(a: nat, b: nat, k: nat)
    ensures Bit(BitAnd(a, b), k) == (Bit(a, k) && Bit(b, k))
  {
    if a == 0 && b == 0 {
      BitOfZero(k);
    } else if k > 0 {
      BitOfAnd(a / 2, b / 2, k - 1);
    }
  }

  lemma {:induction false} BitOfZero(k: nat)
    ensures !Bit(0, k)
  {
    if k > 0 {
      BitOfZero(k - 1);
    }
  }

  lemma {:induction false} BitOrZero(a: nat)
    ensures BitOr(a, 0) == a && BitOr(0, a) == a
  {
    if a > 0 {
      BitOrZero(a / 2);
    }
  }

  lemma {:induction false} BitAndZero(a: nat)
    ensures BitAnd(a, 0) == 0 && BitAnd(0, a) == 0
  {
    if a > 0 {
      BitAndZero(a / 2);
    }
  }

  lemma {:induction false} BitOrBound(k: nat, a: nat, b: nat)
    requires a < Pow2(k) && b < Pow2(k)
    ensures BitOr(a, b) < Pow2(k)
  {
    if k > 0 {
      BitOrBound(k - 1, a / 2, b / 2);
    }
  }

  lemma {:induction false} BitAndBound(k: nat, a: nat, b: nat)
    requires a < Pow2(k) && b < Pow2(k)
    ensures BitAnd(a, b) < Pow2(k)
  {
    if k > 0 {
      BitAndBound(k - 1, a / 2, b / 2);
    }
  }

  /** Or of bit-disjoint numbers is their sum. */
  lemma {:induction false} BitOrDisjoint(k: nat, low: nat, high: nat)
    requires low < Pow2(k)
    ensures BitOr(low, high * Pow2(k)) == low + high * Pow2(k)
    ensures BitOr(high * Pow2(k), low) == low + high * Pow2(k)
  {
    if k == 0 {
      BitOrZero(high);
    } else {
      var h := high * Pow2(k - 1);
      assert high * Pow2(k) == 2 * h;
      BitOrDisjoint(k - 1, low / 2, high);
    }
  }

  /** And with k ones keeps a number of at most k bits. */
  lemma {:induction false} BitAndOnes(k: nat, a: nat)
    requires a < Pow2(k)
    ensures BitAnd(a, Pow2(k) - 1) == a
  {
    if k > 0 {
      BitAndOnes(k - 1, a / 2);
      assert (Pow2(k) - 1) / 2 == Pow2(k - 1) - 1;
    }
  }

  lemma BitAndStep(a: nat, b: nat)
    ensures BitAnd(a, b) == 2 * BitAnd(a / 2, b / 2) + (if a % 2 == 1 && b % 2 == 1 then 1 else 0)
  {
    if a == 0 && b == 0 {
      BitAndZero(0);
    }
  }

  /** Two steps with even masks. */
  lemma BitAndFour(a: nat, mask: nat)
    ensures BitAnd(a, 4 * mask) == 4 * BitAnd(a / 4, mask)
  {
    BitAndStep(a, 4 * mask);
    BitAndStep(a / 2, 2 * mask);
    assert 4 * mask / 2 == 2 * mask && 2 * mask / 2 == mask && a / 2 / 2 == a / 4;
  }

  lemma BitAndSixteen(a: nat, mask: nat)
    ensures BitAnd(a, 16 * mask) == 16 * BitAnd(a / 16, mask)
  {
    BitAndFour(a, 4 * mask);
    BitAndFour(a / 4, mask);
    assert a / 4 / 4 == a / 16;
  }

  /** A mask shifted by a byte looks at the number shifted by a byte. */
  lemma BitAndByteUp(a: nat, mask: nat)
    ensures BitAnd(a, 0x100 * mask) == 0x100 * BitAnd(a / 0x100, mask)
  {
    BitAndSixteen(a, 16 * mask);
    BitAndSixteen(a / 16, mask);
    assert a / 16 / 16 == a / 0x100;
  }

  lemma BitAndFactorOnes(a: nat, m: nat)
    ensures BitAnd(a, 4 * m + 3) == 4 * BitAnd(a / 4, m) + a % 4
  {
    BitAndStep(a, 4 * m + 3);
    BitAndStep(a / 2, 2 * m + 1);
    assert (4 * m + 3) / 2 == 2 * m + 1 && (2 * m + 1) / 2 == m && a / 2 / 2 == a / 4;
  }

  /** Masking with 0xFF keeps the low byte. */
  lemma BitAndLowByte(a: nat)
    ensures BitAnd(a, 0xFF) == a % 0x100
  {
    BitAndFactorOnes(a, 63);
    BitAndFactorOnes(a / 4, 15);
    BitAndFactorOnes(a / 16, 3);
    BitAndFactorOnes(a / 64, 0);
    BitAndZero(a / 0x100);
    assert a / 4 / 4 == a / 16 && a / 16 / 4 == a / 64 && a / 64 / 4 == a / 0x100;
  }

  lemma ModUnique(a: int, m: int, q: int, r: int)
    requires m > 0 && 0 <= r < m && a == q * m + r
    ensures a % m == r && a / m == q
  {
    var d := q - a / m;
    assert d * m == a % m - r;
    assert d >= 1 ==> d * m >= m;
    assert d <= -1 ==> d * m <= -m;
  }

  lemma MulMonotone(a: int, b: int, k: int)
    requires a <= b && k >= 0
    ensures a * k <= b * k
  {
  }

  lemma Below(a: int, b: int, k: nat)
    requires a * k < b * k
    ensures a < b
  {
    if a >= b {
      MulMonotone(b, a, k);
    }
  }

  /** The floor quotient. */
  lemma QuotientIs(x: int, p: nat) returns (q: int)
    requires p >= 1
    ensures q == x / p && q * p <= x < q * p + p
  {
    q := x / p;
    assert x == q * p + x % p;
  }

  lemma QuotientMonotone(x: int, y: int, p: nat)
    requires p >= 1 && x <= y
    ensures x / p <= y / p
  {
    var q := QuotientIs(x, p);
    var r := QuotientIs(y, p);
    assert (r + 1) * p == r * p + p;
    Below(q, r + 1, p);
  }

  function OrByte(a: byte, b: byte): byte {
    Pow2Values();
    BitOrBound(8, a, b);
    BitOr(a, b)
  }

  function AndByte(a: byte, b: byte): byte {
    Pow2Values();
    BitAndBound(8, a, b);
    BitAnd(a, b)
  }
}
