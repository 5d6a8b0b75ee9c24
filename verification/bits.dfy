/**
 * Machine words as naturals, with the bitwise operators defined bit by bit, so that masks, shifts and
 * alignments can be reasoned about as arithmetic: a low mask is a remainder, a high mask a difference,
 * disjoint operands of an or add up, and clearing low bits rounds down. Alignment by a power of two is
 * characterised by rounding up and down, and the powers themselves by a single set bit. The operators
 * are the ones of the source's 32-bit and 64-bit words.
 */
module Bits {

  type Byte = x: nat | x < 0x100
  type Half = x: nat | x < 0x1_0000
  type Word = x: nat | x < 0x1_0000_0000
  type DoubleWord = x: nat | x < 0x1_0000_0000_0000_0000

  /** One past the last guest address. */
  const ADDRESS_SPACE_END: nat := 0x1_0000_0000
  const WORD_MAX: nat := 0xFFFF_FFFF
  const TWO_TO_THE_64: nat := 0x1_0000_0000_0000_0000

  function Min(x: int, y: int): int { if x < y then x else y }
  function Max(x: int, y: int): int { if x < y then y else x }

  function Pow2(k: nat): (p: nat)
    ensures p >= 1
  {
    if k == 0 then 1 else 2 * Pow2(k - 1)
  }

  function And(x: nat, y: nat): (r: nat)
    ensures r <= x
  {
    if x == 0 then 0 else (if x % 2 == 1 && y % 2 == 1 then 1 else 0) + 2 * And(x / 2, y / 2)
  }

  function Or(x: nat, y: nat): nat {
    if x == 0 then y else (if x % 2 == 1 || y % 2 == 1 then 1 else 0) + 2 * Or(x / 2, y / 2)
  }

  function Xor(x: nat, y: nat): nat {
    if x == 0 then y else (if x % 2 != y % 2 then 1 else 0) + 2 * Xor(x / 2, y / 2)
  }

  lemma {:induction false} AndCommutes(x: nat, y: nat)
    ensures And(x, y) == And(y, x)
    decreases x + y
  {
    if x == 0 && y == 0 {
    } else {
      AndCommutes(x / 2, y / 2);
    }
  }

  lemma {:induction false} OrDisjoint(x: nat, y: nat)
    requires And(x, y) == 0
    ensures Or(x, y) == x + y
  {
    if x != 0 {
      OrDisjoint(x / 2, y / 2);
    }
  }

  lemma {:induction false} MasksDisjoint(x: nat, m: nat, y: nat, n: nat)
    requires And(m, n) == 0
    ensures And(And(x, m), And(y, n)) == 0
    decreases x + m
  {
    if x != 0 {
      if m == 0 {
        AndCommutes(x, m);
      } else {
        MasksDisjoint(x / 2, m / 2, y / 2, n / 2);
      }
    }
  }

  lemma AndHalves(x: nat, y: nat)
    requires And(x, y) == 0
    ensures (x % 2 == 0 || y % 2 == 0) && And(x / 2, y / 2) == 0
  {
  }

  /** Masking with the union of two disjoint masks adds up. */
  lemma {:induction false} AndUnion(x: nat, m: nat, n: nat)
    requires And(m, n) == 0
    ensures And(x, m + n) == And(x, m) + And(x, n)
  {
    if x != 0 {
      AndHalves(m, n);
      AndUnion(x / 2, m / 2, n / 2);
      assert (m + n) / 2 == m / 2 + n / 2;
    }
  }

  /** Flipping the top bit of a field adds or removes its weight. */
  lemma {:induction false} XorTopBit(x: nat, k: nat)
    requires x < 2 * Pow2(k)
    ensures Xor(x, Pow2(k)) == if x >= Pow2(k) then x - Pow2(k) else x + Pow2(k)
  {
    if k > 0 && x != 0 {
      XorTopBit(x / 2, k - 1);
    }
  }

  lemma {:induction false} OrNothing(x: nat)
    ensures Or(x, 0) == x && Or(0, x) == x
  {
    if x != 0 { OrNothing(x / 2); }
  }

  /** Joining a high and a low part with `|`. */
  lemma {:induction false} OrConcat(hi: nat, lo: nat, k: nat)
    requires lo < Pow2(k)
    ensures Or(hi * Pow2(k), lo) == hi * Pow2(k) + lo
  {
    hide Or;
    OrNothing(hi);
    OrNothing(lo);
    if k > 0 && hi != 0 {
      OrConcat(hi, lo / 2, k - 1);
      DoubleProduct(hi, Pow2(k - 1));
      OrEven(hi * Pow2(k - 1), lo);
    }
  }

  lemma DoubleProduct(a: nat, b: nat)
    ensures a * (2 * b) == 2 * (a * b)
  {
  }

  lemma OrEven(x: nat, y: nat)
    ensures Or(2 * x, y) == 2 * Or(x, y / 2) + y % 2
  {
    assert (2 * x) / 2 == x;
  }

  /** The logical shift right `x >> k`. */
  function Shr(x: nat, k: nat): (r: nat)
    ensures r <= x
  {
    if k == 0 then x else Shr(x / 2, k - 1)
  }

  lemma {:induction false} ShrDivides(x: nat, k: nat)
    ensures Shr(x, k) == x / Pow2(k)
  {
    if k > 0 {
      ShrDivides(x / 2, k - 1);
      ModDouble(x, Pow2(k - 1));
    }
  }

  lemma ModDouble(v: nat, p: nat)
    requires p >= 1
    ensures v % (2 * p) == 2 * ((v / 2) % p) + v % 2
    ensures (v / 2) / p == v / (2 * p)
  {
    var q, r := (v / 2) / p, (v / 2) % p;
    assert v == (2 * p) * q + (2 * r + v % 2) by { assert v / 2 == p * q + r; }
    DivisionUnique(v, 2 * p, q, 2 * r + v % 2);
  }

  lemma MulSign(d: nat, e: int)
    requires d >= 1
    ensures e >= 1 ==> d * e >= d
    ensures e <= 0 ==> d * e <= 0
    ensures e <= -1 ==> d * e <= -(d as int)
  {
  }

  lemma DivisionUnique(v: nat, d: nat, q: nat, r: nat)
    requires v == d * q + r && r < d
    ensures v / d == q && v % d == r
  {
    var e := v / d - q;
    assert d * e == r - v % d;
    MulSign(d, e);
  }

  /** Masking with the bits lo..hi keeps exactly those bits. */
  lemma {:induction false} AndRange(v: nat, lo: nat, hi: nat)
    requires lo <= hi
    ensures Pow2(lo) <= Pow2(hi)
    ensures And(v, Pow2(hi) - Pow2(lo)) == v % Pow2(hi) - v % Pow2(lo)
    decreases hi
  {
    hide And, Pow2;
    Halving(hi);
    Halving(lo);
    if hi == 0 {
      AndZero(v);
    } else if lo == 0 {
      AndRange(v / 2, 0, hi - 1);
      LowBits(v, Pow2(hi - 1));
    } else {
      AndRange(v / 2, lo - 1, hi - 1);
      MiddleBits(v, Pow2(lo - 1), Pow2(hi - 1));
    }
  }

  lemma Halving(k: nat)
    ensures k == 0 ==> Pow2(k) == 1
    ensures k > 0 ==> Pow2(k) == 2 * Pow2(k - 1)
  {
  }

  lemma LowBits(v: nat, p: nat)
    requires p >= 1 && And(v / 2, p - 1) == (v / 2) % p
    ensures And(v, 2 * p - 1) == v % (2 * p)
  {
    hide And;
    ModDouble(v, p);
    AndDouble(v, p - 1);
    assert 2 * p - 1 == 2 * (p - 1) + 1;
  }

  lemma MiddleBits(v: nat, q: nat, p: nat)
    requires 1 <= q <= p && And(v / 2, p - q) == (v / 2) % p - (v / 2) % q
    ensures And(v, 2 * p - 2 * q) == v % (2 * p) - v % (2 * q)
  {
    hide And;
    ModDouble(v, p);
    ModDouble(v, q);
    AndDouble(v, p - q);
    assert 2 * p - 2 * q == 2 * (p - q);
  }

  lemma AndZero(x: nat)
    ensures And(0, x) == 0 && And(x, 0) == 0
  {
    AndCommutes(0, x);
  }

  lemma AndDouble(x: nat, y: nat)
    ensures And(x, 2 * y) == 2 * And(x / 2, y)
    ensures And(x, 2 * y + 1) == 2 * And(x / 2, y) + x % 2
  {
    assert (2 * y) / 2 == y && (2 * y + 1) / 2 == y;
  }

  /** The source's power-of-two test `(a & (a - 1)) == 0`, for nonzero `a`. */
  predicate IsPowerOfTwo(a: nat) {
    a != 0 && And(a, a - 1) == 0
  }

  lemma {:induction false} AndSelf(x: nat)
    ensures And(x, x) == x
  {
    if x != 0 { AndSelf(x / 2); }
  }

  lemma OddNotPowerOfTwo(a: nat)
    requires a > 1
    ensures a % 2 == 1 ==> And(a, a - 1) != 0
  {
    AndSelf(a / 2);
    assert a % 2 == 1 ==> (a - 1) / 2 == a / 2;
  }

  ghost function Log2(a: nat): (k: nat)
    requires IsPowerOfTwo(a)
    ensures Pow2(k) == a
  {
    if a == 1 then 0
    else
      OddNotPowerOfTwo(a);
      assert (a - 1) / 2 == a / 2 - 1;
      1 + Log2(a / 2)
  }

  lemma Pow2IsPowerOfTwo(k: nat)
    ensures IsPowerOfTwo(Pow2(k))
  {
    hide And, Pow2;
    AndRange(Pow2(k), 0, k);
    assert Pow2(0) == 1 by { Pow2Zero(); }
    DivisionUnique(Pow2(k), Pow2(k), 1, 0);
  }

  lemma Pow2Zero()
    ensures Pow2(0) == 1
  {
  }

  lemma {:induction false} Pow2Sum(j: nat, k: nat)
    ensures Pow2(j + k) == Pow2(j) * Pow2(k)
  {
    if j != 0 {
      Pow2Sum(j - 1, k);
    }
  }

  lemma Pow2Of64()
    ensures Pow2(64) == TWO_TO_THE_64
  {
    hide Pow2;
    Pow2Of8();
    Pow2Sum(8, 8);
    Pow2Sum(16, 16);
    Pow2Sum(32, 32);
  }

  lemma Pow2Of8()
    ensures Pow2(8) == 0x100
  {
  }

  lemma {:induction false} Pow2Increases(j: nat, k: nat)
    requires j < k
    ensures Pow2(j) < Pow2(k)
  {
    if j + 1 < k { Pow2Increases(j, k - 1); }
  }

  /** `value & ~uint64(alignment - 1)`. */
  function AlignDown(value: nat, alignment: nat): nat
    requires 1 <= alignment <= TWO_TO_THE_64
  {
    And(value, TWO_TO_THE_64 - alignment)
  }

  /** `(value + alignment - 1) & ~uint64(alignment - 1)`. */
  function AlignUp(value: nat, alignment: nat): nat
    requires 1 <= alignment <= TWO_TO_THE_64
  {
    AlignDown(value + alignment - 1, alignment)
  }

  /** Clearing the low bits of a 64-bit value rounds it down to a multiple of the alignment. */
  lemma AlignDownClears(value: nat, alignment: nat)
    requires IsPowerOfTwo(alignment) && alignment <= TWO_TO_THE_64 && value < TWO_TO_THE_64
    ensures AlignDown(value, alignment) == value - value % alignment
  {
    var k := Log2(alignment);
    hide And, Log2, IsPowerOfTwo, Pow2;
    Pow2Of64();
    if k > 64 { Pow2Increases(64, k); }
    AndRange(value, k, 64);
    DivisionUnique(value, TWO_TO_THE_64, 0, value);
  }

  lemma RoundDown(value: nat, d: nat)
    requires d >= 1
    ensures value % d <= value
    ensures (value - value % d) % d == 0
  {
    DivisionUnique(value - value % d, d, value / d, 0);
  }

  lemma MultiplesApart(x: nat, y: nat, d: nat)
    requires d >= 1 && x % d == 0 && y % d == 0
    ensures x < y ==> x + d <= y
  {
    var e := y / d - x / d;
    assert y - x == d * e;
    MulSign(d, e);
  }

  /** `r` is the least multiple of `alignment` that is not below `value`. */
  ghost predicate RoundsUp(value: nat, alignment: nat, r: nat) {
    && alignment >= 1
    && value <= r < value + alignment
    && r % alignment == 0
  }

  /** `r` is the greatest multiple of `alignment` that is not above `value`. */
  ghost predicate RoundsDown(value: nat, alignment: nat, r: nat) {
    && alignment >= 1
    && r <= value < r + alignment
    && r % alignment == 0
  }

  lemma AlignDownMeans(value: nat, alignment: nat)
    requires IsPowerOfTwo(alignment) && alignment <= TWO_TO_THE_64 && value < TWO_TO_THE_64
    ensures RoundsDown(value, alignment, AlignDown(value, alignment))
  {
    hide And;
    AlignDownClears(value, alignment);
    RoundDown(value, alignment);
  }

  lemma AlignUpMeans(value: nat, alignment: nat)
    requires IsPowerOfTwo(alignment) && alignment <= TWO_TO_THE_64
    requires value + alignment <= TWO_TO_THE_64
    ensures RoundsUp(value, alignment, AlignUp(value, alignment))
  {
    hide And;
    AlignDownClears(value + alignment - 1, alignment);
    RoundDown(value + alignment - 1, alignment);
  }

  /** A multiple at or above the value is at or above the rounded value; likewise below. */
  lemma RoundingIsTight(value: nat, alignment: nat, r: nat, m: nat)
    requires alignment >= 1 && m % alignment == 0
    ensures RoundsUp(value, alignment, r) && m >= value ==> m >= r
    ensures RoundsDown(value, alignment, r) && m <= value ==> m <= r
  {
    if r % alignment == 0 {
      MultiplesApart(m, r, alignment);
      MultiplesApart(r, m, alignment);
    }
  }

  lemma SixteenIsPowerOfTwo()
    ensures IsPowerOfTwo(16)
  {
    assert Pow2(4) == 16;
    Pow2IsPowerOfTwo(4);
  }

  /** The `& ~15` and `align_up_16` idioms. */
  lemma Align16(value: nat)
    requires value + 16 <= TWO_TO_THE_64
    ensures RoundsDown(value, 16, AlignDown(value, 16)) && RoundsUp(value, 16, AlignUp(value, 16))
  {
    SixteenIsPowerOfTwo();
    AlignDownMeans(value, 16);
    AlignUpMeans(value, 16);
  }
}
