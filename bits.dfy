/** Unsigned machine words and the C bitwise operators the simulator uses on them.
    A C++ `uint16_t` is modelled as the subrange `Word`; `x >> k` on an unsigned value is
    `k` halvings, which is `x / Pow2(k)`; `&` and `|` are defined bit by bit on natural numbers. */
module Bits {

  const WordSize: nat := 0x1_0000

  /** A `uint16_t`: registers, memory words, the program counter and instruction words. */
  type Word = x: int | 0 <= x < WordSize

  /** Conversion of an `int` intermediate result back to `uint16_t` (wraps modulo 2^16). */
  function Trunc16(x: int): (r: Word)
    ensures (x - r) % WordSize == 0
    ensures 0 <= x < WordSize ==> r == x
  {
    x % WordSize
  }

  function Pow2(k: nat): (r: nat)
    ensures r >= 1
  {
    if k == 0 then 1 else 2 * Pow2(k - 1)
  }

  /** The powers of two the instruction fields are cut at. */
  lemma Pow2Values()
    ensures Pow2(3) == 8 && Pow2(4) == 16 && Pow2(6) == 64 && Pow2(7) == 128
    ensures Pow2(13) == 8192 && Pow2(16) == WordSize
  {
    assert Pow2(4) == 16;
    assert Pow2(8) == 256;
    assert Pow2(12) == 4096;
    assert Pow2(16) == WordSize;
  }

  /** C's `x >> k` on a non-negative operand: `k` halvings. */
  function ShiftRight(x: nat, k: nat): (r: nat)
    ensures r <= x
  {
    if k == 0 then x else ShiftRight(x / 2, k - 1)
  }

  /** Bit `k` of `x` is set. */
  predicate BitAt(x: nat, k: nat) {
    (x / Pow2(k)) % 2 == 1
  }

  /** C's `a & b` on non-negative operands. */
  function BitAnd(a: nat, b: nat): (r: nat)
    ensures r <= a && r <= b
    decreases a
  {
    if a == 0 || b == 0 then 0
    else 2 * BitAnd(a / 2, b / 2) + (if a % 2 == 1 && b % 2 == 1 then 1 else 0)
  }

  /** C's `a | b` on non-negative operands. */
  function BitOr(a: nat, b: nat): (r: nat)
    ensures a <= r <= a + b && b <= r
    decreases a
  {
    if a == 0 then b
    else if b == 0 then a
    else 2 * BitOr(a / 2, b / 2) + (if a % 2 == 1 || b % 2 == 1 then 1 else 0)
  }

  lemma MulAtLeast(d: int, e: int)
    requires d > 0 && e >= 1
    ensures d * e >= d
  {
  }

  /** Division with remainder is unique. */
  lemma DivModUnique(x: int, d: int, q: int, r: int)
    requires d > 0 && 0 <= r < d && x == d * q + r
    ensures x / d == q && x % d == r
  {
    var q', r' := x / d, x % d;
    assert d * (q - q') == r' - r;
    if q' < q {
      MulAtLeast(d, q - q');
      assert false;
    } else if q' > q {
      MulAtLeast(d, q' - q);
      assert false;
    }
  }

  /** Dividing twice is dividing by the product. */
  lemma DivDiv(x: nat, a: nat, b: nat)
    requires a > 0 && b > 0
    ensures (x / a) / b == x / (a * b)
  {
    var q, r2, r1 := (x / a) / b, (x / a) % b, x % a;
    assert x == a * (b * q + r2) + r1;
    assert a * (b * q + r2) == (a * b) * q + a * r2;
    MulAtLeast(a, b - r2);
    assert a * (b - r2) == a * b - a * r2;
    DivModUnique(x, a * b, q, a * r2 + r1);
  }

  /** Peeling off the lowest bit: how `/` and `%` by 2^(k+1) relate to halving. */
  lemma HalveDivMod(x: nat, k: nat)
    ensures x / Pow2(k + 1) == (x / 2) / Pow2(k)
    ensures x % Pow2(k + 1) == 2 * ((x / 2) % Pow2(k)) + x % 2
  {
    var p := Pow2(k);
    var q, u := (x / 2) / p, (x / 2) % p;
    assert x / 2 == p * q + u;
    assert x == (2 * p) * q + (2 * u + x % 2);
    DivModUnique(x, 2 * p, q, 2 * u + x % 2);
  }

  /** Shifting right by `k` is dividing by 2^k. */
  lemma {:induction false} ShiftRightIsDiv(x: nat, k: nat)
    ensures ShiftRight(x, k) == x / Pow2(k)
  {
    if k > 0 {
      ShiftRightIsDiv(x / 2, k - 1);
      HalveDivMod(x, k - 1);
    }
  }

  /** Bit 0 is the parity; bit `k + 1` of `x` is bit `k` of `x / 2`. */
  lemma BitAtHalve(x: nat, k: nat)
    ensures BitAt(x, 0) <==> x % 2 == 1
    ensures BitAt(x, k + 1) <==> BitAt(x / 2, k)
  {
    HalveDivMod(x, k);
  }

  /** The lowest bit of `a & b` and what remains above it. */
  lemma AndHalve(a: nat, b: nat)
    ensures BitAnd(a, b) % 2 == (if a % 2 == 1 && b % 2 == 1 then 1 else 0)
    ensures BitAnd(a, b) / 2 == BitAnd(a / 2, b / 2)
  {
    var low := if a % 2 == 1 && b % 2 == 1 then 1 else 0;
    if a == 0 || b == 0 {
      assert BitAnd(a / 2, b / 2) == 0;
    } else {
      DivModUnique(BitAnd(a, b), 2, BitAnd(a / 2, b / 2), low);
    }
  }

  /** The lowest bit of `a | b` and what remains above it. */
  lemma OrHalve(a: nat, b: nat)
    ensures BitOr(a, b) % 2 == (if a % 2 == 1 || b % 2 == 1 then 1 else 0)
    ensures BitOr(a, b) / 2 == BitOr(a / 2, b / 2)
  {
    var low := if a % 2 == 1 || b % 2 == 1 then 1 else 0;
    if a == 0 {
      assert BitOr(a / 2, b / 2) == b / 2;
    } else if b == 0 {
      assert BitOr(a / 2, b / 2) == a / 2;
    } else {
      DivModUnique(BitOr(a, b), 2, BitOr(a / 2, b / 2), low);
    }
  }

  /** Bit `k` of `a & b` is set exactly when bit `k` is set in both operands. */
  lemma {:induction false} AndAt(a: nat, b: nat, k: nat)
    ensures BitAt(BitAnd(a, b), k) <==> BitAt(a, k) && BitAt(b, k)
  {
    AndHalve(a, b);
    if k == 0 {
      BitAtHalve(BitAnd(a, b), 0);
      BitAtHalve(a, 0);
      BitAtHalve(b, 0);
    } else {
      BitAtHalve(BitAnd(a, b), k - 1);
      BitAtHalve(a, k - 1);
      BitAtHalve(b, k - 1);
      AndAt(a / 2, b / 2, k - 1);
    }
  }

  /** Bit `k` of `a | b` is set exactly when bit `k` is set in either operand. */
  lemma {:induction false} OrAt(a: nat, b: nat, k: nat)
    ensures BitAt(BitOr(a, b), k) <==> BitAt(a, k) || BitAt(b, k)
  {
    OrHalve(a, b);
    if k == 0 {
      BitAtHalve(BitOr(a, b), 0);
      BitAtHalve(a, 0);
      BitAtHalve(b, 0);
    } else {
      BitAtHalve(BitOr(a, b), k - 1);
      BitAtHalve(a, k - 1);
      BitAtHalve(b, k - 1);
      OrAt(a / 2, b / 2, k - 1);
    }
  }

  /** Masking with `2^k - 1` keeps the low `k` bits: `x & (2^k - 1) == x % 2^k`. */
  lemma {:induction false} AndLowMask(x: nat, k: nat)
    ensures BitAnd(x, Pow2(k) - 1) == x % Pow2(k)
  {
    if k == 0 {
      assert Pow2(k) == 1 && BitAnd(x, 0) == 0;
    } else {
      var p := Pow2(k - 1);
      var m := Pow2(k) - 1;
      assert m == 2 * (p - 1) + 1;
      assert m / 2 == p - 1 && m % 2 == 1;
      var r := BitAnd(x, m);
      AndHalve(x, m);
      AndLowMask(x / 2, k - 1);
      assert r / 2 == (x / 2) % p && r % 2 == x % 2;
      HalveDivMod(x, k - 1);
      assert r == 2 * (r / 2) + r % 2;
    }
  }

  /** Or-ing a value into bits it does not occupy is addition. */
  lemma {:induction false} OrDisjoint(a: nat, b: nat, k: nat)
    requires a < Pow2(k) && b % Pow2(k) == 0
    ensures BitOr(a, b) == a + b
  {
    if a == 0 || b == 0 {
    } else {
      assert k > 0;
      HalveDivMod(b, k - 1);
      assert b % 2 == 0 && (b / 2) % Pow2(k - 1) == 0;
      OrDisjoint(a / 2, b / 2, k - 1);
    }
  }

  /** Or of two `k`-bit values is a `k`-bit value. */
  lemma {:induction false} OrBelow(a: nat, b: nat, k: nat)
    requires a < Pow2(k) && b < Pow2(k)
    ensures BitOr(a, b) < Pow2(k)
  {
    if a == 0 || b == 0 {
    } else {
      OrBelow(a / 2, b / 2, k - 1);
    }
  }

  /** `|` of two words, as `regs[a] | regs[b]` stored back into a `uint16_t`. */
  function WordOr(a: Word, b: Word): (r: Word)
    ensures forall k :: 0 <= k < 16 ==> (BitAt(r, k) <==> BitAt(a, k) || BitAt(b, k))
  {
    Pow2Values();
    OrBelow(a, b, 16);
    forall k | 0 <= k < 16 ensures BitAt(BitOr(a, b), k) <==> BitAt(a, k) || BitAt(b, k) {
      OrAt(a, b, k);
    }
    BitOr(a, b)
  }

  /** `&` of two words, as `regs[a] & regs[b]`. */
  function WordAnd(a: Word, b: Word): (r: Word)
    ensures forall k :: 0 <= k < 16 ==> (BitAt(r, k) <==> BitAt(a, k) && BitAt(b, k))
  {
    forall k | 0 <= k < 16 ensures BitAt(BitAnd(a, b), k) <==> BitAt(a, k) && BitAt(b, k) {
      AndAt(a, b, k);
    }
    BitAnd(a, b)
  }
}
