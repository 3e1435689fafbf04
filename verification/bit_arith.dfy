/**
  The integer operators the device code uses to assemble counters from bytes:
  a left shift of a byte promoted to `int`, and bitwise OR. Both are stated on
  unbounded naturals; the proofs here show that OR of values occupying
  disjoint bit lanes is plain addition, which is what turns the shift-and-or
  expressions of the decoder into little-endian sums.
 */
module BitArith {

  /** 2 to the power k. */
  function Pow2(k: nat): (r: nat)
    ensures r >= 1
  {
    if k == 0 then 1 else 2 * Pow2(k - 1)
  }

  /** `x << k` for a non-negative x that does not overflow (the caller bounds it). */
  function ShiftLeft(x: nat, k: nat): nat
  {
    x * Pow2(k)
  }

  /** Bitwise OR of two naturals, bit by bit from the least significant end. */
  function BitOr(a: nat, b: nat): (r: nat)
    ensures a <= r && b <= r
    ensures r <= a + b
    decreases a + b
  {
    if a == 0 then b
    else if b == 0 then a
    else 2 * BitOr(a / 2, b / 2) + (if a % 2 == 1 || b % 2 == 1 then 1 else 0)
  }

  /** OR with a value below 2^k puts it into the low k bits of a multiple of 2^k. */
  lemma {:induction false} OrIntoLowBits(a: nat, b: nat, k: nat)
    requires b < Pow2(k)
    ensures BitOr(a * Pow2(k), b) == a * Pow2(k) + b
    decreases k
  {
    if k == 0 {
      assert b == 0;
    } else if a == 0 || b == 0 {
    } else {
      var hi := a * Pow2(k - 1);
      assert a * Pow2(k) == 2 * hi;
      assert (a * Pow2(k)) / 2 == hi && (a * Pow2(k)) % 2 == 0;
      OrIntoLowBits(a, b / 2, k - 1);
      assert BitOr(a * Pow2(k), b) == 2 * (hi + b / 2) + b % 2;
    }
  }

  /** Doubling both operands doubles their OR. */
  lemma OrOfDoubled(x: nat, y: nat)
    ensures BitOr(2 * x, 2 * y) == 2 * BitOr(x, y)
  {
    if x > 0 && y > 0 {
      assert (2 * x) / 2 == x && (2 * x) % 2 == 0;
      assert (2 * y) / 2 == y && (2 * y) % 2 == 0;
    }
  }

  lemma TimesDouble(a: nat, p: nat)
    ensures a * (2 * p) == 2 * (a * p)
  {
  }

  /** OR commutes with a common left shift. */
  lemma {:induction false} OrOfShifted(x: nat, y: nat, k: nat)
    ensures BitOr(x * Pow2(k), y * Pow2(k)) == BitOr(x, y) * Pow2(k)
    decreases k
  {
    if k > 0 {
      var p := Pow2(k - 1);
      var xp, yp, op := x * p, y * p, BitOr(x, y) * p;
      assert Pow2(k) == 2 * p;
      TimesDouble(x, p);
      TimesDouble(y, p);
      TimesDouble(BitOr(x, y), p);
      OrOfDoubled(xp, yp);
      OrOfShifted(x, y, k - 1);
      assert BitOr(xp, yp) == op;
    }
  }
}
