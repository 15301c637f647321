/**
 * Python's operators on unbounded ints as the programmer calculator uses them:
 * `&`, `|`, `^` and `~` on the infinite two's-complement view, `<<` and `>>`,
 * and the word mask `(1 << w) - 1`.
 */
module Bits {
  import opened Numerals

  /** A measure that halving shrinks for every int other than 0 and -1. */
  function Size(a: int): nat
  {
    if a >= 0 then a else -a - 1
  }

  /** Python's `~a`. */
  function BitNot(a: int): int
  {
    -a - 1
  }

  /** Python's `a & b`: low bits combined, the rest from `(a >> 1) & (b >> 1)`. */
  function BitAnd(a: int, b: int): int
    decreases Size(a)
  {
    if a == 0 then 0
    else if a == -1 then b
    else 2 * BitAnd(a / 2, b / 2) + (a % 2) * (b % 2)
  }

  /** Python's `a | b`. */
  function BitOr(a: int, b: int): int
    decreases Size(a)
  {
    if a == 0 then b
    else if a == -1 then -1
    else 2 * BitOr(a / 2, b / 2) + (a % 2 + b % 2 - (a % 2) * (b % 2))
  }

  /** Python's `a ^ b`. */
  function BitXor(a: int, b: int): int
    decreases Size(a)
  {
    if a == 0 then b
    else if a == -1 then BitNot(b)
    else 2 * BitXor(a / 2, b / 2) + (a % 2 + b % 2) % 2
  }

  /** Python's `v << n`. */
  function ShiftLeft(v: int, n: nat): int
  {
    v * Pow(2, n)
  }

  /** Python's `v >> n`, which rounds towards negative infinity like Dafny's `/` by a positive divisor. */
  function ShiftRight(v: int, n: nat): int
  {
    v / Pow(2, n)
  }

  /** `(1 << w) - 1`, the all-ones word of width w. */
  function Mask(w: nat): nat
  {
    Pow(2, w) - 1
  }

  /**
   * Reference definition: bit i of v in two's complement, which is how Python
   * defines its bitwise operators on ints of either sign.
   */
  function Bit(v: int, i: nat): (b: int)
    ensures 0 <= b <= 1
    decreases i
  {
    if i == 0 then v % 2 else Bit(v / 2, i - 1)
  }

  lemma HalfOf(q: int, e: int)
    requires 0 <= e <= 1
    ensures (2 * q + e) / 2 == q && (2 * q + e) % 2 == e
  {
  }

  lemma {:induction false} BitOfZero(i: nat)
    ensures Bit(0, i) == 0
  {
    if i > 0 {
      BitOfZero(i - 1);
    }
  }

  lemma {:induction false} BitOfMinusOne(i: nat)
    ensures Bit(-1, i) == 1
  {
    if i > 0 {
      BitOfMinusOne(i - 1);
    }
  }

  /** `~a` flips every bit. */
  lemma {:induction false} BitNotSpec(a: int, i: nat)
    ensures Bit(BitNot(a), i) == 1 - Bit(a, i)
    decreases i
  {
    HalfOf(-(a / 2) - 1, 1 - a % 2);
    if i > 0 {
      BitNotSpec(a / 2, i - 1);
    }
  }

  /** `a & b` has a one exactly where both operands do. */
  lemma {:induction false} BitAndSpec(a: int, b: int, i: nat)
    ensures Bit(BitAnd(a, b), i) == Bit(a, i) * Bit(b, i)
    decreases Size(a)
  {
    if a == 0 {
      BitOfZero(i);
    } else if a == -1 {
      BitOfMinusOne(i);
    } else {
      HalfOf(BitAnd(a / 2, b / 2), (a % 2) * (b % 2));
      if i > 0 {
        BitAndSpec(a / 2, b / 2, i - 1);
      }
    }
  }

  /** `a | b` has a one exactly where either operand does. */
  lemma {:induction false} BitOrSpec(a: int, b: int, i: nat)
    ensures Bit(BitOr(a, b), i) == Bit(a, i) + Bit(b, i) - Bit(a, i) * Bit(b, i)
    decreases Size(a)
  {
    if a == 0 {
      BitOfZero(i);
    } else if a == -1 {
      BitOfMinusOne(i);
    } else {
      HalfOf(BitOr(a / 2, b / 2), a % 2 + b % 2 - (a % 2) * (b % 2));
      if i > 0 {
        BitOrSpec(a / 2, b / 2, i - 1);
      }
    }
  }

  /** `a ^ b` has a one exactly where the operands differ. */
  lemma {:induction false} BitXorSpec(a: int, b: int, i: nat)
    ensures Bit(BitXor(a, b), i) == (Bit(a, i) + Bit(b, i)) % 2
    decreases Size(a)
  {
    if a == 0 {
      BitOfZero(i);
    } else if a == -1 {
      BitOfMinusOne(i);
      BitNotSpec(b, i);
    } else {
      HalfOf(BitXor(a / 2, b / 2), (a % 2 + b % 2) % 2);
      if i > 0 {
        BitXorSpec(a / 2, b / 2, i - 1);
      }
    }
  }

  /** The mask has ones in the low w bits and zeros above. */
  lemma {:induction false} MaskBits(w: nat, i: nat)
    ensures Bit(Mask(w), i) == if i < w then 1 else 0
  {
    if w == 0 {
      BitOfZero(i);
    } else {
      HalfOf(Mask(w - 1), 1);
      if i > 0 {
        MaskBits(w - 1, i - 1);
      }
    }
  }

  /** Masking keeps the low w bits of v and clears the rest. */
  lemma MaskedBits(v: int, w: nat, i: nat)
    ensures Bit(BitAnd(v, Mask(w)), i) == if i < w then Bit(v, i) else 0
  {
    BitAndSpec(v, Mask(w), i);
    MaskBits(w, i);
  }

  /** The only quotient and remainder: v == d * k + r with 0 <= r < d fixes both. */
  lemma {:induction false} MulAtLeast(d: int, x: int)
    requires d > 0 && x >= 1
    ensures d * x >= d
    decreases x
  {
    if x > 1 {
      MulAtLeast(d, x - 1);
      assert d * x == d * (x - 1) + d;
    }
  }

  lemma ModUnique(v: int, d: int, k: int, r: int)
    requires d > 0 && v == d * k + r && 0 <= r < d
    ensures v / d == k && v % d == r
  {
    var q, m := v / d, v % d;
    assert d * q + m == v;
    assert d * (k - q) == m - r;
    if k > q {
      MulAtLeast(d, k - q);
    } else if k < q {
      MulAtLeast(d, q - k);
    }
  }

  lemma ModDouble(v: int, p: nat)
    requires p >= 1
    ensures 2 * ((v / 2) % p) + v % 2 == v % (2 * p)
  {
    var q, e := v / 2, v % 2;
    var k, m := q / p, q % p;
    assert v == (2 * p) * k + (2 * m + e);
    ModUnique(v, 2 * p, k, 2 * m + e);
  }

  /** `v & ((1 << w) - 1)` is v modulo 2^w, for negative v too. */
  lemma {:induction false} MaskIsMod(v: int, w: nat)
    ensures BitAnd(v, Mask(w)) == v % Pow(2, w)
    decreases Size(v)
  {
    if v == 0 {
    } else if v == -1 {
      ModUnique(-1, Pow(2, w), -1, Pow(2, w) - 1);
    } else if w == 0 {
      MaskIsMod(v / 2, 0);
    } else {
      HalfOf(Mask(w - 1), 1);
      MaskIsMod(v / 2, w - 1);
      ModDouble(v, Pow(2, w - 1));
    }
  }

  /** The stored value as the displays show it: its low w bits. */
  function Masked(v: int, w: nat): (m: nat)
    ensures m < Pow(2, w) && m == v % Pow(2, w)
  {
    MaskIsMod(v, w);
    BitAnd(v, Mask(w))
  }

  /** Adding a multiple of the modulus does not change the remainder. */
  lemma ModShift(v: int, p: nat, k: int)
    requires p >= 1
    ensures (v + p * k) % p == v % p
  {
    ModUnique(v + p * k, p, v / p + k, v % p);
  }

  /** NOT applied twice under the same mask gives back the masked original. */
  lemma NotTwice(v: int, w: nat)
    ensures BitAnd(BitNot(BitAnd(BitNot(v), Mask(w))), Mask(w)) == Masked(v, w)
  {
    var p := Pow(2, w);
    var m := Masked(BitNot(v), w);
    var k := BitNot(v) / p;
    assert BitNot(v) == p * k + m;
    MaskIsMod(BitNot(m), w);
    ModShift(v, p, k);
  }

  lemma SmallMod(x: nat, p: nat)
    requires x < p
    ensures x % p == x
  {
    ModUnique(x, p, 0, x);
  }

  lemma ProductDiv(v: int, p: nat)
    requires p >= 1
    ensures (v * p) / p == v
  {
    ModUnique(v * p, p, v, 0);
  }

  /** Shifting a value that fits left then right again gives it back. */
  lemma ShiftRoundTrip(v: nat, n: nat, w: nat)
    requires ShiftLeft(v, n) < Pow(2, w)
    ensures ShiftRight(Masked(ShiftLeft(v, n), w), n) == v
  {
    SmallMod(ShiftLeft(v, n), Pow(2, w));
    ProductDiv(v, Pow(2, n));
  }

  /** A right shift of a non-negative value never grows it and never goes negative. */
  lemma ShiftRightShrinks(v: nat, n: nat)
    ensures 0 <= ShiftRight(v, n) <= v
  {
    var p := Pow(2, n);
    if v / p > v {
      assert (v / p) * p >= v / p;
      DivMod(v, p);
    }
  }
}
