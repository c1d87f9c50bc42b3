/** Bytes and the bitwise operators of the QR encoder, on non-negative integers. Every value that
    client/js/qr.js combines with `^` or `|` fits in 32 bits, so no operation here wraps around. */
module Bytes {

  type Byte = x: int | 0 <= x < 0x100

  function Pow2(n: nat): (r: nat)
    ensures r >= 1
  {
    if n == 0 then 1 else 2 * Pow2(n - 1)
  }

  /** `x >>> i`, as i halvings. */
  function Shr(x: nat, i: nat): nat
    decreases i
  {
    if i == 0 then x else Shr(x / 2, i - 1)
  }

  /** Bit i of x: `((x >>> i) & 1) !== 0` (client/js/qr.js:336-338). */
  predicate Bit(x: nat, i: nat) {
    Shr(x, i) % 2 == 1
  }

  /** The last halving may as well be done last. */
  lemma {:induction false} ShrLast(x: nat, i: nat)
    ensures Shr(x, i + 1) == Shr(x, i) / 2
    decreases i
  {
    if i > 0 { ShrLast(x / 2, i - 1); }
  }

  lemma {:induction false} ShrBound(x: nat, i: nat)
    requires x < Pow2(i)
    ensures Shr(x, i) == 0
    decreases i
  {
    if i > 0 { ShrBound(x / 2, i - 1); }
  }

  function BitValue(b: bool): nat {
    if b then 1 else 0
  }

  /** Bitwise exclusive or. */
  function Xor(a: nat, b: nat): nat
    decreases a + b
  {
    if a == 0 && b == 0 then 0
    else 2 * Xor(a / 2, b / 2) + BitValue(a % 2 != b % 2)
  }

  lemma XorUnfold(a: nat, b: nat)
    ensures Xor(a, b) == 2 * Xor(a / 2, b / 2) + BitValue(a % 2 != b % 2)
  {}

  lemma OrUnfold(a: nat, b: nat)
    ensures Or(a, b) == 2 * Or(a / 2, b / 2) + BitValue(a % 2 == 1 || b % 2 == 1)
  {}

  /** Halving a number whose leading bit is bit n. */
  lemma HalveTop(a: nat, n: nat)
    requires n > 0
    ensures (Pow2(n) + a) / 2 == Pow2(n - 1) + a / 2 && (Pow2(n) + a) % 2 == a % 2
  {
    assert Pow2(n) == 2 * Pow2(n - 1);
  }

  lemma {:induction false} XorComm(a: nat, b: nat)
    ensures Xor(a, b) == Xor(b, a)
    decreases a + b
  {
    if a != 0 || b != 0 { XorComm(a / 2, b / 2); }
  }

  lemma {:induction false} XorAssoc(a: nat, b: nat, c: nat)
    ensures Xor(Xor(a, b), c) == Xor(a, Xor(b, c))
    decreases a + b + c
  {
    if a != 0 || b != 0 || c != 0 { XorAssoc(a / 2, b / 2, c / 2); }
  }

  lemma {:induction false} XorSelf(a: nat)
    ensures Xor(a, a) == 0
  {
    if a != 0 { XorSelf(a / 2); }
  }

  lemma {:induction false} XorZero(a: nat)
    ensures Xor(a, 0) == a && Xor(0, a) == a
  {
    if a != 0 { XorZero(a / 2); }
  }

  lemma {:induction false} ShlZero(m: nat)
    ensures Shl(0, m) == 0
  {
    if m > 0 { ShlZero(m - 1); }
  }

  lemma XorTwice(x: nat, y: nat)
    ensures Xor(2 * x, 2 * y) == 2 * Xor(x, y)
  {}

  /** x ^ (x ^ y) is y again. */
  lemma XorCancel(x: nat, y: nat)
    ensures Xor(x, Xor(x, y)) == y
  {
    XorAssoc(x, x, y);
    XorSelf(x);
    XorZero(y);
  }

  /** (a ^ b) ^ (c ^ d) regrouped as (a ^ c) ^ (b ^ d). */
  lemma XorSwap(a: nat, b: nat, c: nat, d: nat)
    ensures Xor(Xor(a, b), Xor(c, d)) == Xor(Xor(a, c), Xor(b, d))
  {
    XorAssoc(a, b, Xor(c, d));
    XorAssoc(b, c, d);
    XorComm(b, c);
    XorAssoc(c, b, d);
    XorAssoc(a, c, Xor(b, d));
  }

  /** Exclusive or never sets a bit that both operands lack. */
  lemma {:induction false} XorBound(a: nat, b: nat, n: nat)
    requires a < Pow2(n) && b < Pow2(n)
    ensures Xor(a, b) < Pow2(n)
    decreases n
  {
    if n > 0 && (a != 0 || b != 0) { XorBound(a / 2, b / 2, n - 1); }
  }

  /** Two operands that share their leading bit cancel it ... */
  lemma {:induction false} XorBothTop(a: nat, b: nat, n: nat)
    requires a < Pow2(n) && b < Pow2(n)
    ensures Xor(Pow2(n) + a, Pow2(n) + b) == Xor(a, b)
    decreases n
  {
    if n > 0 {
      HalveTop(a, n);
      HalveTop(b, n);
      XorUnfold(Pow2(n) + a, Pow2(n) + b);
      XorUnfold(a, b);
      XorBothTop(a / 2, b / 2, n - 1);
    } else {
      XorSelf(1);
    }
  }

  /** ... and a leading bit that only one of them has survives. */
  lemma {:induction false} XorOneTop(a: nat, b: nat, n: nat)
    requires a < Pow2(n) && b < Pow2(n)
    ensures Xor(Pow2(n) + a, b) == Pow2(n) + Xor(a, b)
    decreases n
  {
    if n == 0 {
      XorZero(1);
    } else {
      HalveTop(a, n);
      XorUnfold(Pow2(n) + a, b);
      XorUnfold(a, b);
      XorOneTop(a / 2, b / 2, n - 1);
    }
  }

  lemma SmallPowers()
    ensures Pow2(4) == 16 && Pow2(7) == 128 && Pow2(8) == 256 && Pow2(9) == 512 && Pow2(16) == 0x10000
  {
    assert Pow2(4) == 16;
    assert Pow2(7) == 8 * Pow2(4);
    assert Pow2(12) == 32 * Pow2(7);
  }

  lemma ByteBound(a: nat, b: nat)
    requires a < 0x100 && b < 0x100
    ensures Xor(a, b) < 0x100
  {
    SmallPowers();
    XorBound(a, b, 8);
  }

  function XorByte(a: Byte, b: Byte): Byte {
    ByteBound(a, b);
    Xor(a, b)
  }

  /** Putting back the lowest bit of a number. */
  lemma XorLowBit(a: nat)
    ensures Xor(a % 2, 2 * (a / 2)) == a
  {
    XorUnfold(a % 2, 2 * (a / 2));
    assert a % 2 / 2 == 0 && 2 * (a / 2) / 2 == a / 2;
    XorZero(a / 2);
  }

  /** Bitwise or. */
  function Or(a: nat, b: nat): nat
    decreases a + b
  {
    if a == 0 && b == 0 then 0
    else 2 * Or(a / 2, b / 2) + BitValue(a % 2 == 1 || b % 2 == 1)
  }

  function Shl(x: nat, m: nat): nat
    decreases m
  {
    if m == 0 then x else 2 * Shl(x, m - 1)
  }

  lemma {:induction false} OrZero(a: nat)
    ensures Or(a, 0) == a
  {
    if a != 0 { OrZero(a / 2); }
  }

  lemma {:induction false} ShlBound(q: nat, k: nat, m: nat)
    requires q < Pow2(k)
    ensures Shl(q, m) < Pow2(k + m)
    decreases m
  {
    if m > 0 { ShlBound(q, k, m - 1); }
  }

  /** Or-ing into cleared low bits adds. */
  lemma {:induction false} OrAdds(x: nat, n: nat, low: nat)
    requires low < Pow2(n)
    ensures Or(Shl(x, n), low) == Shl(x, n) + low
    decreases n
  {
    if n == 0 {
      OrZero(x);
    } else {
      OrAdds(x, n - 1, low / 2);
    }
  }
}
