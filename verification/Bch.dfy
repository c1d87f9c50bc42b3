/** The BCH check bits of the format and version areas (client/js/qr.js:133-137, 148-152). */
module Bch {
  import opened Bytes

  /** Multiplication of polynomials over GF(2), written as numbers. */
  function Product(q: nat, g: nat): nat
    decreases q
  {
    if q == 0 then 0 else Xor(2 * Product(q / 2, g), BitValue(q % 2 == 1) * g)
  }

  /** One step of the division register of the given degree: `(rem << 1) ^ ((rem >>> (degree - 1)) * g)`. */
  function Step(rem: nat, degree: nat, g: nat): nat
    requires degree > 0
  {
    Xor(2 * rem, Shr(rem, degree - 1) * g)
  }

  function Steps(rem: nat, degree: nat, g: nat, n: nat): nat
    requires degree > 0
  {
    if n == 0 then rem else Step(Steps(rem, degree, g, n - 1), degree, g)
  }

  /** data followed by its check bits. */
  function Code(data: nat, degree: nat, g: nat): nat
    requires degree > 0
  {
    Or(Shl(data, degree), Steps(data, degree, g, degree))
  }

  method Encode(data: nat, degree: nat, g: nat) returns (bits: nat)
    requires degree > 0
    ensures bits == Code(data, degree, g)
  {
    var rem := data;
    for i := 0 to degree
      invariant rem == Steps(data, degree, g, i)
    {
      rem := Xor(2 * rem, Shr(rem, degree - 1) * g);
    }
    bits := Or(Shl(data, degree), rem);
  }

  /** A generator of this degree: its leading bit is bit `degree`. */
  predicate IsGenerator(g: nat, degree: nat) {
    degree > 0 && Pow2(degree) <= g < Pow2(degree + 1)
  }

  lemma {:induction false} StepsBound(data: nat, degree: nat, g: nat, n: nat)
    requires IsGenerator(g, degree) && data < Pow2(degree)
    ensures Steps(data, degree, g, n) < Pow2(degree)
  {
    if n > 0 {
      StepsBound(data, degree, g, n - 1);
      StepBound(Steps(data, degree, g, n - 1), degree, g);
    }
  }

  lemma TopBit(rem: nat, degree: nat)
    requires degree > 0 && rem < Pow2(degree)
    ensures Shr(rem, degree - 1) == if rem < Pow2(degree - 1) then 0 else 1
  {
    ShrTop(rem, degree - 1);
  }

  lemma {:induction false} ShrTop(x: nat, i: nat)
    requires x < 2 * Pow2(i)
    ensures Shr(x, i) == if x < Pow2(i) then 0 else 1
    decreases i
  {
    if i > 0 { ShrTop(x / 2, i - 1); }
  }

  lemma StepBound(rem: nat, degree: nat, g: nat)
    requires IsGenerator(g, degree) && rem < Pow2(degree)
    ensures Step(rem, degree, g) < Pow2(degree)
  {
    TopBit(rem, degree);
    if rem < Pow2(degree - 1) {
      XorZero(2 * rem);
    } else {
      var a, b := 2 * rem - Pow2(degree), g - Pow2(degree);
      XorBothTop(a, b, degree);
      XorBound(a, b, degree);
    }
  }

  /** The bits the register shifts out, as a number: the quotient of the division. */
  function Quotient(data: nat, degree: nat, g: nat, n: nat): nat
    requires degree > 0
  {
    if n == 0 then 0
    else 2 * Quotient(data, degree, g, n - 1) + Shr(Steps(data, degree, g, n - 1), degree - 1)
  }

  lemma {:induction false} Division(data: nat, degree: nat, g: nat, n: nat)
    requires IsGenerator(g, degree) && data < Pow2(degree)
    ensures Xor(Shl(data, n), Steps(data, degree, g, n)) == Product(Quotient(data, degree, g, n), g)
  {
    if n == 0 {
      XorSelf(data);
    } else {
      var rem, q := Steps(data, degree, g, n - 1), Quotient(data, degree, g, n - 1);
      var t := Shr(rem, degree - 1);
      Division(data, degree, g, n - 1);
      StepsBound(data, degree, g, n - 1);
      TopBit(rem, degree);
      XorTwice(Shl(data, n - 1), rem);
      XorAssoc(2 * Shl(data, n - 1), 2 * rem, t * g);
      ProductNext(q, t, g);
    }
  }

  lemma ProductNext(q: nat, t: nat, g: nat)
    requires t < 2
    ensures Product(2 * q + t, g) == Xor(2 * Product(q, g), t * g)
  {
    if q == 0 && t == 0 { assert t * g == 0; }
  }

  /** Over disjoint bits, or is exclusive or. */
  lemma {:induction false} OrShl(data: nat, n: nat, rem: nat)
    requires rem < Pow2(n)
    ensures Or(Shl(data, n), rem) == Xor(Shl(data, n), rem)
    ensures Shr(Or(Shl(data, n), rem), n) == data
    decreases n
  {
    if n == 0 {
      OrZero(data);
      XorZero(data);
    } else {
      OrShl(data, n - 1, rem / 2);
    }
  }

  /** The bits drawn are a multiple of the generator, led by the data itself. */
  lemma CodeIsMultiple(data: nat, degree: nat, g: nat)
    requires IsGenerator(g, degree) && data < Pow2(degree)
    ensures Code(data, degree, g) == Product(Quotient(data, degree, g, degree), g)
    ensures Shr(Code(data, degree, g), degree) == data
  {
    Division(data, degree, g, degree);
    StepsBound(data, degree, g, degree);
    OrShl(data, degree, Steps(data, degree, g, degree));
  }

  lemma {:induction false} ShrXor(a: nat, b: nat, n: nat)
    ensures Shr(Xor(a, b), n) == Xor(Shr(a, n), Shr(b, n))
    decreases n
  {
    if n > 0 { ShrXor(a / 2, b / 2, n - 1); }
  }

  lemma {:induction false} BitOfShr(x: nat, n: nat, i: nat)
    ensures Bit(Shr(x, n), i) == Bit(x, n + i)
    decreases n
  {
    if n > 0 { BitOfShr(x / 2, n - 1, i); }
  }

  // ---- The smallest codes ----

  lemma {:induction false} StepsOfZero(degree: nat, g: nat, n: nat)
    requires degree > 0
    ensures Steps(0, degree, g, n) == 0
  {
    if n > 0 {
      StepsOfZero(degree, g, n - 1);
      ShrOfZero(degree - 1);
      XorSelf(0);
    }
  }

  lemma {:induction false} ShrOfZero(i: nat)
    ensures Shr(0, i) == 0
  {
    if i > 0 { ShrOfZero(i - 1); }
  }

  lemma CodeOfZero(degree: nat, g: nat)
    requires degree > 0
    ensures Code(0, degree, g) == 0
  {
    var zero := 0;
    StepsOfZero(degree, g, degree);
    OrShl(zero, degree, zero);
    ShlZero(degree);
    XorSelf(zero);
  }

  /** A one is shifted up until the generator is subtracted. */
  lemma {:induction false} StepsOfOne(degree: nat, g: nat, n: nat)
    requires IsGenerator(g, degree) && n < degree
    ensures Steps(1, degree, g, n) == Pow2(n)
  {
    if n > 0 {
      StepsOfOne(degree, g, n - 1);
      PowBelow(n - 1, degree - 1);
      ShrBound(Pow2(n - 1), degree - 1);
      XorZero(2 * Pow2(n - 1));
    }
  }

  lemma {:induction false} PowBelow(m: nat, n: nat)
    requires m < n
    ensures Pow2(m) < Pow2(n)
    decreases n
  {
    if m < n - 1 { PowBelow(m, n - 1); }
  }

  lemma {:induction false} ShlOne(n: nat)
    ensures Shl(1, n) == Pow2(n)
  {
    if n > 0 { ShlOne(n - 1); }
  }

  /** The code of 1 is the generator. */
  lemma CodeOfOne(degree: nat, g: nat)
    requires IsGenerator(g, degree)
    ensures Code(1, degree, g) == g
  {
    var top, all, one := Pow2(degree - 1), Pow2(degree), 1;
    StepsOfOne(degree, g, degree - 1);
    TopBit(top, degree);
    assert Steps(one, degree, g, degree) == Xor(all, g);
    StepsBound(one, degree, g, degree);
    OrShl(one, degree, Xor(all, g));
    ShlOne(degree);
    XorCancel(all, g);
  }
}
