/** The powers of 2 in GF(2^8): the first 255 of them are the elements other than 0. Products of
    given elements are computed on their bits. */
module Powers {
  import opened Bytes
  import opened Gf256
  import opened ReedSolomon

  // ---- Elements as bits ----

  datatype Bits = Bits(b0: bool, b1: bool, b2: bool, b3: bool, b4: bool, b5: bool, b6: bool, b7: bool)

  function Cons(b: bool, n: nat): nat { BitValue(b) + 2 * n }

  function Four(p0: bool, p1: bool, p2: bool, p3: bool, u: nat): nat {
    Cons(p0, Cons(p1, Cons(p2, Cons(p3, u))))
  }

  function High(x: Bits): nat {
    Four(x.b4, x.b5, x.b6, x.b7, 0)
  }

  function Value(x: Bits): (v: Byte) {
    FourBound(x.b4, x.b5, x.b6, x.b7, 0);
    FourBound(x.b0, x.b1, x.b2, x.b3, High(x));
    Four(x.b0, x.b1, x.b2, x.b3, High(x))
  }

  function Plus(x: Bits, y: Bits): Bits {
    Bits(x.b0 != y.b0, x.b1 != y.b1, x.b2 != y.b2, x.b3 != y.b3,
         x.b4 != y.b4, x.b5 != y.b5, x.b6 != y.b6, x.b7 != y.b7)
  }

  function Twice(x: Bits): Bits {
    Bits(x.b7, x.b0, x.b1 != x.b7, x.b2 != x.b7, x.b3 != x.b7, x.b4, x.b5, x.b6)
  }

  const ZERO := Bits(false, false, false, false, false, false, false, false)

  function Round(x: Bits, b: bool, z: Bits): Bits {
    if b then Plus(x, Twice(z)) else Twice(z)
  }

  function FourRounds(x: Bits, b0: bool, b1: bool, b2: bool, b3: bool, z: Bits): Bits {
    Round(x, b0, Round(x, b1, Round(x, b2, Round(x, b3, z))))
  }

  function Times(x: Bits, y: Bits): Bits {
    FourRounds(x, y.b0, y.b1, y.b2, y.b3, FourRounds(x, y.b4, y.b5, y.b6, y.b7, ZERO))
  }

  lemma ConsParts(b: bool, n: nat)
    ensures Cons(b, n) / 2 == n && Cons(b, n) % 2 == BitValue(b)
  {}

  lemma XorCons(p: bool, u: nat, q: bool, v: nat)
    ensures Xor(Cons(p, u), Cons(q, v)) == Cons(p != q, Xor(u, v))
  {
    ConsParts(p, u);
    ConsParts(q, v);
    XorParts(Cons(p, u), Cons(q, v), u, v, p, q);
  }

  lemma XorParts(a: nat, b: nat, u: nat, v: nat, p: bool, q: bool)
    requires a / 2 == u && b / 2 == v && a % 2 == BitValue(p) && b % 2 == BitValue(q)
    ensures Xor(a, b) == 2 * Xor(u, v) + BitValue(p != q)
  {
    XorUnfold(a, b);
  }

  lemma XorTwo(p0: bool, p1: bool, u: nat, q0: bool, q1: bool, v: nat)
    ensures Xor(Cons(p0, Cons(p1, u)), Cons(q0, Cons(q1, v))) == Cons(p0 != q0, Cons(p1 != q1, Xor(u, v)))
  {
    XorCons(p0, Cons(p1, u), q0, Cons(q1, v));
    XorCons(p1, u, q1, v);
  }

  lemma XorFour(p0: bool, p1: bool, p2: bool, p3: bool, u: nat, q0: bool, q1: bool, q2: bool, q3: bool, v: nat)
    ensures Xor(Four(p0, p1, p2, p3, u), Four(q0, q1, q2, q3, v))
         == Four(p0 != q0, p1 != q1, p2 != q2, p3 != q3, Xor(u, v))
  {
    XorTwo(p0, p1, Cons(p2, Cons(p3, u)), q0, q1, Cons(q2, Cons(q3, v)));
    XorTwo(p2, p3, u, q2, q3, v);
  }

  lemma HighPlus(x: Bits, y: Bits)
    ensures Xor(High(x), High(y)) == High(Plus(x, y))
  {
    XorFour(x.b4, x.b5, x.b6, x.b7, 0, y.b4, y.b5, y.b6, y.b7, 0);
    XorZero(0);
  }

  lemma ValuePlus(x: Bits, y: Bits)
    ensures XorByte(Value(x), Value(y)) == Value(Plus(x, y))
  {
    HighPlus(x, y);
    XorFour(x.b0, x.b1, x.b2, x.b3, High(x), y.b0, y.b1, y.b2, y.b3, High(y));
  }

  lemma FourBound(p0: bool, p1: bool, p2: bool, p3: bool, u: nat)
    ensures 16 * u <= Four(p0, p1, p2, p3, u) < 16 * (u + 1)
  {}

  /** The value without the top bit. */
  function Low(x: Bits): nat {
    Four(x.b0, x.b1, x.b2, x.b3, Cons(x.b4, Cons(x.b5, Cons(x.b6, 0))))
  }

  lemma TopBit(x: Bits)
    ensures Value(x) == Low(x) + (if x.b7 then 128 else 0) && Low(x) < 128
  {
    FourBound(x.b0, x.b1, x.b2, x.b3, Cons(x.b4, Cons(x.b5, Cons(x.b6, 0))));
    TopFour(x.b4, x.b5, x.b6, x.b7);
    TopEight(x.b0, x.b1, x.b2, x.b3, Cons(x.b4, Cons(x.b5, Cons(x.b6, 0))), if x.b7 then 8 else 0);
  }

  lemma UpValue(x: Bits)
    ensures Value(Up(x)) == 2 * Low(x)
  {
    Fours(x.b0, x.b1, x.b2, x.b3, x.b4, x.b5, x.b6);
  }

  lemma Fours(p0: bool, p1: bool, p2: bool, p3: bool, p4: bool, p5: bool, p6: bool)
    ensures Four(false, p0, p1, p2, Four(p3, p4, p5, p6, 0))
         == Cons(false, Four(p0, p1, p2, p3, Cons(p4, Cons(p5, Cons(p6, 0)))))
  {}

  lemma TopFour(p0: bool, p1: bool, p2: bool, p3: bool)
    ensures Four(p0, p1, p2, p3, 0) == Cons(p0, Cons(p1, Cons(p2, 0))) + if p3 then 8 else 0
  {}

  lemma TopEight(p0: bool, p1: bool, p2: bool, p3: bool, u: nat, v: nat)
    ensures Four(p0, p1, p2, p3, u + v) == Four(p0, p1, p2, p3, u) + 16 * v
  {}

  /** Shifted left, without the top bit. */
  function Up(x: Bits): Bits {
    Bits(false, x.b0, x.b1, x.b2, x.b3, x.b4, x.b5, x.b6)
  }

  const MODULUS_LOW := Bits(true, false, true, true, true, false, false, false)

  lemma ModulusValue()
    ensures Value(MODULUS_LOW) == 0x1d
  {}

  lemma DoubleOf(v: Byte, low: nat, top: bool)
    requires v == low + (if top then 128 else 0) && low < 128
    ensures Double(v) == if top then Xor(2 * low, 0x1d) else 2 * low
  {
    if top { DoubleBound(v); }
  }

  lemma TwiceOf(x: Bits)
    ensures Twice(x) == if x.b7 then Plus(Up(x), MODULUS_LOW) else Up(x)
  {}

  lemma ValueTwice(x: Bits)
    ensures Double(Value(x)) == Value(Twice(x))
  {
    TopBit(x);
    UpValue(x);
    TwiceOf(x);
    var v, up, m := Value(x), Up(x), MODULUS_LOW;
    DoubleOf(v, Low(x), x.b7);
    if x.b7 {
      ValuePlus(up, m);
      ModulusValue();
    }
  }

  lemma MulCons(x: Byte, b: bool, u: nat)
    ensures Mul(x, Cons(b, u)) == XorByte(if b then x else 0, Double(Mul(x, u)))
  {
    ConsParts(b, u);
    MulParts(x, Cons(b, u), b, u);
  }

  lemma MulParts(x: Byte, y: nat, b: bool, u: nat)
    requires y / 2 == u && y % 2 == BitValue(b)
    ensures Mul(x, y) == XorByte(if b then x else 0, Double(Mul(x, u)))
  {
    MulUnfold(x, y);
  }

  lemma RoundValue(x: Bits, b: bool, u: nat, z: Bits)
    requires Mul(Value(x), u) == Value(z)
    ensures Mul(Value(x), Cons(b, u)) == Value(Round(x, b, z))
  {
    MulCons(Value(x), b, u);
    ValueTwice(z);
    ValuePlus(x, Twice(z));
    XorZero(Value(Twice(z)));
  }

  lemma FourRoundsValue(x: Bits, b0: bool, b1: bool, b2: bool, b3: bool, u: nat, z: Bits)
    requires Mul(Value(x), u) == Value(z)
    ensures Mul(Value(x), Four(b0, b1, b2, b3, u)) == Value(FourRounds(x, b0, b1, b2, b3, z))
  {
    var z3 := Round(x, b3, z);
    var z2 := Round(x, b2, z3);
    RoundValue(x, b3, u, z);
    RoundValue(x, b2, Cons(b3, u), z3);
    RoundValue(x, b1, Cons(b2, Cons(b3, u)), z2);
    RoundValue(x, b0, Cons(b1, Cons(b2, Cons(b3, u))), Round(x, b1, z2));
  }

  /** The product, computed on bits. */
  lemma ValueTimes(x: Bits, y: Bits)
    ensures Mul(Value(x), Value(y)) == Value(Times(x, y))
  {
    var z := FourRounds(x, y.b4, y.b5, y.b6, y.b7, ZERO);
    ZeroValue();
    FourRoundsValue(x, y.b4, y.b5, y.b6, y.b7, 0, ZERO);
    FourRoundsValue(x, y.b0, y.b1, y.b2, y.b3, High(y), z);
  }

  lemma ZeroValue()
    ensures Value(ZERO) == 0
  {}

  // ---- The order of 2 ----

  lemma {:induction false} PowSum(a: Byte, m: nat, n: nat)
    ensures Pow(a, m + n) == Mul(Pow(a, m), Pow(a, n))
  {
    if n == 0 {
      MulOne(Pow(a, m));
    } else {
      PowSum(a, m, n - 1);
      MulAssociates(Pow(a, m), Pow(a, n - 1), a);
    }
  }

  lemma PowTimes(a: Byte, m: nat, n: nat, x: Bits, y: Bits, z: Bits)
    requires Pow(a, m) == Value(x) && Pow(a, n) == Value(y) && Times(x, y) == z
    ensures Pow(a, m + n) == Value(z)
  {
    PowSum(a, m, n);
    ValueTimes(x, y);
  }

  const POWER_1 := Bits(false, true, false, false, false, false, false, false)
  const POWER_2 := Bits(false, false, true, false, false, false, false, false)
  const POWER_4 := Bits(false, false, false, false, true, false, false, false)
  const POWER_8 := Bits(true, false, true, true, true, false, false, false)
  const POWER_16 := Bits(false, false, true, true, false, false, true, false)
  const POWER_17 := Bits(false, false, false, true, true, false, false, true)
  const POWER_34 := Bits(false, true, true, true, false, false, true, false)
  const POWER_51 := Bits(false, true, false, true, false, false, false, false)
  const POWER_85 := Bits(false, true, true, false, true, false, true, true)
  const POWER_102 := Bits(false, false, true, false, false, false, true, false)
  const POWER_204 := Bits(true, false, true, true, true, false, true, true)
  const POWER_255 := Bits(true, false, false, false, false, false, false, false)

  lemma FirstPower(a: Byte, k: nat)
    requires a == ALPHA && k == 1
    ensures Pow(a, k) == Value(POWER_1)
  {
    MulOne(a);
    assert Pow(a, k) == Mul(Pow(a, 0), a);
    AlphaValue();
  }

  lemma AlphaValue()
    ensures Value(POWER_1) == ALPHA
  {}

  lemma FirstPowers(a: Byte, k: nat)
    requires a == ALPHA && k == 1
    ensures Pow(a, 16 * k) == Value(POWER_16) && Pow(a, 17 * k) == Value(POWER_17)
  {
    FirstPower(a, k);
    PowTimes(a, k, k, POWER_1, POWER_1, POWER_2);
    PowTimes(a, 2 * k, 2 * k, POWER_2, POWER_2, POWER_4);
    PowTimes(a, 4 * k, 4 * k, POWER_4, POWER_4, POWER_8);
    PowTimes(a, 8 * k, 8 * k, POWER_8, POWER_8, POWER_16);
    PowTimes(a, 16 * k, k, POWER_16, POWER_1, POWER_17);
  }

  lemma MiddlePowers(a: Byte, k: nat)
    requires Pow(a, 17 * k) == Value(POWER_17)
    ensures Pow(a, 51 * k) == Value(POWER_51) && Pow(a, 85 * k) == Value(POWER_85)
  {
    PowTimes(a, 17 * k, 17 * k, POWER_17, POWER_17, POWER_34);
    PowTimes(a, 34 * k, 17 * k, POWER_34, POWER_17, POWER_51);
    PowTimes(a, 51 * k, 34 * k, POWER_51, POWER_34, POWER_85);
  }

  lemma LastPower(a: Byte, k: nat)
    requires Pow(a, 51 * k) == Value(POWER_51)
    ensures Pow(a, 255 * k) == Value(POWER_255)
  {
    PowTimes(a, 51 * k, 51 * k, POWER_51, POWER_51, POWER_102);
    PowTimes(a, 102 * k, 102 * k, POWER_102, POWER_102, POWER_204);
    PowTimes(a, 204 * k, 51 * k, POWER_204, POWER_51, POWER_255);
  }

  lemma Values()
    ensures Value(POWER_255) == 1 && Value(POWER_51) != 1 && Value(POWER_85) != 1 && Value(POWER_16) != Value(POWER_1)
  {}

  const ORDER: nat := 255

  /** The order of 2 divides 255, but none of 15, 51 and 85. */
  lemma Orders(a: Byte, n: nat)
    requires a == ALPHA
    ensures n == ORDER ==> Pow(a, n) == 1
    ensures n == 15 || n == 51 || n == 85 ==> Pow(a, n) != 1
  {
    var k: nat := 1;
    FirstPower(a, k);
    FirstPowers(a, k);
    MiddlePowers(a, k);
    LastPower(a, k);
    Values();
    assert n == 51 ==> n == 51 * k;
    assert n == 85 ==> n == 85 * k;
    assert n == ORDER ==> n == 255 * k;
    if n == 15 {
      assert n + k == 16 * k;
      PowSum(a, n, k);
      MulOne(Pow(a, k));
    }
  }

  lemma {:induction false} PowOfOne(a: Byte, m: nat, q: nat)
    requires Pow(a, m) == 1
    ensures Pow(a, q * m) == 1
  {
    if q > 0 {
      PowOfOne(a, m, q - 1);
      PowSum(a, (q - 1) * m, m);
      MulOne(1);
      assert (q - 1) * m + m == q * m;
    }
  }

  /** The least positive exponent at which the power is 1 again. */
  ghost predicate IsPeriod(a: Byte, m: nat) {
    m > 0 && Pow(a, m) == 1 && forall k :: 0 < k < m ==> Pow(a, k) != 1
  }

  lemma {:induction false} PeriodUpTo(a: Byte, n: nat) returns (m: nat)
    requires n > 0 && Pow(a, n) == 1
    ensures IsPeriod(a, m) && m <= n
  {
    if k :| 0 < k < n && Pow(a, k) == 1 {
      m := PeriodUpTo(a, k);
    } else {
      m := n;
    }
  }

  lemma PowRest(a: Byte, m: nat, q: nat, r: nat)
    requires Pow(a, m) == 1
    ensures Pow(a, q * m + r) == Pow(a, r)
  {
    PowOfOne(a, m, q);
    PowSum(a, q * m, r);
    MulOne(Pow(a, r));
  }

  lemma PeriodDivides(a: Byte, m: nat, n: nat) returns (q: nat)
    requires IsPeriod(a, m) && Pow(a, n) == 1
    ensures n == q * m
  {
    q := n / m;
    var r := n % m;
    Division(n, m);
    PowRest(a, m, q, r);
  }

  lemma Division(n: nat, m: nat)
    requires m > 0
    ensures n == (n / m) * m + n % m && n % m < m
  {}

  lemma Divisors(q: nat, m: nat)
    requires q * m == ORDER && q > 1
    ensures q % 3 == 0 || q % 5 == 0 || q % 17 == 0
  {
    if q <= 15 {
      match q { case 2 => case 3 => case 4 => case 5 => case 6 => case 7 => case 8 => case 9 => case 10 => case 11 =>
        case 12 => case 13 => case 14 => case _ => }
    } else {
      assert m <= 15 by { if m >= 16 { Product(q, m); } }
      match m { case 0 => case 1 => case 2 => case 3 => case 4 => case 5 => case 6 => case 7 => case 8 => case 9 =>
        case 10 => case 11 => case 12 => case 13 => case 14 => case _ => }
    }
  }

  lemma Product(q: nat, m: nat)
    requires q >= 16 && m >= 16
    ensures q * m >= 256
  {
    assert q * m == 16 * m + (q - 16) * m;
  }

  lemma ProperDivisor(a: Byte, m: nat, q: nat) returns (n: nat)
    requires Pow(a, m) == 1 && q * m == ORDER && q > 1
    ensures Pow(a, n) == 1 && (n == 15 || n == 51 || n == 85)
  {
    Divisors(q, m);
    var p := if q % 3 == 0 then 3 else if q % 5 == 0 then 5 else 17;
    var t := q / p;
    assert q == p * t;
    Third(p, t, m);
    PowOfOne(a, m, t);
    n := t * m;
  }

  /** a has order 255: its power is 1 there, and at none of the largest proper divisors. */
  ghost predicate Full(a: Byte) {
    (forall n: nat :: n == ORDER ==> Pow(a, n) == 1) &&
    (forall n: nat :: n == 15 || n == 51 || n == 85 ==> Pow(a, n) != 1)
  }

  lemma AlphaIsFull(a: Byte)
    requires a == ALPHA
    ensures Full(a)
  {
    forall n: nat
      ensures n == ORDER ==> Pow(a, n) == 1
      ensures n == 15 || n == 51 || n == 85 ==> Pow(a, n) != 1
    {
      Orders(a, n);
    }
  }

  /** No smaller power is 1. */
  lemma NotOneBefore(a: Byte, k: nat, n: nat)
    requires Full(a) && 0 < k < n && n == ORDER
    ensures Pow(a, k) != 1
  {
    if Pow(a, k) == 1 {
      var m := PeriodUpTo(a, k);
      var q := PeriodDivides(a, m, n);
      var d := ProperDivisor(a, m, q);
    }
  }

  lemma Third(p: nat, t: nat, m: nat)
    requires (p * t) * m == ORDER && (p == 3 || p == 5 || p == 17)
    ensures t * m == 15 || t * m == 51 || t * m == 85
  {
    assert (p * t) * m == p * (t * m);
  }

  // ---- Every element but 0 is a power ----

  lemma PowersDistinct(a: Byte, i: nat, j: nat, n: nat)
    requires Full(a) && i < j < n && n == ORDER
    ensures Pow(a, i) != Pow(a, j)
  {
    if Pow(a, i) == Pow(a, j) {
      PowSum(a, n - i, i);
      PowSum(a, n - i, j);
      assert n - i + j == n + (j - i);
      PowSum(a, n, j - i);
      MulOne(Pow(a, j - i));
      NotOneBefore(a, j - i, n);
    }
  }

  lemma PowerNotZero(a: Byte, i: nat, n: nat)
    requires Full(a) && i < n && n == ORDER
    ensures Pow(a, i) != 0
  {
    PowSum(a, n - i, i);
    MulCommutes(Pow(a, n - i), 0);
    MulZero(Pow(a, n - i));
  }

  ghost function PowersBelow(a: Byte, k: nat): set<Byte> {
    set i: nat | i < k :: Pow(a, i)
  }

  lemma {:induction false} CountPowers(a: Byte, k: nat, n: nat)
    requires Full(a) && k <= n && n == ORDER
    ensures |PowersBelow(a, k)| == k
  {
    if k > 0 {
      CountPowers(a, k - 1, n);
      NewPower(a, k - 1, n);
    }
  }

  lemma NewPower(a: Byte, k: nat, n: nat)
    requires Full(a) && k < n && n == ORDER
    ensures |PowersBelow(a, k + 1)| == |PowersBelow(a, k)| + 1
  {
    var before, x := PowersBelow(a, k), Pow(a, k);
    forall i: nat | i < k ensures Pow(a, i) != x {
      PowersDistinct(a, i, k, n);
    }
    assert x !in before;
    assert PowersBelow(a, k + 1) == before + {x};
  }

  /** The elements 1 to k. */
  ghost function Elements(k: nat): set<Byte>
    requires k <= ORDER
  {
    if k == 0 then {} else Elements(k - 1) + {k}
  }

  lemma {:induction false} CountElements(k: nat)
    requires k <= ORDER
    ensures |Elements(k)| == k && forall x: Byte :: x in Elements(k) <==> 0 < x <= k
  {
    if k > 0 { CountElements(k - 1); }
  }

  lemma SameSize(s: set<Byte>, t: set<Byte>)
    requires s <= t && |s| == |t|
    ensures s == t
  {
    assert t == s + (t - s);
  }

  lemma ElementIsPower(a: Byte, x: Byte, n: nat) returns (i: nat)
    requires Full(a) && x != 0 && n == ORDER
    ensures i < n && Pow(a, i) == x
  {
    CountElements(n);
    forall i: nat | i < n ensures Pow(a, i) in Elements(n) {
      PowerNotZero(a, i, n);
    }
    CountPowers(a, n, n);
    SameSize(PowersBelow(a, n), Elements(n));
    assert x in Elements(n);
    i :| i < n && Pow(a, i) == x;
  }

  /** The field has no zero divisors. */
  lemma NoZeroDivisors(x: Byte, y: Byte)
    requires Mul(x, y) == 0
    ensures x == 0 || y == 0
  {
    if y != 0 {
      var a, n := ALPHA, ORDER;
      AlphaIsFull(a);
      var z := Inverse(a, y, n);
      MulAssociates(x, y, z);
      MulOne(x);
      MulZero(z);
    }
  }

  lemma Inverse(a: Byte, y: Byte, n: nat) returns (z: Byte)
    requires Full(a) && y != 0 && n == ORDER
    ensures Mul(y, z) == 1
  {
    var i := ElementIsPower(a, y, n);
    PowSum(a, i, n - i);
    z := Pow(a, n - i);
  }
}
