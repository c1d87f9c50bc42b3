/** The field GF(2^8) modulo x^8 + x^4 + x^3 + x^2 + 1 (MODULUS), over which the Reed-Solomon code
    of a QR symbol is computed (client/js/qr.js:68-75). Its addition is exclusive or. */
module Gf256 {
  import opened Bytes

  const MODULUS: nat := 0x11d
  const TOP: nat := 7

  /** One doubling step: shift left, and add the modulus when a ninth bit appears. */
  function Double(x: Byte): Byte {
    if x < 128 then 2 * x else DoubleBound(x); Xor(2 * x, MODULUS)
  }

  lemma DoubleBound(x: Byte)
    requires x >= 128
    ensures Xor(2 * x, MODULUS) == Xor(2 * x - 256, 0x1d) < 0x100
  {
    SmallPowers();
    XorBothTop(2 * x - 256, 0x1d, 8);
    ByteBound(2 * x - 256, 0x1d);
  }

  /** The product by Horner's rule on the bits of y. */
  function Mul(x: Byte, y: nat): Byte
    decreases y
  {
    if y == 0 then 0
    else XorByte(if y % 2 == 1 then x else 0, Double(Mul(x, y / 2)))
  }

  function Pow(a: Byte, n: nat): Byte {
    if n == 0 then 1 else Mul(Pow(a, n - 1), a)
  }

  lemma DoubleAdd(x: Byte, y: Byte)
    ensures Double(XorByte(x, y)) == XorByte(Double(x), Double(y))
  {
    HighBit(x, y);
    XorTwice(x, y);
    var u: nat, v: nat := 2 * x, 2 * y;
    if x >= 128 && y >= 128 {
      XorSwap(u, MODULUS, v, MODULUS);
      XorSelf(MODULUS);
      XorZero(Xor(u, v));
    } else if x >= 128 {
      XorAssoc(u, MODULUS, v);
      XorComm(MODULUS, v);
      XorAssoc(u, v, MODULUS);
    } else if y >= 128 {
      XorAssoc(u, v, MODULUS);
    }
  }

  /** A sum of two bytes has its eighth bit set when exactly one of them has. */
  lemma HighBit(x: Byte, y: Byte)
    ensures Xor(x, y) >= 128 <==> (x >= 128) != (y >= 128)
  {
    SmallPowers();
    if x >= 128 && y >= 128 {
      XorBothTop(x - 128, y - 128, 7);
      XorBound(x - 128, y - 128, 7);
    } else if x >= 128 {
      XorOneTop(x - 128, y, 7);
    } else if y >= 128 {
      XorOneTop(y - 128, x, 7);
      XorComm(x, y);
    } else {
      XorBound(x, y, 7);
    }
  }

  lemma HalfXor(x: nat, y: nat)
    ensures Xor(x, y) / 2 == Xor(x / 2, y / 2)
  {}

  /** Multiplication distributes over addition on the right ... */
  lemma {:induction false} MulAddRight(x: Byte, y: nat, z: nat)
    ensures Mul(x, Xor(y, z)) == XorByte(Mul(x, y), Mul(x, z))
    decreases y + z
  {
    if y != 0 || z != 0 {
      MulAddRight(x, y / 2, z / 2);
      var b: Byte, c: Byte := if y % 2 == 1 then x else 0, if z % 2 == 1 then x else 0;
      var p, q := Mul(x, y / 2), Mul(x, z / 2);
      DoubleAdd(p, q);
      MulUnfold(x, y);
      MulUnfold(x, z);
      XorSwap(b, Double(p), c, Double(q));
      MulUnfold(x, Xor(y, z));
      HalfXor(y, z);
      XorSelf(x);
      XorZero(x);
    }
  }

  lemma MulUnfold(x: Byte, y: nat)
    ensures Mul(x, y) == XorByte(if y % 2 == 1 then x else 0, Double(Mul(x, y / 2)))
  {}

  /** ... and on the left. */
  lemma {:induction false} MulAddLeft(x: Byte, y: Byte, z: nat)
    ensures Mul(XorByte(x, y), z) == XorByte(Mul(x, z), Mul(y, z))
    decreases z
  {
    if z != 0 {
      MulAddLeft(x, y, z / 2);
      var p, q := Mul(x, z / 2), Mul(y, z / 2);
      DoubleAdd(p, q);
      XorSwap(if z % 2 == 1 then x else 0, Double(p), if z % 2 == 1 then y else 0, Double(q));
    }
  }

  lemma {:induction false} MulDouble(x: Byte, y: nat)
    ensures Mul(Double(x), y) == Double(Mul(x, y))
    decreases y
  {
    if y != 0 {
      MulDouble(x, y / 2);
      DoubleAdd(if y % 2 == 1 then x else 0, Double(Mul(x, y / 2)));
    }
  }

  lemma {:induction false} MulZero(y: nat)
    ensures Mul(0, y) == 0
    decreases y
  {
    if y != 0 { MulZero(y / 2); }
  }

  /** 1 is neutral. */
  lemma {:induction false} MulOne(y: Byte)
    ensures Mul(1, y) == y && Mul(y, 1) == y
  {
    XorZero(y);
    MulUnfold(y, 1);
    assert Mul(y, 0) == 0;
    if y != 0 {
      MulOne(y / 2);
      XorLowBit(y);
    }
  }

  lemma {:induction false} MulCommutes(x: Byte, y: Byte)
    ensures Mul(x, y) == Mul(y, x)
    decreases x
  {
    if x == 0 {
      MulZero(y);
    } else {
      var low: Byte, half: Byte := x % 2, x / 2;
      MulCommutes(half, y);
      XorLowBit(x);
      MulAddLeft(low, Double(half), y);
      MulDouble(half, y);
      MulOne(y);
      MulZero(y);
    }
  }

  lemma {:induction false} MulAssociates(x: Byte, y: Byte, z: nat)
    ensures Mul(Mul(x, y), z) == Mul(x, Mul(y, z))
    decreases z
  {
    if z != 0 {
      var w := Mul(y, z / 2);
      MulAssociates(x, y, z / 2);
      MulAddRight(x, if z % 2 == 1 then y else 0, Double(w));
      MulCommutes(x, Double(w));
      MulDouble(w, x);
      MulCommutes(x, w);
    }
  }

  lemma ShiftReduce(z: Byte)
    ensures Shr(z, TOP) == if z < 128 then 0 else 1
    ensures Xor(2 * z, Shr(z, TOP) * MODULUS) == Double(z)
  {
    assert Shr(z, TOP) == Shr(z / 8, 4) == z / 128;
    XorZero(2 * z);
  }

  /** One round of the loop: if z is x times the bits of y above i, the next z takes bit i in. */
  lemma MultiplyRound(x: Byte, y: nat, i: nat, z: nat)
    requires z == Mul(x, Shr(y, i + 1))
    ensures Xor(Xor(2 * z, Shr(z, TOP) * MODULUS), BitValue(Bit(y, i)) * x) == Mul(x, Shr(y, i))
  {
    var bit := BitValue(Bit(y, i));
    ShrLast(y, i);
    ShiftReduce(z);
    XorComm(Double(z), bit * x);
    MulUnfold(x, Shr(y, i));
    if bit == 0 { assert bit * x == 0; } else { assert bit * x == x; }
  }

  /** Nothing of y lies above bit 7. */
  lemma NothingAbove(x: Byte, y: Byte, i: nat)
    requires i == TOP + 1
    ensures Mul(x, Shr(y, i)) == 0
  {
    SmallPowers();
    ShrBound(y, i);
  }

  /** The shift-and-xor loop computes the product. */
  method Multiply(x: Byte, y: Byte) returns (r: Byte)
    ensures r == Mul(x, y)
  {
    var z: Byte := 0;
    var i: int := TOP;
    NothingAbove(x, y, i + 1);
    while i >= 0
      invariant -1 <= i <= TOP
      invariant z == Mul(x, Shr(y, i + 1))
    {
      z := MultiplyStep(x, y, i, z);
      i := i - 1;
    }
    r := z;
  }

  /** The loop body. `z & 0xff` at the end of the loop changes nothing: z stays a byte. */
  method MultiplyStep(x: Byte, y: Byte, i: nat, z: Byte) returns (z': Byte)
    requires z == Mul(x, Shr(y, i + 1))
    ensures z' == Mul(x, Shr(y, i))
  {
    MultiplyRound(x, y, i, z);
    var shifted := Xor(2 * z, Shr(z, TOP) * MODULUS);
    z' := Xor(shifted, BitValue(Bit(y, i)) * x);
  }
}
