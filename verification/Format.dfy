/** The format and version areas (client/js/qr.js:133-160). */
module Format {
  import opened Bytes
  import opened Grids
  import opened Tables
  import opened Layout
  import Bch
  import Segment

  /** `ECC_FORMAT`. */
  function FormatOf(ecl: Ecc): nat {
    match ecl
    case Low => 1
    case Medium => 0
    case Quartile => 3
    case High => 2
  }

  function LevelOf(bits: nat): Ecc {
    if bits == 0 then Medium else if bits == 1 then Low else if bits == 2 then High else Quartile
  }

  const FORMAT_DEGREE: nat := 10
  const VERSION_DEGREE: nat := 12
  const FORMAT_GENERATOR: nat := 0x537
  const FORMAT_MASK: nat := 0x5412
  const VERSION_GENERATOR: nat := 0x1f25

  function FormatData(ecl: Ecc, msk: nat): nat {
    8 * FormatOf(ecl) + msk
  }

  /** The 15 format bits: 5 data bits and 10 check bits, under a fixed mask. */
  function FormatBits(ecl: Ecc, msk: nat): nat {
    Xor(Bch.Code(FormatData(ecl, msk), FORMAT_DEGREE, FORMAT_GENERATOR), FORMAT_MASK)
  }

  function VersionBits(ver: Version): nat {
    Bch.Code(ver, VERSION_DEGREE, VERSION_GENERATOR)
  }

  /** What `drawFormatBits` leaves at c: a format bit, the dark module, or what was there. */
  function WithFormat(g: Grid, n: nat, bits: nat): (r: Grid)
    requires Square(g, n)
    ensures Square(r, n)
    ensures forall c | In(c, n) :: At(r, n, c) == FormatModule(c, n, bits, At(g, n, c))
  {
    seq(n, y requires 0 <= y < n =>
      seq(n, x requires 0 <= x < n => FormatModule(Cell(x, y), n, bits, g[y][x])))
  }

  predicate FormatModule(c: Cell, n: nat, bits: nat, was: bool) {
    var i := FormatIndex(c, n);
    if i < 0 then was else if i == DARK_MODULE then true else Bit(bits, i)
  }

  // ---- Reading the format back ----

  /** The first five format bits, from the left of row 8. */
  function ReadFormat(g: Grid, n: nat): nat
    requires Square(g, n) && n >= 21
  {
    Xor(Segment.FromBits([g[8][0], g[8][1], g[8][2], g[8][3], g[8][4]]), Shr(FORMAT_MASK, FORMAT_DEGREE))
  }

  lemma FormatLead(ecl: Ecc, msk: nat)
    requires msk < 8
    ensures Shr(FormatBits(ecl, msk), FORMAT_DEGREE) == Xor(FormatData(ecl, msk), Shr(FORMAT_MASK, FORMAT_DEGREE)) < 32
  {
    var data := FormatData(ecl, msk);
    assert data < 32;
    FormatGenerator();
    FormatMaskLead();
    assert data < Pow2(FORMAT_DEGREE) by { assert Pow2(5) == 32; assert Pow2(FORMAT_DEGREE) == 32 * Pow2(5); }
    Bch.CodeIsMultiple(data, FORMAT_DEGREE, FORMAT_GENERATOR);
    Bch.ShrXor(Bch.Code(data, FORMAT_DEGREE, FORMAT_GENERATOR), FORMAT_MASK, FORMAT_DEGREE);
    assert Pow2(5) == 32;
    XorBound(data, Shr(FORMAT_MASK, FORMAT_DEGREE), 5);
  }

  lemma FormatGenerator()
    ensures Bch.IsGenerator(FORMAT_GENERATOR, FORMAT_DEGREE)
  {
    assert Pow2(5) == 32;
    assert Pow2(FORMAT_DEGREE) == 32 * Pow2(5);
  }

  lemma FormatMaskLead()
    ensures Shr(FORMAT_MASK, FORMAT_DEGREE) == 21
  {
    assert FORMAT_MASK / 32 == 672;
    assert Shr(FORMAT_MASK, FORMAT_DEGREE) == Shr(672, 5);
  }

  /** The mask and level can be read back from a symbol whose format area has been drawn. */
  lemma FormatReadBack(g: Grid, n: nat, ecl: Ecc, msk: nat)
    requires Square(g, n) && n >= 21 && msk < 8
    ensures ReadFormat(WithFormat(g, n, FormatBits(ecl, msk)), n) == FormatData(ecl, msk)
  {
    var bits := FormatBits(ecl, msk);
    var r, lead := WithFormat(g, n, bits), Shr(bits, FORMAT_DEGREE);
    FormatLead(ecl, msk);
    var read := [r[8][0], r[8][1], r[8][2], r[8][3], r[8][4]];
    forall k | 0 <= k < 5
      ensures read[k] == Segment.NatBits(lead, 5)[k]
    {
      assert FormatIndex(Cell(k, 8), n) == 14 - k;
      assert At(r, n, Cell(k, 8)) == Bit(bits, 14 - k);
      Bch.BitOfShr(bits, FORMAT_DEGREE, 4 - k);
      Segment.NatBitsAt(lead, 5, k);
    }
    assert read == Segment.NatBits(lead, 5);
    assert Pow2(5) == 32;
    Segment.FromNatBits(lead, 5);
    var data, m := FormatData(ecl, msk), Shr(FORMAT_MASK, FORMAT_DEGREE);
    XorComm(data, m);
    XorCancel(m, data);
    XorComm(m, Xor(m, data));
  }

  // ---- Where the format bits are, and which they are ----

  /** Bit k is drawn around the upper left finder, and again to the right of the lower left and below the
      upper right one. */
  lemma FormatCells(g: Grid, n: nat, bits: nat, k: nat)
    requires Square(g, n) && n >= 21 && k < 15
    ensures var r := WithFormat(g, n, bits);
         && (k <= 5 ==> At(r, n, Cell(8, k)) == Bit(bits, k))
         && (k == 6 ==> At(r, n, Cell(8, 7)) == Bit(bits, 6))
         && (k == 7 ==> At(r, n, Cell(8, 8)) == Bit(bits, 7))
         && (k == 8 ==> At(r, n, Cell(7, 8)) == Bit(bits, 8))
         && (k >= 9 ==> At(r, n, Cell(14 - k, 8)) == Bit(bits, k))
         && (k <= 7 ==> At(r, n, Cell(n - 1 - k, 8)) == Bit(bits, k))
         && (k >= 8 ==> At(r, n, Cell(8, n - 15 + k)) == Bit(bits, k))
         && At(r, n, Cell(8, n - 8))
  {}

  /** The two bits of a level, in front of the three of the mask. */
  lemma LevelNumbers(msk: nat)
    requires msk < 8
    ensures FormatData(Medium, msk) == msk && FormatData(Low, msk) == 8 + msk
    ensures FormatData(High, msk) == 16 + msk && FormatData(Quartile, msk) == 24 + msk
  {}

  /** The format bits of level M under mask 0 are the fixed mask, ... */
  lemma FirstFormatCode(msk: nat, mask: nat)
    requires msk == 0 && mask == 0x5412
    ensures FormatBits(Medium, msk) == mask
  {
    ZeroCode(FormatData(Medium, msk), FORMAT_DEGREE, FORMAT_GENERATOR, mask);
  }

  /** ... and under mask 1 the generator on top of it. */
  lemma SecondFormatCode(msk: nat, mask: nat, generator: nat)
    requires msk == 1 && mask == 0x5412 && generator == 0x537
    ensures Xor(mask, FormatBits(Medium, msk)) == generator
  {
    FormatGenerator();
    OneCode(FormatData(Medium, msk), FORMAT_DEGREE, generator, mask);
  }

  lemma ZeroCode(data: nat, degree: nat, g: nat, mask: nat)
    requires data == 0 && degree > 0
    ensures Xor(Bch.Code(data, degree, g), mask) == mask
  {
    Bch.CodeOfZero(degree, g);
    XorComm(data, mask);
    XorZero(mask);
  }

  lemma OneCode(data: nat, degree: nat, g: nat, mask: nat)
    requires data == 1 && Bch.IsGenerator(g, degree)
    ensures Xor(mask, Xor(Bch.Code(data, degree, g), mask)) == g
  {
    Bch.CodeOfOne(degree, g);
    XorComm(g, mask);
    XorCancel(mask, g);
  }

  /** The version bits of a single one are the generator. */
  lemma FirstVersionCode(data: nat)
    requires data == 1
    ensures Bch.Code(data, VERSION_DEGREE, VERSION_GENERATOR) == 0x1f25
  {
    VersionGenerator();
    Bch.CodeOfOne(VERSION_DEGREE, VERSION_GENERATOR);
  }

  lemma VersionGenerator()
    ensures Bch.IsGenerator(VERSION_GENERATOR, VERSION_DEGREE)
  {
    assert Pow2(6) == 64;
    assert Pow2(VERSION_DEGREE) == 64 * Pow2(6);
  }
}
