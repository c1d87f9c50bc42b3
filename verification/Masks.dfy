/** The eight data masks (client/js/qr.js:234-251; section 7.8.2 of ISO/IEC 18004:2015). */
module Masks {
  import opened Grids

  predicate Inverts(msk: int, x: nat, y: nat) {
    match msk
    case 0 => (x + y) % 2 == 0
    case 1 => y % 2 == 0
    case 2 => x % 3 == 0
    case 3 => (x + y) % 3 == 0
    case 4 => (x / 3 + y / 2) % 2 == 0
    case 5 => (x * y) % 2 + (x * y) % 3 == 0
    case 6 => ((x * y) % 2 + (x * y) % 3) % 2 == 0
    case 7 => ((x + y) % 2 + (x * y) % 3) % 2 == 0
    case _ => false
  }

  /** The grid with every free module that the mask selects inverted. */
  function Masked(g: Grid, reserved: Grid, n: nat, msk: int): (r: Grid)
    requires Square(g, n) && Square(reserved, n)
    ensures Square(r, n)
    ensures forall c | In(c, n) ::
      At(r, n, c) == (At(g, n, c) != (!At(reserved, n, c) && Inverts(msk, c.x, c.y)))
  {
    seq(n, y requires 0 <= y < n =>
      seq(n, x requires 0 <= x < n => g[y][x] != (!reserved[y][x] && Inverts(msk, x, y))))
  }

  /** Masking twice with the same mask changes nothing. */
  lemma MaskTwice(g: Grid, reserved: Grid, n: nat, msk: int)
    requires Square(g, n) && Square(reserved, n)
    ensures Masked(Masked(g, reserved, n, msk), reserved, n, msk) == g
  {
    var m := Masked(g, reserved, n, msk);
    forall c | In(c, n)
      ensures At(Masked(m, reserved, n, msk), n, c) == At(g, n, c)
    {
      assert At(m, n, c) == (At(g, n, c) != (!At(reserved, n, c) && Inverts(msk, c.x, c.y)));
    }
    SameCells(Masked(m, reserved, n, msk), g, n);
  }

  /** The patterns of the masks: a checkerboard, every other row, every third column, ... */
  lemma StripeMasks(x: nat, y: nat)
    ensures Inverts(0, x, y) <==> x % 2 == y % 2
    ensures Inverts(1, x, y) <==> y % 2 == 0
    ensures Inverts(2, x, y) <==> x % 3 == 0
  {}

  /** ... diagonals, ... */
  lemma DiagonalMask(x: nat, y: nat)
    ensures Inverts(3, x, y) <==> x % 3 + y % 3 == 0 || x % 3 + y % 3 == 3
  {
    Diagonals(x, y);
  }

  lemma Diagonals(x: nat, y: nat)
    ensures (x + y) % 3 == 0 <==> x % 3 + y % 3 == 0 || x % 3 + y % 3 == 3
  {}

  /** ... blocks of 3 by 2, ... */
  lemma BlockMask(x: nat, y: nat)
    ensures Inverts(4, x, y) <==> (x % 6 < 3 <==> y % 4 < 2)
  {
    Blocks(x, y);
  }

  /** ... and three that depend on the product of the coordinates. */
  lemma ProductMasks(x: nat, y: nat, p: nat)
    requires p == x * y
    ensures Inverts(5, x, y) <==> p % 6 == 0
    ensures Inverts(6, x, y) <==> p % 6 < 3
    ensures Inverts(7, x, y) <==> (x % 2 == y % 2 <==> p % 3 != 1)
  {
    Residues(x, y, p);
  }

  lemma Blocks(x: nat, y: nat)
    ensures (x / 3 + y / 2) % 2 == 0 <==> (x % 6 < 3 <==> y % 4 < 2)
  {
    assert x / 3 == 2 * (x / 6) + (x % 6) / 3;
    assert y / 2 == 2 * (y / 4) + (y % 4) / 2;
  }

  lemma Residues(x: nat, y: nat, p: nat)
    ensures p % 2 + p % 3 == 0 <==> p % 6 == 0
    ensures (p % 2 + p % 3) % 2 == 0 <==> p % 6 < 3
    ensures ((x + y) % 2 + p % 3) % 2 == 0 <==> (x % 2 == y % 2 <==> p % 3 != 1)
  {
    assert p == 6 * (p / 6) + p % 6;
  }
}
