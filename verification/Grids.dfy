/** The module matrix of a symbol: a list of rows, indexed [y][x] as in client/js/qr.js. */
module Grids {

  type Grid = seq<seq<bool>>

  datatype Cell = Cell(x: int, y: int)

  predicate Square(g: Grid, n: nat) {
    |g| == n && forall y :: 0 <= y < n ==> |g[y]| == n
  }

  predicate In(c: Cell, n: nat) {
    0 <= c.x < n && 0 <= c.y < n
  }

  function At(g: Grid, n: nat, c: Cell): bool
    requires Square(g, n) && In(c, n)
  {
    g[c.y][c.x]
  }

  function Put(g: Grid, n: nat, c: Cell, b: bool): (r: Grid)
    requires Square(g, n) && In(c, n)
    ensures Square(r, n)
    ensures forall d | In(d, n) :: At(r, n, d) == if d == c then b else At(g, n, d)
  {
    g[c.y := g[c.y][c.x := b]]
  }

  function Blank(n: nat): (r: Grid)
    ensures Square(r, n)
    ensures forall c | In(c, n) :: !At(r, n, c)
  {
    seq(n, _ => seq(n, _ => false))
  }

  /** A grid is determined by its cells. */
  lemma SameCells(g: Grid, h: Grid, n: nat)
    requires Square(g, n) && Square(h, n)
    requires forall c | In(c, n) :: At(g, n, c) == At(h, n, c)
    ensures g == h
  {
    forall y | 0 <= y < n
      ensures g[y] == h[y]
    {
      forall x | 0 <= x < n
        ensures g[y][x] == h[y][x]
      {
        assert At(g, n, Cell(x, y)) == At(h, n, Cell(x, y));
      }
    }
  }
}
