/** The zigzag placement of codeword bits (client/js/qr.js:216-232; section 7.7.3 of
    ISO/IEC 18004:2015), and reading them back in the same order. */
module Placement {
  import opened Grids

  // ---- The walk ----

  /** Sizes the walk is used on: odd multiples of 4 plus 1, wide enough to have a column 6. */
  predicate WalkSize(n: nat) {
    n % 4 == 1 && n >= 21
  }

  /** The right-hand columns of the two-column strips. */
  predicate IsRight(right: int, n: nat) {
    1 <= right < n && (if right > 6 then right % 2 == 0 else right % 2 == 1)
  }

  /** The strip after the one at `right`: two columns to the left, stepping over column 6. */
  function NextRight(right: int): int {
    if right - 2 == 6 then 5 else right - 2
  }

  /** `((right + 1) & 2) === 0`. */
  predicate Upward(right: nat) {
    (right + 1) / 2 % 2 == 0
  }

  function RowOf(right: nat, vert: nat, n: nat): int {
    if Upward(right) then n - 1 - vert else vert
  }

  /** The cells still to be visited, from row step `vert` of the strip at `right` on. */
  function WalkRest(right: int, vert: nat, n: nat): seq<Cell>
    requires vert <= n
    decreases right, n - vert
  {
    if right < 1 then []
    else if vert == n then WalkRest(NextRight(right), 0, n)
    else
      var y := RowOf(right, vert, n);
      [Cell(right, y), Cell(right - 1, y)] + WalkRest(right, vert + 1, n)
  }

  function Walk(n: nat): seq<Cell> {
    WalkRest(n - 1, 0, n)
  }

  predicate Distinct(cells: seq<Cell>) {
    forall i, j :: 0 <= i < j < |cells| ==> cells[i] != cells[j]
  }

  /** What is still to be visited: the rest of this strip and every column further left but 6. */
  predicate Ahead(c: Cell, right: int, vert: nat, n: nat) {
    && In(c, n) && c.x != 6
    && (c.x < right - 1 || (right - 1 <= c.x <= right && Step(c.y, right, n) >= vert))
  }

  /** The row step at which the strip at `right` reaches row y. */
  function Step(y: int, right: int, n: nat): int {
    if right >= 0 && Upward(right) then n - 1 - y else y
  }

  lemma {:induction false} WalkCovers(right: int, vert: nat, n: nat, c: Cell)
    requires vert <= n && (right < 1 || IsRight(right, n))
    ensures c in WalkRest(right, vert, n) <==> right >= 1 && Ahead(c, right, vert, n)
    decreases right, n - vert
  {
    if right >= 1 {
      if vert == n {
        WalkCovers(NextRight(right), 0, n, c);
      } else {
        WalkCovers(right, vert + 1, n, c);
        var y := RowOf(right, vert, n);
        assert WalkRest(right, vert, n) == [Cell(right, y), Cell(right - 1, y)] + WalkRest(right, vert + 1, n);
      }
    }
  }

  lemma {:induction false} WalkDistinct(right: int, vert: nat, n: nat)
    requires vert <= n && (right < 1 || IsRight(right, n))
    ensures Distinct(WalkRest(right, vert, n))
    decreases right, n - vert
  {
    if right >= 1 {
      if vert == n {
        WalkDistinct(NextRight(right), 0, n);
      } else {
        var y, rest := RowOf(right, vert, n), WalkRest(right, vert + 1, n);
        WalkDistinct(right, vert + 1, n);
        WalkCovers(right, vert + 1, n, Cell(right, y));
        WalkCovers(right, vert + 1, n, Cell(right - 1, y));
        assert WalkRest(right, vert, n) == [Cell(right, y), Cell(right - 1, y)] + rest;
      }
    }
  }

  /** The walk visits every module outside column 6 exactly once. */
  lemma WalkIsComplete(n: nat, c: Cell)
    requires WalkSize(n)
    ensures Distinct(Walk(n))
    ensures c in Walk(n) <==> In(c, n) && c.x != 6
  {
    assert IsRight(n - 1, n);
    WalkDistinct(n - 1, 0, n);
    WalkCovers(n - 1, 0, n, c);
  }

  // ---- The zigzag ----

  /** From the left module of one row step to the right module of the next: one row up or down in the
      same strip, or along the edge into the strip to the left, beyond column 6 if that is next. */
  predicate Follows(a: Cell, b: Cell, n: nat) {
    || (b.x == a.x + 1 && (b.y == a.y - 1 || b.y == a.y + 1))
    || (b.x == (if a.x == 7 then 5 else a.x - 1) && b.y == a.y && (a.y == 0 || a.y == n - 1))
  }

  lemma RestHead(right: int, vert: nat, n: nat)
    requires WalkSize(n) && vert < n && IsRight(right, n)
    ensures |WalkRest(right, vert, n)| >= 2
    ensures WalkRest(right, vert, n)[0] == Cell(right, RowOf(right, vert, n))
    ensures WalkRest(right, vert, n)[1] == Cell(right - 1, RowOf(right, vert, n))
    ensures WalkRest(right, vert, n)[2..] == WalkRest(right, vert + 1, n)
  {
    var y, rest := RowOf(right, vert, n), WalkRest(right, vert + 1, n);
    assert WalkRest(right, vert, n) == [Cell(right, y), Cell(right - 1, y)] + rest;
  }

  /** The directions of neighbouring strips are opposite. */
  lemma Turns(right: int, n: nat)
    requires WalkSize(n) && IsRight(right, n) && NextRight(right) >= 1
    ensures IsRight(NextRight(right), n) && Upward(NextRight(right)) == !Upward(right)
  {}

  lemma FirstFollows(right: int, vert: nat, n: nat)
    requires WalkSize(n) && vert < n && IsRight(right, n)
    ensures var rest := WalkRest(right, vert + 1, n);
            |rest| == 0 || Follows(Cell(right - 1, RowOf(right, vert, n)), rest[0], n)
  {
    if vert + 1 < n {
      RestHead(right, vert + 1, n);
    } else if NextRight(right) >= 1 {
      Turns(right, n);
      RestHead(NextRight(right), 0, n);
    }
  }

  lemma {:induction false} RestZigzags(right: int, vert: nat, n: nat, k: nat)
    requires WalkSize(n) && vert <= n && (right < 1 || IsRight(right, n))
    requires 2 * k + 1 < |WalkRest(right, vert, n)|
    ensures var w := WalkRest(right, vert, n);
         && w[2 * k + 1] == Cell(w[2 * k].x - 1, w[2 * k].y)
         && (2 * k + 2 < |w| ==> Follows(w[2 * k + 1], w[2 * k + 2], n))
    decreases right, n - vert
  {
    if vert == n {
      RestZigzags(NextRight(right), 0, n, k);
    } else {
      RestHead(right, vert, n);
      if k == 0 {
        FirstFollows(right, vert, n);
      } else {
        var w, rest := WalkRest(right, vert, n), WalkRest(right, vert + 1, n);
        assert w[2 * k] == rest[2 * (k - 1)] && w[2 * k + 1] == rest[2 * (k - 1) + 1];
        assert 2 * k + 2 < |w| ==> w[2 * k + 2] == rest[2 * (k - 1) + 2];
        RestZigzags(right, vert + 1, n, k - 1);
      }
    }
  }

  lemma FirstStrip(n: nat, q: nat)
    requires n == 4 * q + 1 && q >= 5
    ensures IsRight(n - 1, n) && Upward(n - 1)
  {
    Halves(q);
    Halves(2 * q);
  }

  lemma Halves(h: nat)
    ensures 2 * h % 2 == 0 && (2 * h + 1) / 2 == h
  {}

  /** The walk starts in the lower right corner, takes the two modules of a row from right to left, and
      moves up and down the strips in turn. */
  lemma WalkZigzags(n: nat, k: nat)
    requires WalkSize(n)
    ensures |Walk(n)| > 0 && Walk(n)[0] == Cell(n - 1, n - 1)
    ensures 2 * k + 1 < |Walk(n)| ==> Walk(n)[2 * k + 1] == Cell(Walk(n)[2 * k].x - 1, Walk(n)[2 * k].y)
    ensures 2 * k + 2 < |Walk(n)| ==> Follows(Walk(n)[2 * k + 1], Walk(n)[2 * k + 2], n)
  {
    FirstStrip(n, n / 4);
    RestHead(n - 1, 0, n);
    if 2 * k + 1 < |Walk(n)| { RestZigzags(n - 1, 0, n, k); }
  }

  // ---- The free modules in walk order ----

  function Free(cells: seq<Cell>, reserved: Grid, n: nat): seq<Cell>
    requires Square(reserved, n)
  {
    if |cells| == 0 then []
    else if In(cells[0], n) && !At(reserved, n, cells[0]) then [cells[0]] + Free(cells[1..], reserved, n)
    else Free(cells[1..], reserved, n)
  }

  lemma {:induction false} FreeMembers(cells: seq<Cell>, reserved: Grid, n: nat)
    requires Square(reserved, n)
    ensures forall c :: c in Free(cells, reserved, n) <==> c in cells && In(c, n) && !At(reserved, n, c)
  {
    if |cells| > 0 {
      FreeMembers(cells[1..], reserved, n);
      assert cells == [cells[0]] + cells[1..];
    }
  }

  lemma {:induction false} FreeDistinct(cells: seq<Cell>, reserved: Grid, n: nat)
    requires Square(reserved, n) && Distinct(cells)
    ensures Distinct(Free(cells, reserved, n))
  {
    if |cells| > 0 {
      FreeDistinct(cells[1..], reserved, n);
      FreeMembers(cells[1..], reserved, n);
    }
  }

  /** The modules that carry codeword bits, in the order they are filled. */
  function DataCells(reserved: Grid, n: nat): seq<Cell>
    requires Square(reserved, n)
  {
    Free(Walk(n), reserved, n)
  }

  /** Every free module outside column 6 carries data exactly once, and no reserved one does. */
  lemma DataCellsAreTheFreeModules(reserved: Grid, n: nat, c: Cell)
    requires WalkSize(n) && Square(reserved, n)
    ensures Distinct(DataCells(reserved, n))
    ensures c in DataCells(reserved, n) <==> In(c, n) && c.x != 6 && !At(reserved, n, c)
  {
    WalkIsComplete(n, c);
    FreeDistinct(Walk(n), reserved, n);
    FreeMembers(Walk(n), reserved, n);
  }

  // ---- Placing and reading ----

  predicate AllIn(cells: seq<Cell>, n: nat) {
    forall c :: c in cells ==> In(c, n)
  }

  /** Bits go into cells one by one until either runs out. */
  function PlaceBits(g: Grid, n: nat, cells: seq<Cell>, bits: seq<bool>): (r: Grid)
    requires Square(g, n) && AllIn(cells, n)
    ensures Square(r, n)
    decreases |cells|
  {
    if |cells| == 0 || |bits| == 0 then g
    else PlaceBits(Put(g, n, cells[0], bits[0]), n, cells[1..], bits[1..])
  }

  function ReadBits(g: Grid, n: nat, cells: seq<Cell>): (r: seq<bool>)
    requires Square(g, n) && AllIn(cells, n)
    ensures |r| == |cells|
  {
    seq(|cells|, i requires 0 <= i < |cells| => At(g, n, cells[i]))
  }

  lemma {:induction false} PlaceElsewhere(g: Grid, n: nat, cells: seq<Cell>, bits: seq<bool>, c: Cell)
    requires Square(g, n) && AllIn(cells, n) && In(c, n) && c !in cells
    ensures At(PlaceBits(g, n, cells, bits), n, c) == At(g, n, c)
    decreases |cells|
  {
    if |cells| > 0 && |bits| > 0 {
      PlaceElsewhere(Put(g, n, cells[0], bits[0]), n, cells[1..], bits[1..], c);
    }
  }

  lemma {:induction false} PlacedBit(g: Grid, n: nat, cells: seq<Cell>, bits: seq<bool>, k: nat)
    requires Square(g, n) && AllIn(cells, n) && Distinct(cells)
    requires k < |cells| && k < |bits|
    ensures At(PlaceBits(g, n, cells, bits), n, cells[k]) == bits[k]
    decreases |cells|
  {
    var g' := Put(g, n, cells[0], bits[0]);
    if k == 0 {
      PlaceElsewhere(g', n, cells[1..], bits[1..], cells[0]);
    } else {
      PlacedBit(g', n, cells[1..], bits[1..], k - 1);
    }
  }

  /** Reading in the same order gives the placed bits back. */
  lemma ReadPlaced(g: Grid, n: nat, cells: seq<Cell>, bits: seq<bool>)
    requires Square(g, n) && AllIn(cells, n) && Distinct(cells) && |bits| <= |cells|
    ensures ReadBits(PlaceBits(g, n, cells, bits), n, cells)[..|bits|] == bits
  {
    forall k | 0 <= k < |bits|
      ensures ReadBits(PlaceBits(g, n, cells, bits), n, cells)[k] == bits[k]
    {
      PlacedBit(g, n, cells, bits, k);
    }
  }
}
