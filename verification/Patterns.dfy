/** The colours of the function modules (client/js/qr.js:112-183): which pattern shows where they
    overlap, and that neither codewords nor masks touch them. */
module Patterns {
  import opened Numbers
  import opened Bytes
  import opened Grids
  import opened Tables
  import opened Layout
  import opened Format
  import opened Masks
  import opened Symbol
  import P = Placement
  import S = Segment

  /** Rings of a finder pattern: light at distance 2 and 4. */
  predicate FinderDark(c: Cell, cx: int, cy: int) {
    Dist(c, cx, cy) != 2 && Dist(c, cx, cy) != 4
  }

  /** Timing patterns alternate; finders lie over them, none over another. */
  predicate BaseDark(c: Cell, n: nat) {
    if Dist(c, 3, n - 4) <= 4 then FinderDark(c, 3, n - 4)
    else if Dist(c, n - 4, 3) <= 4 then FinderDark(c, n - 4, 3)
    else if Dist(c, 3, 3) <= 4 then FinderDark(c, 3, 3)
    else (IsTiming(c) && (c.x + c.y) % 2 == 0)
  }

  /** A dark centre, a light ring, a dark ring. */
  ghost predicate AlignDark(c: Cell, p: seq<int>) {
    exists i: nat, j: nat :: InAlign(c, p, i, j) && Dist(c, p[i], p[j]) != 1
  }

  /** Alignment patterns lie over timing patterns. */
  ghost predicate AlignShown(c: Cell, p: seq<int>, was: bool) {
    if IsAlign(c, p) then AlignDark(c, p) else was
  }

  /** What a finished symbol of this version and level, under this mask, shows at a function module. */
  ghost predicate FunctionDark(c: Cell, ver: Version, ecl: Ecc, msk: nat) {
    if FormatIndex(c, Side(ver)) >= 0 then FormatModule(c, Side(ver), FormatBits(ecl, msk), false)
    else if VersionIndex(c, ver) >= 0 then Bit(VersionBits(ver), VersionIndex(c, ver))
    else AlignShown(c, AlignPositions(ver), BaseDark(c, Side(ver)))
  }

  // ---- Alignment patterns do not overlap ----

  /** So the pattern at c decides its colour alone. */
  lemma AlignColour(c: Cell, ver: Version, i: nat, j: nat)
    requires InAlign(c, AlignPositions(ver), i, j)
    ensures AlignDark(c, AlignPositions(ver)) <==> Dist(c, AlignAt(ver, i), AlignAt(ver, j)) != 1
  {
    var p := AlignPositions(ver);
    forall a: nat, b: nat | InAlign(c, p, a, b)
      ensures a == i && b == j
    {
      SameLine(c.x, ver, a, i);
      SameLine(c.y, ver, b, j);
    }
  }

  // ---- Nothing is drawn over them ----

  /** A finished symbol shows, at a function module outside the format area, what the patterns show. */
  lemma FunctionModuleKept(patterns: Grid, ver: Version, ecl: Ecc, msk: nat, codewords: seq<Byte>, c: Cell)
    requires Square(patterns, Side(ver)) && In(c, Side(ver)) && Reserved(c, ver)
    ensures At(Candidate(Layer(patterns, ver, codewords), ver, ecl, msk), Side(ver), c)
         == FormatModule(c, Side(ver), FormatBits(ecl, msk), At(patterns, Side(ver), c))
  {
    var n, f := Side(ver), FunctionModules(ver);
    AllDataCellsIn(f, n, ver);
    P.FreeMembers(P.Walk(n), f, n);
    assert At(f, n, c);
    P.PlaceElsewhere(patterns, n, P.DataCells(f, n), S.ByteBits(codewords), c);
  }

  /** Every function module has its colour under this mask. */
  ghost predicate ShowsPatterns(g: Grid, ver: Version, ecl: Ecc, msk: nat)
    requires Square(g, Side(ver))
  {
    forall c | In(c, Side(ver)) :: Reserved(c, ver) ==> At(g, Side(ver), c) == FunctionDark(c, ver, ecl, msk)
  }

  /** Everywhere else the patterns leave light modules. */
  ghost predicate LightElsewhere(g: Grid, ver: Version)
    requires Square(g, Side(ver))
  {
    forall c | In(c, Side(ver)) :: !Reserved(c, ver) ==> !At(g, Side(ver), c)
  }

  /** So there is only one grid of function patterns for a version and level. */
  lemma PatternsDetermined(g: Grid, h: Grid, ver: Version, ecl: Ecc)
    requires Square(g, Side(ver)) && ShowsPatterns(g, ver, ecl, 0) && LightElsewhere(g, ver)
    requires Square(h, Side(ver)) && ShowsPatterns(h, ver, ecl, 0) && LightElsewhere(h, ver)
    ensures g == h
  {
    forall c | In(c, Side(ver))
      ensures At(g, Side(ver), c) == At(h, Side(ver), c)
    {
      assert Reserved(c, ver) || !Reserved(c, ver);
    }
    SameCells(g, h, Side(ver));
  }

  /** A finished symbol shows the patterns. */
  lemma FinishedShowsPatterns(patterns: Grid, ver: Version, ecl: Ecc, msk: nat, codewords: seq<Byte>)
    requires Square(patterns, Side(ver)) && ShowsPatterns(patterns, ver, ecl, 0)
    ensures ShowsPatterns(Candidate(Layer(patterns, ver, codewords), ver, ecl, msk), ver, ecl, msk)
  {
    forall c | In(c, Side(ver)) && Reserved(c, ver)
      ensures At(Candidate(Layer(patterns, ver, codewords), ver, ecl, msk), Side(ver), c)
           == FunctionDark(c, ver, ecl, msk)
    {
      FunctionModuleKept(patterns, ver, ecl, msk, codewords, c);
    }
  }

  // ---- Pictures ----

  /** Row y of the upper left finder pattern with its light border; the others are mirror images. */
  function FinderRow(y: nat): (row: string)
    ensures |row| == 8
  {
    if y == 0 || y == 6 then      "#######."
    else if y == 1 || y == 5 then "#.....#."
    else if y <= 6 then           "#.###.#."
    else                          "........"
  }

  function AlignmentRow(y: nat): (row: string)
    ensures |row| == 5
  {
    if y == 0 || y == 4 then      "#####"
    else if y == 1 || y == 3 then "#...#"
    else                          "#.#.#"
  }

  /** How far (x, y) is from the centre of a finder decides its colour there. */
  lemma FinderPicture(x: nat, y: nat)
    requires x < 8 && y < 8
    ensures FinderDark(Cell(x, y), 3, 3) <==> FinderRow(y)[x] == '#'
  {
    match x { case 0 => case 1 => case 2 => case 3 => case 4 => case 5 => case 6 => case _ => }
  }

  /** Outside the format and version areas. */
  lemma ShownAt(g: Grid, ver: Version, ecl: Ecc, msk: nat, c: Cell)
    requires Square(g, Side(ver)) && ShowsPatterns(g, ver, ecl, msk) && In(c, Side(ver)) && Reserved(c, ver)
    requires FormatIndex(c, Side(ver)) < 0 && VersionIndex(c, ver) < 0
    ensures At(g, Side(ver), c) == AlignShown(c, AlignPositions(ver), BaseDark(c, Side(ver)))
  {}

  /** The three finders of a grid that shows the patterns are that picture, mirrored. */
  lemma FindersShown(g: Grid, ver: Version, ecl: Ecc, msk: nat, x: nat, y: nat)
    requires Square(g, Side(ver)) && ShowsPatterns(g, ver, ecl, msk) && x < 8 && y < 8
    ensures var n := Side(ver);
         && (At(g, n, Cell(x, y)) <==> FinderRow(y)[x] == '#')
         && (At(g, n, Cell(n - 1 - x, y)) <==> FinderRow(y)[x] == '#')
         && (At(g, n, Cell(x, n - 1 - y)) <==> FinderRow(y)[x] == '#')
  {
    var n := Side(ver);
    FinderPicture(x, y);
    FinderCorner(Cell(x, y), ver);
    FinderCorner(Cell(n - 1 - x, y), ver);
    FinderCorner(Cell(x, n - 1 - y), ver);
    ShownAt(g, ver, ecl, msk, Cell(x, y));
    ShownAt(g, ver, ecl, msk, Cell(n - 1 - x, y));
    ShownAt(g, ver, ecl, msk, Cell(x, n - 1 - y));
  }

  /** Nothing but the finder and the timing line under it lies in a corner. */
  lemma FinderCorner(c: Cell, ver: Version)
    requires In(c, Side(ver))
    requires (c.x < 8 && c.y < 8) || (c.x >= Side(ver) - 8 && c.y < 8) || (c.x < 8 && c.y >= Side(ver) - 8)
    ensures Reserved(c, ver) && FormatIndex(c, Side(ver)) < 0 && VersionIndex(c, ver) < 0
    ensures !IsAlign(c, AlignPositions(ver))
  {
    var p := AlignPositions(ver);
    forall i: nat, j: nat | i < |p| && j < |p| && !IsCorner(i, j, |p|)
      ensures Dist(c, p[i], p[j]) > 2
    {
      LineAt(ver, i);
      LineAt(ver, j);
    }
  }

  /** So are the alignment patterns, ... */
  lemma AlignmentShown(g: Grid, ver: Version, ecl: Ecc, msk: nat, i: nat, j: nat, x: nat, y: nat)
    requires Square(g, Side(ver)) && ShowsPatterns(g, ver, ecl, msk) && x < 5 && y < 5
    requires i < NumAlign(ver) && j < NumAlign(ver) && !IsCorner(i, j, NumAlign(ver))
    ensures var c := Cell(AlignAt(ver, i) - 2 + x, AlignAt(ver, j) - 2 + y);
            In(c, Side(ver)) && (At(g, Side(ver), c) <==> AlignmentRow(y)[x] == '#')
  {
    var c := Cell(AlignAt(ver, i) - 2 + x, AlignAt(ver, j) - 2 + y);
    AlignInside(ver, i);
    AlignInside(ver, j);
    LineAt(ver, i);
    LineAt(ver, j);
    AlignColour(c, ver, i, j);
    assert InAlign(c, AlignPositions(ver), i, j) && IsAlign(c, AlignPositions(ver));
  }

  /** ... and between the finders the timing patterns alternate, dark first. */
  lemma TimingShown(g: Grid, ver: Version, ecl: Ecc, msk: nat, i: nat)
    requires Square(g, Side(ver)) && ShowsPatterns(g, ver, ecl, msk) && 8 <= i < Side(ver) - 8
    ensures At(g, Side(ver), Cell(i, 6)) == (i % 2 == 0) && At(g, Side(ver), Cell(6, i)) == (i % 2 == 0)
  {
    TimingCell(g, ver, ecl, msk, Cell(i, 6));
    TimingCell(g, ver, ecl, msk, Cell(6, i));
    SixMore(i);
  }

  /** From version 7 on, bit k of the version is shown to the left of the upper right finder, three bits to
      a row, and mirrored above the lower left one. */
  lemma VersionShown(g: Grid, ver: Version, ecl: Ecc, msk: nat, k: nat)
    requires Square(g, Side(ver)) && ShowsPatterns(g, ver, ecl, msk) && ver >= 7 && k < 18
    ensures var a, b := Side(ver) - 11 + k % 3, k / 3;
         && At(g, Side(ver), Cell(a, b)) == Bit(VersionBits(ver), k)
         && At(g, Side(ver), Cell(b, a)) == Bit(VersionBits(ver), k)
  {
    var a, b := Side(ver) - 11 + k % 3, k / 3;
    VersionCell(Cell(a, b), ver, k);
    VersionCell(Cell(b, a), ver, k);
  }

  lemma VersionCell(c: Cell, ver: Version, k: nat)
    requires ver >= 7 && k < 18
    requires c == Cell(Side(ver) - 11 + k % 3, k / 3) || c == Cell(k / 3, Side(ver) - 11 + k % 3)
    ensures In(c, Side(ver)) && Reserved(c, ver) && FormatIndex(c, Side(ver)) < 0 && VersionIndex(c, ver) == k
  {}

  lemma SixMore(i: nat)
    ensures (i + 6) % 2 == i % 2 == (6 + i) % 2
  {}

  lemma TimingCell(g: Grid, ver: Version, ecl: Ecc, msk: nat, c: Cell)
    requires Square(g, Side(ver)) && ShowsPatterns(g, ver, ecl, msk) && OnTiming(c, Side(ver))
    ensures In(c, Side(ver)) && At(g, Side(ver), c) == ((c.x + c.y) % 2 == 0)
  {
    TimingColour(c, ver);
    ShownAt(g, ver, ecl, msk, c);
  }

  predicate OnTiming(c: Cell, n: nat) {
    (c.y == 6 && 8 <= c.x < n - 8) || (c.x == 6 && 8 <= c.y < n - 8)
  }

  lemma TimingColour(c: Cell, ver: Version)
    requires OnTiming(c, Side(ver))
    ensures In(c, Side(ver)) && Reserved(c, ver) && FormatIndex(c, Side(ver)) < 0 && VersionIndex(c, ver) < 0
    ensures AlignShown(c, AlignPositions(ver), BaseDark(c, Side(ver))) == ((c.x + c.y) % 2 == 0)
  {
    var p := AlignPositions(ver);
    TimingApart(c, ver);
    if i: nat, j: nat :| InAlign(c, p, i, j) {
      AlignAgrees(c, ver, i, j);
    }
  }

  lemma TimingApart(c: Cell, ver: Version)
    requires OnTiming(c, Side(ver))
    ensures FormatIndex(c, Side(ver)) < 0 && VersionIndex(c, ver) < 0
    ensures BaseDark(c, Side(ver)) == ((c.x + c.y) % 2 == 0)
  {}

  /** An alignment pattern on a timing line agrees with it. */
  lemma AlignAgrees(c: Cell, ver: Version, i: nat, j: nat)
    requires OnTiming(c, Side(ver)) && InAlign(c, AlignPositions(ver), i, j)
    ensures AlignDark(c, AlignPositions(ver)) == ((c.x + c.y) % 2 == 0)
  {
    LineAt(ver, i);
    LineAt(ver, j);
    AlignColour(c, ver, i, j);
    AlignEven(ver, i);
    AlignEven(ver, j);
    CentreLine(c, AlignAt(ver, i), AlignAt(ver, j));
  }

  lemma CentreLine(c: Cell, px: int, py: int)
    requires px % 2 == 0 && py % 2 == 0 && Dist(c, px, py) <= 2
    requires (c.y == 6 && py == 6) || (c.x == 6 && px == 6)
    ensures Dist(c, px, py) != 1 <==> (c.x + c.y) % 2 == 0
  {}

  lemma AlignEven(ver: Version, i: nat)
    requires i < NumAlign(ver)
    ensures AlignAt(ver, i) % 2 == 0
  {
    if i > 0 {
      var k, s := NumAlign(ver) - 1 - i, AlignStep(ver);
      StepEven(ver);
      EvenMultiple(k, s);
      EvenDifference(Side(ver), k * s);
    }
  }

  lemma EvenDifference(side: int, m: int)
    requires side % 2 == 1 && m % 2 == 0
    ensures (side - 7 - m) % 2 == 0
  {}

  lemma StepEven(ver: Version)
    requires ver >= 2
    ensures AlignStep(ver) % 2 == 0
  {}

  lemma EvenMultiple(k: nat, s: nat)
    requires s % 2 == 0
    ensures (k * s) % 2 == 0
  {
    assert k * s == 2 * (k * (s / 2));
  }
}
