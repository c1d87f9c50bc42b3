/** How many modules the function patterns leave for data: exactly what the closed form of
    `getNumRawDataModules` says (client/js/qr.js:28-36, 112-183). The function modules are a disjoint
    union of rectangles. */
module FreeModules {
  import opened Numbers
  import opened Grids
  import opened Tables
  import opened Layout
  import Placement

  // ---- Areas ----

  type Cells = set<Cell>

  ghost function Rect(x0: int, x1: int, y0: int, y1: int): Cells {
    set x, y | x0 <= x < x1 && y0 <= y < y1 :: Cell(x, y)
  }

  lemma {:induction false} ColumnSize(x: int, y0: int, y1: int)
    requires y0 <= y1
    ensures |Rect(x, x + 1, y0, y1)| == y1 - y0
    decreases y1 - y0
  {
    if y0 < y1 {
      ColumnSize(x, y0, y1 - 1);
      assert Rect(x, x + 1, y0, y1) == Rect(x, x + 1, y0, y1 - 1) + {Cell(x, y1 - 1)};
    } else {
      assert Rect(x, x + 1, y0, y1) == {};
    }
  }

  lemma {:induction false} RectSize(x0: int, x1: int, y0: int, y1: int)
    requires x0 <= x1 && y0 <= y1
    ensures |Rect(x0, x1, y0, y1)| == (x1 - x0) * (y1 - y0)
    decreases x1 - x0
  {
    if x0 < x1 {
      RectSize(x0, x1 - 1, y0, y1);
      ColumnSize(x1 - 1, y0, y1);
      assert Rect(x0, x1, y0, y1) == Rect(x0, x1 - 1, y0, y1) + Rect(x1 - 1, x1, y0, y1);
      assert (x1 - x0) * (y1 - y0) == (x1 - 1 - x0) * (y1 - y0) + (y1 - y0);
    } else {
      assert Rect(x0, x1, y0, y1) == {};
    }
  }

  lemma SquareSize(n: nat)
    ensures |Rect(0, n, 0, n)| == n * n
  {
    RectSize(0, n, 0, n);
  }

  /** Rectangles that do not share both a column and a row. */
  lemma RectsApart(x0: int, x1: int, y0: int, y1: int, u0: int, u1: int, v0: int, v1: int)
    requires x1 <= u0 || u1 <= x0 || y1 <= v0 || v1 <= y0
    ensures Rect(x0, x1, y0, y1) !! Rect(u0, u1, v0, v1)
  {}

  lemma UnionSize(a: Cells, b: Cells)
    requires a !! b
    ensures |a + b| == |a| + |b|
  {}

  ghost function Finders(n: nat): Cells {
    Rect(0, 8, 0, 8) + Rect(n - 8, n, 0, 8) + Rect(0, 8, n - 8, n)
  }

  /** The timing lines between the finders. */
  ghost function TimingLines(n: nat): Cells {
    Rect(8, n - 8, 6, 7) + Rect(6, 7, 8, n - 8)
  }

  ghost function FormatCopy1(): Cells {
    Rect(8, 9, 0, 6) + Rect(8, 9, 7, 9) + Rect(7, 8, 8, 9) + Rect(0, 6, 8, 9)
  }

  ghost function FormatCopy2(n: nat): Cells {
    Rect(n - 8, n, 8, 9) + Rect(8, 9, n - 8, n)
  }

  lemma FindersSize(n: nat)
    requires n >= 21
    ensures |Finders(n)| == 192
  {
    var a, b, c := Rect(0, 8, 0, 8), Rect(n - 8, n, 0, 8), Rect(0, 8, n - 8, n);
    RectSize(0, 8, 0, 8);
    RectSize(n - 8, n, 0, 8);
    RectSize(0, 8, n - 8, n);
    RectsApart(0, 8, 0, 8, n - 8, n, 0, 8);
    UnionSize(a, b);
    RectsApart(0, 8, 0, 8, 0, 8, n - 8, n);
    RectsApart(n - 8, n, 0, 8, 0, 8, n - 8, n);
    UnionSize(a + b, c);
  }

  lemma TimingLinesSize(n: nat)
    requires n >= 21
    ensures |TimingLines(n)| == 2 * n - 32
  {
    RectSize(8, n - 8, 6, 7);
    RectSize(6, 7, 8, n - 8);
    RectsApart(8, n - 8, 6, 7, 6, 7, 8, n - 8);
    UnionSize(Rect(8, n - 8, 6, 7), Rect(6, 7, 8, n - 8));
  }

  lemma FormatCopy1Size()
    ensures |FormatCopy1()| == 15
  {
    var a, b, c, d := Rect(8, 9, 0, 6), Rect(8, 9, 7, 9), Rect(7, 8, 8, 9), Rect(0, 6, 8, 9);
    ColumnSize(8, 0, 6);
    ColumnSize(8, 7, 9);
    ColumnSize(7, 8, 9);
    assert |d| == 6 by { RectSize(0, 6, 8, 9); }
    UnionSizes(a, b, c, d);
  }

  lemma FormatCopy2Size(n: nat)
    requires n >= 21
    ensures |FormatCopy2(n)| == 16
  {
    RectSize(n - 8, n, 8, 9);
    RectSize(8, 9, n - 8, n);
    RectsApart(n - 8, n, 8, 9, 8, 9, n - 8, n);
    UnionSize(Rect(n - 8, n, 8, 9), Rect(8, 9, n - 8, n));
  }

  /** The finders, the timing lines between them, and the format modules. */
  ghost function FixedPart(n: nat): Cells {
    Finders(n) + TimingLines(n) + FormatCopy1() + FormatCopy2(n)
  }

  lemma FixedPartSize(n: nat)
    requires n >= 21
    ensures |FixedPart(n)| == 2 * n + 191
  {
    FindersSize(n);
    TimingLinesSize(n);
    FormatCopy1Size();
    FormatCopy2Size(n);
    FixedPartsApart(n);
    UnionSizes(Finders(n), TimingLines(n), FormatCopy1(), FormatCopy2(n));
  }

  lemma FixedPartsApart(n: nat)
    requires n >= 21
    ensures Finders(n) !! TimingLines(n) && Finders(n) !! FormatCopy1() && Finders(n) !! FormatCopy2(n)
    ensures TimingLines(n) !! FormatCopy1() && TimingLines(n) !! FormatCopy2(n) && FormatCopy1() !! FormatCopy2(n)
  {}

  lemma UnionSizes(a: Cells, b: Cells, c: Cells, d: Cells)
    requires a !! b && a !! c && a !! d && b !! c && b !! d && c !! d
    ensures |a + b + c + d| == |a| + |b| + |c| + |d|
  {
    UnionSize(a, b);
    UnionSize(a + b, c);
    UnionSize(a + b + c, d);
  }

  ghost function VersionPart(ver: Version): Cells {
    var a := Side(ver) - 11;
    if ver < 7 then {} else Rect(a, a + 3, 0, 6) + Rect(0, 6, a, a + 3)
  }

  lemma VersionPartSize(ver: Version)
    ensures |VersionPart(ver)| == if ver < 7 then 0 else 36
  {
    if ver >= 7 { CornerPairSize(Side(ver) - 11); }
  }

  lemma CornerPairSize(a: int)
    requires a >= 6
    ensures |Rect(a, a + 3, 0, 6) + Rect(0, 6, a, a + 3)| == 36
  {
    RectSize(a, a + 3, 0, 6);
    RectSize(0, 6, a, a + 3);
    RectsApart(a, a + 3, 0, 6, 0, 6, a, a + 3);
    UnionSize(Rect(a, a + 3, 0, 6), Rect(0, 6, a, a + 3));
  }

  // ---- Alignment patterns ----

  /** The part of alignment pattern (i, j) that is not on a timing line. */
  ghost function AlignCells(p: seq<int>, i: nat, j: nat): Cells
    requires i < |p| && j < |p|
  {
    if IsCorner(i, j, |p|) then {}
    else if i == 0 then Rect(4, 6, p[j] - 2, p[j] + 3) + Rect(7, 9, p[j] - 2, p[j] + 3)
    else if j == 0 then Rect(p[i] - 2, p[i] + 3, 4, 6) + Rect(p[i] - 2, p[i] + 3, 7, 9)
    else Rect(p[i] - 2, p[i] + 3, p[j] - 2, p[j] + 3)
  }

  function AlignCost(k: nat, i: nat, j: nat): nat {
    if IsCorner(i, j, k) then 0 else if i == 0 || j == 0 then 20 else 25
  }

  lemma AlignCellsSize(p: seq<int>, i: nat, j: nat)
    requires i < |p| && j < |p|
    ensures |AlignCells(p, i, j)| == AlignCost(|p|, i, j)
  {
    var a, b := p[i] - 2, p[j] - 2;
    if i == 0 {
      RectSize(4, 6, b, b + 5);
      RectSize(7, 9, b, b + 5);
      RectsApart(4, 6, b, b + 5, 7, 9, b, b + 5);
      UnionSize(Rect(4, 6, b, b + 5), Rect(7, 9, b, b + 5));
    } else if j == 0 {
      RectSize(a, a + 5, 4, 6);
      RectSize(a, a + 5, 7, 9);
      RectsApart(a, a + 5, 4, 6, a, a + 5, 7, 9);
      UnionSize(Rect(a, a + 5, 4, 6), Rect(a, a + 5, 7, 9));
    } else {
      RectSize(a, a + 5, b, b + 5);
    }
  }

  /** Lines of alignment patterns start at 6 and do not touch. */
  predicate Spread(p: seq<int>) {
    && (|p| > 0 ==> p[0] == 6)
    && forall i, j :: 0 <= i < j < |p| ==> p[j] - p[i] >= 12
  }

  lemma PositionsSpread(ver: Version)
    ensures Spread(AlignPositions(ver))
  {
    var p := AlignPositions(ver);
    forall i, j | 0 <= i < j < |p| ensures p[j] - p[i] >= 12 {
      AlignApart(ver, i, j);
    }
  }

  /** What c being in pattern (i, j) says. */
  lemma AlignCellsAre(p: seq<int>, i: nat, j: nat, c: Cell)
    requires Spread(p) && i < |p| && j < |p|
    ensures c in AlignCells(p, i, j) <==> InAlign(c, p, i, j) && !IsTiming(c)
  {
    if i > 0 { assert p[i] - p[0] >= 12; }
    if j > 0 { assert p[j] - p[0] >= 12; }
  }

  lemma AlignCellsApart(p: seq<int>, i: nat, j: nat, k: nat, l: nat, c: Cell)
    requires Spread(p) && i < |p| && j < |p| && k < |p| && l < |p|
    requires c in AlignCells(p, i, j) && c in AlignCells(p, k, l)
    ensures i == k && j == l
  {
    AlignCellsAre(p, i, j, c);
    AlignCellsAre(p, k, l, c);
    OnlyLine(p, c.x, i, k);
    OnlyLine(p, c.y, j, l);
  }

  lemma OnlyLine(p: seq<int>, x: int, i: nat, k: nat)
    requires Spread(p) && i < |p| && k < |p| && Abs(x - p[i]) <= 2 && Abs(x - p[k]) <= 2
    ensures i == k
  {}

  ghost function AlignColumn(p: seq<int>, i: nat, m: nat): Cells
    requires i < |p| && m <= |p|
  {
    if m == 0 then {} else AlignColumn(p, i, m - 1) + AlignCells(p, i, m - 1)
  }

  function ColumnCost(k: nat, i: nat, m: nat): nat {
    if m == 0 then 0 else ColumnCost(k, i, m - 1) + AlignCost(k, i, m - 1)
  }

  lemma {:induction false} InColumn(p: seq<int>, i: nat, m: nat, c: Cell)
    requires i < |p| && m <= |p|
    ensures c in AlignColumn(p, i, m) <==> exists j: nat :: j < m && c in AlignCells(p, i, j)
  {
    if m > 0 { InColumn(p, i, m - 1, c); }
  }

  lemma ColumnApart(p: seq<int>, i: nat, m: nat)
    requires Spread(p) && i < |p| && m < |p|
    ensures AlignColumn(p, i, m) !! AlignCells(p, i, m)
  {
    var column, next := AlignColumn(p, i, m), AlignCells(p, i, m);
    forall c | c in column && c in next
      ensures false
    {
      InColumn(p, i, m, c);
      var j: nat :| j < m && c in AlignCells(p, i, j);
      AlignCellsApart(p, i, j, i, m, c);
    }
  }

  lemma ColumnGrows(p: seq<int>, i: nat, m: nat)
    requires Spread(p) && i < |p| && m < |p|
    ensures |AlignColumn(p, i, m + 1)| == |AlignColumn(p, i, m)| + |AlignCells(p, i, m)|
  {
    ColumnApart(p, i, m);
    UnionSize(AlignColumn(p, i, m), AlignCells(p, i, m));
  }

  lemma ColumnStep(p: seq<int>, i: nat, m: nat)
    requires Spread(p) && i < |p| && m < |p| && |AlignColumn(p, i, m)| == ColumnCost(|p|, i, m)
    ensures |AlignColumn(p, i, m + 1)| == ColumnCost(|p|, i, m + 1)
  {
    var cost := ColumnCost(|p|, i, m) + AlignCost(|p|, i, m);
    assert |AlignColumn(p, i, m + 1)| == cost by {
      ColumnGrows(p, i, m);
      AlignCellsSize(p, i, m);
    }
  }

  lemma {:induction false} AlignColumnSize(p: seq<int>, i: nat, m: nat)
    requires Spread(p) && i < |p| && m <= |p|
    ensures |AlignColumn(p, i, m)| == ColumnCost(|p|, i, m)
  {
    if m > 0 {
      AlignColumnSize(p, i, m - 1);
      ColumnStep(p, i, m - 1);
    }
  }

  ghost function AlignPart(p: seq<int>, m: nat): Cells
    requires m <= |p|
  {
    if m == 0 then {} else AlignPart(p, m - 1) + AlignColumn(p, m - 1, |p|)
  }

  function PartCost(k: nat, m: nat): nat {
    if m == 0 then 0 else PartCost(k, m - 1) + ColumnCost(k, m - 1, k)
  }

  lemma {:induction false} InPart(p: seq<int>, m: nat, c: Cell)
    requires m <= |p|
    ensures c in AlignPart(p, m) <==> exists i: nat, j: nat :: i < m && j < |p| && c in AlignCells(p, i, j)
  {
    if m > 0 {
      InPart(p, m - 1, c);
      InColumn(p, m - 1, |p|, c);
    }
  }

  lemma PartApart(p: seq<int>, m: nat)
    requires Spread(p) && m < |p|
    ensures AlignPart(p, m) !! AlignColumn(p, m, |p|)
  {
    var part, column := AlignPart(p, m), AlignColumn(p, m, |p|);
    forall c | c in part && c in column
      ensures false
    {
      InPart(p, m, c);
      InColumn(p, m, |p|, c);
      var i: nat, j: nat :| i < m && j < |p| && c in AlignCells(p, i, j);
      var l: nat :| l < |p| && c in AlignCells(p, m, l);
      AlignCellsApart(p, i, j, m, l, c);
    }
  }

  lemma PartGrows(p: seq<int>, m: nat)
    requires Spread(p) && m < |p|
    ensures |AlignPart(p, m + 1)| == |AlignPart(p, m)| + |AlignColumn(p, m, |p|)|
  {
    PartApart(p, m);
    UnionSize(AlignPart(p, m), AlignColumn(p, m, |p|));
  }

  lemma PartStep(p: seq<int>, m: nat, before: nat)
    requires Spread(p) && m < |p| && |AlignPart(p, m)| == before
    ensures |AlignPart(p, m + 1)| == before + ColumnCost(|p|, m, |p|)
  {
    PartGrows(p, m);
    AlignColumnSize(p, m, |p|);
  }

  lemma NoPart(p: seq<int>)
    ensures |AlignPart(p, 0)| == 0
  {}

  lemma AlignPartSize(p: seq<int>, m: nat)
    requires Spread(p) && m <= |p|
    ensures |AlignPart(p, m)| == PartCost(|p|, m)
  {
    NoPart(p);
    var size := 0;
    for k := 0 to m
      invariant |AlignPart(p, k)| == size == PartCost(|p|, k)
    {
      PartStep(p, k, size);
      size := size + ColumnCost(|p|, k, |p|);
    }
  }

  lemma {:induction false} ColumnCostClosed(k: nat, i: nat, m: nat)
    requires k >= 2 && i < k && 1 <= m <= k
    ensures ColumnCost(k, i, m) ==
            if i == 0 then (if m == k then 20 * (k - 2) else 20 * (m - 1))
            else if i == k - 1 then 25 * (m - 1)
            else 20 + 25 * (m - 1)
  {
    if m > 1 {
      ColumnCostClosed(k, i, m - 1);
    } else {
      assert ColumnCost(k, i, 1) == ColumnCost(k, i, 0) + AlignCost(k, i, 0);
    }
  }

  lemma {:induction false} PartCostClosed(k: nat, m: nat)
    requires k >= 2 && 1 <= m <= k
    ensures PartCost(k, m) == 20 * (k - 2) + (m - 1) * (25 * k - 5) - if m == k then 20 else 0
  {
    ColumnCostClosed(k, m - 1, k);
    if m > 1 {
      PartCostClosed(k, m - 1);
      assert (m - 1) * (25 * k - 5) == (m - 2) * (25 * k - 5) + (25 * k - 5);
    } else {
      assert PartCost(k, 1) == PartCost(k, 0) + ColumnCost(k, 0, k);
    }
  }

  /** Together that is what the closed form of `getNumRawDataModules` takes off for them. */
  lemma AlignArea(ver: Version)
    ensures |AlignPart(AlignPositions(ver), NumAlign(ver))|
         == if ver == 1 then 0 else (25 * NumAlign(ver) - 10) * NumAlign(ver) - 55
  {
    var k := NumAlign(ver);
    PositionsSpread(ver);
    AlignPartSize(AlignPositions(ver), k);
    if ver > 1 {
      PartCostClosed(k, k);
      AlignArithmetic(k);
    }
  }

  lemma AlignArithmetic(k: int)
    ensures 20 * (k - 2) + (k - 1) * (25 * k - 5) - 20 == (25 * k - 10) * k - 55
  {
    assert (k - 1) * (25 * k - 5) == 25 * k * k - 30 * k + 5;
    assert (25 * k - 10) * k == 25 * k * k - 10 * k;
  }

  // ---- All function modules ----

  ghost function Cover(ver: Version): Cells {
    FixedPart(Side(ver)) + VersionPart(ver) + AlignPart(AlignPositions(ver), NumAlign(ver))
  }

  /** c is outside every pattern but the alignment patterns and the timing lines: away from the upper
      and left edge, or between the corners. */
  predicate Central(c: Cell, n: nat) {
    !IsTiming(c) && ((c.x >= 14 && c.y >= 14) || 16 <= c.x <= n - 17 || 16 <= c.y <= n - 17)
  }

  lemma AlignIsCentral(ver: Version, i: nat, j: nat, c: Cell)
    requires i < NumAlign(ver) && j < NumAlign(ver) && c in AlignCells(AlignPositions(ver), i, j)
    ensures Central(c, Side(ver)) && In(c, Side(ver))
  {
    PositionsSpread(ver);
    AlignCellsAre(AlignPositions(ver), i, j, c);
    LineAt(ver, i);
    LineAt(ver, j);
  }

  lemma CentralIsElsewhere(ver: Version, c: Cell)
    requires Central(c, Side(ver))
    ensures c !in FixedPart(Side(ver)) && c !in VersionPart(ver)
  {}

  lemma VersionIsElsewhere(ver: Version)
    ensures VersionPart(ver) !! FixedPart(Side(ver))
  {}

  lemma CoverSize(ver: Version)
    ensures |Cover(ver)| == Side(ver) * Side(ver) - NumRawDataModules(ver)
  {
    var n, k := Side(ver), NumAlign(ver);
    var align := AlignPart(AlignPositions(ver), k);
    FixedPartSize(n);
    VersionPartSize(ver);
    AlignArea(ver);
    VersionIsElsewhere(ver);
    UnionSize(FixedPart(n), VersionPart(ver));
    forall c | c in align
      ensures c !in FixedPart(n) && c !in VersionPart(ver)
    {
      InPart(AlignPositions(ver), k, c);
      var i: nat, j: nat :| i < k && j < k && c in AlignCells(AlignPositions(ver), i, j);
      AlignIsCentral(ver, i, j, c);
      CentralIsElsewhere(ver, c);
    }
    UnionSize(FixedPart(n) + VersionPart(ver), align);
    AreaArithmetic(ver);
  }

  lemma AreaArithmetic(ver: Version)
    ensures Side(ver) * Side(ver) - NumRawDataModules(ver)
         == 2 * Side(ver) + 191 + (if ver < 7 then 0 else 36)
            + (if ver == 1 then 0 else (25 * NumAlign(ver) - 10) * NumAlign(ver) - 55)
  {
    var n := Side(ver);
    assert n * n == (16 * ver + 136) * ver + 289;
    assert (16 * ver + 128) * ver + 8 * ver == (16 * ver + 136) * ver;
  }

  lemma FixedPartIs(c: Cell, n: nat)
    requires n >= 21 && In(c, n)
    ensures c in FixedPart(n) <==> IsTiming(c) || IsFinder(c, n) || FormatIndex(c, n) >= 0
  {
    FindersAre(c, n);
    TimingIs(c, n);
    FormatIs(c, n);
  }

  lemma FindersAre(c: Cell, n: nat)
    requires n >= 21 && In(c, n)
    ensures c in Finders(n) <==> IsFinder(c, n)
  {
    assert c in Finders(n) <==> c in Rect(0, 8, 0, 8) || c in Rect(n - 8, n, 0, 8) || c in Rect(0, 8, n - 8, n);
  }

  lemma TimingIs(c: Cell, n: nat)
    requires n >= 21 && In(c, n)
    ensures c in TimingLines(n) ==> IsTiming(c)
    ensures IsTiming(c) ==> c in TimingLines(n) || c in Finders(n)
  {
    assert c in TimingLines(n) <==> c in Rect(8, n - 8, 6, 7) || c in Rect(6, 7, 8, n - 8);
    assert c in Finders(n) <==> c in Rect(0, 8, 0, 8) || c in Rect(n - 8, n, 0, 8) || c in Rect(0, 8, n - 8, n);
  }

  lemma FormatIs(c: Cell, n: nat)
    requires n >= 21 && In(c, n)
    ensures c in FormatCopy1() || c in FormatCopy2(n) <==> FormatIndex(c, n) >= 0
  {
    assert c in FormatCopy1() <==>
           c in Rect(8, 9, 0, 6) || c in Rect(8, 9, 7, 9) || c in Rect(7, 8, 8, 9) || c in Rect(0, 6, 8, 9);
    assert c in FormatCopy2(n) <==> c in Rect(n - 8, n, 8, 9) || c in Rect(8, 9, n - 8, n);
  }

  lemma VersionIs(c: Cell, ver: Version)
    ensures c in VersionPart(ver) <==> VersionIndex(c, ver) >= 0
  {
    var a := Side(ver) - 11;
    if ver >= 7 { assert c in VersionPart(ver) <==> c in Rect(a, a + 3, 0, 6) || c in Rect(0, 6, a, a + 3); }
  }

  lemma AlignIs(c: Cell, ver: Version)
    ensures c in AlignPart(AlignPositions(ver), NumAlign(ver)) <==> IsAlign(c, AlignPositions(ver)) && !IsTiming(c)
  {
    var p := AlignPositions(ver);
    PositionsSpread(ver);
    InPart(p, |p|, c);
    forall i: nat, j: nat | i < |p| && j < |p|
      ensures c in AlignCells(p, i, j) <==> InAlign(c, p, i, j) && !IsTiming(c)
    {
      AlignCellsAre(p, i, j, c);
    }
  }

  /** The rectangles cover the function modules and nothing else. */
  lemma CoverIsReserved(c: Cell, ver: Version)
    requires In(c, Side(ver))
    ensures c in Cover(ver) <==> Reserved(c, ver)
  {
    FixedPartIs(c, Side(ver));
    VersionIs(c, ver);
    AlignIs(c, ver);
  }

  lemma AlignPartInside(c: Cell, ver: Version)
    requires c in AlignPart(AlignPositions(ver), NumAlign(ver))
    ensures In(c, Side(ver))
  {
    var p := AlignPositions(ver);
    InPart(p, |p|, c);
    var i: nat, j: nat :| i < |p| && j < |p| && c in AlignCells(p, i, j);
    AlignIsCentral(ver, i, j, c);
  }

  lemma FixedPartInside(c: Cell, n: nat)
    requires n >= 21 && c in FixedPart(n)
    ensures In(c, n)
  {}

  lemma VersionPartInside(c: Cell, ver: Version)
    requires c in VersionPart(ver)
    ensures In(c, Side(ver))
  {}

  lemma CoverInside(ver: Version)
    ensures Cover(ver) <= Rect(0, Side(ver), 0, Side(ver))
  {
    var n, cover := Side(ver), Cover(ver);
    forall c | c in cover
      ensures In(c, n)
    {
      if c in FixedPart(n) {
        FixedPartInside(c, n);
      } else if c in VersionPart(ver) {
        VersionPartInside(c, ver);
      } else {
        AlignPartInside(c, ver);
      }
    }
  }

  /** The modules that carry data are those outside the rectangles. */
  lemma CarriesData(ver: Version, n: nat, f: Grid, c: Cell)
    requires n == Side(ver) && Square(f, n) && (forall d | In(d, n) :: At(f, n, d) == Reserved(d, ver))
    ensures c in Placement.DataCells(f, n) <==> In(c, n) && c !in Cover(ver)
  {
    SideIsWalkSize(ver);
    Placement.DataCellsAreTheFreeModules(f, n, c);
    if In(c, n) { CoverIsReserved(c, ver); }
  }

  /** In every version exactly as many modules carry data as the closed form says. */
  lemma FreeModuleCount(ver: Version, n: nat, f: Grid)
    requires n == Side(ver) && Square(f, n) && (forall d | In(d, n) :: At(f, n, d) == Reserved(d, ver))
    ensures |Placement.DataCells(f, n)| == NumRawDataModules(ver)
  {
    var cells := Placement.DataCells(f, n);
    var members := set c | c in cells;
    forall c
      ensures c in members <==> In(c, n) && c !in Cover(ver)
    {
      CarriesData(ver, n, f, c);
    }
    SideIsWalkSize(ver);
    Placement.DataCellsAreTheFreeModules(f, n, Cell(0, 0));
    MembersSize(cells);
    CoverInside(ver);
    CoverSize(ver);
    Complement(n, Cover(ver), members);
  }

  lemma Complement(n: nat, cover: Cells, rest: Cells)
    requires cover <= Rect(0, n, 0, n) && forall c :: c in rest <==> In(c, n) && c !in cover
    ensures |rest| + |cover| == n * n
  {
    SquareSize(n);
    UnionSize(rest, cover);
    assert rest + cover == Rect(0, n, 0, n);
  }

  lemma {:induction false} MembersSize(cells: seq<Cell>)
    requires Placement.Distinct(cells)
    ensures |set c | c in cells| == |cells|
  {
    var s := set c | c in cells;
    if |cells| > 0 {
      var m := |cells| - 1;
      MembersSize(cells[..m]);
      assert s == (set c | c in cells[..m]) + {cells[m]};
      assert cells[m] !in cells[..m];
    } else {
      assert s == {};
    }
  }
}
