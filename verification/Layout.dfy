/** Which modules of a symbol are function modules (client/js/qr.js:112-183, 326-333). */
module Layout {
  import opened Numbers
  import opened Bytes
  import opened Grids
  import opened Tables
  import Placement

  function Side(ver: Version): nat {
    ver * 4 + 17
  }

  /** Distance from (cx, cy) in king's moves. */
  function Dist(c: Cell, cx: int, cy: int): nat {
    Max(Abs(c.x - cx), Abs(c.y - cy))
  }

  lemma SideIsWalkSize(ver: Version)
    ensures Placement.WalkSize(Side(ver))
  {}

  // ---- The kinds of function module ----

  predicate IsTiming(c: Cell) {
    c.x == 6 || c.y == 6
  }

  predicate IsFinder(c: Cell, n: nat) {
    Dist(c, 3, 3) <= 4 || Dist(c, n - 4, 3) <= 4 || Dist(c, 3, n - 4) <= 4
  }

  /** The format bit drawn at c in the copy around the top left finder, or -1. */
  function FormatIndex1(c: Cell): int {
    if c.x == 8 && 0 <= c.y <= 5 then c.y
    else if c == Cell(8, 7) then 6
    else if c == Cell(8, 8) then 7
    else if c == Cell(7, 8) then 8
    else if c.y == 8 && 0 <= c.x <= 5 then 14 - c.x
    else -1
  }

  const DARK_MODULE := 15

  /** The same for the copy split between the other two finders; 15 marks the dark module. */
  function FormatIndex2(c: Cell, n: nat): int {
    if c.y == 8 && n - 8 <= c.x < n then n - 1 - c.x
    else if c.x == 8 && n - 7 <= c.y < n then c.y - (n - 15)
    else if c == Cell(8, n - 8) then DARK_MODULE
    else -1
  }

  function FormatIndex(c: Cell, n: nat): int {
    if FormatIndex1(c) >= 0 then FormatIndex1(c) else FormatIndex2(c, n)
  }

  /** The version bit drawn at c, or -1. */
  function VersionIndex(c: Cell, ver: Version): int {
    var a := Side(ver) - 11;
    if ver < 7 then -1
    else if a <= c.x <= a + 2 && 0 <= c.y <= 5 then 3 * c.y + (c.x - a)
    else if a <= c.y <= a + 2 && 0 <= c.x <= 5 then 3 * c.x + (c.y - a)
    else -1
  }

  // ---- Alignment patterns ----

  function NumAlign(ver: Version): nat {
    if ver == 1 then 0 else ver / 7 + 2
  }

  function AlignStep(ver: Version): nat
    requires ver >= 2
  {
    (ver * 8 + NumAlign(ver) * 3 + 5) / (NumAlign(ver) * 4 - 4) * 2
  }

  /** The coordinate of row and column i of the alignment patterns. */
  function AlignAt(ver: Version, i: nat): int
    requires i < NumAlign(ver)
  {
    if i == 0 then 6 else Side(ver) - 7 - (NumAlign(ver) - 1 - i) * AlignStep(ver)
  }

  function AlignPositions(ver: Version): (r: seq<int>)
    ensures |r| == NumAlign(ver)
  {
    seq(NumAlign(ver), i requires 0 <= i < NumAlign(ver) => AlignAt(ver, i))
  }

  /** The three corners of the alignment lattice that a finder occupies. */
  predicate IsCorner(i: nat, j: nat, k: nat) {
    (i == 0 && j == 0) || (i == 0 && j == k - 1) || (i == k - 1 && j == 0)
  }

  /** c belongs to the alignment pattern in column i, row j of the lattice p. */
  predicate InAlign(c: Cell, p: seq<int>, i: nat, j: nat) {
    i < |p| && j < |p| && !IsCorner(i, j, |p|) && Dist(c, p[i], p[j]) <= 2
  }

  ghost predicate IsAlign(c: Cell, p: seq<int>) {
    exists i: nat, j: nat :: InAlign(c, p, i, j)
  }

  ghost predicate Reserved(c: Cell, ver: Version) {
    var n := Side(ver);
    IsTiming(c) || IsFinder(c, n) || FormatIndex(c, n) >= 0 || VersionIndex(c, ver) >= 0
    || IsAlign(c, AlignPositions(ver))
  }

  /** The `isFunction` matrix of a version. */
  ghost function FunctionModules(ver: Version): (r: Grid)
    ensures Square(r, Side(ver))
    ensures forall c | In(c, Side(ver)) :: At(r, Side(ver), c) == Reserved(c, ver)
  {
    var n := Side(ver);
    seq(n, y => seq(n, x => Reserved(Cell(x, y), ver)))
  }

  /** Alignment patterns lie inside the symbol. */
  lemma AlignInside(ver: Version, i: nat)
    requires i < NumAlign(ver)
    ensures 6 <= AlignAt(ver, i) <= Side(ver) - 7
  {
    if i > 0 {
      AlignFirst(ver);
      var s, m := AlignStep(ver), NumAlign(ver) - 1 - i;
      MulMonotone(0, m, s);
      MulMonotone(m, ver / 7, s);
    }
  }

  lemma AlignFirst(ver: Version)
    requires ver >= 2
    ensures AlignStep(ver) >= 12 && (ver / 7) * AlignStep(ver) <= Side(ver) - 25
  {
    if ver <= 20 {
      match ver {
        case 2 => case 3 => case 4 => case 5 => case 6 => case 7 => case 8 => case 9 => case 10 => case 11 =>
        case 12 => case 13 => case 14 => case 15 => case 16 => case 17 => case 18 => case 19 => case _ =>
      }
    } else {
      LargeAlignFirst(ver);
    }
  }

  lemma LargeAlignFirst(ver: Version)
    requires ver > 20
    ensures AlignStep(ver) >= 12 && (ver / 7) * AlignStep(ver) <= Side(ver) - 25
  {
    match ver {
      case 21 => case 22 => case 23 => case 24 => case 25 => case 26 => case 27 => case 28 => case 29 => case 30 =>
      case 31 => case 32 => case 33 => case 34 => case 35 => case 36 => case 37 => case 38 => case 39 => case _ =>
    }
  }

  lemma Multiples(a: nat, b: nat, s: nat)
    requires a < b
    ensures a * s + s <= b * s
  {
    MulMonotone(a + 1, b, s);
    assert (a + 1) * s == a * s + s;
  }

  lemma AlignApart(ver: Version, i: nat, j: nat)
    requires i < j < NumAlign(ver)
    ensures AlignAt(ver, j) - AlignAt(ver, i) >= 12
  {
    AlignFirst(ver);
    var k, s := NumAlign(ver), AlignStep(ver);
    if i > 0 {
      Multiples(k - 1 - j, k - 1 - i, s);
    } else if j > 1 {
      Multiples(k - 1 - j, ver / 7, s);
    }
  }

  /** A row or column is within reach of one line of alignment patterns only. */
  lemma SameLine(x: int, ver: Version, a: nat, i: nat)
    requires a < NumAlign(ver) && i < NumAlign(ver)
    requires Abs(x - AlignAt(ver, a)) <= 2 && Abs(x - AlignAt(ver, i)) <= 2
    ensures a == i
  {
    if a < i { AlignApart(ver, a, i); }
    if i < a { AlignApart(ver, i, a); }
  }

  /** A line of alignment patterns is the first, at 6, or at 18 or beyond; and it is the last, 7 from the
      edge, or 19 or more from it. */
  lemma LineAt(ver: Version, i: nat)
    requires i < NumAlign(ver)
    ensures if i == 0 then AlignAt(ver, i) == 6 else AlignAt(ver, i) >= 18
    ensures if i == NumAlign(ver) - 1 then AlignAt(ver, i) == Side(ver) - 7 else AlignAt(ver, i) <= Side(ver) - 19
  {
    var last := NumAlign(ver) - 1;
    if i > 0 { AlignApart(ver, 0, i); }
    if i < last { AlignApart(ver, i, last); }
  }

  /** The second line of alignment patterns, by version (Annex E of ISO/IEC 18004:2015). */
  function SecondLine(ver: Version): int
    requires ver >= 2
  {
    match ver
    case 2 => 18 case 3 => 22 case 4 => 26 case 5 => 30 case 6 => 34 case 7 => 22 case 8 => 24 case 9 => 26
    case 10 => 28 case 11 => 30 case 12 => 32 case 13 => 34 case 14 => 26 case 15 => 26 case 16 => 26 case 17 => 30
    case 18 => 30 case 19 => 30 case 20 => 34 case 21 => 28 case 22 => 26 case 23 => 30 case 24 => 28 case 25 => 32
    case 26 => 30 case 27 => 34 case 28 => 26 case 29 => 30 case 30 => 26 case 31 => 30 case 32 => 34 case 33 => 30
    case 34 => 34 case 35 => 30 case 36 => 24 case 37 => 28 case 38 => 32 case 39 => 26
    case _ => 30
  }

  /** The lines stand at 6, then at equal distances up to 7 from the edge, the second where the standard
      has it. */
  lemma StandardLines(ver: Version, i: nat)
    requires 1 <= i < NumAlign(ver)
    ensures AlignAt(ver, 0) == 6 && AlignAt(ver, NumAlign(ver) - 1) == Side(ver) - 7
    ensures AlignAt(ver, 1) == SecondLine(ver)
    ensures i + 1 < NumAlign(ver) ==> AlignAt(ver, i + 1) - AlignAt(ver, i) == AlignStep(ver)
  {
    if ver <= 11 {
      SecondLine11(ver);
    } else if ver <= 20 {
      SecondLine20(ver);
    } else if ver <= 25 {
      SecondLine25(ver);
    } else if ver <= 30 {
      SecondLine30(ver);
    } else if ver <= 35 {
      SecondLine35(ver);
    } else {
      SecondLine40(ver);
    }
    if i + 1 < NumAlign(ver) { OneStep(NumAlign(ver) - 2 - i, AlignStep(ver)); }
  }

  lemma OneStep(k: nat, s: nat)
    ensures (k + 1) * s - k * s == s
  {}

  lemma SecondLine11(ver: Version)
    requires 2 <= ver <= 11
    ensures AlignAt(ver, 1) == SecondLine(ver)
  {
    match ver { case 2 => case 3 => case 4 => case 5 => case 6 => case 7 => case 8 => case 9 => case 10 => case _ => }
  }

  lemma SecondLine20(ver: Version)
    requires 12 <= ver <= 20
    ensures AlignAt(ver, 1) == SecondLine(ver)
  {
    match ver { case 12 => case 13 => case 14 => case 15 => case 16 => case 17 => case 18 => case 19 => case _ => }
  }

  lemma SecondLine25(ver: Version)
    requires 21 <= ver <= 25
    ensures AlignAt(ver, 1) == SecondLine(ver)
  {
    match ver { case 21 => case 22 => case 23 => case 24 => case _ => }
  }

  lemma SecondLine30(ver: Version)
    requires 26 <= ver <= 30
    ensures AlignAt(ver, 1) == SecondLine(ver)
  {
    match ver { case 26 => case 27 => case 28 => case 29 => case _ => }
  }

  lemma SecondLine35(ver: Version)
    requires 31 <= ver <= 35
    ensures AlignAt(ver, 1) == SecondLine(ver)
  {
    match ver { case 31 => case 32 => case 33 => case 34 => case _ => }
  }

  lemma SecondLine40(ver: Version)
    requires 36 <= ver <= 40
    ensures AlignAt(ver, 1) == SecondLine(ver)
  {
    match ver { case 36 => case 37 => case 38 => case 39 => case _ => }
  }
}
