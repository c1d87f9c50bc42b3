/** The QR encoder object (client/js/qr.js:77-334) and `encodeText` (client/js/qr.js:341-367). */
module QrEncoder {
  import opened Numbers
  import opened Bytes
  import opened Grids
  import opened Tables
  import opened Layout
  import opened Format
  import opened Masks
  import opened Symbol
  import opened Patterns
  import I = Interleave
  import P = Placement
  import opened Options
  import S = Segment
  import Bch
  import Penalty

  class QrCode {
    const version: Version
    const ecl: Ecc
    const size: nat
    var modules: Grid
    var isFunction: Grid
    var mask: int
    /** The matrix as `drawCodewords` left it, and the function patterns it was drawn over. */
    ghost var layer: Grid
    ghost var patterns: Grid

    predicate Valid()
      reads this
    {
      size == Side(version) && Square(modules, size) && Square(isFunction, size)
    }

    // ---- Function patterns ----

    method SetFunctionModule(x: int, y: int, isDark: bool)
      requires Valid() && In(Cell(x, y), size)
      modifies `modules, `isFunction
      ensures Valid()
      ensures modules == Put(old(modules), size, Cell(x, y), isDark)
      ensures isFunction == Put(old(isFunction), size, Cell(x, y), true)
    {
      modules := Put(modules, size, Cell(x, y), isDark);
      isFunction := Put(isFunction, size, Cell(x, y), true);
    }

    method DrawTiming()
      requires Valid()
      modifies `modules, `isFunction
      ensures Valid()
      ensures forall c | In(c, size) :: At(isFunction, size, c) == (old(At(isFunction, size, c)) || IsTiming(c))
      ensures forall c | In(c, size) :: At(modules, size, c) == Timed(c, size, old(At(modules, size, c)))
    {
      for i := 0 to size
        invariant Valid()
        invariant forall c | In(c, size) ::
                  At(isFunction, size, c) == (old(At(isFunction, size, c)) || TimingDone(c, i))
        invariant forall c | In(c, size) :: At(modules, size, c) == Timed(c, i, old(At(modules, size, c)))
      {
        SetFunctionModule(6, i, i % 2 == 0);
        SetFunctionModule(i, 6, i % 2 == 0);
      }
    }

    /** The timing modules set by the first n rounds. */
    static predicate TimingDone(c: Cell, n: nat) {
      (c.x == 6 && c.y < n) || (c.y == 6 && c.x < n)
    }

    /** Timing modules alternate, dark on even coordinates. */
    static predicate Timed(c: Cell, n: nat, was: bool) {
      if TimingDone(c, n) then (c.x + c.y) % 2 == 0 else was
    }

    /** A 9x9 square around (x, y), clipped to the symbol, with light rings at distance 2 and 4. */
    method DrawFinderPattern(x: int, y: int)
      requires Valid()
      modifies `modules, `isFunction
      ensures Valid()
      ensures forall c | In(c, size) :: At(isFunction, size, c) == (old(At(isFunction, size, c)) || Dist(c, x, y) <= 4)
      ensures forall c | In(c, size) :: At(modules, size, c) == Finder(c, x, y, 5, -4, old(At(modules, size, c)))
    {
      for dy := -4 to 5
        invariant Valid()
        invariant forall c | In(c, size) ::
                  At(isFunction, size, c) == (old(At(isFunction, size, c)) || Swept(c, x, y, 4, dy, -4))
        invariant forall c | In(c, size) :: At(modules, size, c) == Finder(c, x, y, dy, -4, old(At(modules, size, c)))
      {
        for dx := -4 to 5
          invariant Valid()
          invariant forall c | In(c, size) ::
                    At(isFunction, size, c) == (old(At(isFunction, size, c)) || Swept(c, x, y, 4, dy, dx))
          invariant forall c | In(c, size) :: At(modules, size, c) == Finder(c, x, y, dy, dx, old(At(modules, size, c)))
        {
          var dist := Max(Abs(dx), Abs(dy));
          var xx, yy := x + dx, y + dy;
          if xx >= 0 && xx < size && yy >= 0 && yy < size {
            SetFunctionModule(xx, yy, dist != 2 && dist != 4);
          }
        }
      }
    }

    /** The cells of the (2r+1)-square around (x, y) before offset (dx, dy) in row order. */
    static predicate Swept(c: Cell, x: int, y: int, r: nat, dy: int, dx: int) {
      Dist(c, x, y) <= r && (c.y - y < dy || (c.y - y == dy && c.x - x < dx))
    }

    static predicate Finder(c: Cell, x: int, y: int, dy: int, dx: int, was: bool) {
      if Swept(c, x, y, 4, dy, dx) then Dist(c, x, y) != 2 && Dist(c, x, y) != 4 else was
    }

    static predicate Alignment(c: Cell, x: int, y: int, dy: int, dx: int, was: bool) {
      if Swept(c, x, y, 2, dy, dx) then Dist(c, x, y) != 1 else was
    }

    method DrawAlignmentPattern(x: int, y: int)
      requires Valid() && 2 <= x < size - 2 && 2 <= y < size - 2
      modifies `modules, `isFunction
      ensures Valid()
      ensures forall c | In(c, size) :: At(isFunction, size, c) == (old(At(isFunction, size, c)) || Dist(c, x, y) <= 2)
      ensures forall c | In(c, size) :: At(modules, size, c) == Alignment(c, x, y, 3, -2, old(At(modules, size, c)))
    {
      for dy := -2 to 3
        invariant Valid()
        invariant forall c | In(c, size) ::
                  At(isFunction, size, c) == (old(At(isFunction, size, c)) || Swept(c, x, y, 2, dy, -2))
        invariant forall c | In(c, size) ::
                  At(modules, size, c) == Alignment(c, x, y, dy, -2, old(At(modules, size, c)))
      {
        for dx := -2 to 3
          invariant Valid()
          invariant forall c | In(c, size) ::
                    At(isFunction, size, c) == (old(At(isFunction, size, c)) || Swept(c, x, y, 2, dy, dx))
          invariant forall c | In(c, size) ::
                    At(modules, size, c) == Alignment(c, x, y, dy, dx, old(At(modules, size, c)))
        {
          SetFunctionModule(x + dx, y + dy, Max(Abs(dx), Abs(dy)) != 1);
        }
      }
    }

    method GetAlignmentPatternPositions() returns (result: seq<int>)
      requires size == Side(version)
      ensures result == AlignPositions(version)
    {
      if version == 1 { return []; }
      var numAlign := version / 7 + 2;
      var step := (version * 8 + numAlign * 3 + 5) / (numAlign * 4 - 4) * 2;
      result := [6];
      var pos := size - 7;
      while |result| < numAlign
        invariant 1 <= |result| <= numAlign && result[0] == 6
        invariant pos == size - 7 - (|result| - 1) * step
        invariant forall t :: 0 < t < |result| ==> result[t] == AlignAt(version, numAlign - |result| + t)
        decreases numAlign - |result|
      {
        result := result[..1] + [pos] + result[1..];
        pos := pos - step;
      }
    }

    /** The alignment patterns drawn by the rounds before (i, j). */
    static ghost predicate AlignDone(c: Cell, p: seq<int>, i: nat, j: nat) {
      exists a: nat, b: nat :: InAlign(c, p, a, b) && (a < i || (a == i && b < j))
    }

    static lemma AlignRound(c: Cell, p: seq<int>, i: nat, j: nat)
      requires i < |p| && j < |p|
      ensures AlignDone(c, p, i, j + 1) <==> AlignDone(c, p, i, j) || InAlign(c, p, i, j)
      ensures AlignDone(c, p, i, |p|) <==> AlignDone(c, p, i + 1, 0)
    {}

    static ghost predicate Aligned(c: Cell, p: seq<int>, i: nat, j: nat, was: bool) {
      if AlignDone(c, p, i, j) then AlignDark(c, p) else was
    }

    method DrawAlignmentPatterns()
      requires Valid()
      modifies `modules, `isFunction
      ensures Valid()
      ensures forall c | In(c, size) ::
                At(isFunction, size, c) == (old(At(isFunction, size, c)) || IsAlign(c, AlignPositions(version)))
      ensures forall c | In(c, size) ::
                At(modules, size, c) == AlignShown(c, AlignPositions(version), old(At(modules, size, c)))
    {
      var alignPatPos := GetAlignmentPatternPositions();
      var numAlign := |alignPatPos|;
      for i := 0 to numAlign
        invariant Valid()
        invariant forall c | In(c, size) ::
                  At(isFunction, size, c) == (old(At(isFunction, size, c)) || AlignDone(c, alignPatPos, i, 0))
        invariant forall c | In(c, size) ::
                  At(modules, size, c) == Aligned(c, alignPatPos, i, 0, old(At(modules, size, c)))
      {
        for j := 0 to numAlign
          invariant Valid()
          invariant forall c | In(c, size) ::
                    At(isFunction, size, c) == (old(At(isFunction, size, c)) || AlignDone(c, alignPatPos, i, j))
          invariant forall c | In(c, size) ::
                    At(modules, size, c) == Aligned(c, alignPatPos, i, j, old(At(modules, size, c)))
        {
          DrawAlignmentRound(i, j, alignPatPos);
          forall c { AlignRound(c, alignPatPos, i, j); }
        }
      }
    }

    static ghost predicate Round(c: Cell, p: seq<int>, i: nat, j: nat, was: bool) {
      if InAlign(c, p, i, j) then AlignDark(c, p) else was
    }

    /** Round (i, j) of the two loops. */
    method DrawAlignmentRound(i: nat, j: nat, alignPatPos: seq<int>)
      requires Valid() && alignPatPos == AlignPositions(version) && i < |alignPatPos| && j < |alignPatPos|
      modifies `modules, `isFunction
      ensures Valid()
      ensures forall c | In(c, size) ::
                At(isFunction, size, c) == (old(At(isFunction, size, c)) || InAlign(c, alignPatPos, i, j))
      ensures forall c | In(c, size) :: At(modules, size, c) == Round(c, alignPatPos, i, j, old(At(modules, size, c)))
    {
      var numAlign := |alignPatPos|;
      if !((i == 0 && j == 0) || (i == 0 && j == numAlign - 1) || (i == numAlign - 1 && j == 0)) {
        AlignInside(version, i);
        AlignInside(version, j);
        DrawAlignmentPattern(alignPatPos[i], alignPatPos[j]);
        forall c | In(c, size) && InAlign(c, alignPatPos, i, j) { AlignColour(c, version, i, j); }
      }
    }

    // ---- Format and version areas ----

    /** The first copy with bits from .. i-1 drawn. */
    static predicate Copy1(c: Cell, from: nat, i: int, bits: nat, was: bool) {
      if from <= FormatIndex1(c) < i then Bit(bits, FormatIndex1(c)) else was
    }

    /** The second copy with bits 0 .. i-1 drawn; index 15 is the dark module. */
    static predicate Copy2(c: Cell, n: nat, i: int, bits: nat, was: bool) {
      var k := FormatIndex2(c, n);
      if 0 <= k < i then k == DARK_MODULE || Bit(bits, k) else was
    }

    /** Bits 0 to 8: down column 8, around the corner. */
    method DrawFormatColumn(bits: nat)
      requires Valid()
      modifies `modules, `isFunction
      ensures Valid()
      ensures forall c | In(c, size) ::
                At(isFunction, size, c) == (old(At(isFunction, size, c)) || 0 <= FormatIndex1(c) < 9)
      ensures forall c | In(c, size) :: At(modules, size, c) == Copy1(c, 0, 9, bits, old(At(modules, size, c)))
    {
      for i := 0 to 6
        invariant Valid()
        invariant forall c | In(c, size) ::
                  At(isFunction, size, c) == (old(At(isFunction, size, c)) || 0 <= FormatIndex1(c) < i)
        invariant forall c | In(c, size) :: At(modules, size, c) == Copy1(c, 0, i, bits, old(At(modules, size, c)))
      {
        SetFunctionModule(8, i, Bit(bits, i));
      }
      SetFunctionModule(8, 7, Bit(bits, 6));
      SetFunctionModule(8, 8, Bit(bits, 7));
      SetFunctionModule(7, 8, Bit(bits, 8));
    }

    /** Bits 9 to 14: along row 8 to the left. */
    method DrawFormatRow(bits: nat)
      requires Valid()
      modifies `modules, `isFunction
      ensures Valid()
      ensures forall c | In(c, size) ::
                At(isFunction, size, c) == (old(At(isFunction, size, c)) || 9 <= FormatIndex1(c) < 15)
      ensures forall c | In(c, size) :: At(modules, size, c) == Copy1(c, 9, 15, bits, old(At(modules, size, c)))
    {
      for i := 9 to 15
        invariant Valid()
        invariant forall c | In(c, size) ::
                  At(isFunction, size, c) == (old(At(isFunction, size, c)) || 9 <= FormatIndex1(c) < i)
        invariant forall c | In(c, size) :: At(modules, size, c) == Copy1(c, 9, i, bits, old(At(modules, size, c)))
      {
        SetFunctionModule(14 - i, 8, Bit(bits, i));
      }
    }

    method DrawFormatCopy2(bits: nat)
      requires Valid()
      modifies `modules, `isFunction
      ensures Valid()
      ensures forall c | In(c, size) ::
                At(isFunction, size, c) == (old(At(isFunction, size, c)) || FormatIndex2(c, size) >= 0)
      ensures forall c | In(c, size) :: At(modules, size, c) == Copy2(c, size, 16, bits, old(At(modules, size, c)))
    {
      for i := 0 to 8
        invariant Valid()
        invariant forall c | In(c, size) ::
                  At(isFunction, size, c) == (old(At(isFunction, size, c)) || 0 <= FormatIndex2(c, size) < i)
        invariant forall c | In(c, size) :: At(modules, size, c) == Copy2(c, size, i, bits, old(At(modules, size, c)))
      {
        SetFunctionModule(size - 1 - i, 8, Bit(bits, i));
      }
      for i := 8 to 15
        invariant Valid()
        invariant forall c | In(c, size) ::
                  At(isFunction, size, c) == (old(At(isFunction, size, c)) || 0 <= FormatIndex2(c, size) < i)
        invariant forall c | In(c, size) :: At(modules, size, c) == Copy2(c, size, i, bits, old(At(modules, size, c)))
      {
        SetFunctionModule(8, size - 15 + i, Bit(bits, i));
      }
      SetFunctionModule(8, size - 8, true);
    }

    /** Draws the 15 format bits twice, and the dark module. */
    method DrawFormatBits(msk: nat)
      requires Valid() && msk < 8
      modifies `modules, `isFunction
      ensures Valid()
      ensures forall c | In(c, size) ::
                At(isFunction, size, c) == (old(At(isFunction, size, c)) || FormatIndex(c, size) >= 0)
      ensures modules == WithFormat(old(modules), size, FormatBits(ecl, msk))
    {
      var bits := ComputeFormatBits(ecl, msk);
      DrawFormatColumn(bits);
      DrawFormatRow(bits);
      DrawFormatCopy2(bits);
      SameCells(modules, WithFormat(old(modules), size, bits), size);
    }

    static method ComputeFormatBits(ecl: Ecc, msk: nat) returns (bits: nat)
      requires msk < 8
      ensures bits == FormatBits(ecl, msk)
    {
      var data := Or(Shl(FormatOf(ecl), 3), msk);
      FormatDataBits(ecl, msk);
      bits := Bch.Encode(data, FORMAT_DEGREE, FORMAT_GENERATOR);
      bits := Xor(bits, FORMAT_MASK);
    }

    static lemma FormatDataBits(ecl: Ecc, msk: nat)
      requires msk < 8
      ensures Or(Shl(FormatOf(ecl), 3), msk) == FormatData(ecl, msk)
    {
      OrAdds(FormatOf(ecl), 3, msk);
    }

    static predicate Versioned(c: Cell, ver: Version, i: int, bits: nat, was: bool) {
      if 0 <= VersionIndex(c, ver) < i then Bit(bits, VersionIndex(c, ver)) else was
    }

    /** Bit i of the version goes to two modules, mirror images of each other. */
    static lemma VersionCells(c: Cell, ver: Version, i: nat)
      requires ver >= 7 && i < 18
      ensures VersionIndex(c, ver) == i <==>
        c == Cell(Side(ver) - 11 + i % 3, i / 3) || c == Cell(i / 3, Side(ver) - 11 + i % 3)
    {}

    method DrawVersion()
      requires Valid()
      modifies `modules, `isFunction
      ensures Valid()
      ensures forall c | In(c, size) ::
                At(isFunction, size, c) == (old(At(isFunction, size, c)) || VersionIndex(c, version) >= 0)
      ensures forall c | In(c, size) ::
                At(modules, size, c) == Versioned(c, version, 18, VersionBits(version), old(At(modules, size, c)))
    {
      if version < 7 { return; }
      var bits := Bch.Encode(version, VERSION_DEGREE, VERSION_GENERATOR);
      for i := 0 to 18
        invariant Valid()
        invariant forall c | In(c, size) ::
                  At(isFunction, size, c) == (old(At(isFunction, size, c)) || 0 <= VersionIndex(c, version) < i)
        invariant forall c | In(c, size) ::
                  At(modules, size, c) == Versioned(c, version, i, bits, old(At(modules, size, c)))
      {
        var color := Bit(bits, i);
        var a, b := size - 11 + i % 3, i / 3;
        forall c { VersionCells(c, version, i); }
        SetFunctionModule(a, b, color);
        SetFunctionModule(b, a, color);
      }
    }

    /** Timing and finder patterns. */
    method DrawBase()
      requires Valid() && isFunction == Blank(size) && modules == Blank(size)
      modifies `modules, `isFunction
      ensures Valid()
      ensures forall c | In(c, size) :: At(isFunction, size, c) == (IsTiming(c) || IsFinder(c, size))
      ensures forall c | In(c, size) :: At(modules, size, c) == BaseDark(c, size)
    {
      DrawTiming();
      DrawFinderPattern(3, 3);
      DrawFinderPattern(size - 4, 3);
      DrawFinderPattern(3, size - 4);
    }

    method DrawFunctionPatterns()
      requires Valid() && isFunction == Blank(size) && modules == Blank(size)
      modifies `modules, `isFunction
      ensures Valid() && isFunction == FunctionModules(version)
      ensures ShowsPatterns(modules, version, ecl, 0) && LightElsewhere(modules, version)
    {
      DrawBase();
      DrawAlignmentPatterns();
      DrawFormatBits(0);
      DrawVersion();
      SameCells(isFunction, FunctionModules(version), size);
    }

    // ---- Codewords ----

    /** The cells a strip still has to visit in row step vert, from column j on. */
    static function RowRest(right: nat, vert: nat, j: nat, n: nat): seq<Cell>
      requires vert < n && j <= 2
    {
      var y := P.RowOf(right, vert, n);
      [Cell(right, y), Cell(right - 1, y)][j..] + P.WalkRest(right, vert + 1, n)
    }

    static lemma FreeStep(c: Cell, rest: seq<Cell>, reserved: Grid, n: nat)
      requires Square(reserved, n)
      ensures P.Free([c] + rest, reserved, n)
           == if In(c, n) && !At(reserved, n, c) then [c] + P.Free(rest, reserved, n) else P.Free(rest, reserved, n)
    {
      assert ([c] + rest)[1..] == rest;
    }

    /** What remains to be done from here: bits i, i+1, ... into the free cells of `rest`. */
    static function PlaceRest(g: Grid, reserved: Grid, n: nat, rest: seq<Cell>, bits: seq<bool>, i: nat): (r: Grid)
      requires Square(g, n) && Square(reserved, n) && i <= |bits|
    {
      P.FreeMembers(rest, reserved, n);
      P.PlaceBits(g, n, P.Free(rest, reserved, n), bits[i..])
    }

    /** The innermost loop body: one module, if it is free and there are bits left. */
    method PlaceModule(x: nat, y: nat, data: seq<Byte>, i: nat, ghost rest: seq<Cell>) returns (i': nat)
      requires Valid() && In(Cell(x, y), size) && i <= 8 * |data|
      modifies `modules
      ensures Valid() && i' <= 8 * |data|
      ensures PlaceRest(modules, isFunction, size, rest, S.ByteBits(data), i')
           == old(PlaceRest(modules, isFunction, size, [Cell(x, y)] + rest, S.ByteBits(data), i))
    {
      i' := i;
      FreeStep(Cell(x, y), rest, isFunction, size);
      P.FreeMembers(rest, isFunction, size);
      if !isFunction[y][x] && i < |data| * 8 {
        assert S.ByteBits(data)[i] == Bit(data[i / 8], 7 - i % 8);
        modules := Put(modules, size, Cell(x, y), Bit(data[i / 8], 7 - i % 8));
        i' := i + 1;
      }
    }

    method DrawCodewords(data: seq<Byte>)
      requires Valid()
      modifies `modules
      ensures Valid()
      ensures modules == old(PlaceRest(modules, isFunction, size, P.Walk(size), S.ByteBits(data), 0))
    {
      var i: nat := 0;
      ghost var bits := S.ByteBits(data);
      ghost var goal := PlaceRest(modules, isFunction, size, P.Walk(size), bits, 0);
      var right: int := size - 1;
      while right >= 1
        invariant Valid() && i <= |bits| && -1 <= right < size
        invariant goal
               == PlaceRest(modules, isFunction, size, P.WalkRest(if right == 6 then 5 else right, 0, size), bits, i)
        decreases right
      {
        if right == 6 { right := 5; }
        for vert := 0 to size
          invariant Valid() && i <= |bits|
          invariant goal == PlaceRest(modules, isFunction, size, P.WalkRest(right, vert, size), bits, i)
        {
          i := PlaceRow(right, vert, data, i);
        }
        right := right - 2;
      }
    }

    method PlaceRow(right: nat, vert: nat, data: seq<Byte>, i: nat) returns (i': nat)
      requires Valid() && 1 <= right < size && vert < size && i <= 8 * |data|
      modifies `modules
      ensures Valid() && i' <= 8 * |data|
      ensures PlaceRest(modules, isFunction, size, P.WalkRest(right, vert + 1, size), S.ByteBits(data), i')
           == old(PlaceRest(modules, isFunction, size, P.WalkRest(right, vert, size), S.ByteBits(data), i))
    {
      i' := i;
      RowStartsAndEnds(right, vert, size);
      for j := 0 to 2
        invariant Valid() && i' <= 8 * |data|
        invariant PlaceRest(modules, isFunction, size, RowRest(right, vert, j, size), S.ByteBits(data), i')
               == old(PlaceRest(modules, isFunction, size, RowRest(right, vert, 0, size), S.ByteBits(data), i))
      {
        i' := PlaceAt(right, vert, j, data, i');
      }
    }

    static lemma RowStartsAndEnds(right: nat, vert: nat, n: nat)
      requires 1 <= right && vert < n
      ensures RowRest(right, vert, 0, n) == P.WalkRest(right, vert, n)
      ensures RowRest(right, vert, 2, n) == P.WalkRest(right, vert + 1, n)
    {}

    method PlaceAt(right: nat, vert: nat, j: nat, data: seq<Byte>, i: nat) returns (i': nat)
      requires Valid() && 1 <= right < size && vert < size && j < 2 && i <= 8 * |data|
      modifies `modules
      ensures Valid() && i' <= 8 * |data|
      ensures PlaceRest(modules, isFunction, size, RowRest(right, vert, j + 1, size), S.ByteBits(data), i')
           == old(PlaceRest(modules, isFunction, size, RowRest(right, vert, j, size), S.ByteBits(data), i))
    {
      var x := right - j;
      var upward := (right + 1) / 2 % 2 == 0;
      var y := if upward then size - 1 - vert else vert;
      assert RowRest(right, vert, j, size) == [Cell(x, y)] + RowRest(right, vert, j + 1, size);
      i' := PlaceModule(x, y, data, i, RowRest(right, vert, j + 1, size));
    }

    // ---- Masks ----

    /** Before (x, y) in row order. */
    static predicate Passed(c: Cell, x: int, y: int) {
      c.y < y || (c.y == y && c.x < x)
    }

    method ApplyMask(msk: int)
      requires Valid()
      modifies `modules
      ensures Valid() && modules == Masked(old(modules), isFunction, size, msk)
    {
      ghost var goal := Masked(modules, isFunction, size, msk);
      for y := 0 to size
        invariant Valid()
        invariant forall c | In(c, size) ::
                  At(modules, size, c) == if c.y < y then At(goal, size, c) else old(At(modules, size, c))
      {
        for x := 0 to size
          invariant Valid()
          invariant forall c | In(c, size) ::
                    At(modules, size, c) == if Passed(c, x, y) then At(goal, size, c) else old(At(modules, size, c))
        {
          var invert := Inverts(msk, x, y);
          assert At(goal, size, Cell(x, y))
              == (At(modules, size, Cell(x, y)) != (!At(isFunction, size, Cell(x, y)) && invert));
          if !isFunction[y][x] && invert {
            modules := Put(modules, size, Cell(x, y), !modules[y][x]);
          }
        }
      }
      SameCells(modules, goal, size);
    }

    static method AddEccAndInterleave(version: Version, ecl: Ecc, data: seq<Byte>) returns (result: seq<Byte>)
      requires |data| == PlanOf(version, ecl).DataTotal()
      ensures result == I.Interleaved(PlanOf(version, ecl), data)
    {
      PlanIsMade(version, ecl);
      var rawCodewords := NumRawDataModules(version) / 8;
      result := I.AddEccAndInterleave(data, NumBlocks(version, ecl), EccPerBlock(version, ecl), rawCodewords);
    }

    /** Draws the symbol of the given data codewords, under the given mask or, for -1, under the
        mask of least penalty. */
    constructor (version: Version, ecl: Ecc, dataCodewords: seq<Byte>, msk: int)
      requires |dataCodewords| == PlanOf(version, ecl).DataTotal() && -1 <= msk < 8
      ensures this.version == version && this.ecl == ecl && size == Side(version)
      ensures Square(patterns, size) && ShowsPatterns(patterns, version, ecl, 0) && LightElsewhere(patterns, version)
      ensures layer == Layer(patterns, version, I.Interleaved(PlanOf(version, ecl), dataCodewords))
      ensures 0 <= mask < 8 && modules == Candidate(layer, version, ecl, mask)
      ensures if msk == -1 then FirstBest(layer, version, ecl, mask) else mask == msk
    {
      this.version, this.ecl, this.size := version, ecl, Side(version);
      this.modules, this.isFunction := Blank(Side(version)), Blank(Side(version));
      this.mask, this.layer, this.patterns := -1, [], [];
      new;
      Draw(dataCodewords, msk);
    }

    method Draw(dataCodewords: seq<Byte>, msk: int)
      requires Valid() && isFunction == Blank(size) && modules == Blank(size)
      requires |dataCodewords| == PlanOf(version, ecl).DataTotal() && -1 <= msk < 8
      modifies this
      ensures Square(patterns, size) && ShowsPatterns(patterns, version, ecl, 0) && LightElsewhere(patterns, version)
      ensures layer == Layer(patterns, version, I.Interleaved(PlanOf(version, ecl), dataCodewords))
      ensures 0 <= mask < 8 && modules == Candidate(layer, version, ecl, mask)
      ensures if msk == -1 then FirstBest(layer, version, ecl, mask) else mask == msk
    {
      DrawData(dataCodewords);
      ApplyBestMask(msk);
    }

    /** Everything up to the mask: function patterns, then the codewords. */
    method DrawData(dataCodewords: seq<Byte>)
      requires Valid() && isFunction == Blank(size) && modules == Blank(size)
      requires |dataCodewords| == PlanOf(version, ecl).DataTotal()
      modifies this
      ensures Trial() && Square(patterns, size)
      ensures ShowsPatterns(patterns, version, ecl, 0) && LightElsewhere(patterns, version)
      ensures layer == Layer(patterns, version, I.Interleaved(PlanOf(version, ecl), dataCodewords))
    {
      DrawFunctionPatterns();
      patterns := modules;
      var allCodewords := AddEccAndInterleave(version, ecl, dataCodewords);
      DrawLayer(allCodewords);
    }

    method DrawLayer(allCodewords: seq<Byte>)
      requires Valid() && isFunction == FunctionModules(version)
      modifies `modules, `layer
      ensures Trial() && modules == layer == Layer(old(modules), version, allCodewords)
    {
      LayerDrawn(modules, version, allCodewords);
      DrawCodewords(allCodewords);
      layer := modules;
    }

    method ApplyBestMask(msk: int)
      requires Trial() && -1 <= msk < 8
      modifies `modules, `isFunction, `mask
      ensures 0 <= mask < 8 && modules == Candidate(layer, version, ecl, mask) && isFunction == []
      ensures if msk == -1 then FirstBest(layer, version, ecl, mask) else mask == msk
    {
      mask := msk;
      if mask == -1 {
        mask := ChooseMask();
      }
      CandidateFrom(modules, layer, isFunction, size, mask, FormatBits(ecl, mask));
      ApplyMask(mask);
      DrawFormatBits(mask);
      isFunction := [];
    }

    static lemma LayerDrawn(patterns: Grid, ver: Version, codewords: seq<Byte>)
      requires Square(patterns, Side(ver))
      ensures PlaceRest(patterns, FunctionModules(ver), Side(ver), P.Walk(Side(ver)), S.ByteBits(codewords), 0)
           == Layer(patterns, ver, codewords)
    {
      assert S.ByteBits(codewords)[0..] == S.ByteBits(codewords);
    }

    ghost predicate Trial()
      reads this
    {
      Valid() && isFunction == FunctionModules(version) && Square(layer, size) && SameOffFormat(modules, layer, size)
    }

    /** The loop that tries all eight masks, undoing each. */
    method ChooseMask() returns (msk: int)
      requires Trial()
      modifies `modules, `isFunction
      ensures Trial() && FirstBest(layer, version, ecl, msk)
    {
      msk := -1;
      ghost var scores := MaskPenalties(layer, version, ecl);
      var minPenalty: Option<int> := None;
      for i := 0 to 8
        invariant Trial() && scores == MaskPenalties(layer, version, ecl)
        invariant i == 0 <==> minPenalty.None?
        invariant i > 0 ==> FirstMin(scores, msk, i) && minPenalty.value == scores[msk]
      {
        FirstMinStep(scores, msk, i);
        var penalty := TryMask(i);
        assert penalty == scores[i];
        if minPenalty.None? || penalty < minPenalty.value {
          msk := i;
          minPenalty := Some(penalty);
        }
      }
    }

    /** One trial: mask, draw the format bits, score, and undo. */
    method TryMask(i: nat) returns (penalty: int)
      requires Trial() && i < 8
      modifies `modules, `isFunction
      ensures Trial() && penalty == MaskPenalty(layer, version, ecl, i)
    {
      ghost var was := modules;
      DrawTrial(i);
      penalty := Penalty.GetPenaltyScore(modules, size);
      UndoTrial(i, was);
    }

    method UndoTrial(i: nat, ghost was: Grid)
      requires Valid() && isFunction == FunctionModules(version) && i < 8
      requires Square(layer, size) && Square(was, size) && SameOffFormat(was, layer, size)
      requires modules == WithFormat(Masked(was, isFunction, size, i), size, FormatBits(ecl, i))
      modifies `modules
      ensures Trial()
    {
      TrialUndone(was, layer, isFunction, size, i, FormatBits(ecl, i));
      ApplyMask(i);
    }

    method DrawTrial(i: nat)
      requires Trial() && i < 8
      modifies `modules, `isFunction
      ensures Valid() && isFunction == old(isFunction)
      ensures modules == Candidate(layer, version, ecl, i)
      ensures modules == WithFormat(Masked(old(modules), isFunction, size, i), size, FormatBits(ecl, i))
    {
      CandidateFrom(modules, layer, isFunction, size, i, FormatBits(ecl, i));
      ghost var f := isFunction;
      ApplyMask(i);
      DrawFormatBits(i);
      assert isFunction == f by { SameCells(isFunction, f, size); }
    }

    /** This is the finished symbol of these bytes: of the smallest version they fit; its modules are
        their codewords, placed over the function patterns, under the first mask of least penalty;
        every function module has its colour; and reading the modules gives the bytes back. */
    ghost predicate Encodes(bytes: seq<Byte>)
      reads this
    {
      && size == Side(version) && Square(modules, size) && Square(layer, size) && Square(patterns, size)
      && S.Fits(|bytes|, version, ecl) && (forall v: Version :: v < version ==> !S.Fits(|bytes|, v, ecl))
      && layer == Layer(patterns, version, I.Interleaved(PlanOf(version, ecl), EncodedData(bytes, version, ecl)))
      && 0 <= mask < 8 && modules == Candidate(layer, version, ecl, mask) && FirstBest(layer, version, ecl, mask)
      && ShowsPatterns(patterns, version, ecl, 0) && LightElsewhere(patterns, version)
      && ShowsPatterns(modules, version, ecl, mask)
      && ReadSymbol(modules, size) == Some(bytes)
    }

    method GetModule(x: int, y: int) returns (dark: bool)
      requires Square(modules, size)
      ensures dark == (In(Cell(x, y), size) && At(modules, size, Cell(x, y)))
    {
      dark := x >= 0 && x < size && y >= 0 && y < size && modules[y][x];
    }
  }

  /** Bytes and level determine the finished symbol. */
  lemma SymbolDetermined(a: QrCode, b: QrCode, bytes: seq<Byte>)
    requires a.Encodes(bytes) && b.Encodes(bytes) && a.ecl == b.ecl
    ensures a.version == b.version && a.mask == b.mask && a.modules == b.modules
  {
    assert !(a.version < b.version) && !(b.version < a.version);
    PatternsDetermined(a.patterns, b.patterns, a.version, a.ecl);
    assert a.layer == b.layer;
    FirstMinUnique(MaskPenalties(a.layer, a.version, a.ecl), a.mask, b.mask, 8);
  }

  lemma FirstMinUnique(scores: seq<int>, a: int, b: int, n: nat)
    requires FirstMin(scores, a, n) && FirstMin(scores, b, n)
    ensures a == b
  {
    assert scores[a] <= scores[b] && scores[b] <= scores[a];
  }

  datatype EncodeError = DataTooLong

  /** Encodes a byte string: in the smallest version it fits, under the best mask, so that a reader
      of the finished modules gets exactly the bytes back. It fails only if no version fits. */
  method EncodeText(bytes: seq<Byte>, ecl: Ecc) returns (r: Result<QrCode, EncodeError>)
    ensures r.Err? <==> forall v: Version :: !S.Fits(|bytes|, v, ecl)
    ensures r.Ok? ==> fresh(r.value) && r.value.ecl == ecl && r.value.Encodes(bytes)
  {
    var found := S.FindVersion(|bytes|, ecl);
    if found.None? { return Err(DataTooLong); }
    var version := found.value;
    S.FitsRoom(|bytes|, version, ecl);
    var dataCodewords := S.BuildCodewords(bytes, S.CountBits(version), S.Capacity(version, ecl));
    assert dataCodewords == EncodedData(bytes, version, ecl);
    var qr := new QrCode(version, ecl, dataCodewords, -1);
    SymbolReadBack(qr.patterns, version, ecl, qr.mask, bytes);
    FinishedShowsPatterns(qr.patterns, version, ecl, qr.mask, I.Interleaved(PlanOf(version, ecl), dataCodewords));
    r := Ok(qr);
  }
}
