/** What a finished symbol is, as a function of its codeword layer, and how a reader gets the bytes
    back from the modules alone. */
module Symbol {
  import opened Numbers
  import opened Bytes
  import opened Grids
  import opened Tables
  import opened Layout
  import FreeModules
  import opened Format
  import opened Masks
  import I = Interleave
  import P = Placement
  import opened Options
  import S = Segment
  import Penalty

  // ---- The block structure of a version ----

  /** The block structure with the table's numbers that fills the symbol exactly. */
  ghost predicate IsPlanOf(p: I.Plan, ver: Version, ecl: Ecc) {
    && p.Valid()
    && p.blocks == NumBlocks(ver, ecl) && p.ecc == EccPerBlock(ver, ecl)
    && p.Raw() == NumRawDataModules(ver) / 8
  }

  ghost function PlanOf(ver: Version, ecl: Ecc): (p: I.Plan)
    ensures IsPlanOf(p, ver, ecl)
  {
    PlanExists(ver, ecl);
    var p :| IsPlanOf(p, ver, ecl);
    p
  }

  lemma PlanExists(ver: Version, ecl: Ecc)
    ensures NumRawDataModules(ver) >= 0 && EccPerBlock(ver, ecl) <= NumRawDataModules(ver) / 8 / NumBlocks(ver, ecl)
    ensures IsPlanOf(I.MakePlan(NumBlocks(ver, ecl), EccPerBlock(ver, ecl), NumRawDataModules(ver) / 8), ver, ecl)
  {
    TableFits(ver, ecl);
    PlanFits(NumRawDataModules(ver), EccPerBlock(ver, ecl), NumBlocks(ver, ecl));
  }

  /** There is only one. */
  lemma PlanUnique(p: I.Plan, q: I.Plan)
    requires p.Valid() && q.Valid() && p.blocks == q.blocks && p.ecc == q.ecc && p.Raw() == q.Raw()
    ensures p == q
  {
    EuclidUnique(p.blocks, p.base + p.ecc, p.blocks - p.numShort, q.base + q.ecc, q.blocks - q.numShort);
  }

  lemma EuclidUnique(d: nat, a: nat, r: nat, b: nat, s: nat)
    requires r < d && s < d && d * a + r == d * b + s
    ensures a == b && r == s
  {
    if a < b {
      MulMonotone(a + 1, b, d);
    } else if b < a {
      MulMonotone(b + 1, a, d);
    }
  }

  lemma PlanIsMade(ver: Version, ecl: Ecc)
    ensures NumRawDataModules(ver) >= 0 && 0 < NumBlocks(ver, ecl)
    ensures 0 < EccPerBlock(ver, ecl) <= NumRawDataModules(ver) / 8 / NumBlocks(ver, ecl)
    ensures I.MakePlan(NumBlocks(ver, ecl), EccPerBlock(ver, ecl), NumRawDataModules(ver) / 8) == PlanOf(ver, ecl)
  {
    PlanExists(ver, ecl);
    PlanUnique(PlanOf(ver, ecl), I.MakePlan(NumBlocks(ver, ecl), EccPerBlock(ver, ecl), NumRawDataModules(ver) / 8));
  }

  /** No block has more than 255 codewords, the most for which the code keeps its distance. */
  lemma BlocksAreShort(ver: Version, ecl: Ecc)
    ensures PlanOf(ver, ecl).base + PlanOf(ver, ecl).ecc < MAX_BLOCK
  {
    var p := PlanOf(ver, ecl);
    TableFits(ver, ecl);
    BlocksShort(ver, ecl);
    ShortArithmetic(p.blocks, p.base + p.ecc, p.blocks - p.numShort, NumRawDataModules(ver));
  }

  lemma ShortArithmetic(blocks: nat, len: nat, long: nat, modules: int)
    requires blocks > 0 && blocks * len + long == modules / 8 && modules < 8 * MAX_BLOCK * blocks
    ensures len < MAX_BLOCK
  {
    if len >= MAX_BLOCK { MulMonotone(MAX_BLOCK, len, blocks); }
  }

  lemma PlanFits(modules: int, ecc: int, blocks: int)
    requires 1 <= ecc && 1 <= blocks && 8 * ecc * blocks <= modules
    ensures modules >= 0 && ecc <= modules / 8 / blocks
  {
    DivBound(ecc, blocks, modules / 8);
  }

  lemma DivBound(a: int, b: int, c: int)
    requires b > 0 && a * b <= c && c >= 0
    ensures a <= c / b
  {
    var q := c / b;
    assert c == b * q + c % b;
    if a > q { MulMonotone(q + 1, a, b); }
  }

  /** The version and level determine how many data codewords there are. */
  lemma DataCodewordCount(ver: Version, ecl: Ecc)
    ensures PlanOf(ver, ecl).DataTotal() == NumDataCodewords(ver, ecl)
  {
    I.Totals(PlanOf(ver, ecl));
    Commute(EccPerBlock(ver, ecl), NumBlocks(ver, ecl));
  }

  lemma Commute(a: int, b: int)
    ensures a * b == b * a
  {}

  // ---- The finished symbol ----

  /** The codeword layer under mask msk, with the format area drawn for it. */
  ghost function Candidate(layer: Grid, ver: Version, ecl: Ecc, msk: nat): (r: Grid)
    requires Square(layer, Side(ver))
    ensures Square(r, Side(ver))
  {
    WithFormat(Masked(layer, FunctionModules(ver), Side(ver), msk), Side(ver), FormatBits(ecl, msk))
  }

  /** The codewords placed in zigzag order on a grid of function patterns. */
  ghost function Layer(patterns: Grid, ver: Version, codewords: seq<Byte>): (r: Grid)
    requires Square(patterns, Side(ver))
    ensures Square(r, Side(ver))
  {
    AllDataCellsIn(FunctionModules(ver), Side(ver), ver);
    P.PlaceBits(patterns, Side(ver), P.DataCells(FunctionModules(ver), Side(ver)), S.ByteBits(codewords))
  }

  lemma AllDataCellsIn(f: Grid, n: nat, ver: Version)
    requires n == Side(ver) && Square(f, n)
    ensures P.AllIn(P.DataCells(f, n), n)
  {
    P.FreeMembers(P.Walk(n), f, n);
  }

  ghost function MaskPenalty(layer: Grid, ver: Version, ecl: Ecc, msk: nat): int
    requires Square(layer, Side(ver))
  {
    Penalty.Score(Candidate(layer, ver, ecl, msk), Side(ver))
  }

  ghost function MaskPenalties(layer: Grid, ver: Version, ecl: Ecc): (r: seq<int>)
    requires Square(layer, Side(ver))
    ensures |r| == 8 && forall i :: 0 <= i < 8 ==> r[i] == MaskPenalty(layer, ver, ecl, i)
  {
    seq(8, i requires 0 <= i < 8 => MaskPenalty(layer, ver, ecl, i))
  }

  /** Of the first n scores, the one at `best` is the first of the least. */
  ghost predicate FirstMin(scores: seq<int>, best: int, n: nat) {
    && 0 <= best < n <= |scores|
    && forall i :: 0 <= i < n ==> if i < best then scores[best] < scores[i] else scores[best] <= scores[i]
  }

  lemma FirstMinStep(scores: seq<int>, best: int, n: nat)
    requires n < |scores| && (n == 0 || FirstMin(scores, best, n))
    ensures n == 0 || scores[n] < scores[best] ==> FirstMin(scores, n, n + 1)
    ensures n > 0 && scores[n] >= scores[best] ==> FirstMin(scores, best, n + 1)
  {}

  /** mask is the first of the eight masks with the least penalty. */
  ghost predicate FirstBest(layer: Grid, ver: Version, ecl: Ecc, mask: int)
    requires Square(layer, Side(ver))
  {
    FirstMin(MaskPenalties(layer, ver, ecl), mask, 8)
  }

  // ---- Trying masks ----

  /** g differs from the layer at most in the format area. */
  ghost predicate SameOffFormat(g: Grid, layer: Grid, n: nat)
    requires Square(g, n) && Square(layer, n)
  {
    forall c | In(c, n) :: FormatIndex(c, n) < 0 ==> At(g, n, c) == At(layer, n, c)
  }

  lemma CandidateFrom(g: Grid, layer: Grid, f: Grid, n: nat, msk: nat, bits: nat)
    requires Square(g, n) && Square(layer, n) && Square(f, n) && SameOffFormat(g, layer, n)
    ensures WithFormat(Masked(g, f, n, msk), n, bits) == WithFormat(Masked(layer, f, n, msk), n, bits)
  {
    var a, b := WithFormat(Masked(g, f, n, msk), n, bits), WithFormat(Masked(layer, f, n, msk), n, bits);
    forall c | In(c, n)
      ensures At(a, n, c) == At(b, n, c)
    {
      assert FormatIndex(c, n) < 0 ==> At(Masked(g, f, n, msk), n, c) == At(Masked(layer, f, n, msk), n, c);
    }
    SameCells(a, b, n);
  }

  /** Applying a mask, drawing the format bits and applying the mask again leaves the data layer. */
  lemma TrialUndone(g: Grid, layer: Grid, f: Grid, n: nat, msk: nat, bits: nat)
    requires Square(g, n) && Square(layer, n) && Square(f, n) && SameOffFormat(g, layer, n)
    ensures SameOffFormat(Masked(WithFormat(Masked(g, f, n, msk), n, bits), f, n, msk), layer, n)
  {
    var m := Masked(g, f, n, msk);
    var w := WithFormat(m, n, bits);
    var u := Masked(w, f, n, msk);
    forall c | In(c, n) && FormatIndex(c, n) < 0
      ensures At(u, n, c) == At(layer, n, c)
    {
      assert At(m, n, c) == (At(g, n, c) != (!At(f, n, c) && Inverts(msk, c.x, c.y)));
      assert At(w, n, c) == At(m, n, c);
      assert At(u, n, c) == (At(w, n, c) != (!At(f, n, c) && Inverts(msk, c.x, c.y)));
    }
  }

  // ---- The reader ----

  /** The data codewords of a symbol: read the format, take the mask off, collect the bits in
      zigzag order, and undo the interleaving. */
  ghost function ReadData(g: Grid, ver: Version): Option<seq<Byte>>
    requires Square(g, Side(ver))
  {
    var n, f := Side(ver), FunctionModules(ver);
    var format := ReadFormat(g, n);
    var p := PlanOf(ver, LevelOf(format / 8));
    AllDataCellsIn(f, n, ver);
    var bits := P.ReadBits(Masked(g, f, n, format % 8), n, P.DataCells(f, n));
    if |bits| < 8 * p.Raw() then None
    else Some(I.Deinterleave(p, S.FirstOctets(bits, p.Raw()), p.blocks))
  }

  /** The bytes in a symbol. Its side gives the version. */
  ghost function ReadSymbol(g: Grid, n: nat): Option<seq<Byte>>
    requires Square(g, n)
  {
    if exists ver: Version :: Side(ver) == n then
      var ver: Version :| Side(ver) == n;
      match ReadData(g, ver)
      case None => None
      case Some(data) => S.ReadSegment(data, ver)
    else None
  }

  lemma LevelReadBack(ecl: Ecc, msk: nat)
    requires msk < 8
    ensures LevelOf(FormatData(ecl, msk) / 8) == ecl && FormatData(ecl, msk) % 8 == msk
  {}

  /** Where data is, a finished symbol without its mask is the codeword layer. */
  lemma UnmaskedDataModule(layer: Grid, f: Grid, n: nat, msk: nat, bits: nat, c: Cell)
    requires Square(layer, n) && Square(f, n) && In(c, n) && FormatIndex(c, n) < 0
    ensures At(Masked(WithFormat(Masked(layer, f, n, msk), n, bits), f, n, msk), n, c) == At(layer, n, c)
  {
    var m := Masked(layer, f, n, msk);
    var w := WithFormat(m, n, bits);
    assert At(m, n, c) == (At(layer, n, c) != (!At(f, n, c) && Inverts(msk, c.x, c.y)));
    assert At(w, n, c) == At(m, n, c);
    assert At(Masked(w, f, n, msk), n, c) == (At(w, n, c) != (!At(f, n, c) && Inverts(msk, c.x, c.y)));
  }

  lemma UnmaskedBits(layer: Grid, f: Grid, n: nat, msk: nat, bits: nat, cells: seq<Cell>)
    requires Square(layer, n) && Square(f, n) && P.AllIn(cells, n)
    requires forall c :: c in cells ==> FormatIndex(c, n) < 0
    ensures P.ReadBits(Masked(WithFormat(Masked(layer, f, n, msk), n, bits), f, n, msk), n, cells)
         == P.ReadBits(layer, n, cells)
  {
    forall i | 0 <= i < |cells|
      ensures At(Masked(WithFormat(Masked(layer, f, n, msk), n, bits), f, n, msk), n, cells[i])
           == At(layer, n, cells[i])
    {
      UnmaskedDataModule(layer, f, n, msk, bits, cells[i]);
    }
  }

  lemma DataCellsOffFormat(f: Grid, n: nat, ver: Version)
    requires n == Side(ver) && Square(f, n) && (forall d | In(d, n) :: At(f, n, d) == Reserved(d, ver))
    ensures P.AllIn(P.DataCells(f, n), n) && P.Distinct(P.DataCells(f, n))
    ensures forall c :: c in P.DataCells(f, n) ==> FormatIndex(c, n) < 0
  {
    AllDataCellsIn(f, n, ver);
    SideIsWalkSize(ver);
    P.DataCellsAreTheFreeModules(f, n, Cell(0, 0));
    P.FreeMembers(P.Walk(n), f, n);
  }

  /** The placed bits come back from under any mask. */
  lemma PlacedBitsReadBack(patterns: Grid, f: Grid, n: nat, ver: Version, msk: nat, format: nat, data: seq<bool>)
    requires n == Side(ver) && Square(patterns, n)
    requires Square(f, n) && (forall d | In(d, n) :: At(f, n, d) == Reserved(d, ver))
    requires |data| <= NumRawDataModules(ver)
    ensures P.AllIn(P.DataCells(f, n), n)
    ensures var layer := P.PlaceBits(patterns, n, P.DataCells(f, n), data);
            var unmasked := Masked(WithFormat(Masked(layer, f, n, msk), n, format), f, n, msk);
            var bits := P.ReadBits(unmasked, n, P.DataCells(f, n));
            |data| <= |bits| && bits[..|data|] == data
  {
    var cells := P.DataCells(f, n);
    DataCellsOffFormat(f, n, ver);
    FreeModules.FreeModuleCount(ver, n, f);
    var layer := P.PlaceBits(patterns, n, cells, data);
    UnmaskedBits(layer, f, n, msk, format, cells);
    P.ReadPlaced(patterns, n, cells, data);
  }

  /** Any data codewords come back from the symbol, whatever the patterns under them and whichever
      mask was chosen. */
  lemma DataReadBack(patterns: Grid, ver: Version, ecl: Ecc, msk: nat, data: seq<Byte>)
    requires Square(patterns, Side(ver)) && msk < 8 && |data| == PlanOf(ver, ecl).DataTotal()
    ensures var layer := Layer(patterns, ver, I.Interleaved(PlanOf(ver, ecl), data));
            ReadData(Candidate(layer, ver, ecl, msk), ver) == Some(data)
  {
    var n, f, p := Side(ver), FunctionModules(ver), PlanOf(ver, ecl);
    var codewords := I.Interleaved(p, data);
    var layer := Layer(patterns, ver, codewords);
    FormatReadBack(Masked(layer, f, n, msk), n, ecl, msk);
    LevelReadBack(ecl, msk);
    PlacedBitsReadBack(patterns, f, n, ver, msk, FormatBits(ecl, msk), S.ByteBits(codewords));
    S.PackByteBits(codewords);
    I.DeinterleaveInterleaved(p, data);
  }

  /** The data codewords `encodeText` computes for a byte string. */
  ghost function EncodedData(bytes: seq<Byte>, ver: Version, ecl: Ecc): (data: seq<Byte>)
    requires S.Fits(|bytes|, ver, ecl)
    ensures |data| == PlanOf(ver, ecl).DataTotal()
  {
    DataCodewordCount(ver, ecl);
    S.FitsRoom(|bytes|, ver, ecl);
    S.Codewords(bytes, S.CountBits(ver), S.Capacity(ver, ecl))
  }

  lemma SymbolOfData(g: Grid, ver: Version, data: seq<Byte>)
    requires Square(g, Side(ver)) && ReadData(g, ver) == Some(data)
    ensures ReadSymbol(g, Side(ver)) == S.ReadSegment(data, ver)
  {}

  lemma SegmentReadBack(bytes: seq<Byte>, ver: Version, ecl: Ecc)
    requires S.Fits(|bytes|, ver, ecl)
    ensures S.ReadSegment(EncodedData(bytes, ver, ecl), ver) == Some(bytes)
  {
    S.SegmentRoundTrip(bytes, ver, ecl);
  }

  /** The finished symbol of a byte string. */
  ghost function Finished(patterns: Grid, ver: Version, ecl: Ecc, msk: nat, bytes: seq<Byte>): (r: Grid)
    requires Square(patterns, Side(ver)) && S.Fits(|bytes|, ver, ecl)
    ensures Square(r, Side(ver))
  {
    Candidate(Layer(patterns, ver, I.Interleaved(PlanOf(ver, ecl), EncodedData(bytes, ver, ecl))), ver, ecl, msk)
  }

  /** End to end: a byte string that fits is what a reader finds in the symbol. */
  lemma SymbolReadBack(patterns: Grid, ver: Version, ecl: Ecc, msk: nat, bytes: seq<Byte>)
    requires Square(patterns, Side(ver)) && msk < 8 && S.Fits(|bytes|, ver, ecl)
    ensures ReadSymbol(Finished(patterns, ver, ecl, msk, bytes), Side(ver)) == Some(bytes)
  {
    var data := EncodedData(bytes, ver, ecl);
    DataReadBack(patterns, ver, ecl, msk, data);
    SegmentReadBack(bytes, ver, ecl);
    SymbolOfData(Finished(patterns, ver, ecl, msk, bytes), ver, data);
  }

  // ---- Every data module ----

  /** The k-th module that carries data shows bit k of the codewords, most significant first in each,
      inverted where the mask says so. */
  lemma DataModule(patterns: Grid, ver: Version, ecl: Ecc, msk: nat, codewords: seq<Byte>, k: nat)
    requires Square(patterns, Side(ver))
    requires k < 8 * |codewords| && k < |P.DataCells(FunctionModules(ver), Side(ver))|
    ensures var c := P.DataCells(FunctionModules(ver), Side(ver))[k];
         && In(c, Side(ver)) && !Reserved(c, ver)
         && At(Candidate(Layer(patterns, ver, codewords), ver, ecl, msk), Side(ver), c)
            == (Bit(codewords[k / 8], 7 - k % 8) != Inverts(msk, c.x, c.y))
  {
    var n, f := Side(ver), FunctionModules(ver);
    var cells := P.DataCells(f, n);
    DataCellsOffFormat(f, n, ver);
    AllDataCellsIn(f, n, ver);
    P.FreeMembers(P.Walk(n), f, n);
    assert cells[k] in cells;
    P.PlacedBit(patterns, n, cells, S.ByteBits(codewords), k);
    FreeModuleShows(Layer(patterns, ver, codewords), ver, ecl, msk, cells[k]);
    S.BitAt(codewords, k);
  }

  lemma FreeModuleShows(layer: Grid, ver: Version, ecl: Ecc, msk: nat, c: Cell)
    requires Square(layer, Side(ver)) && In(c, Side(ver)) && !Reserved(c, ver)
    ensures At(Candidate(layer, ver, ecl, msk), Side(ver), c) == (At(layer, Side(ver), c) != Inverts(msk, c.x, c.y))
  {
    var n, f := Side(ver), FunctionModules(ver);
    assert !At(f, n, c);
    assert At(Masked(layer, f, n, msk), n, c) == (At(layer, n, c) != Inverts(msk, c.x, c.y));
  }
}
