/** Splitting the data codewords into blocks, giving each its error correction codewords, and
    interleaving the blocks (client/js/qr.js:185-214; section 7.6 of ISO/IEC 18004:2015). */
module Interleave {
  import opened Bytes
  import opened Gf256
  import RS = ReedSolomon

  /** The block structure of a symbol: how many blocks there are, how many of them are short, the
      data codewords in a short block (a long one has one more), and the error correction codewords
      in each. */
  datatype Plan = Plan(blocks: nat, numShort: nat, base: nat, ecc: nat) {

    predicate Valid() {
      0 < numShort <= blocks && ecc > 0
    }

    /** The codewords of the symbol. */
    function Raw(): nat
      requires Valid()
    {
      blocks * (base + ecc) + (blocks - numShort)
    }

    function DataLen(j: nat): nat
      requires Valid()
    {
      if j < numShort then base else base + 1
    }

    /** Where block j's data starts. */
    function Start(j: nat): nat
      requires Valid()
    {
      if j == 0 then 0 else Start(j - 1) + DataLen(j - 1)
    }

    function DataTotal(): nat
      requires Valid()
    {
      Start(blocks)
    }

    /** Rows of the interleaving table; row base is where short blocks hold a pad cell. */
    function Rows(): nat
      requires Valid()
    {
      base + 1 + ecc
    }

    function RowWidth(i: nat): nat
      requires Valid()
    {
      if i == base then blocks - numShort else blocks
    }

    function RowStart(i: nat): nat
      requires Valid()
    {
      if i == 0 then 0 else RowStart(i - 1) + RowWidth(i - 1)
    }

    /** Row i of block j holds a codeword, not a pad cell. */
    predicate IsCell(i: nat, j: nat)
      requires Valid()
    {
      i < Rows() && j < blocks && (i != base || j >= numShort)
    }

    /** The index of that codeword in the interleaved sequence. */
    function Pos(i: nat, j: nat): nat
      requires Valid() && IsCell(i, j)
    {
      RowStart(i) + if i == base then j - numShort else j
    }
  }

  // ---- Sizes ----

  lemma {:induction false} StartClosedForm(p: Plan, j: nat)
    requires p.Valid()
    ensures p.Start(j) == j * p.base + if j <= p.numShort then 0 else j - p.numShort
  {
    if j > 0 { StartClosedForm(p, j - 1); }
  }

  lemma {:induction false} RowStartClosedForm(p: Plan, i: nat)
    requires p.Valid()
    ensures p.RowStart(i) == i * p.blocks - if i <= p.base then 0 else p.numShort
  {
    if i > 0 { RowStartClosedForm(p, i - 1); }
  }

  /** Data and error correction codewords fill the symbol exactly, and so do the rows. */
  lemma Totals(p: Plan)
    requires p.Valid()
    ensures p.DataTotal() + p.blocks * p.ecc == p.Raw()
    ensures p.RowStart(p.Rows()) == p.Raw()
  {
    StartClosedForm(p, p.blocks);
    RowStartClosedForm(p, p.Rows());
    Distribute(p.blocks, p.base, p.ecc);
  }

  lemma Distribute(n: nat, a: nat, b: nat)
    ensures n * (a + b) == n * a + n * b && (a + 1 + b) * n == n * a + n + n * b
  {}

  /** The block structure the encoder computes from the raw codeword count. */
  function MakePlan(blocks: nat, ecc: nat, raw: nat): (p: Plan)
    requires blocks > 0 && 0 < ecc <= raw / blocks
    ensures p.Valid() && p.Raw() == raw
  {
    Division(raw, blocks);
    Plan(blocks, blocks - raw % blocks, raw / blocks - ecc, ecc)
  }

  lemma Division(a: nat, d: nat)
    requires d > 0
    ensures a == d * (a / d) + a % d
  {}

  lemma {:induction false} RowStartMonotone(p: Plan, i: nat, k: nat)
    requires p.Valid() && i <= k
    ensures p.RowStart(i) <= p.RowStart(k)
    decreases k - i
  {
    if i < k { RowStartMonotone(p, i, k - 1); }
  }

  lemma {:induction false} StartMonotone(p: Plan, i: nat, k: nat)
    requires p.Valid() && i <= k
    ensures p.Start(i) <= p.Start(k)
    decreases k - i
  {
    if i < k { StartMonotone(p, i, k - 1); }
  }

  /** Every codeword has its own index, below the raw codeword count. */
  lemma PosInRange(p: Plan, i: nat, j: nat)
    requires p.Valid() && p.IsCell(i, j)
    ensures p.RowStart(i) <= p.Pos(i, j) < p.RowStart(i + 1) <= p.Raw()
  {
    RowStartMonotone(p, i + 1, p.Rows());
    Totals(p);
  }

  lemma PosInjective(p: Plan, i: nat, j: nat, k: nat, l: nat)
    requires p.Valid() && p.IsCell(i, j) && p.IsCell(k, l)
    requires p.Pos(i, j) == p.Pos(k, l)
    ensures i == k && j == l
  {
    PosInRange(p, i, j);
    PosInRange(p, k, l);
    if i < k {
      RowStartMonotone(p, i + 1, k);
    } else if k < i {
      RowStartMonotone(p, k + 1, i);
    }
  }

  /** ... and every index below it belongs to a codeword: the interleaving is a bijection. */
  lemma {:induction false} PosSurjective(p: Plan, rows: nat, k: nat) returns (i: nat, j: nat)
    requires p.Valid() && rows <= p.Rows() && k < p.RowStart(rows)
    ensures p.IsCell(i, j) && p.Pos(i, j) == k
    decreases rows
  {
    if k >= p.RowStart(rows - 1) {
      i := rows - 1;
      j := k - p.RowStart(i) + if i == p.base then p.numShort else 0;
    } else {
      i, j := PosSurjective(p, rows - 1, k);
    }
  }

  // ---- Blocks ----

  function BlockData(p: Plan, data: seq<Byte>, j: nat): (r: seq<Byte>)
    requires p.Valid() && j < p.blocks && |data| == p.DataTotal()
    ensures |r| == p.DataLen(j)
  {
    StartMonotone(p, j + 1, p.blocks);
    data[p.Start(j)..p.Start(j + 1)]
  }

  function BlockEcc(p: Plan, data: seq<Byte>, j: nat): (r: seq<Byte>)
    requires p.Valid() && j < p.blocks && |data| == p.DataTotal()
    ensures |r| == p.ecc
  {
    RS.Remainder(BlockData(p, data, j), RS.Divisor(p.ecc))
  }

  /** Block j: data, a pad cell if the block is short, error correction. */
  function Block(p: Plan, data: seq<Byte>, j: nat): (r: seq<Byte>)
    requires p.Valid() && j < p.blocks && |data| == p.DataTotal()
    ensures |r| == p.Rows()
  {
    BlockData(p, data, j) + (if j < p.numShort then [0] else []) + BlockEcc(p, data, j)
  }

  function Blocks(p: Plan, data: seq<Byte>): (r: seq<seq<Byte>>)
    requires p.Valid() && |data| == p.DataTotal()
    ensures |r| == p.blocks && IsTable(p, r)
  {
    seq(p.blocks, j requires 0 <= j < p.blocks => Block(p, data, j))
  }

  predicate IsTable(p: Plan, table: seq<seq<Byte>>)
    requires p.Valid()
  {
    |table| == p.blocks && forall j :: 0 <= j < p.blocks ==> |table[j]| == p.Rows()
  }

  /** Row i of the table without its pad cells. */
  function Row(p: Plan, table: seq<seq<Byte>>, i: nat): (r: seq<Byte>)
    requires p.Valid() && IsTable(p, table) && i < p.Rows()
    ensures |r| == p.RowWidth(i)
  {
    var skip := if i == p.base then p.numShort else 0;
    seq(p.RowWidth(i), t requires 0 <= t < p.RowWidth(i) => table[skip + t][i])
  }

  function RowsUpTo(p: Plan, table: seq<seq<Byte>>, n: nat): (r: seq<Byte>)
    requires p.Valid() && IsTable(p, table) && n <= p.Rows()
    ensures |r| == p.RowStart(n)
  {
    if n == 0 then [] else RowsUpTo(p, table, n - 1) + Row(p, table, n - 1)
  }

  /** The codeword sequence of the symbol. */
  function Interleaved(p: Plan, data: seq<Byte>): (r: seq<Byte>)
    requires p.Valid() && |data| == p.DataTotal()
    ensures |r| == p.Raw()
  {
    Totals(p);
    RowsUpTo(p, Blocks(p, data), p.Rows())
  }

  method AddEccAndInterleave(data: seq<Byte>, numBlocks: nat, blockEccLen: nat, rawCodewords: nat)
    returns (result: seq<Byte>)
    requires numBlocks > 0 && 0 < blockEccLen <= rawCodewords / numBlocks
    requires |data| == MakePlan(numBlocks, blockEccLen, rawCodewords).DataTotal()
    ensures result == Interleaved(MakePlan(numBlocks, blockEccLen, rawCodewords), data)
  {
    var numShortBlocks := numBlocks - rawCodewords % numBlocks;
    var shortBlockLen := rawCodewords / numBlocks;
    result := InterleavePlan(data, MakePlan(numBlocks, blockEccLen, rawCodewords), numShortBlocks, shortBlockLen);
  }

  /** The loops, over a block structure that is already known. */
  method InterleavePlan(data: seq<Byte>, p: Plan, numShortBlocks: nat, shortBlockLen: nat) returns (result: seq<Byte>)
    requires p.Valid() && |data| == p.DataTotal()
    requires numShortBlocks == p.numShort && shortBlockLen == p.base + p.ecc
    ensures result == Interleaved(p, data)
  {
    var blocks := MakeBlocks(data, p, numShortBlocks, shortBlockLen);

    result := [];
    for i := 0 to |blocks[0]|
      invariant result == RowsUpTo(p, blocks, i)
    {
      result := AppendRow(result, blocks, p, i, numShortBlocks, shortBlockLen);
    }
  }

  /** The inner loop: one codeword from every block that has one in row i. */
  method AppendRow(was: seq<Byte>, blocks: seq<seq<Byte>>, p: Plan, i: nat, numShortBlocks: nat, shortBlockLen: nat)
    returns (result: seq<Byte>)
    requires p.Valid() && IsTable(p, blocks) && i < p.Rows()
    requires numShortBlocks == p.numShort && shortBlockLen == p.base + p.ecc
    ensures result == was + Row(p, blocks, i)
  {
    result := was;
    ghost var done := 0;
    for j := 0 to |blocks|
      invariant done == if i != p.base then j else if j >= numShortBlocks then j - numShortBlocks else 0
      invariant done <= p.RowWidth(i) && result == was + Row(p, blocks, i)[..done]
    {
      if i != shortBlockLen - p.ecc || j >= numShortBlocks {
        result := result + [blocks[j][i]];
        done := done + 1;
      }
    }
  }

  /** The first loop: each block's data, a pad cell for the short ones, and the remainder. */
  method MakeBlocks(data: seq<Byte>, p: Plan, numShortBlocks: nat, shortBlockLen: nat)
    returns (blocks: seq<seq<Byte>>)
    requires p.Valid() && |data| == p.DataTotal()
    requires numShortBlocks == p.numShort && shortBlockLen == p.base + p.ecc
    ensures blocks == Blocks(p, data)
  {
    blocks := [];
    var rsDiv := RS.ComputeDivisor(p.ecc);
    var k := 0;
    for i := 0 to p.blocks
      invariant k == p.Start(i) && rsDiv[..] == RS.Divisor(p.ecc)
      invariant |blocks| == i && forall j :: 0 <= j < i ==> blocks[j] == Block(p, data, j)
    {
      StartMonotone(p, i + 1, p.blocks);
      var dat := data[k..k + shortBlockLen - p.ecc + (if i < numShortBlocks then 0 else 1)];
      assert dat == BlockData(p, data, i);
      k := k + |dat|;
      var block := MakeBlock(dat, rsDiv, i < numShortBlocks);
      blocks := blocks + [block];
    }
  }

  /** One block: its data, a pad cell if it is short, its remainder. */
  method MakeBlock(dat: seq<Byte>, rsDiv: array<Byte>, short: bool) returns (block: seq<Byte>)
    requires rsDiv.Length > 0
    ensures block == dat + (if short then [0] else []) + RS.Remainder(dat, rsDiv[..])
  {
    var ecc := RS.ComputeRemainder(dat, rsDiv);
    block := dat;
    if short {
      block := block + [0];
    }
    block := block + ecc[..];
  }

  // ---- Reading the blocks back ----

  lemma {:induction false} RowsUpToAt(p: Plan, table: seq<seq<Byte>>, n: nat, i: nat, j: nat)
    requires p.Valid() && IsTable(p, table) && i < n <= p.Rows() && p.IsCell(i, j)
    ensures p.Pos(i, j) < p.RowStart(n) && RowsUpTo(p, table, n)[p.Pos(i, j)] == table[j][i]
    decreases n
  {
    PosInRange(p, i, j);
    RowStartMonotone(p, i + 1, n);
    if i < n - 1 {
      RowsUpToAt(p, table, n - 1, i, j);
    }
  }

  /** Block j's data, collected from an interleaved codeword sequence. */
  function ReadBlock(p: Plan, codewords: seq<Byte>, j: nat): (r: seq<Byte>)
    requires p.Valid() && |codewords| == p.Raw() && j < p.blocks
    ensures |r| == p.DataLen(j)
  {
    seq(p.DataLen(j), i requires 0 <= i < p.DataLen(j) => PosInRange(p, i, j); codewords[p.Pos(i, j)])
  }

  /** Block j's error correction codewords. */
  function ReadEcc(p: Plan, codewords: seq<Byte>, j: nat): (r: seq<Byte>)
    requires p.Valid() && |codewords| == p.Raw() && j < p.blocks
    ensures |r| == p.ecc
  {
    seq(p.ecc, t requires 0 <= t < p.ecc =>
      PosInRange(p, p.base + 1 + t, j); codewords[p.Pos(p.base + 1 + t, j)])
  }

  /** The data of the first n blocks in order. */
  function Deinterleave(p: Plan, codewords: seq<Byte>, n: nat): (r: seq<Byte>)
    requires p.Valid() && |codewords| == p.Raw() && n <= p.blocks
    ensures |r| == p.Start(n)
  {
    if n == 0 then [] else Deinterleave(p, codewords, n - 1) + ReadBlock(p, codewords, n - 1)
  }

  lemma BlockRecovered(p: Plan, data: seq<Byte>, j: nat)
    requires p.Valid() && |data| == p.DataTotal() && j < p.blocks
    ensures ReadBlock(p, Interleaved(p, data), j) == BlockData(p, data, j)
    ensures ReadEcc(p, Interleaved(p, data), j) == BlockEcc(p, data, j)
  {
    var read, ecc := ReadBlock(p, Interleaved(p, data), j), ReadEcc(p, Interleaved(p, data), j);
    var block := Block(p, data, j);
    forall i | 0 <= i < p.DataLen(j)
      ensures read[i] == block[i]
    {
      CellRecovered(p, data, i, j);
    }
    forall t | 0 <= t < p.ecc
      ensures ecc[t] == block[p.base + 1 + t]
    {
      CellRecovered(p, data, p.base + 1 + t, j);
    }
    assert read == BlockData(p, data, j);
    assert ecc == block[p.base + 1..] == BlockEcc(p, data, j);
  }

  lemma CellRecovered(p: Plan, data: seq<Byte>, i: nat, j: nat)
    requires p.Valid() && |data| == p.DataTotal() && p.IsCell(i, j)
    ensures p.Pos(i, j) < p.Raw() && Interleaved(p, data)[p.Pos(i, j)] == Block(p, data, j)[i]
  {
    PosInRange(p, i, j);
    RowsUpToAt(p, Blocks(p, data), p.Rows(), i, j);
  }

  /** If every block's data is found among the codewords, so is the data. */
  lemma {:induction false} DeinterleavePrefix(p: Plan, codewords: seq<Byte>, data: seq<Byte>, n: nat)
    requires p.Valid() && |data| == p.DataTotal() && |codewords| == p.Raw() && n <= p.blocks
    requires forall j :: 0 <= j < n ==> ReadBlock(p, codewords, j) == BlockData(p, data, j)
    ensures p.Start(n) <= |data| && Deinterleave(p, codewords, n) == data[..p.Start(n)]
  {
    StartMonotone(p, n, p.blocks);
    if n > 0 {
      DeinterleavePrefix(p, codewords, data, n - 1);
      Join(data, p.Start(n - 1), p.Start(n));
    }
  }

  lemma Join(data: seq<Byte>, i: nat, k: nat)
    requires i <= k <= |data|
    ensures data[..i] + data[i..k] == data[..k]
  {}

  /** De-interleaving gives back all the data codewords in order ... */
  lemma DeinterleaveInterleaved(p: Plan, data: seq<Byte>)
    requires p.Valid() && |data| == p.DataTotal()
    ensures Deinterleave(p, Interleaved(p, data), p.blocks) == data
  {
    var codewords := Interleaved(p, data);
    forall j | 0 <= j < p.blocks
      ensures ReadBlock(p, codewords, j) == BlockData(p, data, j)
    {
      BlockRecovered(p, data, j);
    }
    DeinterleavePrefix(p, codewords, data, p.blocks);
    assert data[..p.DataTotal()] == data;
  }

  /** ... and each recovered block is a codeword of the Reed-Solomon code. */
  lemma RecoveredBlocksAreCodewords(p: Plan, data: seq<Byte>, j: nat, i: nat)
    requires p.Valid() && |data| == p.DataTotal() && j < p.blocks && i < p.ecc
    ensures var c := Interleaved(p, data);
            RS.Eval(ReadBlock(p, c, j) + ReadEcc(p, c, j), Pow(RS.ALPHA, i)) == 0
  {
    BlockRecovered(p, data, j);
    RS.CodewordVanishesAtRoots(BlockData(p, data, j), p.ecc, i);
  }

  // ---- The order of the codewords ----

  /** Codewords go by their place in the block first, and by the block second. */
  lemma PosOrdered(p: Plan, i: nat, j: nat, k: nat, l: nat)
    requires p.Valid() && p.IsCell(i, j) && p.IsCell(k, l)
    ensures p.Pos(i, j) < p.Pos(k, l) <==> i < k || (i == k && j < l)
  {
    PosInRange(p, i, j);
    PosInRange(p, k, l);
    if i < k {
      RowStartMonotone(p, i + 1, k);
    } else if k < i {
      RowStartMonotone(p, k + 1, i);
    }
  }

  /** Data codeword i of block j stands at row i: the blocks take the data in order, the short ones first,
      `base` codewords each, and the long ones one more. */
  lemma DataCodewordAt(p: Plan, data: seq<Byte>, i: nat, j: nat)
    requires p.Valid() && |data| == p.DataTotal() && j < p.blocks
    requires i < p.base + if j < p.numShort then 0 else 1
    ensures p.IsCell(i, j) && p.Pos(i, j) < p.Raw()
    ensures var k := j * p.base + (if j <= p.numShort then 0 else j - p.numShort) + i;
            k < |data| && Interleaved(p, data)[p.Pos(i, j)] == data[k]
  {
    StartClosedForm(p, j);
    StartMonotone(p, j + 1, p.blocks);
    CellRecovered(p, data, i, j);
  }

  /** Check symbol t of block j stands `base + 1` rows below. */
  lemma EccCodewordAt(p: Plan, data: seq<Byte>, t: nat, j: nat)
    requires p.Valid() && |data| == p.DataTotal() && j < p.blocks && t < p.ecc
    ensures p.IsCell(p.base + 1 + t, j) && p.Pos(p.base + 1 + t, j) < p.Raw()
    ensures Interleaved(p, data)[p.Pos(p.base + 1 + t, j)] == RS.Remainder(BlockData(p, data, j), RS.Divisor(p.ecc))[t]
  {
    CellRecovered(p, data, p.base + 1 + t, j);
  }
}
