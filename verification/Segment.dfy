/** The byte-mode bit stream: version search, header, data, terminator, padding, and packing into
    codewords (client/js/qr.js:341-364; sections 7.4.5, 7.4.10 of ISO/IEC 18004:2015). */
module Segment {
  import opened Numbers
  import opened Bytes
  import opened Tables
  import opened Options

  const WIDTH: nat := 8

  // ---- Numbers as bits, most significant first ----

  function NatBits(val: nat, len: nat): (r: seq<bool>)
    ensures |r| == len
  {
    if len == 0 then [] else NatBits(val / 2, len - 1) + [val % 2 == 1]
  }

  function FromBits(bits: seq<bool>): nat {
    if |bits| == 0 then 0 else 2 * FromBits(bits[..|bits| - 1]) + BitValue(bits[|bits| - 1])
  }

  lemma {:induction false} FromNatBits(val: nat, len: nat)
    requires val < Pow2(len)
    ensures FromBits(NatBits(val, len)) == val
  {
    if len > 0 { FromNatBits(val / 2, len - 1); }
  }

  lemma {:induction false} NatFromBits(bits: seq<bool>)
    ensures FromBits(bits) < Pow2(|bits|) && NatBits(FromBits(bits), |bits|) == bits
  {
    if |bits| > 0 { NatFromBits(bits[..|bits| - 1]); }
  }

  /** The k-th bit written for val is bit len-1-k of val. */
  lemma {:induction false} NatBitsAt(val: nat, len: nat, k: nat)
    requires k < len
    ensures NatBits(val, len)[k] == Bit(val, len - 1 - k)
  {
    if k < len - 1 { NatBitsAt(val / 2, len - 1, k); }
  }

  /** The bits of a codeword sequence, each codeword's most significant bit first: bit i is
      `getBit(data[i >>> 3], 7 - (i & 7))`. */
  function ByteBits(data: seq<Byte>): (r: seq<bool>)
    ensures |r| == 8 * |data|
  {
    seq(8 * |data|, i requires 0 <= i < 8 * |data| => Bit(data[i / 8], 7 - i % 8))
  }

  function Octet(bits: seq<bool>): Byte
    requires |bits| == WIDTH
  {
    NatFromBits(bits);
    SmallPowers();
    FromBits(bits)
  }

  /** Eight bits to a codeword. */
  function Pack(bits: seq<bool>): (r: seq<Byte>)
    requires |bits| % 8 == 0
    ensures |r| == |bits| / 8
  {
    seq(|bits| / 8, k requires 0 <= k < |bits| / 8 => Octet(bits[8 * k..8 * k + 8]))
  }

  function FirstOctets(bits: seq<bool>, n: nat): (r: seq<Byte>)
    requires 8 * n <= |bits|
    ensures |r| == n
  {
    Pack(bits[..8 * n])
  }

  lemma OctetBits(data: seq<Byte>, k: nat)
    requires k < |data|
    ensures ByteBits(data)[8 * k..8 * k + 8] == NatBits(data[k], WIDTH)
  {
    forall t | 0 <= t < 8
      ensures ByteBits(data)[8 * k + t] == NatBits(data[k], WIDTH)[t]
    {
      NatBitsAt(data[k], WIDTH, t);
      DivEight(k, t);
      assert ByteBits(data)[8 * k + t] == Bit(data[k], 7 - t);
    }
  }

  lemma DivEight(k: nat, t: nat)
    requires t < 8
    ensures (8 * k + t) / 8 == k && (8 * k + t) % 8 == t
  {}

  lemma OctetFromBits(b: Byte)
    ensures Octet(NatBits(b, WIDTH)) == b
  {
    SmallPowers();
    FromNatBits(b, WIDTH);
  }

  lemma PackByteBits(data: seq<Byte>)
    ensures Pack(ByteBits(data)) == data
  {
    forall k | 0 <= k < |data|
      ensures Pack(ByteBits(data))[k] == data[k]
    {
      OctetBits(data, k);
      OctetFromBits(data[k]);
    }
  }

  lemma ByteBitsPack(bits: seq<bool>)
    requires |bits| % 8 == 0
    ensures ByteBits(Pack(bits)) == bits
  {
    forall i | 0 <= i < |bits|
      ensures ByteBits(Pack(bits))[i] == bits[i]
    {
      PackedBit(bits, i / 8, i % 8);
    }
  }

  lemma PackedBit(bits: seq<bool>, k: nat, t: nat)
    requires |bits| % 8 == 0 && 8 * k + 8 <= |bits| && t < 8
    ensures Bit(Octet(bits[8 * k..8 * k + 8]), 7 - t) == bits[8 * k + t]
  {
    OctetBit(bits[8 * k..8 * k + 8], t);
  }

  lemma OctetBit(eight: seq<bool>, t: nat)
    requires |eight| == WIDTH && t < WIDTH
    ensures Bit(Octet(eight), 7 - t) == eight[t]
  {
    NatFromBits(eight);
    NatBitsAt(FromBits(eight), WIDTH, t);
  }

  lemma ByteBitsAppend(a: seq<Byte>, b: seq<Byte>)
    ensures ByteBits(a + b) == ByteBits(a) + ByteBits(b)
  {}

  lemma ByteBitsOne(b: Byte)
    ensures ByteBits([b]) == NatBits(b, WIDTH)
  {
    OctetBits([b], 0);
    assert ByteBits([b])[0..8] == ByteBits([b]);
  }

  // ---- The version search ----

  function CountBits(ver: Version): nat {
    if ver < 10 then 8 else 16
  }

  function Capacity(ver: Version, ecl: Ecc): (r: nat) {
    TableFits(ver, ecl);
    CapacityNonnegative(NumRawDataModules(ver), EccPerBlock(ver, ecl), NumBlocks(ver, ecl));
    NumDataCodewords(ver, ecl) * 8
  }

  lemma CapacityNonnegative(raw: int, ecc: int, blocks: int)
    requires 8 * ecc * blocks <= raw
    ensures ecc * blocks <= raw / 8
  {}

  predicate Fits(n: nat, ver: Version, ecl: Ecc) {
    4 + CountBits(ver) + 8 * n <= Capacity(ver, ecl)
  }

  method FindVersion(n: nat, ecl: Ecc) returns (ver: Option<Version>)
    ensures ver.Some? ==> Fits(n, ver.value, ecl) && forall v: Version :: v < ver.value ==> !Fits(n, v, ecl)
    ensures ver.None? ==> forall v: Version :: !Fits(n, v, ecl)
  {
    var version: Version := MIN_VERSION;
    while true
      invariant forall v: Version :: v < version ==> !Fits(n, v, ecl)
      decreases MAX_VERSION - version
    {
      var dataCapacityBits := Capacity(version, ecl);
      var ccbits := if version < 10 then 8 else 16;
      var usedBits := 4 + ccbits + n * 8;
      if usedBits <= dataCapacityBits { return Some(version); }
      if version >= MAX_VERSION { return None; }
      version := version + 1;
    }
  }

  /** The character count always fits its field: 8 bits below version 10, 16 from there on. */
  lemma CountFits(n: nat, ver: Version, ecl: Ecc)
    requires Fits(n, ver, ecl)
    ensures n < Pow2(CountBits(ver))
  {
    SmallPowers();
    if ver < 10 {
      SmallCapacity(ver, ecl);
    } else {
      TableFits(ver, ecl);
      RawBound(ver);
      ProductPositive(EccPerBlock(ver, ecl), NumBlocks(ver, ecl));
    }
  }

  lemma ProductPositive(a: int, b: int)
    requires 1 <= a && 1 <= b
    ensures a * b >= 1
  {}

  lemma RawBound(ver: Version)
    ensures NumRawDataModules(ver) <= 30784
  {
    MulBound(16 * ver + 128, 768, ver, 40);
    var a := ver / 7 + 2;
    if ver >= 2 { MulBound(40, 25 * a - 10, 2, a); }
  }

  lemma MulBound(a: nat, b: nat, c: nat, d: nat)
    requires a <= b && c <= d
    ensures a * c <= b * d
  {
    assert a * c <= b * c;
    assert b * c <= b * d;
  }

  lemma SmallCapacity(ver: Version, ecl: Ecc)
    requires ver < 10
    ensures NumDataCodewords(ver, ecl) < 258
  {
    match ver {
      case 9 =>
      case _ =>
        TableFits(ver, ecl);
        ProductPositive(EccPerBlock(ver, ecl), NumBlocks(ver, ecl));
        assert NumRawDataModules(ver) / 8 <= 257;
    }
  }

  // ---- The bit stream, for any width cc of the count field and any capacity in bits ----

  const BYTE_MODE := 4
  const PAD_0: Byte := 0xec
  const PAD_1: Byte := 0x11

  predicate Room(n: nat, cc: nat, capacity: nat) {
    capacity % 8 == 0 && 4 + cc + 8 * n <= capacity
  }

  function Header(n: nat, cc: nat): (r: seq<bool>)
    ensures |r| == 4 + cc
  {
    NatBits(BYTE_MODE, 4) + NatBits(n, cc)
  }

  function Toggle(pad: Byte): Byte {
    if pad == PAD_0 then PAD_1 else PAD_0
  }

  /** n pad bytes, alternating from `pad`. */
  function PadBytes(pad: Byte, n: nat): (r: seq<Byte>)
    ensures |r| == n
    decreases n
  {
    if n == 0 then [] else [pad] + PadBytes(Toggle(pad), n - 1)
  }

  function ZeroBits(n: nat): (r: seq<bool>)
    ensures |r| == n
  {
    seq(n, _ => false)
  }

  lemma FitsRoom(n: nat, ver: Version, ecl: Ecc)
    requires Fits(n, ver, ecl)
    ensures Room(n, CountBits(ver), Capacity(ver, ecl)) && Capacity(ver, ecl) / 8 == NumDataCodewords(ver, ecl)
  {}

  function ToByteBoundary(n: nat): (r: nat)
    ensures r < 8 && (n + r) % 8 == 0
  {
    (8 - n % 8) % 8
  }

  function Content(bytes: seq<Byte>, cc: nat): (r: seq<bool>)
    ensures |r| == 4 + cc + 8 * |bytes|
  {
    Header(|bytes|, cc) + ByteBits(bytes)
  }

  /** The terminator, as far as there is room, and the bits that complete the last codeword. */
  function Ended(content: seq<bool>, capacity: nat): (r: seq<bool>)
    requires capacity % 8 == 0 && |content| <= capacity
    ensures |r| % 8 == 0 && |content| <= |r| <= capacity && r[..|content|] == content
  {
    var ended := content + ZeroBits(Min(4, capacity - |content|));
    ended + ZeroBits(ToByteBoundary(|ended|))
  }

  function Unpadded(bytes: seq<Byte>, cc: nat, capacity: nat): (r: seq<bool>)
    requires Room(|bytes|, cc, capacity)
    ensures |r| % 8 == 0 && |r| <= capacity
    ensures |r| >= 4 + cc + 8 * |bytes| && r[..4 + cc + 8 * |bytes|] == Content(bytes, cc)
  {
    Ended(Content(bytes, cc), capacity)
  }

  /** The data codewords of the symbol. */
  function Codewords(bytes: seq<Byte>, cc: nat, capacity: nat): (r: seq<Byte>)
    requires Room(|bytes|, cc, capacity)
    ensures |r| == capacity / 8
  {
    var front := Unpadded(bytes, cc, capacity);
    Pack(front) + PadBytes(PAD_0, (capacity - |front|) / 8)
  }

  lemma CodewordBits(bytes: seq<Byte>, cc: nat, capacity: nat)
    requires Room(|bytes|, cc, capacity)
    ensures ByteBits(Codewords(bytes, cc, capacity)) == Unpadded(bytes, cc, capacity)
         + ByteBits(PadBytes(PAD_0, (capacity - |Unpadded(bytes, cc, capacity)|) / 8))
  {
    var front := Unpadded(bytes, cc, capacity);
    ByteBitsPack(front);
    ByteBitsAppend(Pack(front), PadBytes(PAD_0, (capacity - |front|) / 8));
  }

  /** `append(val, len)`. */
  method Append(bb: seq<bool>, val: nat, len: nat) returns (r: seq<bool>)
    ensures r == bb + NatBits(val, len)
  {
    r := bb;
    var i := len - 1;
    while i >= 0
      invariant -1 <= i < len
      invariant r == bb + NatBits(val, len)[..len - 1 - i]
    {
      NatBitsAt(val, len, len - 1 - i);
      r := r + [Bit(val, i)];
      i := i - 1;
    }
  }

  method BuildBits(bytes: seq<Byte>, cc: nat, capacity: nat) returns (bb: seq<bool>)
    requires Room(|bytes|, cc, capacity)
    ensures bb == ByteBits(Codewords(bytes, cc, capacity))
  {
    bb := BuildUnpadded(bytes, cc, capacity);
    ghost var n := PadCount(|bb|, capacity);
    bb := AppendPadding(bb, capacity, n);
    CodewordBits(bytes, cc, capacity);
  }

  /** Mode, count and bytes. */
  method BuildContent(bytes: seq<Byte>, cc: nat) returns (bb: seq<bool>)
    ensures bb == Content(bytes, cc)
  {
    bb := Append([], BYTE_MODE, 4);
    bb := Append(bb, |bytes|, cc);
    bb := AppendBytes(bb, bytes);
  }

  method BuildUnpadded(bytes: seq<Byte>, cc: nat, capacity: nat) returns (bb: seq<bool>)
    requires Room(|bytes|, cc, capacity)
    ensures bb == Unpadded(bytes, cc, capacity)
  {
    bb := BuildContent(bytes, cc);
    bb := AppendZeros(bb, Min(4, capacity - |bb|));
    bb := AppendZeros(bb, ToByteBoundary(|bb|));
  }

  ghost function PadCount(used: nat, capacity: nat): (n: nat)
    requires used % 8 == 0 && capacity % 8 == 0 && used <= capacity
    ensures capacity == used + 8 * n && n == (capacity - used) / 8
  {
    (capacity - used) / 8
  }

  method AppendZeros(bb: seq<bool>, n: nat) returns (r: seq<bool>)
    ensures r == bb + ZeroBits(n)
  {
    r := Append(bb, 0, n);
    ZerosAreNat(n);
  }

  method AppendBytes(front: seq<bool>, bytes: seq<Byte>) returns (bb: seq<bool>)
    ensures bb == front + ByteBits(bytes)
  {
    bb := front;
    for k := 0 to |bytes|
      invariant bb == front + ByteBits(bytes[..k])
    {
      assert bytes[..k + 1] == bytes[..k] + [bytes[k]];
      ByteBitsAppend(bytes[..k], [bytes[k]]);
      ByteBitsOne(bytes[k]);
      bb := Append(bb, bytes[k], WIDTH);
    }
    assert bytes[..|bytes|] == bytes;
  }

  method AppendPadding(front: seq<bool>, capacity: nat, ghost n: nat) returns (bb: seq<bool>)
    requires capacity == |front| + 8 * n
    ensures bb == front + ByteBits(PadBytes(PAD_0, n))
  {
    bb := front;
    var pad := PAD_0;
    ghost var left := n;
    ghost var goal := Padded(front, pad, n);
    while |bb| < capacity
      invariant |bb| + 8 * left == capacity && (pad == PAD_0 || pad == PAD_1)
      invariant Padded(bb, pad, left) == goal
      decreases capacity - |bb|
    {
      bb, pad := PadOnce(bb, pad, left);
      left := left - 1;
    }
    PaddedFully(bb, pad);
  }

  /** bb with n more pad bytes, the first of them `pad`. */
  function Padded(bb: seq<bool>, pad: Byte, n: nat): seq<bool> {
    bb + ByteBits(PadBytes(pad, n))
  }

  lemma PaddedFully(bb: seq<bool>, pad: Byte)
    ensures Padded(bb, pad, 0) == bb
  {}

  method PadOnce(front: seq<bool>, pad: Byte, ghost n: nat) returns (bb: seq<bool>, next: Byte)
    requires n > 0 && (pad == PAD_0 || pad == PAD_1)
    ensures |bb| == |front| + 8 && (next == PAD_0 || next == PAD_1)
    ensures Padded(bb, next, n - 1) == Padded(front, pad, n)
  {
    PadStep(front, pad, n);
    bb := Append(front, pad, WIDTH);
    next := FlipPad(pad);
  }

  lemma PadStep(bb: seq<bool>, pad: Byte, n: nat)
    requires n > 0
    ensures Padded(bb + NatBits(pad, WIDTH), Toggle(pad), n - 1) == Padded(bb, pad, n)
  {
    var rest := PadBytes(Toggle(pad), n - 1);
    assert PadBytes(pad, n) == [pad] + rest;
    ByteBitsFirst(pad, rest);
  }

  /** `pad ^= 0xec ^ 0x11`. */
  method FlipPad(pad: Byte) returns (r: Byte)
    requires pad == PAD_0 || pad == PAD_1
    ensures r == Toggle(pad)
  {
    r := XorByte(pad, XorByte(PAD_0, PAD_1));
    XorCancel(PAD_0, PAD_1);
    XorComm(PAD_0, PAD_1);
    XorCancel(PAD_1, PAD_0);
  }

  lemma ByteBitsFirst(b: Byte, rest: seq<Byte>)
    ensures ByteBits([b] + rest) == NatBits(b, WIDTH) + ByteBits(rest)
  {
    ByteBitsAppend([b], rest);
    ByteBitsOne(b);
  }

  lemma {:induction false} ZerosAreNat(n: nat)
    ensures NatBits(0, n) == ZeroBits(n)
  {
    if n > 0 { ZerosAreNat(n - 1); }
  }

  // ---- Packing bits into bytes ----

  /** Or-ing the next bit below the bits already placed. */
  lemma {:induction false} OrNextBit(q: nat, b: bool, m: nat)
    ensures Or(Shl(q, m + 1), Shl(BitValue(b), m)) == Shl(2 * q + BitValue(b), m)
    decreases m
  {
    if m == 0 {
      OrZero(q);
      OrUnfold(2 * q, BitValue(b));
    } else {
      OrNextBit(q, b, m - 1);
    }
  }

  /** The byte under construction once the bits [start, i) are in: those bits, shifted left to
      make room for the rest of the eight. */
  function Partial(bb: seq<bool>, start: nat, i: nat): nat
    requires start <= i <= start + 8 && i <= |bb|
  {
    Shl(FromBits(bb[start..i]), 8 - (i - start))
  }

  lemma PartialNext(bb: seq<bool>, start: nat, i: nat)
    requires start <= i < start + 8 && i < |bb|
    ensures Or(Partial(bb, start, i), Shl(BitValue(bb[i]), 7 - (i - start))) == Partial(bb, start, i + 1) < 0x100
  {
    var m := 7 - (i - start);
    assert bb[start..i + 1][..i - start] == bb[start..i];
    assert FromBits(bb[start..i + 1]) == 2 * FromBits(bb[start..i]) + BitValue(bb[i]);
    OrNextBit(FromBits(bb[start..i]), bb[i], m);
    NatFromBits(bb[start..i + 1]);
    ByteShl(FromBits(bb[start..i + 1]), 8 - m, m);
  }

  lemma ByteShl(q: nat, k: nat, m: nat)
    requires q < Pow2(k) && k + m == 8
    ensures Shl(q, m) < 0x100
  {
    ShlBound(q, k, m);
    SmallPowers();
  }

  lemma PartialEnds(bb: seq<bool>, start: nat)
    requires start <= |bb|
    ensures Partial(bb, start, start) == 0
    ensures start + 8 <= |bb| ==> Partial(bb, start, start + 8) == Octet(bb[start..start + 8])
  {
    ShlZero(WIDTH);
    assert bb[start..start] == [];
  }

  method PackBits(bb: seq<bool>) returns (dataCodewords: array<Byte>)
    requires |bb| % 8 == 0
    ensures fresh(dataCodewords) && dataCodewords[..] == Pack(bb)
  {
    dataCodewords := new Byte[|bb| / 8](_ => 0);
    ghost var k, t := 0, 0;
    PartialEnds(bb, 0);
    for i := 0 to |bb|
      invariant i == 8 * k + t && t < 8 && k <= |bb| / 8
      invariant forall q :: 0 <= q < k ==> dataCodewords[q] == Pack(bb)[q]
      invariant i < |bb| ==> dataCodewords[k] == Partial(bb, 8 * k, i)
      invariant forall q :: k < q < |bb| / 8 ==> dataCodewords[q] == 0
    {
      PackBit(dataCodewords, bb, i, k, t);
      t := t + 1;
      if t == 8 {
        PartialEnds(bb, 8 * k);
        PartialEnds(bb, i + 1);
        k, t := k + 1, 0;
      }
    }
  }

  /** Bit i is the t-th of codeword k. */
  method PackBit(dataCodewords: array<Byte>, bb: seq<bool>, i: nat, ghost k: nat, ghost t: nat)
    requires i < |bb| && i == 8 * k + t && t < 8 && k < dataCodewords.Length
    requires dataCodewords[k] == Partial(bb, 8 * k, i)
    modifies dataCodewords
    ensures dataCodewords[k] == Partial(bb, 8 * k, i + 1)
    ensures forall q :: 0 <= q < dataCodewords.Length && q != k ==> dataCodewords[q] == old(dataCodewords[q])
  {
    DivEight(k, t);
    PartialNext(bb, 8 * k, i);
    dataCodewords[i / 8] := Or(dataCodewords[i / 8], Shl(BitValue(bb[i]), 7 - i % 8));
  }

  lemma WholeBytes(data: seq<Byte>)
    ensures |ByteBits(data)| % 8 == 0
  {}

  /** Bit stream and packing together. */
  method BuildCodewords(bytes: seq<Byte>, cc: nat, capacity: nat) returns (dataCodewords: seq<Byte>)
    requires Room(|bytes|, cc, capacity)
    ensures dataCodewords == Codewords(bytes, cc, capacity)
  {
    var bb := BuildBits(bytes, cc, capacity);
    WholeBytes(Codewords(bytes, cc, capacity));
    var packed := PackBits(bb);
    PackByteBits(Codewords(bytes, cc, capacity));
    dataCodewords := packed[..];
  }

  // ---- Reading the stream back ----

  /** What a reader makes of the data codewords of a byte-mode symbol. */
  function ReadBits(bits: seq<bool>, cc: nat): Option<seq<Byte>> {
    var head := 4 + cc;
    if |bits| < head || FromBits(bits[..4]) != BYTE_MODE then None
    else
      var n := FromBits(bits[4..head]);
      if |bits| < head + 8 * n then None else Some(ReadBytes(bits[head..head + 8 * n]))
  }

  function ReadBytes(bits: seq<bool>): seq<Byte>
    requires |bits| % 8 == 0
  {
    Pack(bits)
  }

  lemma SamePart(bits: seq<bool>, content: seq<bool>, i: nat, j: nat)
    requires i <= j <= |content| <= |bits| && bits[..|content|] == content
    ensures bits[i..j] == content[i..j]
  {
    forall k | i <= k < j
      ensures bits[k] == content[k]
    {
      assert bits[..|content|][k] == bits[k];
    }
  }

  lemma ContentParts(bytes: seq<Byte>, cc: nat)
    ensures var head, content := 4 + cc, Content(bytes, cc);
         && content[0..4] == NatBits(BYTE_MODE, 4)
         && content[4..head] == NatBits(|bytes|, cc)
         && content[head..head + 8 * |bytes|] == ByteBits(bytes)
  {}

  lemma ReadContent(bits: seq<bool>, bytes: seq<Byte>, cc: nat)
    requires |bytes| < Pow2(cc)
    requires |bits| >= 4 + cc + 8 * |bytes| && bits[..4 + cc + 8 * |bytes|] == Content(bytes, cc)
    ensures ReadBits(bits, cc) == Some(bytes)
  {
    var n, head, content := |bytes|, 4 + cc, Content(bytes, cc);
    ContentParts(bytes, cc);
    SamePart(bits, content, 0, 4);
    SamePart(bits, content, 4, head);
    SamePart(bits, content, head, head + 8 * n);
    assert bits[..4] == bits[0..4];
    ModeBits();
    FromNatBits(n, cc);
    PackByteBits(bytes);
  }

  lemma ModeBits()
    ensures FromBits(NatBits(BYTE_MODE, 4)) == BYTE_MODE
  {
    SmallPowers();
    FromNatBits(BYTE_MODE, 4);
  }

  function ReadSegment(codewords: seq<Byte>, ver: Version): Option<seq<Byte>> {
    ReadBits(ByteBits(codewords), CountBits(ver))
  }

  /** Every byte string that fits a version is read back from its data codewords. */
  lemma SegmentRoundTrip(bytes: seq<Byte>, ver: Version, ecl: Ecc)
    requires Fits(|bytes|, ver, ecl)
    ensures Room(|bytes|, CountBits(ver), Capacity(ver, ecl))
    ensures ReadSegment(Codewords(bytes, CountBits(ver), Capacity(ver, ecl)), ver) == Some(bytes)
  {
    var cc, capacity := CountBits(ver), Capacity(ver, ecl);
    FitsRoom(|bytes|, ver, ecl);
    var front := Unpadded(bytes, cc, capacity);
    CountFits(|bytes|, ver, ecl);
    CodewordBits(bytes, cc, capacity);
    var bits := ByteBits(Codewords(bytes, cc, capacity));
    assert bits[..4 + cc + 8 * |bytes|] == front[..4 + cc + 8 * |bytes|];
    ReadContent(bits, bytes, cc);
  }

  // ---- The bits, one by one ----

  /** With a count field of whole bytes there is room for the terminator, and it completes a codeword. */
  lemma UnpaddedIs(bytes: seq<Byte>, cc: nat, capacity: nat)
    requires Room(|bytes|, cc, capacity) && cc % 8 == 0
    ensures 4 + cc + 8 * |bytes| + 4 <= capacity
    ensures Unpadded(bytes, cc, capacity) == Content(bytes, cc) + [false, false, false, false]
  {
    var content := Content(bytes, cc);
    TerminatorFits(|bytes|, cc, capacity);
    assert ZeroBits(4) == [false, false, false, false];
    assert ZeroBits(0) == [];
  }

  lemma TerminatorFits(n: nat, cc: nat, capacity: nat)
    requires Room(n, cc, capacity) && cc % 8 == 0
    ensures capacity - (4 + cc + 8 * n) >= 4 && (4 + cc + 8 * n + 4) % 8 == 0
  {
    var k, m := cc / 8, capacity / 8;
    assert cc == 8 * k && capacity == 8 * m;
    assert 4 + cc + 8 * n + 4 == 8 * (k + n + 1);
  }

  lemma ContentBit(bytes: seq<Byte>, cc: nat, i: nat)
    requires i < 4 + cc + 8 * |bytes|
    ensures i < 4 ==> Content(bytes, cc)[i] == (i == 1)
    ensures 4 <= i < 4 + cc ==> Content(bytes, cc)[i] == Bit(|bytes|, 4 + cc - 1 - i)
    ensures 4 + cc <= i ==> Content(bytes, cc)[i] == Bit(bytes[(i - 4 - cc) / 8], 7 - (i - 4 - cc) % 8)
  {
    if i < 4 {
      ModePattern();
    } else if i < 4 + cc {
      NatBitsAt(|bytes|, cc, i - 4);
    }
  }

  lemma ModePattern()
    ensures NatBits(BYTE_MODE, 4) == [false, true, false, false]
  {
    assert NatBits(1, 2) == [false, true];
    assert NatBits(2, 3) == [false, true, false];
  }

  /** Bit i of the data codewords, most significant first in each: the mode 0100, the count, the bytes, and
      a terminator of four zeros. */
  lemma CodewordBit(bytes: seq<Byte>, cc: nat, capacity: nat, i: nat)
    requires Room(|bytes|, cc, capacity) && cc % 8 == 0 && i < 4 + cc + 8 * |bytes| + 4 <= capacity
    ensures var b := Bit(Codewords(bytes, cc, capacity)[i / 8], 7 - i % 8);
         && (i < 4 ==> b == (i == 1))
         && (4 <= i < 4 + cc ==> b == Bit(|bytes|, 4 + cc - 1 - i))
         && (4 + cc <= i < 4 + cc + 8 * |bytes| ==> b == Bit(bytes[(i - 4 - cc) / 8], 7 - (i - 4 - cc) % 8))
         && (4 + cc + 8 * |bytes| <= i ==> !b)
  {
    UnpaddedIs(bytes, cc, capacity);
    StreamBit(bytes, cc, capacity, i);
    if i < 4 + cc + 8 * |bytes| { ContentBit(bytes, cc, i); }
  }

  lemma StreamBit(bytes: seq<Byte>, cc: nat, capacity: nat, i: nat)
    requires Room(|bytes|, cc, capacity) && i < |Unpadded(bytes, cc, capacity)|
    ensures Bit(Codewords(bytes, cc, capacity)[i / 8], 7 - i % 8) == Unpadded(bytes, cc, capacity)[i]
  {
    CodewordBits(bytes, cc, capacity);
    BitAt(Codewords(bytes, cc, capacity), i);
  }

  lemma BitAt(data: seq<Byte>, i: nat)
    requires i < 8 * |data|
    ensures ByteBits(data)[i] == Bit(data[i / 8], 7 - i % 8)
  {}

  lemma {:induction false} PadByteAt(pad: Byte, n: nat, k: nat)
    requires k < n && (pad == PAD_0 || pad == PAD_1)
    ensures PadBytes(pad, n)[k] == if k % 2 == 0 then pad else Toggle(pad)
    decreases n
  {
    if k > 0 { PadByteAt(Toggle(pad), n - 1, k - 1); }
  }

  /** The codewords after that are 236 and 17 in turn. */
  lemma PadCodeword(bytes: seq<Byte>, cc: nat, capacity: nat, m: nat)
    requires Room(|bytes|, cc, capacity) && cc % 8 == 0 && 1 + cc / 8 + |bytes| <= m < capacity / 8
    ensures Codewords(bytes, cc, capacity)[m] == if (m - 1 - cc / 8 - |bytes|) % 2 == 0 then 236 else 17
  {
    var first := 1 + cc / 8 + |bytes|;
    UnpaddedIs(bytes, cc, capacity);
    assert |Unpadded(bytes, cc, capacity)| == 8 * first;
    PadByteAt(PAD_0, capacity / 8 - first, m - first);
  }

  /** A version has room for so many bytes: all its data codewords but one and a half for mode and
      terminator and one or two for the count. */
  lemma FitsBytes(n: nat, ver: Version, ecl: Ecc)
    ensures Fits(n, ver, ecl) <==> n + (if ver <= 9 then 2 else 3) <= NumDataCodewords(ver, ecl)
  {}
}
