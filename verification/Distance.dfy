/** What the error correction codewords are for: different blocks differ in more places than there are
    error correction codewords, so a block with at most half as many errors has one reading
    (section 7.5.1 of ISO/IEC 18004:2015). */
module Distance {
  import opened Numbers
  import opened Bytes
  import opened Gf256
  import opened ReedSolomon
  import opened Powers
  import opened Tables
  import I = Interleave
  import Symbol

  /** In how many places p is not 0. */
  function Weight(p: Poly): nat {
    if |p| == 0 then 0 else Weight(p[..|p| - 1]) + if p[|p| - 1] == 0 then 0 else 1
  }

  /** In how many places p and q differ. */
  function Differences(p: Poly, q: Poly): nat
    requires |p| == |q|
  {
    if |p| == 0 then 0
    else Differences(p[..|p| - 1], q[..|p| - 1]) + if p[|p| - 1] == q[|p| - 1] then 0 else 1
  }

  /** p vanishes at the first d powers of a. */
  ghost predicate Vanishes(p: Poly, a: Byte, d: nat) {
    forall i: nat :: i < d ==> Eval(p, Pow(a, i)) == 0
  }

  // ---- Stretching the argument ----

  /** The coefficients of p(a x). */
  function Stretched(p: Poly, a: Byte): (r: Poly)
    ensures |r| == |p|
  {
    if |p| == 0 then [] else Scale(Stretched(p[..|p| - 1], a), a) + [p[|p| - 1]]
  }

  lemma {:induction false} EvalStretched(p: Poly, a: Byte, x: Byte)
    ensures Eval(Stretched(p, a), x) == Eval(p, Mul(a, x))
  {
    if |p| > 0 {
      var front := p[..|p| - 1];
      var s := Stretched(front, a);
      EvalStretched(front, a, x);
      EvalScale(s, a, x);
      assert Stretched(p, a)[..|p| - 1] == Scale(s, a);
      MulAssociates(Eval(s, x), a, x);
    }
  }

  lemma {:induction false} StretchedAt(p: Poly, a: Byte, k: nat)
    requires k < |p|
    ensures Stretched(p, a)[k] == Mul(p[k], Pow(a, |p| - 1 - k))
  {
    var n := |p| - 1;
    if k == n {
      MulOne(p[k]);
    } else {
      StretchedAt(p[..n], a, k);
      MulAssociates(p[k], Pow(a, n - 1 - k), a);
    }
  }

  // ---- Dropping one place ----

  /** p(a x) + c p(x): each coefficient is multiplied by its power of a plus c. */
  function Dropped(p: Poly, a: Byte, c: Byte): (r: Poly)
    ensures |r| == |p|
  {
    AddPoly(Stretched(p, a), Scale(p, c))
  }

  lemma DroppedAt(p: Poly, a: Byte, c: Byte, k: nat)
    requires k < |p|
    ensures Dropped(p, a, c)[k] == Mul(p[k], XorByte(Pow(a, |p| - 1 - k), c))
  {
    StretchedAt(p, a, k);
    MulAddRight(p[k], Pow(a, |p| - 1 - k), c);
  }

  lemma DroppedVanishes(p: Poly, a: Byte, c: Byte, d: nat)
    requires Vanishes(p, a, d + 1)
    ensures Vanishes(Dropped(p, a, c), a, d)
  {
    forall i: nat | i < d
      ensures Eval(Dropped(p, a, c), Pow(a, i)) == 0
    {
      DroppedRoot(p, a, c, i);
    }
  }

  lemma DroppedRoot(p: Poly, a: Byte, c: Byte, i: nat)
    requires Eval(p, Pow(a, i)) == 0 && Eval(p, Pow(a, i + 1)) == 0
    ensures Eval(Dropped(p, a, c), Pow(a, i)) == 0
  {
    var x := Pow(a, i);
    EvalAdd(Stretched(p, a), Scale(p, c), x);
    EvalStretched(p, a, x);
    EvalScale(p, c, x);
    MulCommutes(a, x);
    MulZero(c);
    XorZero(0);
  }

  lemma XorIsZero(x: Byte, y: Byte)
    ensures XorByte(x, y) == 0 <==> x == y
  {
    XorSelf(x);
    if XorByte(x, y) == 0 {
      XorCancel(x, y);
      XorZero(x);
      XorComm(x, 0);
    }
  }

  /** With c the power of place m, exactly place m is dropped. */
  lemma DroppedZeros(p: Poly, a: Byte, m: nat, k: nat, n: nat)
    requires Full(a) && m < |p| <= n && k < |p| && n == ORDER
    ensures Dropped(p, a, Pow(a, |p| - 1 - m))[k] == 0 <==> p[k] == 0 || k == m
  {
    var x, c := Pow(a, |p| - 1 - k), Pow(a, |p| - 1 - m);
    DroppedAt(p, a, c, k);
    XorIsZero(x, c);
    MulZero(XorByte(x, c));
    if k == m {
      MulCommutes(p[k], 0);
      MulZero(p[k]);
    } else {
      var i, j := |p| - 1 - k, |p| - 1 - m;
      if j < i { PowersDistinct(a, j, i, n); } else { PowersDistinct(a, i, j, n); }
      if Mul(p[k], XorByte(x, c)) == 0 { NoZeroDivisors(p[k], XorByte(x, c)); }
    }
  }

  lemma {:induction false} WeightLess(p: Poly, q: Poly, m: nat)
    requires |p| == |q| && m < |p| && p[m] != 0
    requires forall k: nat :: k < |p| ==> (q[k] == 0 <==> p[k] == 0 || k == m)
    ensures Weight(p) == Weight(q) + 1
  {
    var n := |p| - 1;
    if m == n { WeightSame(p[..n], q[..n]); } else { WeightLess(p[..n], q[..n], m); }
  }

  lemma {:induction false} WeightSame(p: Poly, q: Poly)
    requires |p| == |q| && forall k: nat :: k < |p| ==> (q[k] == 0 <==> p[k] == 0)
    ensures Weight(p) == Weight(q)
  {
    if |p| > 0 { WeightSame(p[..|p| - 1], q[..|p| - 1]); }
  }

  lemma {:induction false} WeightZero(p: Poly)
    ensures Weight(p) == 0 <==> forall k: nat :: k < |p| ==> p[k] == 0
  {
    if |p| > 0 {
      var n := |p| - 1;
      WeightZero(p[..n]);
      assert (forall k: nat :: k < |p| ==> p[k] == 0) <==> (forall k: nat :: k < n ==> p[..n][k] == 0) && p[n] == 0;
    }
  }

  // ---- The minimum distance ----

  /** A polynomial with few terms cannot vanish at many consecutive powers. */
  lemma {:induction false} TermsExceedRoots(p: Poly, a: Byte, d: nat, n: nat)
    requires Full(a) && |p| <= n && n == ORDER && Vanishes(p, a, d) && Weight(p) > 0
    ensures Weight(p) > d
    decreases d
  {
    if d > 0 {
      WeightZero(p);
      var m: nat :| m < |p| && p[m] != 0;
      var q := Dropped(p, a, Pow(a, |p| - 1 - m));
      forall k: nat | k < |p| ensures q[k] == 0 <==> p[k] == 0 || k == m {
        DroppedZeros(p, a, m, k, n);
      }
      WeightLess(p, q, m);
      DroppedVanishes(p, a, Pow(a, |p| - 1 - m), d - 1);
      if Weight(q) > 0 {
        TermsExceedRoots(q, a, d - 1, n);
      } else {
        OneTerm(p, q, a, m, d);
      }
    }
  }

  /** A single term vanishes nowhere, so not at 1. */
  lemma OneTerm(p: Poly, q: Poly, a: Byte, m: nat, d: nat)
    requires Vanishes(p, a, d) && Weight(p) == 1 && m < |p| && p[m] != 0
    ensures d == 0
  {
    if d > 0 {
      assert Eval(p, Pow(a, 0)) == 0;
      TermAtOne(p, m);
    }
  }

  /** At 1 a polynomial with one term has its coefficient. */
  lemma {:induction false} TermAtOne(p: Poly, m: nat)
    requires Weight(p) == 1 && m < |p| && p[m] != 0
    ensures Eval(p, 1) == p[m]
  {
    var n := |p| - 1;
    MulOne(Eval(p[..n], 1));
    if m == n {
      NoTermAtOne(p[..n]);
      XorZero(p[m]);
    } else {
      WeightZero(p[..n]);
      assert p[..n][m] != 0;
      TermAtOne(p[..n], m);
      XorZero(p[m]);
    }
  }

  lemma {:induction false} NoTermAtOne(p: Poly)
    requires Weight(p) == 0
    ensures Eval(p, 1) == 0
  {
    if |p| > 0 {
      NoTermAtOne(p[..|p| - 1]);
      MulZero(1);
      XorZero(0);
    }
  }

  lemma {:induction false} DifferencesAreTerms(p: Poly, q: Poly)
    requires |p| == |q|
    ensures Differences(p, q) == Weight(AddPoly(p, q))
    ensures Differences(p, q) == 0 <==> p == q
  {
    if |p| > 0 {
      var n := |p| - 1;
      DifferencesAreTerms(p[..n], q[..n]);
      assert AddPoly(p, q)[..n] == AddPoly(p[..n], q[..n]);
      XorIsZero(p[n], q[n]);
      assert p == p[..n] + [p[n]] && q == q[..n] + [q[n]];
    }
  }

  lemma VanishingDifference(p: Poly, q: Poly, a: Byte, d: nat)
    requires |p| == |q| && Vanishes(p, a, d) && Vanishes(q, a, d)
    ensures Vanishes(AddPoly(p, q), a, d)
  {
    forall i: nat | i < d
      ensures Eval(AddPoly(p, q), Pow(a, i)) == 0
    {
      EvalAdd(p, q, Pow(a, i));
      XorZero(0);
    }
  }

  /** A block: data and its error correction codewords. */
  function Codeword(data: Poly, degree: nat): (c: Poly)
    requires degree > 0
    ensures |c| == |data| + degree
  {
    data + Remainder(data, Divisor(degree))
  }

  lemma CodewordVanishes(data: Poly, degree: nat, a: Byte)
    requires degree > 0 && a == ALPHA
    ensures Vanishes(Codeword(data, degree), a, degree)
  {
    forall i: nat | i < degree
      ensures Eval(Codeword(data, degree), Pow(a, i)) == 0
    {
      CodewordVanishesAtRoots(data, degree, i);
    }
  }

  /** Blocks of different data of one length, 255 codewords at most in all, differ in more places than
      there are error correction codewords. */
  lemma MinimumDistance(data: Poly, other: Poly, degree: nat)
    requires degree > 0 && |data| == |other| && |data| + degree <= ORDER && data != other
    ensures Differences(Codeword(data, degree), Codeword(other, degree)) > degree
  {
    var a, n, p, q := ALPHA, ORDER, Codeword(data, degree), Codeword(other, degree);
    AlphaIsFull(a);
    CodewordVanishes(data, degree, a);
    CodewordVanishes(other, degree, a);
    VanishingDifference(p, q, a, degree);
    DifferencesAreTerms(p, q);
    assert data == p[..|data|] && other == q[..|data|];
    TermsExceedRoots(AddPoly(p, q), a, degree, n);
  }

  lemma {:induction false} Triangle(p: Poly, q: Poly, r: Poly)
    requires |p| == |q| == |r|
    ensures Differences(p, q) <= Differences(r, p) + Differences(r, q)
  {
    if |p| > 0 {
      var n := |p| - 1;
      Triangle(p[..n], q[..n], r[..n]);
    }
  }

  /** A received block with errors in at most half as many places as there are error correction
      codewords comes from one data block only. */
  lemma ErrorsCorrectable(received: Poly, data: Poly, other: Poly, degree: nat)
    requires degree > 0 && |data| == |other| && |received| == |data| + degree <= ORDER
    requires 2 * Differences(received, Codeword(data, degree)) <= degree
    requires 2 * Differences(received, Codeword(other, degree)) <= degree
    ensures data == other
  {
    Triangle(Codeword(data, degree), Codeword(other, degree), received);
    if data != other { MinimumDistance(data, other, degree); }
  }

  // ---- Whole symbols ----

  /** Block j as it was received: its data and error correction codewords. */
  function ReceivedBlock(p: I.Plan, received: seq<Byte>, j: nat): (r: Poly)
    requires p.Valid() && |received| == p.Raw() && j < p.blocks
    ensures |r| == p.DataLen(j) + p.ecc
  {
    I.ReadBlock(p, received, j) + I.ReadEcc(p, received, j)
  }

  /** In every block, at most half as many codewords as there are for error correction differ from
      those made for the data. */
  ghost predicate FewErrors(p: I.Plan, received: seq<Byte>, data: seq<Byte>)
    requires p.Valid() && |received| == p.Raw() && |data| == p.DataTotal()
  {
    forall j: nat :: j < p.blocks ==>
      2 * Differences(ReceivedBlock(p, received, j), Codeword(I.BlockData(p, data, j), p.ecc)) <= p.ecc
  }

  lemma {:induction false} BlocksDetermineData(p: I.Plan, data: seq<Byte>, other: seq<Byte>)
    requires p.Valid() && |data| == |other| == p.DataTotal()
    requires forall j: nat :: j < p.blocks ==> I.BlockData(p, data, j) == I.BlockData(p, other, j)
    ensures data == other
  {
    var codewords := I.Interleaved(p, data);
    forall j | 0 <= j < p.blocks
      ensures I.ReadBlock(p, codewords, j) == I.BlockData(p, other, j)
    {
      I.BlockRecovered(p, data, j);
    }
    I.DeinterleavePrefix(p, codewords, other, p.blocks);
    I.DeinterleaveInterleaved(p, data);
    assert other[..p.Start(p.blocks)] == other;
  }

  lemma PlanErrorsCorrectable(p: I.Plan, received: seq<Byte>, data: seq<Byte>, other: seq<Byte>)
    requires p.Valid() && p.base + 1 + p.ecc <= ORDER
    requires |received| == p.Raw() && |data| == |other| == p.DataTotal()
    requires FewErrors(p, received, data) && FewErrors(p, received, other)
    ensures data == other
  {
    forall j: nat | j < p.blocks
      ensures I.BlockData(p, data, j) == I.BlockData(p, other, j)
    {
      ErrorsCorrectable(ReceivedBlock(p, received, j), I.BlockData(p, data, j), I.BlockData(p, other, j), p.ecc);
    }
    BlocksDetermineData(p, data, other);
  }

  /** In every version and level, damaged codewords have one reading as long as no block has more
      errors than half its error correction codewords. */
  lemma SymbolErrorsCorrectable(ver: Version, ecl: Ecc, received: seq<Byte>, data: seq<Byte>, other: seq<Byte>)
    requires var p := Symbol.PlanOf(ver, ecl); |received| == p.Raw() && |data| == |other| == p.DataTotal()
    requires FewErrors(Symbol.PlanOf(ver, ecl), received, data) && FewErrors(Symbol.PlanOf(ver, ecl), received, other)
    ensures data == other
  {
    Symbol.BlocksAreShort(ver, ecl);
    PlanErrorsCorrectable(Symbol.PlanOf(ver, ecl), received, data, other);
  }

  /** Undamaged codewords have no errors: they are read as the data they were made for. */
  lemma NoErrors(p: I.Plan, data: seq<Byte>)
    requires p.Valid() && |data| == p.DataTotal()
    ensures FewErrors(p, I.Interleaved(p, data), data)
  {
    forall j: nat | j < p.blocks
      ensures Differences(ReceivedBlock(p, I.Interleaved(p, data), j), Codeword(I.BlockData(p, data, j), p.ecc)) == 0
    {
      I.BlockRecovered(p, data, j);
      var c := Codeword(I.BlockData(p, data, j), p.ecc);
      DifferencesAreTerms(c, c);
    }
  }
}
