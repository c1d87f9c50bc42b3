/** The Reed-Solomon encoder of a QR symbol (client/js/qr.js:42-67; section 7.5.2 of
    ISO/IEC 18004:2015). A polynomial is the sequence of its coefficients, highest power first. */
module ReedSolomon {
  import opened Bytes
  import opened Gf256

  type Poly = seq<Byte>

  /** The field element whose powers are the roots of the generator. */
  const ALPHA: Byte := 2

  /** The value of p at a, by Horner's rule. */
  function Eval(p: Poly, a: Byte): Byte {
    if |p| == 0 then 0
    else XorByte(Mul(Eval(p[..|p| - 1], a), a), p[|p| - 1])
  }

  function AddPoly(p: Poly, q: Poly): (r: Poly)
    requires |p| == |q|
    ensures |r| == |p|
  {
    seq(|p|, i requires 0 <= i < |p| => XorByte(p[i], q[i]))
  }

  function Scale(p: Poly, c: Byte): (r: Poly)
    ensures |r| == |p|
  {
    seq(|p|, i requires 0 <= i < |p| => Mul(p[i], c))
  }

  /** p times x, with the coefficient that leaves the window dropped. */
  function Shift(p: Poly): (r: Poly)
    requires |p| > 0
    ensures |r| == |p|
  {
    p[1..] + [0]
  }

  // ---- Evaluation is a ring homomorphism ----

  lemma {:induction false} EvalAdd(p: Poly, q: Poly, a: Byte)
    requires |p| == |q|
    ensures Eval(AddPoly(p, q), a) == XorByte(Eval(p, a), Eval(q, a))
  {
    if |p| > 0 {
      var n := |p| - 1;
      var p', q' := p[..n], q[..n];
      assert AddPoly(p, q)[..n] == AddPoly(p', q');
      EvalAdd(p', q', a);
      MulAddLeft(Eval(p', a), Eval(q', a), a);
      XorSwap(Mul(Eval(p', a), a), Mul(Eval(q', a), a), p[n], q[n]);
    }
  }

  lemma {:induction false} EvalScale(p: Poly, c: Byte, a: Byte)
    ensures Eval(Scale(p, c), a) == Mul(Eval(p, a), c)
  {
    if |p| == 0 {
      MulZero(c);
    } else {
      var n := |p| - 1;
      var v := Eval(p[..n], a);
      assert Scale(p, c)[..n] == Scale(p[..n], c);
      EvalScale(p[..n], c, a);
      MulAddLeft(Mul(v, a), p[n], c);
      MulSwap(v, a, c);
    }
  }

  lemma MulSwap(x: Byte, y: Byte, z: Byte)
    ensures Mul(Mul(x, y), z) == Mul(Mul(x, z), y)
  {
    MulAssociates(x, y, z);
    MulCommutes(y, z);
    MulAssociates(x, z, y);
  }

  /** Appending coefficients multiplies by a power of the argument. */
  lemma {:induction false} EvalAppend(p: Poly, q: Poly, a: Byte)
    ensures Eval(p + q, a) == XorByte(Mul(Eval(p, a), Pow(a, |q|)), Eval(q, a))
    decreases |q|
  {
    var v := Eval(p, a);
    if |q| == 0 {
      assert p + q == p;
      MulOne(v);
      XorZero(v);
    } else {
      var n := |q| - 1;
      var q', A := q[..n], Pow(a, n);
      assert (p + q)[..|p| + n] == p + q' && (p + q)[|p| + n] == q[n];
      EvalAppend(p, q', a);
      MulAddLeft(Mul(v, A), Eval(q', a), a);
      MulAssociates(v, A, a);
      XorAssoc(Mul(v, Pow(a, |q|)), Mul(Eval(q', a), a), q[n]);
    }
  }

  lemma EvalShift(p: Poly, a: Byte)
    requires |p| > 0
    ensures Eval(Shift(p), a) == XorByte(Mul(Eval(p, a), a), Mul(p[0], Pow(a, |p|)))
  {
    var tail, A := p[1..], Pow(a, |p| - 1);
    assert p == [p[0]] + tail;
    EvalAppend([p[0]], tail, a);
    assert Eval([p[0]], a) == p[0] by { MulZero(a); XorZero(p[0]); assert [p[0]][..0] == []; }
    assert Shift(p)[..|p| - 1] == tail;
    XorZero(Mul(Eval(tail, a), a));
    // Eval(p) = p0 A + Eval(tail), so Eval(tail) a = (Eval(p) - p0 A) a.
    var lead, t := Mul(p[0], A), Eval(tail, a);
    MulAddLeft(lead, t, a);
    MulAssociates(p[0], A, a);
    XorComm(Mul(Eval(p, a), a), Mul(lead, a));
    XorCancel(Mul(lead, a), Mul(t, a));
  }

  // ---- The generator polynomial ----

  /** p times (x - root), truncated to the length of p. */
  function TimesRoot(p: Poly, root: Byte): (r: Poly)
    requires |p| > 0
    ensures |r| == |p|
  {
    AddPoly(Scale(p, root), Shift(p))
  }

  /** The coefficients after the first i rounds of the outer loop of the divisor computation. */
  function DivisorAfter(degree: nat, i: nat): (r: Poly)
    requires degree > 0
    ensures |r| == degree
  {
    if i == 0 then seq(degree - 1, _ => 0) + [1]
    else TimesRoot(DivisorAfter(degree, i - 1), Pow(ALPHA, i - 1))
  }

  /** The generator of the given degree without its leading coefficient, which is 1. */
  function Divisor(degree: nat): (r: Poly)
    requires degree > 0
    ensures |r| == degree
  {
    DivisorAfter(degree, degree)
  }

  /** (a - 2^0)(a - 2^1) ... (a - 2^(n-1)). */
  function RootProduct(n: nat, a: Byte): Byte {
    if n == 0 then 1 else Mul(RootProduct(n - 1, a), XorByte(a, Pow(ALPHA, n - 1)))
  }

  method ComputeDivisor(degree: nat) returns (result: array<Byte>)
    requires degree > 0
    ensures fresh(result) && result[..] == Divisor(degree)
  {
    result := Unit(degree);
    var root: Byte := 1;
    for i := 0 to degree
      invariant result[..] == DivisorAfter(degree, i) && root == Pow(ALPHA, i)
    {
      DivisorNext(degree, i);
      MultiplyByRoot(result, root);
      root := Multiply(root, ALPHA);
    }
  }

  lemma DivisorNext(degree: nat, i: nat)
    requires degree > 0
    ensures DivisorAfter(degree, i + 1) == TimesRoot(DivisorAfter(degree, i), Pow(ALPHA, i))
    ensures Pow(ALPHA, i + 1) == Mul(Pow(ALPHA, i), ALPHA)
  {}

  /** The polynomial 1 in a window of the given length. */
  method Unit(degree: nat) returns (result: array<Byte>)
    requires degree > 0
    ensures fresh(result) && result[..] == DivisorAfter(degree, 0)
  {
    result := new Byte[degree](_ => 0);
    result[degree - 1] := 1;
  }

  /** The inner loop: the polynomial in `result` times (x - root). */
  method MultiplyByRoot(result: array<Byte>, root: Byte)
    requires result.Length > 0
    modifies result
    ensures result[..] == TimesRoot(old(result[..]), root)
  {
    ghost var was := result[..];
    for j := 0 to result.Length
      invariant forall k :: 0 <= k < j ==> result[k] == TimesRoot(was, root)[k]
      invariant forall k :: j <= k < result.Length ==> result[k] == was[k]
    {
      var product := Multiply(result[j], root);
      XorZero(product);
      result[j] := product;
      if j + 1 < result.Length {
        result[j] := XorByte(result[j], result[j + 1]);
      }
    }
  }

  /** Until the window is full nothing is dropped: the leading coefficient 1 moves left by one. */
  lemma {:induction false} LeadingOne(degree: nat, i: nat)
    requires i < degree
    ensures var d := DivisorAfter(degree, i);
            d[degree - 1 - i] == 1 && forall k :: 0 <= k < degree - 1 - i ==> d[k] == 0
  {
    if i > 0 {
      LeadingOne(degree, i - 1);
      LeadingStep(DivisorAfter(degree, i - 1), Pow(ALPHA, i - 1), degree - i);
    }
  }

  /** A polynomial led by 1 at index m > 0 is led by 1 at m - 1 after a multiplication by (x - root). */
  lemma LeadingStep(p: Poly, root: Byte, m: nat)
    requires 0 < m < |p| && p[m] == 1 && forall k :: 0 <= k < m ==> p[k] == 0
    ensures var r := TimesRoot(p, root); r[m - 1] == 1 && forall k :: 0 <= k < m - 1 ==> r[k] == 0
  {
    MulZero(root);
    XorZero(1);
    XorZero(0);
  }

  lemma UnitValue(degree: nat, a: Byte)
    requires degree > 0
    ensures Eval(DivisorAfter(degree, 0), a) == RootProduct(0, a)
  {
    EvalOne(degree - 1, a);
  }

  lemma {:induction false} DivisorValue(degree: nat, i: nat, a: Byte)
    requires 0 < degree && i < degree
    ensures Eval(DivisorAfter(degree, i), a) == RootProduct(i, a)
  {
    if i == 0 {
      UnitValue(degree, a);
    } else {
      var p, root := DivisorAfter(degree, i - 1), Pow(ALPHA, i - 1);
      assert p[0] == 0 by { LeadingOne(degree, i - 1); }
      assert Eval(p, a) == RootProduct(i - 1, a) by { DivisorValue(degree, i - 1, a); }
      assert Eval(TimesRoot(p, root), a) == Mul(RootProduct(i - 1, a), XorByte(a, root)) by {
        NothingDropped(p, root, a);
      }
      DivisorNext(degree, i - 1);
    }
  }

  lemma NothingDropped(p: Poly, root: Byte, a: Byte)
    requires |p| > 0 && p[0] == 0
    ensures Eval(TimesRoot(p, root), a) == Mul(Eval(p, a), XorByte(a, root))
  {
    EvalTimesRoot(p, root, a);
    MulZero(Pow(a, |p|));
    XorZero(Mul(Eval(p, a), XorByte(a, root)));
  }

  /** The last round drops the leading 1, which the constant 1 in front restores. */
  lemma LeadingOneDropped(p: Poly, root: Byte, a: Byte)
    requires |p| > 0 && p[0] == 1
    ensures Eval([1] + TimesRoot(p, root), a) == Mul(Eval(p, a), XorByte(a, root))
  {
    var A, v := Pow(a, |p|), Mul(Eval(p, a), XorByte(a, root));
    EvalMonic(TimesRoot(p, root), a);
    EvalTimesRoot(p, root, a);
    MulOne(A);
    XorComm(v, A);
    XorCancel(A, v);
  }

  lemma EvalMonic(p: Poly, a: Byte)
    ensures Eval([1] + p, a) == XorByte(Pow(a, |p|), Eval(p, a))
  {
    EvalAppend([1], p, a);
    EvalOne(0, a);
    assert [1] == seq(0, _ => 0) + [1];
    MulOne(Pow(a, |p|));
  }

  lemma EvalOne(n: nat, a: Byte)
    ensures Eval(seq(n, _ => 0) + [1], a) == 1
  {
    var p: Poly := seq(n, _ => 0) + [1];
    assert p[..n] == seq(n, _ => 0);
    EvalZeros(n, a);
    MulZero(a);
    XorZero(1);
  }

  lemma {:induction false} EvalZeros(n: nat, a: Byte)
    ensures Eval(seq(n, _ => 0), a) == 0
  {
    if n > 0 {
      assert seq(n, _ => 0)[..n - 1] == seq(n - 1, _ => 0);
      EvalZeros(n - 1, a);
      MulZero(a);
      XorZero(0);
    }
  }

  lemma EvalTimesRoot(p: Poly, root: Byte, a: Byte)
    requires |p| > 0
    ensures Eval(TimesRoot(p, root), a)
         == XorByte(Mul(Eval(p, a), XorByte(a, root)), Mul(p[0], Pow(a, |p|)))
  {
    var v, lost := Eval(p, a), Mul(p[0], Pow(a, |p|));
    EvalAdd(Scale(p, root), Shift(p), a);
    EvalScale(p, root, a);
    EvalShift(p, a);
    MulAddRight(v, a, root);
    XorAssoc(Mul(v, root), Mul(v, a), lost);
    XorComm(Mul(v, root), Mul(v, a));
  }

  /** The generator is exactly the product of the (x - 2^i) for i below its degree. */
  lemma GeneratorIsRootProduct(degree: nat, a: Byte)
    requires degree > 0
    ensures Eval([1] + Divisor(degree), a) == RootProduct(degree, a)
  {
    var i := degree - 1;
    var p, root := DivisorAfter(degree, i), Pow(ALPHA, i);
    assert Divisor(degree) == TimesRoot(p, root);
    assert p[0] == 1 by { LeadingOne(degree, i); }
    assert Eval(p, a) == RootProduct(i, a) by { DivisorValue(degree, i, a); }
    LeadingOneDropped(p, root, a);
  }

  lemma {:induction false} RootProductVanishes(n: nat, i: nat)
    requires i < n
    ensures RootProduct(n, Pow(ALPHA, i)) == 0
  {
    var a := Pow(ALPHA, i);
    if i == n - 1 {
      XorSelf(a);
    } else {
      RootProductVanishes(n - 1, i);
      MulZero(XorByte(a, Pow(ALPHA, n - 1)));
    }
  }

  // ---- Polynomial division ----

  /** One turn of the shift register: the next data byte, xor the leading remainder byte, is the
      next coefficient of the quotient. */
  function RemainderStep(r: Poly, divisor: Poly, b: Byte): (s: Poly)
    requires |r| == |divisor| > 0
    ensures |s| == |divisor|
  {
    AddPoly(Shift(r), Scale(divisor, XorByte(b, r[0])))
  }

  function Remainder(data: Poly, divisor: Poly): (r: Poly)
    requires |divisor| > 0
    ensures |r| == |divisor|
  {
    if |data| == 0 then seq(|divisor|, _ => 0)
    else RemainderStep(Remainder(data[..|data| - 1], divisor), divisor, data[|data| - 1])
  }

  /** The factors the shift register multiplies the divisor by. */
  function Quotient(data: Poly, divisor: Poly): (q: Poly)
    requires |divisor| > 0
  {
    if |data| == 0 then []
    else
      var n := |data| - 1;
      Quotient(data[..n], divisor) + [XorByte(data[n], Remainder(data[..n], divisor)[0])]
  }

  method ComputeRemainder(data: seq<Byte>, divisor: array<Byte>) returns (result: array<Byte>)
    requires divisor.Length > 0
    ensures fresh(result) && result[..] == Remainder(data, divisor[..])
  {
    result := new Byte[divisor.Length](_ => 0);
    assert result[..] == Remainder(data[..0], divisor[..]);
    for k := 0 to |data|
      invariant result[..] == Remainder(data[..k], divisor[..])
    {
      ghost var was := result[..];
      var factor := XorByte(data[k], result[0]);
      ShiftInPlace(result);
      AddMultiple(result, divisor, factor);
      assert data[..k + 1][..k] == data[..k];
      assert result[..] == RemainderStep(was, divisor[..], data[k]);
    }
    assert data[..|data|] == data;
  }

  /** The inner loop: result += factor * divisor. */
  method AddMultiple(result: array<Byte>, divisor: array<Byte>, factor: Byte)
    requires result.Length == divisor.Length && result != divisor
    modifies result
    ensures result[..] == AddPoly(old(result[..]), Scale(divisor[..], factor))
  {
    ghost var was := result[..];
    for i := 0 to result.Length
      invariant forall j :: 0 <= j < i ==> result[j] == XorByte(was[j], Mul(divisor[j], factor))
      invariant forall j :: i <= j < result.Length ==> result[j] == was[j]
    {
      var product := Multiply(divisor[i], factor);
      result[i] := XorByte(result[i], product);
    }
  }

  /** `copyWithin(0, 1)` followed by clearing the last byte. */
  method ShiftInPlace(a: array<Byte>)
    requires a.Length > 0
    modifies a
    ensures a[..] == Shift(old(a[..]))
  {
    for i := 0 to a.Length - 1
      invariant forall j :: 0 <= j < i ==> a[j] == old(a[j + 1])
      invariant forall j :: i <= j < a.Length ==> a[j] == old(a[j])
    {
      a[i] := a[i + 1];
    }
    a[a.Length - 1] := 0;
  }

  /** The shift register divides: data followed by its remainder is the quotient times the
      (monic) divisor, at every point of the field. */
  lemma {:induction false} RemainderDivides(data: Poly, divisor: Poly, a: Byte)
    requires |divisor| > 0
    ensures Eval(data + Remainder(data, divisor), a)
         == Mul(Eval(Quotient(data, divisor), a), Eval([1] + divisor, a))
  {
    var n, A := |data|, Pow(a, |divisor|);
    var g := Eval([1] + divisor, a);
    var r := Remainder(data, divisor);
    EvalAppend(data, r, a);
    if n == 0 {
      EvalZeros(|divisor|, a);
      MulZero(A);
      MulZero(g);
      XorZero(0);
    } else {
      var data', b := data[..n - 1], data[n - 1];
      var r', q' := Remainder(data', divisor), Quotient(data', divisor);
      var f := XorByte(b, r'[0]);
      RemainderDivides(data', divisor, a);
      EvalAppend(data', r', a);
      StepValue(r', divisor, b, a);
      assert Quotient(data, divisor)[..n - 1] == q' by { QuotientLength(data', divisor); }
      QuotientLength(data, divisor);
      DivisionStep(Eval(data', a), Eval(r', a), Eval(q', a), b, f, a, A, g);
    }
  }

  lemma {:induction false} QuotientLength(data: Poly, divisor: Poly)
    requires |divisor| > 0
    ensures |Quotient(data, divisor)| == |data|
  {
    if |data| > 0 { QuotientLength(data[..|data| - 1], divisor); }
  }

  /** The value of the next remainder: r a + b A + f g, where g is the divisor's value. */
  lemma StepValue(r: Poly, divisor: Poly, b: Byte, a: Byte)
    requires |r| == |divisor| > 0
    ensures Eval(RemainderStep(r, divisor, b), a)
         == XorByte(XorByte(Mul(Eval(r, a), a), Mul(b, Pow(a, |divisor|))),
                    Mul(XorByte(b, r[0]), Eval([1] + divisor, a)))
  {
    var A, f, d := Pow(a, |divisor|), XorByte(b, r[0]), Eval(divisor, a);
    var ra, bA, r0A := Mul(Eval(r, a), a), Mul(b, A), Mul(r[0], A);
    var g := Eval([1] + divisor, a);
    EvalMonic(divisor, a);
    assert g == XorByte(A, d);
    EvalAdd(Shift(r), Scale(divisor, f), a);
    EvalShift(r, a);
    EvalScale(divisor, f, a);
    MulCommutes(d, f);
    // r0 A = b A + f A, and f A + f d = f g
    MulAddLeft(b, r[0], A);
    XorCancel(bA, r0A);
    MulAddRight(f, A, d);
    XorAssoc(ra, r0A, Mul(f, d));
    XorAssoc(bA, Mul(f, A), Mul(f, d));
    XorAssoc(ra, bA, Mul(f, g));
  }

  /** If D A + R = Q g then (D a + b) A + (R a + b A + f g) = (Q a + f) g. */
  lemma DivisionStep(D: Byte, R: Byte, Q: Byte, b: Byte, f: Byte, a: Byte, A: Byte, g: Byte)
    requires XorByte(Mul(D, A), R) == Mul(Q, g)
    ensures XorByte(Mul(XorByte(Mul(D, a), b), A), XorByte(XorByte(Mul(R, a), Mul(b, A)), Mul(f, g)))
         == Mul(XorByte(Mul(Q, a), f), g)
  {
    var DAa, Ra, bA, fg := Mul(Mul(D, A), a), Mul(R, a), Mul(b, A), Mul(f, g);
    MulAddLeft(Mul(D, a), b, A);
    MulSwap(D, a, A);
    MulAddLeft(Mul(D, A), R, a);
    MulSwap(Q, g, a);
    MulAddLeft(Mul(Q, a), f, g);
    // (DAa + bA) + ((Ra + bA) + fg) = (DAa + Ra) + fg
    XorAssoc(XorByte(DAa, bA), XorByte(Ra, bA), fg);
    XorSwap(DAa, bA, Ra, bA);
    XorSelf(bA);
    XorZero(XorByte(DAa, Ra));
  }

  /** Section 7.5.2: a data block followed by its error correction codewords is a multiple of the
      generator, so it vanishes at 2^0, 2^1, ..., 2^(degree-1). */
  lemma CodewordVanishesAtRoots(data: Poly, degree: nat, i: nat)
    requires i < degree
    ensures Eval(data + Remainder(data, Divisor(degree)), Pow(ALPHA, i)) == 0
  {
    var a := Pow(ALPHA, i);
    RemainderDivides(data, Divisor(degree), a);
    GeneratorIsRootProduct(degree, a);
    RootProductVanishes(degree, i);
  }
}
