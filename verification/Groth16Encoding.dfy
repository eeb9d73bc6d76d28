/** What the bits of a compressed point mean, without the code that finds them: a sign bit says that
    y, or its real part, is not a square modulo P, and the hint bit that the norm of y is not. */
module Groth16Encoding {
  import opened Proofs
  import opened Field
  import opened Groth16
  import opened Groth16Ops
  import opened Groth16Points
  import opened Groth16Roots

  ghost predicate Square(n: int, p: Modulus) {
    exists b: int :: IsRoot(b, n, p)
  }

  /** 1 for a number that is not a square. */
  ghost function NonSquareBit(n: int, p: Modulus): nat {
    if Square(n, p) then 0 else 1
  }

  /** The roots the contract finds are themselves squares. */
  lemma {:induction false} RootIsSquare(v: Verifier, a: nat)
    requires Faithful(v.evm) && v.SqrtFp(a).Success?
    ensures Square(v.SqrtFp(a).value, v.k.p)
  {
    hide Faithful;
    var x, e, p := v.SqrtFp(a).value, v.k.expSqrt, v.k.p;
    SqrtFpChecked(v, a);
    ExpIs(v, a, x * x, e);
    PowBase(x, x, e);
    assert IsRoot(Pow(x, e), x, p);
  }

  lemma {:induction false} SquareCong(m: int, n: int, p: Modulus)
    requires Square(m, p) && Cong(n, m, p)
    ensures Square(n, p)
  {
    var b: int :| IsRoot(b, m, p);
    assert IsRoot(b, n, p);
  }

  /** Minus a nonzero square is not a square, P being 3 modulo 4. */
  lemma {:induction false} NegatedNotSquare(v: Verifier, s: int, n: int)
    requires Standard(v) && Square(s, v.k.p) && Cong(n, -s, v.k.p) && !Cong(s, 0, v.k.p)
    ensures !Square(n, v.k.p)
  {
    hide Faithful, Fermat;
    var p := v.k.p;
    if Square(n, p) {
      var b: int :| IsRoot(b, s, p);
      var t: int :| IsRoot(t, n, p);
      AddCong(0, 0, b * b, s, p);
      MinusSquare(b, t, v.k.expSqrt, p);
      MulCong(b, 0, b, 0, p);
    }
  }

  lemma {:induction false} ZeroIsSquare(p: Modulus)
    ensures Square(0, p)
  {
    assert IsRoot(0, 0, p);
  }

  /** A compressed G1 point is 2 x, plus 1 when y is not a square. */
  lemma {:induction false} EncodingG1(v: Verifier, pt: G1)
    requires Standard(v) && v.CompressG1(pt).Success?
    ensures v.CompressG1(pt).value == 2 * pt.x + NonSquareBit(pt.y, v.k.p)
  {
    hide Faithful, Fermat, Square, Verifier.SqrtFp, Verifier.CurveG1, Verifier.Negate, OrOne, ShiftOne;
    var p := v.k.p;
    Bits(pt.x);
    if pt == G1(0, 0) {
      ZeroIsSquare(p);
    } else {
      var y := v.SqrtFp(v.CurveG1(pt.x)).value;
      RootIsSquare(v, v.CurveG1(pt.x));
      RootReduced(v, v.CurveG1(pt.x));
      NegateReduced(v, y);
      if pt.y != y {
        SmallNonzero(y, p);
        NegateIs(v, y, y);
        NegatedNotSquare(v, y, pt.y);
      }
    }
  }

  /** The hint says whether the norm of y is a square. */
  lemma {:induction false} HintMeans(v: Verifier, a0: nat, a1: nat, y0: int, y1: int)
    requires Standard(v) && a0 < v.k.p && SquaresTo(y0, y1, a0, a1, v.k.p) && !Cong(y0, 0, v.k.p)
    ensures v.HintFor((a0, a1)).Success?
    ensures v.HintFor((a0, a1)).value <==> !Square(y0 * y0 + y1 * y1, v.k.p)
  {
    hide Faithful, Fermat, Square, NormOf, Verifier.SqrtFp, Verifier.HintFor, Verifier.Negate, SquaresTo, Sound;
    var p, s := v.k.p, y0 * y0 + y1 * y1;
    HintFound(v, a0, a1, y0, y1);
    var root := v.SqrtFp(NormOf(v, a0, a1)).value;
    RootIsSquare(v, NormOf(v, a0, a1));
    if v.HintFor((a0, a1)).value {
      NegateIs(v, root, root);
      if Cong(root, 0, p) {
        AddCong(0, 0, root, 0, p);
        SumNotZero(v, y0, y1);
      }
      NegatedNotSquare(v, root, s);
    } else {
      SquareCong(root, s, p);
    }
  }

  lemma {:induction false} SumNotZero(v: Verifier, y0: int, y1: int)
    requires Standard(v) && !Cong(y0, 0, v.k.p)
    ensures !Cong(y0 * y0 + y1 * y1, 0, v.k.p)
  {
    hide Faithful, Fermat;
    var p := v.k.p;
    if Cong(y0 * y0 + y1 * y1, 0, p) {
      AddCong(y0 * y0 + y1 * y1, 0, y1 * y1, y1 * y1, p);
      MinusSquare(y1, y0, v.k.expSqrt, p);
    }
  }

  /** A compressed G2 point is 4 x0, plus 2 when the norm of y is not a square, plus 1 when y0 is
      not, with x1 beside it. */
  lemma {:induction false} EncodingG2(v: Verifier, pt: G2)
    requires Standard(v) && v.CompressG2(pt).Success?
    ensures v.CompressG2(pt).value ==
      (4 * pt.x0 + 2 * NonSquareBit(pt.y0 * pt.y0 + pt.y1 * pt.y1, v.k.p) + NonSquareBit(pt.y0, v.k.p), pt.x1)
  {
    hide Faithful, Fermat, Square, OnTwist, SquaresTo, Verifier.SqrtFp, Verifier.SqrtFp2, Verifier.HintFor, Verifier.CurveG2, Verifier.Negate,
      OrOne, OrTwo, ShiftTwo;
    var p := v.k.p;
    Bits(pt.x0);
    if pt == G2(0, 0, 0, 0) {
      ZeroIsSquare(p);
    } else {
      var a := v.CurveG2(pt.x0, pt.x1);
      var hint := v.HintFor(a).value;
      AcceptedOnTwist(v, pt);
      TwistSquares(v, pt);
      SmallNonzero(pt.y0, p);
      CurveG2Is(v, pt.x0, pt.x1);
      HintMeans(v, a.0, a.1, pt.y0, pt.y1);
      SignMeans(v, a.0, a.1, hint, pt);
    }
  }

  /** The real part the contract finds is a square; its negation is not. */
  lemma {:induction false} SignMeans(v: Verifier, a0: nat, a1: nat, hint: bool, pt: G2)
    requires Standard(v) && v.SqrtFp2(a0, a1, hint).Success? && pt.y0 != 0 && pt.y0 < v.k.p
    ensures var y0 := v.SqrtFp2(a0, a1, hint).value.0;
      && (pt.y0 == y0 ==> Square(pt.y0, v.k.p))
      && (pt.y0 == v.Negate(y0) ==> !Square(pt.y0, v.k.p))
  {
    hide Faithful, Fermat, Square, SquaresTo, Verifier.SqrtFp, Verifier.Negate, Verifier.InvertFp, MulMod, AddMod;
    var (y0, _) := v.SqrtFp2(a0, a1, hint).value;
    SqrtFp2Checked(v, a0, a1, hint);
    var root := v.SqrtFp(NormOf(v, a0, a1)).value;
    RootIsSquare(v, HalfSum(v, a0, if hint then v.Negate(root) else root));
    if pt.y0 == v.Negate(y0) {
      NegateIs(v, y0, y0);
      NegatedNotSquare(v, y0, pt.y0);
    }
  }
}
