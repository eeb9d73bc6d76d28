/** Square roots in Fp2 as the contract finds them: exactly which twist points compress, and that
    compressed words are canonical. MODEXP is the modular power and P satisfies Fermat's little theorem. */
module Groth16Roots {
  import opened Proofs
  import opened Field
  import opened Groth16
  import opened Groth16Ops
  import opened Groth16Points

  ghost predicate Standard(v: Verifier) {
    Sound(v.k) && Faithful(v.evm) && Fermat(v.k.p)
  }

  lemma {:induction false} SmallNonzero(n: nat, p: Modulus)
    requires 0 < n < p
    ensures !Cong(n, 0, p)
  {
    Reduced(n, p);
    Reduced(0, p);
  }

  /** A y of the twist squares to the contract's x³ + 3/(9 + i). */
  lemma {:induction false} TwistSquares(v: Verifier, pt: G2)
    requires Standard(v) && OnTwist(pt, v.k.p)
    ensures SquaresTo(pt.y0, pt.y1, v.CurveG2(pt.x0, pt.x1).0, v.CurveG2(pt.x0, pt.x1).1, v.k.p)
  {
    hide Cong, Times, Cube, Verifier.CurveG2, Fermat, Faithful;
    var p, f, g := v.k.p, v.k.fraction27_82, v.k.fraction3_82;
    CurveG2IsCube(v, pt.x0, pt.x1);
    var y, c := Gaussian(pt.y0, pt.y1), Cube(Gaussian(pt.x0, pt.x1));
    var w := Minus(Times(y, y), c);
    DivideByNinePlusI(w, f, g, p);
    YSquaredIs(pt, c, f, g, v.CurveG2(pt.x0, pt.x1).0, v.CurveG2(pt.x0, pt.x1).1, p);
  }

  lemma {:induction false} DivideByNinePlusI(w: Gaussian, f: int, g: int, p: Modulus)
    requires Fermat(p) && p > 82
    requires Same(Times(Gaussian(9, 1), w), Gaussian(3, 0), p)
    requires Cong(9 * f + g, 3, p) && Cong(f - 9 * g, 0, p)
    ensures Cong(w.re, f, p) && Cong(w.im, -g, p)
  {
    var u0, u1 := w.re - f, w.im + g;
    var e0, e1 := 9 * w.re - w.im, 9 * w.im + w.re;
    assert Times(Gaussian(9, 1), w) == Gaussian(e0, e1);
    AddCong(e0, 3, 9 * f + g, 3, p);
    AddCong(e1, 0, f - 9 * g, 0, p);
    assert Cong(9 * u0 - u1, 0, p) && Cong(9 * u1 + u0, 0, p);
    MulCong(9, 9, 9 * u0 - u1, 0, p);
    AddCong(9 * (9 * u0 - u1), 0, 9 * u1 + u0, 0, p);
    assert Cong(82 * u0, 0, p);
    SmallNonzero(82, p);
    NoZeroDivisors(82, u0, p);
    MulCong(9, 9, u0, 0, p);
    AddCong(9 * u0, 0, 9 * u0 - u1, 0, p);
    AddCong(u0, 0, f, f, p);
    AddCong(u1, 0, g, g, p);
  }

  lemma {:induction false} YSquaredIs(pt: G2, c: Gaussian, f: int, g: int, a0: int, a1: int, p: Modulus)
    requires var w := Minus(Times(Gaussian(pt.y0, pt.y1), Gaussian(pt.y0, pt.y1)), c); Cong(w.re, f, p) && Cong(w.im, -g, p)
    requires Cong(a0, f + c.re, p) && Cong(a1, c.im - g, p)
    ensures SquaresTo(pt.y0, pt.y1, a0, a1, p)
  {
    var y := Gaussian(pt.y0, pt.y1);
    assert pt.y1 * pt.y0 == pt.y0 * pt.y1;
    assert Times(y, y) == Gaussian(pt.y0 * pt.y0 - pt.y1 * pt.y1, 2 * (pt.y0 * pt.y1));
    var w := Minus(Times(y, y), c);
    AddCong(w.re, f, c.re, c.re, p);
    AddCong(w.im, -g, c.im, c.im, p);
  }

  // ----- The norm and its halves

  /** The argument of the first square root: the norm of a. */
  function NormOf(v: Verifier, a0: nat, a1: nat): nat {
    AddMod(MulMod(a0, a0, v.k.p), MulMod(a1, a1, v.k.p), v.k.p)
  }

  function HalfSum(v: Verifier, a0: nat, d: nat): nat {
    MulMod(AddMod(a0, d, v.k.p), v.k.half, v.k.p)
  }

  lemma {:induction false} NormIdentity(y0: int, y1: int)
    ensures var s := y0 * y0 + y1 * y1; var (r, i) := (y0 * y0 - y1 * y1, 2 * (y0 * y1));
      r * r + i * i == s * s
  {
    var u, w, m := y0 * y0, y1 * y1, y0 * y1;
    assert m * m == u * w;
    assert (u - w) * (u - w) == u * u - 2 * (u * w) + w * w;
    assert (u + w) * (u + w) == u * u + 2 * (u * w) + w * w;
    assert (2 * m) * (2 * m) == 4 * (m * m);
  }

  /** The norm of (y0 + y1 i)² is (y0² + y1²)². */
  lemma {:induction false} NormIs(v: Verifier, a0: nat, a1: nat, y0: int, y1: int)
    requires SquaresTo(y0, y1, a0, a1, v.k.p)
    ensures var s := y0 * y0 + y1 * y1; NormOf(v, a0, a1) < v.k.p && Cong(NormOf(v, a0, a1), s * s, v.k.p)
  {
    hide Cong, MulMod, AddMod;
    var p := v.k.p;
    var r, i := y0 * y0 - y1 * y1, 2 * (y0 * y1);
    assert Cong(a0, r, p) && Cong(a1, i, p) by {
      SquaresSymmetric(a0, a1, y0, y1, p);
    }
    MulModIs(a0, a0, r, r, p);
    MulModIs(a1, a1, i, i, p);
    AddModIs(MulMod(a0, a0, p), MulMod(a1, a1, p), r * r, i * i, p);
    NormIdentity(y0, y1);
  }

  lemma {:induction false} SquaresSymmetric(a0: int, a1: int, y0: int, y1: int, p: Modulus)
    requires SquaresTo(y0, y1, a0, a1, p)
    ensures Cong(a0, y0 * y0 - y1 * y1, p) && Cong(a1, 2 * (y0 * y1), p)
  {
  }

  /** Half of a0 + d when d is y0² + y1², or its negation. */
  lemma {:induction false} HalfSumIs(v: Verifier, a0: nat, d: nat, u: int, w: int)
    requires Sound(v.k) && Cong(a0, u - w, v.k.p)
    ensures HalfSum(v, a0, d) < v.k.p
    ensures Cong(d, u + w, v.k.p) ==> Cong(HalfSum(v, a0, d), u, v.k.p)
    ensures Cong(d, -(u + w), v.k.p) ==> Cong(HalfSum(v, a0, d), -w, v.k.p)
  {
    var p := v.k.p;
    AddModIs(a0, d, a0, d, p);
    MulModIs(AddMod(a0, d, p), v.k.half, a0 + d, v.k.half, p);
    if Cong(d, u + w, p) {
      AddCong(a0, u - w, d, u + w, p);
      HalfOf(v, a0 + d, u);
    }
    if Cong(d, -(u + w), p) {
      AddCong(a0, u - w, d, -(u + w), p);
      HalfOf(v, a0 + d, -w);
    }
  }

  lemma {:induction false} HalfOf(v: Verifier, n: int, u: int)
    requires Sound(v.k) && Cong(n, 2 * u, v.k.p)
    ensures Cong(n * v.k.half, u, v.k.p)
  {
    var p, h := v.k.p, v.k.half;
    MulCong(n, 2 * u, h, h, p);
    MulCong(u, u, 2 * h, 1, p);
    assert (2 * u) * h == u * (2 * h);
  }

  // ----- A known root is found

  /** The hint and root d the contract settles on for a = (y0 + y1 i)²: after the hint, d is y0² + y1². */
  lemma {:induction false} HintFound(v: Verifier, a0: nat, a1: nat, y0: int, y1: int)
    requires Standard(v) && a0 < v.k.p && SquaresTo(y0, y1, a0, a1, v.k.p) && !Cong(y0, 0, v.k.p)
    ensures v.SqrtFp(NormOf(v, a0, a1)).Success? && v.HintFor((a0, a1)).Success?
    ensures var root := v.SqrtFp(NormOf(v, a0, a1)).value;
      Cong(if v.HintFor((a0, a1)).value then v.Negate(root) else root, y0 * y0 + y1 * y1, v.k.p)
  {
    hide Faithful, Fermat, Cong, MulMod, AddMod;
    var p := v.k.p;
    var u, w := y0 * y0, y1 * y1;
    NormIs(v, a0, a1, y0, y1);
    SqrtFpSucceeds(v, NormOf(v, a0, a1), u + w);
    var d := v.SqrtFp(NormOf(v, a0, a1)).value;
    SquaresSymmetric(a0, a1, y0, y1, p);
    HalfSumIs(v, a0, d, u, w);
    if Cong(d, u + w, p) {
      SqrtFpSucceeds(v, HalfSum(v, a0, d), y0);
    } else {
      NegatedSum(v, d, u + w);
      ExpIs(v, HalfSum(v, a0, d), HalfSum(v, a0, d), v.k.expSqrt);
      if v.IsSquareFp(HalfSum(v, a0, d)) == Success(true) {
        WrongHalf(v, a0, a1, d, y0, y1);
      }
    }
  }

  lemma {:induction false} NegatedSum(v: Verifier, d: nat, s: int)
    requires Cong(d, -s, v.k.p)
    ensures Cong(v.Negate(d), s, v.k.p)
  {
    NegateIs(v, d, -s);
  }

  /** The half with the wrong sign is not a square: it is -y1², and -1 is not a square; when y1 is
      0 the root d of y0⁴ would have been y0² itself. */
  lemma {:induction false} WrongHalf(v: Verifier, a0: nat, a1: nat, d: nat, y0: int, y1: int)
    requires Standard(v) && SquaresTo(y0, y1, a0, a1, v.k.p)
    requires v.SqrtFp(NormOf(v, a0, a1)) == Success(d)
    requires Cong(HalfSum(v, a0, d), -(y1 * y1), v.k.p) && v.IsSquareFp(HalfSum(v, a0, d)) == Success(true)
    ensures Cong(d, y0 * y0 + y1 * y1, v.k.p)
  {
    hide Faithful, Fermat, MulMod, AddMod;
    var p := v.k.p;
    var t := IsSquareFpChecked(v, HalfSum(v, a0, d));
    MinusSquare(y1, t, v.k.expSqrt, p);
    NormIs(v, a0, a1, y0, y1);
    MulCong(y1, 0, y1, 0, p);
    AddCong(y0 * y0, y0 * y0, y1 * y1, 0, p);
    var s := y0 * y0 + y1 * y1;
    MulCong(s, y0 * y0, s, y0 * y0, p);
    SqrtFpOfFourth(v, NormOf(v, a0, a1), y0);
  }

  /** From a known root of a with nonzero real part, the contract finds it or its negation. */
  lemma {:induction false} RootFound(v: Verifier, a0: nat, a1: nat, y0: int, y1: int)
    requires Standard(v) && a0 < v.k.p && a1 < v.k.p
    requires SquaresTo(y0, y1, a0, a1, v.k.p) && !Cong(y0, 0, v.k.p)
    ensures v.HintFor((a0, a1)).Success? && v.SqrtFp2(a0, a1, v.HintFor((a0, a1)).value).Success?
    ensures var (x0, x1) := v.SqrtFp2(a0, a1, v.HintFor((a0, a1)).value).value;
      && x0 < v.k.p && x1 < v.k.p
      && ((Cong(x0, y0, v.k.p) && Cong(x1, y1, v.k.p)) || (Cong(x0, -y0, v.k.p) && Cong(x1, -y1, v.k.p)))
  {
    hide Faithful, Fermat, Cong, MulMod, AddMod, Sound;
    var p := v.k.p;
    HintFound(v, a0, a1, y0, y1);
    var hint, root := v.HintFor((a0, a1)).value, v.SqrtFp(NormOf(v, a0, a1)).value;
    var d := if hint then v.Negate(root) else root;
    SquaresSymmetric(a0, a1, y0, y1, p);
    HalfSumIs(v, a0, d, y0 * y0, y1 * y1);
    RealPartFound(v, HalfSum(v, a0, d), y0);
    var x0 := v.SqrtFp(HalfSum(v, a0, d)).value;
    ImaginaryPartFound(v, a0, a1, x0, y0, y1);
  }

  lemma {:induction false} RealPartFound(v: Verifier, n: nat, y0: int)
    requires Standard(v) && n < v.k.p && Cong(n, y0 * y0, v.k.p)
    ensures v.SqrtFp(n).Success? && v.SqrtFp(n).value < v.k.p
    ensures Cong(v.SqrtFp(n).value, y0, v.k.p) || Cong(v.SqrtFp(n).value, -y0, v.k.p)
  {
    SqrtFpSucceeds(v, n, y0);
  }

  /** With the real part found up to sign, the imaginary part follows and the final check passes. */
  lemma {:induction false} ImaginaryPartFound(v: Verifier, a0: nat, a1: nat, x0: nat, y0: int, y1: int)
    requires Standard(v) && a0 < v.k.p && a1 < v.k.p
    requires SquaresTo(y0, y1, a0, a1, v.k.p) && !Cong(y0, 0, v.k.p)
    requires Cong(x0, y0, v.k.p) || Cong(x0, -y0, v.k.p)
    ensures v.InvertFp(MulMod(x0, 2, v.k.p)).Success?
    ensures var x1 := MulMod(a1, v.InvertFp(MulMod(x0, 2, v.k.p)).value, v.k.p);
      && x1 < v.k.p
      && ((Cong(x0, y0, v.k.p) && Cong(x1, y1, v.k.p)) || (Cong(x0, -y0, v.k.p) && Cong(x1, -y1, v.k.p)))
      && a0 == AddMod(MulMod(x0, x0, v.k.p), v.Negate(MulMod(x1, x1, v.k.p)), v.k.p)
      && a1 == MulMod(2, MulMod(x0, x1, v.k.p), v.k.p)
  {
    hide Faithful, Fermat, MulMod, AddMod, Sound, SquaresTo, Verifier.InvertFp, Verifier.Negate;
    var p := v.k.p;
    if Cong(x0, y0, p) {
      ImaginaryPart(v, a0, a1, x0, y0, y1);
    } else {
      SquaresToNegated(y0, y1, a0, a1, p);
      if Cong(-y0, 0, p) {
        AddCong(0, 0, -y0, 0, p);
      }
      ImaginaryPart(v, a0, a1, x0, -y0, -y1);
    }
  }

  lemma {:induction false} ImaginaryPart(v: Verifier, a0: nat, a1: nat, x0: nat, y0: int, y1: int)
    requires Standard(v) && a0 < v.k.p && a1 < v.k.p
    requires SquaresTo(y0, y1, a0, a1, v.k.p) && !Cong(y0, 0, v.k.p) && Cong(x0, y0, v.k.p)
    ensures v.InvertFp(MulMod(x0, 2, v.k.p)).Success?
    ensures var x1 := MulMod(a1, v.InvertFp(MulMod(x0, 2, v.k.p)).value, v.k.p);
      && x1 < v.k.p && Cong(x1, y1, v.k.p)
      && a0 == AddMod(MulMod(x0, x0, v.k.p), v.Negate(MulMod(x1, x1, v.k.p)), v.k.p)
      && a1 == MulMod(2, MulMod(x0, x1, v.k.p), v.k.p)
  {
    hide Faithful, Fermat, MulMod, AddMod;
    var p := v.k.p;
    MulModIs(x0, 2, y0, 2, p);
    var n := MulMod(x0, 2, p);
    SmallNonzero(2, p);
    if Cong(n, 0, p) {
      NoZeroDivisors(y0, 2, p);
    }
    InvertFpSucceeds(v, n);
    var i := v.InvertFp(n).value;
    MulModIs(a1, i, a1, i, p);
    var x1 := MulMod(a1, i, p);
    Quotient2(a1, n, i, x1, y0, y1, p);
    SquaresToCong(y0, y1, x0, x1, a0, a1, p);
    SquareIs(v, x0, x1);
    ReducedEqual(a0, AddMod(MulMod(x0, x0, p), v.Negate(MulMod(x1, x1, p)), p), p);
    ReducedEqual(a1, MulMod(2, MulMod(x0, x1, p), p), p);
  }

  /** a1 / (2 y0) is y1 when a1 is 2 y0 y1. */
  lemma {:induction false} Quotient2(a1: int, n: int, i: int, x1: int, y0: int, y1: int, p: Modulus)
    requires Cong(2 * (y0 * y1), a1, p) && Cong(n, y0 * 2, p) && Cong(n * i, 1, p) && Cong(x1, a1 * i, p)
    ensures Cong(x1, y1, p)
  {
    MulCong(2 * (y0 * y1), a1, i, i, p);
    MulCong(n, y0 * 2, y1, y1, p);
    assert y0 * 2 * y1 == 2 * (y0 * y1);
    MulCong(n * y1, 2 * (y0 * y1), i, i, p);
    MulCong(n * i, 1, y1, y1, p);
    assert n * y1 * i == n * i * y1;
  }

  // ----- Which points compress

  /** Compression accepts exactly infinity and the reduced points of the twist with nonzero y0. A
      point of the twist with y0 = 0 is refused, although the code calls it a point not on the curve. */
  lemma {:induction false} CompressG2Accepts(v: Verifier, pt: G2)
    requires Standard(v)
    ensures v.CompressG2(pt).Success? <==>
      && pt.x0 < v.k.p && pt.x1 < v.k.p && pt.y0 < v.k.p && pt.y1 < v.k.p
      && (pt == G2(0, 0, 0, 0) || (OnTwist(pt, v.k.p) && pt.y0 != 0))
  {
    hide Faithful, Fermat, OnTwist, Verifier.SqrtFp2, Verifier.HintFor, Verifier.Negate, Verifier.CurveG2, SquaresTo, OrOne, OrTwo, ShiftTwo;
    if pt.x0 < v.k.p && pt.x1 < v.k.p && pt.y0 < v.k.p && pt.y1 < v.k.p && pt != G2(0, 0, 0, 0) {
      if v.CompressG2(pt).Success? {
        AcceptedOnTwist(v, pt);
      }
      if OnTwist(pt, v.k.p) && pt.y0 != 0 {
        TwistAccepted(v, pt);
      }
    }
  }

  lemma {:induction false} AcceptedOnTwist(v: Verifier, pt: G2)
    requires Sound(v.k) && v.CompressG2(pt).Success? && pt != G2(0, 0, 0, 0)
    ensures OnTwist(pt, v.k.p) && pt.y0 != 0
  {
    hide Faithful, Fermat, OnTwist, Verifier.SqrtFp2, Verifier.HintFor, Verifier.Negate, Verifier.CurveG2, SquaresTo, OrOne, OrTwo, ShiftTwo;
    var a := v.CurveG2(pt.x0, pt.x1);
    var hint := v.HintFor(a).value;
    var (y0, y1) := v.SqrtFp2(a.0, a.1, hint).value;
    SqrtFp2Checked(v, a.0, a.1, hint);
    SignedRoot(v, y0, y1, a.0, a.1);
    SquareOnTwist(v, pt);
  }

  lemma {:induction false} TwistAccepted(v: Verifier, pt: G2)
    requires Standard(v) && OnTwist(pt, v.k.p) && pt.y0 != 0
    requires pt.x0 < v.k.p && pt.x1 < v.k.p && pt.y0 < v.k.p && pt.y1 < v.k.p
    ensures v.CompressG2(pt).Success?
  {
    hide Faithful, Fermat, OnTwist, Verifier.SqrtFp2, Verifier.HintFor, Verifier.Negate, Verifier.CurveG2, SquaresTo, OrOne, OrTwo, ShiftTwo, Cong;
    var a := v.CurveG2(pt.x0, pt.x1);
    CurveG2Is(v, pt.x0, pt.x1);
    TwistSquares(v, pt);
    SmallNonzero(pt.y0, v.k.p);
    RootFound(v, a.0, a.1, pt.y0, pt.y1);
    var (x0, x1) := v.SqrtFp2(a.0, a.1, v.HintFor(a).value).value;
    EitherSign(v, x0, x1, pt);
  }

  lemma {:induction false} EitherSign(v: Verifier, x0: nat, x1: nat, pt: G2)
    requires x0 < v.k.p && x1 < v.k.p && pt.y0 < v.k.p && pt.y1 < v.k.p
    requires var (y0, y1) := (pt.y0 as int, pt.y1 as int);
      (Cong(x0, y0, v.k.p) && Cong(x1, y1, v.k.p)) || (Cong(x0, -y0, v.k.p) && Cong(x1, -y1, v.k.p))
    ensures (pt.y0 == x0 && pt.y1 == x1) || (pt.y0 == v.Negate(x0) && pt.y1 == v.Negate(x1))
  {
    EqualUpToSign(v, x0, pt.y0, -(pt.y0 as int));
    EqualUpToSign(v, x1, pt.y1, -(pt.y1 as int));
    NegateReduced(v, pt.y0);
    NegateReduced(v, pt.y1);
  }

  // ----- Compressed words are canonical

  /** Only one hint leads to a root: the one compression would record. */
  lemma {:induction false} HintUnique(v: Verifier, a0: nat, a1: nat, hint: bool)
    requires Standard(v) && v.SqrtFp2(a0, a1, hint).Success?
    ensures v.HintFor((a0, a1)) == Success(hint)
  {
    hide Faithful, Fermat, Cong, MulMod, AddMod, Sound, SquaresTo, Verifier.Negate, Verifier.InvertFp, NormOf;
    var (x0, x1) := v.SqrtFp2(a0, a1, hint).value;
    SqrtFp2Checked(v, a0, a1, hint);
    RootHalves(v, a0, a1, hint);
    HintFound(v, a0, a1, x0, x1);
    var root := v.SqrtFp(NormOf(v, a0, a1)).value;
    if v.HintFor((a0, a1)).value != hint {
      SumNotItsNegation(v, root, x0, x1, a0, a1);
    }
  }

  /** The root found has d = x0² + x1² after its hint. */
  lemma {:induction false} RootHalves(v: Verifier, a0: nat, a1: nat, hint: bool)
    requires Standard(v) && v.SqrtFp2(a0, a1, hint).Success?
    ensures v.SqrtFp(NormOf(v, a0, a1)).Success?
    ensures var (x0, x1) := v.SqrtFp2(a0, a1, hint).value;
      var root := v.SqrtFp(NormOf(v, a0, a1)).value;
      Cong(if hint then v.Negate(root) else root, x0 * x0 + x1 * x1, v.k.p)
  {
    hide Faithful, Fermat, Cong, MulMod, AddMod, Verifier.Negate, Verifier.InvertFp, Verifier.SqrtFp;
    var p := v.k.p;
    var (x0, x1) := v.SqrtFp2(a0, a1, hint).value;
    SqrtFp2Checked(v, a0, a1, hint);
    var root := v.SqrtFp(NormOf(v, a0, a1)).value;
    var d := if hint then v.Negate(root) else root;
    SqrtFpChecked(v, HalfSum(v, a0, d));
    DoubleHalf(v, a0, d, x0, x1, a1);
  }

  lemma {:induction false} DoubleHalf(v: Verifier, a0: nat, d: nat, x0: nat, x1: nat, a1: nat)
    requires Sound(v.k) && SquaresTo(x0, x1, a0, a1, v.k.p) && Cong(x0 * x0, HalfSum(v, a0, d), v.k.p)
    ensures Cong(d, x0 * x0 + x1 * x1, v.k.p)
  {
    var p, h := v.k.p, v.k.half;
    AddModIs(a0, d, a0, d, p);
    MulModIs(AddMod(a0, d, p), h, a0 + d, h, p);
    MulCong(2, 2, x0 * x0, (a0 + d) * h, p);
    assert 2 * ((a0 + d) * h) == (a0 + d) * (2 * h);
    MulCong(a0 + d, a0 + d, 2 * h, 1, p);
    AddCong(a0 + d, 2 * (x0 * x0), a0, x0 * x0 - x1 * x1, p);
  }

  /** Both signs of d being x0² + x1² would make that sum 0, so -1 a square. */
  lemma {:induction false} SumNotItsNegation(v: Verifier, root: nat, x0: int, x1: int, a0: nat, a1: nat)
    requires Standard(v) && Cong(root, x0 * x0 + x1 * x1, v.k.p) && Cong(v.Negate(root), x0 * x0 + x1 * x1, v.k.p)
    ensures Cong(x0, 0, v.k.p)
  {
    hide Faithful, Fermat;
    var p, s := v.k.p, x0 * x0 + x1 * x1;
    NegateIs(v, root, s);
    AddCong(v.Negate(root), -s, s, s, p);
    AddCong(v.Negate(root), s, s, s, p);
    assert Cong(2 * s, 0, p);
    SmallNonzero(2, p);
    NoZeroDivisors(2, s, p);
    AddCong(s, 0, x1 * x1, x1 * x1, p);
    MinusSquare(x1, x0, v.k.expSqrt, p);
  }

  /** What a pair of words decompresses to compresses to those words. */
  lemma {:induction false} CanonicalG2(v: Verifier, c0: nat, c1: nat)
    requires Standard(v) && v.DecompressG2(c0, c1).Success?
    ensures v.CompressG2(v.DecompressG2(c0, c1).value) == Success((c0, c1))
  {
    hide Faithful, Fermat, Cong, Verifier.SqrtFp2, Verifier.HintFor, Verifier.Negate, Verifier.CurveG2, SquaresTo, OrOne, OrTwo, ShiftTwo;
    if (c0, c1) != (0, 0) {
      var x0 := c0 / 4;
      var a := v.CurveG2(x0, c1);
      var hint := (c0 / 2) % 2 == 1;
      var (y0, y1) := v.SqrtFp2(a.0, a.1, hint).value;
      HintUnique(v, a.0, a.1, hint);
      RootIsReduced(v, a.0, a.1, hint);
      NegateReduced(v, y0);
      NegateReduced(v, y1);
      WordBits(c0);
    }
  }

  /** The word put together from the coordinate and the two signal bits taken from it. */
  lemma {:induction false} WordBits(c0: nat)
    requires c0 / 4 < TWO254
    ensures var w := if (c0 / 2) % 2 == 1 then OrTwo(ShiftTwo(c0 / 4)) else ShiftTwo(c0 / 4);
      c0 == if c0 % 2 == 1 then OrOne(w) else w
  {
    Bits(c0 / 4);
    assert c0 / 4 == (c0 / 2) / 2;
  }

  lemma {:induction false} RootIsReduced(v: Verifier, a0: nat, a1: nat, hint: bool)
    requires Faithful(v.evm) && v.SqrtFp2(a0, a1, hint).Success?
    ensures var (x0, x1) := v.SqrtFp2(a0, a1, hint).value; 0 < x0 < v.k.p && x1 < v.k.p
  {
    SqrtFp2Checked(v, a0, a1, hint);
    Reduced(0, v.k.p);
    var root := v.SqrtFp(NormOf(v, a0, a1)).value;
    var d := if hint then v.Negate(root) else root;
    RootReduced(v, HalfSum(v, a0, d));
    var x0 := v.SqrtFp(HalfSum(v, a0, d)).value;
    MulModIs(a1, v.InvertFp(MulMod(x0, 2, v.k.p)).value, a1, v.InvertFp(MulMod(x0, 2, v.k.p)).value, v.k.p);
  }
}
