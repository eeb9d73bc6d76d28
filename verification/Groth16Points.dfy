/** Compressed points: which points and which words are accepted, and the round trips. */
module Groth16Points {
  import opened Proofs
  import opened Field
  import opened Groth16
  import opened Groth16Ops

  // ----- The curves, independently of the contract

  /** y² = x³ + 3 in Fp. */
  ghost predicate OnCurve(pt: G1, p: Modulus) {
    Cong(pt.y * pt.y, pt.x * pt.x * pt.x + 3, p)
  }

  /** A Gaussian integer re + im i, standing for its class in Fp[i]/(i² + 1). */
  datatype Gaussian = Gaussian(re: int, im: int)

  function Times(u: Gaussian, v: Gaussian): Gaussian {
    Gaussian(u.re * v.re - u.im * v.im, u.re * v.im + u.im * v.re)
  }

  function Cube(x: Gaussian): Gaussian {
    Times(Times(x, x), x)
  }

  function Minus(u: Gaussian, v: Gaussian): Gaussian {
    Gaussian(u.re - v.re, u.im - v.im)
  }

  ghost predicate Same(u: Gaussian, v: Gaussian, p: Modulus) {
    Cong(u.re, v.re, p) && Cong(u.im, v.im, p)
  }

  /** (9 + i) (y² - x³) = 3: the twist y² = x³ + 3/(9 + i), cleared of its denominator. */
  ghost predicate OnTwist(pt: G2, p: Modulus) {
    var x, y := Gaussian(pt.x0, pt.x1), Gaussian(pt.y0, pt.y1);
    Same(Times(Gaussian(9, 1), Minus(Times(y, y), Cube(x))), Gaussian(3, 0), p)
  }

  // ----- G1

  lemma {:induction false} CurveG1Is(v: Verifier, x: nat)
    ensures v.CurveG1(x) < v.k.p && Cong(v.CurveG1(x), x * x * x + 3, v.k.p)
  {
    var p := v.k.p;
    MulModIs(x, x, x, x, p);
    MulModIs(MulMod(x, x, p), x, x * x, x, p);
    AddModIs(MulMod(MulMod(x, x, p), x, p), 3, x * x * x, 3, p);
  }

  /** A point that decompresses, other than the point at infinity, is on the curve. */
  lemma {:induction false} DecompressG1OnCurve(v: Verifier, c: nat)
    requires v.DecompressG1(c).Success? && c != 0
    ensures OnCurve(v.DecompressG1(c).value, v.k.p)
  {
    var x, p := c / 2, v.k.p;
    var y := v.SqrtFp(v.CurveG1(x)).value;
    SqrtFpChecked(v, v.CurveG1(x));
    CurveG1Is(v, x);
    NegateIs(v, y, y);
    var n := v.Negate(y);
    NegatedSquare(n, y, p);
  }

  lemma {:induction false} NegatedSquare(n: int, y: int, p: Modulus)
    requires Cong(n, -y, p)
    ensures Cong(n * n, y * y, p)
  {
    MulCong(n, -y, n, -y, p);
    assert (-y) * (-y) == y * y;
  }

  /** What compresses decompresses to the same point, given that no point has x = 0, which the
      code relies on to encode the point at infinity. */
  lemma {:induction false} RoundTripG1(v: Verifier, pt: G1)
    requires v.k.p < TWO254 && v.SqrtFp(v.CurveG1(0)).Revert?
    requires v.CompressG1(pt).Success?
    ensures v.DecompressG1(v.CompressG1(pt).value) == Success(pt)
    ensures v.CompressG1(pt).value < WORD
  {
    hide MulMod, AddMod;
    assert 2 * pt.x < WORD;
    Bits(pt.x);
  }

  lemma {:induction false} Bits(x: nat)
    requires x < TWO254
    ensures ShiftOne(x) == 2 * x && OrOne(ShiftOne(x)) == 2 * x + 1
    ensures ShiftTwo(x) == 4 * x && OrOne(ShiftTwo(x)) == 4 * x + 1
    ensures OrTwo(ShiftTwo(x)) == 4 * x + 2 && OrOne(OrTwo(ShiftTwo(x))) == 4 * x + 3
  {
    assert (4 * x) / 2 == 2 * x;
  }

  /** Compression accepts exactly the reduced coordinates of infinity and of points on the curve. */
  lemma {:induction false} CompressG1Accepts(v: Verifier, pt: G1)
    requires Sound(v.k) && Faithful(v.evm) && Fermat(v.k.p)
    ensures v.CompressG1(pt).Success? <==>
      pt.x < v.k.p && pt.y < v.k.p && (pt == G1(0, 0) || OnCurve(pt, v.k.p))
  {
    hide Faithful, Fermat;
    var p := v.k.p;
    if pt.x < p && pt.y < p && pt != G1(0, 0) {
      var a := v.CurveG1(pt.x);
      CurveG1Is(v, pt.x);
      if v.CompressG1(pt).Success? {
        var y := v.SqrtFp(a).value;
        SqrtFpChecked(v, a);
        NegateIs(v, y, y);
        if pt.y != y {
          NegatedSquare(pt.y, y, p);
        }
      }
      if OnCurve(pt, p) {
        SqrtFpSucceeds(v, a, pt.y);
        var y := v.SqrtFp(a).value;
        EqualUpToSign(v, y, pt.y, 0 - pt.y as int);
        NegateReduced(v, pt.y);
      }
    }
  }

  /** Compressed points are canonical: what a word decompresses to compresses to that word, given
      that x³ + 3 has no root, so that no point has y = 0. */
  lemma {:induction false} CanonicalG1(v: Verifier, c: nat)
    requires Sound(v.k) && Faithful(v.evm)
    requires forall x: nat :: x < v.k.p ==> v.CurveG1(x) != 0
    requires v.DecompressG1(c).Success?
    ensures v.CompressG1(v.DecompressG1(c).value) == Success(c)
  {
    hide Faithful, Cong, OrOne, ShiftOne, Verifier.Negate, Verifier.CurveG1, Verifier.SqrtFp;
    if c != 0 {
      var x, p := c / 2, v.k.p;
      var a := v.CurveG1(x);
      var y := v.SqrtFp(a).value;
      RootReduced(v, a);
      RootNonzero(v, a);
      NegateReduced(v, y);
      Bits(x);
    }
  }

  lemma {:induction false} RootReduced(v: Verifier, a: nat)
    requires Faithful(v.evm) && v.SqrtFp(a).Success?
    ensures v.SqrtFp(a).value < v.k.p
  {
    ExpIs(v, a, a, v.k.expSqrt);
  }

  lemma {:induction false} RootNonzero(v: Verifier, a: nat)
    requires v.SqrtFp(a).Success? && a != 0
    ensures v.SqrtFp(a).value != 0
  {
    Reduced(0, v.k.p);
  }

  // ----- G2

  /** The coefficients of (x0 + x1 i)³. */
  function CubeRe(x0: int, x1: int): int { x0 * x0 * x0 - 3 * (x0 * x1 * x1) }
  function CubeIm(x0: int, x1: int): int { 3 * (x0 * x0 * x1) - x1 * x1 * x1 }

  /** The two coefficients of x³ + 3/(9 + i), given as 27/82 and -3/82. */
  lemma {:induction false} CurveG2Is(v: Verifier, x0: nat, x1: nat)
    requires v.k.p > 3
    ensures var a := v.CurveG2(x0, x1);
      && a.0 < v.k.p && a.1 < v.k.p
      && Cong(a.0, v.k.fraction27_82 + CubeRe(x0, x1), v.k.p)
      && Cong(a.1, CubeIm(x0, x1) - v.k.fraction3_82, v.k.p)
  {
    hide Cong, MulMod, AddMod;
    var p := v.k.p;
    var x01 := MulMod(x0, x1, p);
    MulModIs(x0, x1, x0, x1, p);
    MinusThree(p);
    var minusThree: nat := v.k.p - 3;
    MulModIs(x01, minusThree, x0 * x1, -3, p);
    var n3ab := MulMod(x01, minusThree, p);
    MulModIs(x0, x0, x0, x0, p);
    MulModIs(MulMod(x0, x0, p), x0, x0 * x0, x0, p);
    MulModIs(x1, x1, x1, x1, p);
    MulModIs(MulMod(x1, x1, p), x1, x1 * x1, x1, p);
    var a3, b3 := MulMod(MulMod(x0, x0, p), x0, p), MulMod(MulMod(x1, x1, p), x1, p);
    MulModIs(n3ab, x1, (x0 * x1) * -3, x1, p);
    MulModIs(n3ab, x0, (x0 * x1) * -3, x0, p);
    var t0, t1 := (x0 * x1) * -3 * x1, (x0 * x1) * -3 * x0;
    AddModIs(a3, MulMod(n3ab, x1, p), x0 * x0 * x0, t0, p);
    AddModIs(b3, MulMod(n3ab, x0, p), x1 * x1 * x1, t1, p);
    var s0, s1 := AddMod(a3, MulMod(n3ab, x1, p), p), AddMod(b3, MulMod(n3ab, x0, p), p);
    AddModIs(v.k.fraction27_82, s0, v.k.fraction27_82, x0 * x0 * x0 + t0, p);
    AddModIs(v.k.fraction3_82, s1, v.k.fraction3_82, x1 * x1 * x1 + t1, p);
    NegateIs(v, AddMod(v.k.fraction3_82, s1, p), v.k.fraction3_82 + (x1 * x1 * x1 + t1));
    MinusThreeTimes(x0, x1);
  }

  lemma {:induction false} MinusThree(p: Modulus)
    requires p > 3
    ensures Cong(p - 3, -3, p)
  {
    ModShift(-3, 1, p);
  }

  lemma {:induction false} MinusThreeTimes(x0: int, x1: int)
    ensures (x0 * x1) * -3 * x1 == -3 * (x0 * x1 * x1)
    ensures (x0 * x1) * -3 * x0 == -3 * (x0 * x0 * x1)
  {
    assert (x0 * x1) * -3 * x1 == -3 * ((x0 * x1) * x1);
    assert (x0 * x1) * -3 * x0 == -3 * ((x0 * x1) * x0);
    assert (x0 * x1) * x0 == x0 * x0 * x1;
  }

  lemma {:induction false} CubeIs(x0: int, x1: int)
    ensures Cube(Gaussian(x0, x1)) == Gaussian(CubeRe(x0, x1), CubeIm(x0, x1))
  {
    var sq0, sq1 := x0 * x0 - x1 * x1, x0 * x1 + x1 * x0;
    assert sq1 == 2 * (x0 * x1);
    Distribute(x0 * x0, x1 * x1, x0);
    Distribute(x0 * x0, x1 * x1, x1);
    assert (x0 * x1) * x1 == x0 * x1 * x1 && x1 * x1 * x0 == x0 * x1 * x1;
    assert (x0 * x1) * x0 == x0 * x0 * x1;
    assert sq1 * x1 == 2 * (x0 * x1 * x1);
    assert sq1 * x0 == 2 * (x0 * x0 * x1);
  }

  /** The contract's polynomials are the cube plus the constants. */
  lemma {:induction false} CurveG2IsCube(v: Verifier, x0: nat, x1: nat)
    requires v.k.p > 3
    ensures var a, c := v.CurveG2(x0, x1), Cube(Gaussian(x0, x1));
      && a.0 < v.k.p && a.1 < v.k.p
      && Cong(a.0, v.k.fraction27_82 + c.re, v.k.p) && Cong(a.1, c.im - v.k.fraction3_82, v.k.p)
  {
    hide Cong, CubeRe, CubeIm, Cube, Verifier.CurveG2;
    CurveG2Is(v, x0, x1);
    CubeIs(x0, x1);
  }

  /** A number whose square is the contract's x³ + 3/(9 + i) is a y of the twist. */
  lemma {:induction false} SquareOnTwist(v: Verifier, pt: G2)
    requires Sound(v.k)
    requires SquaresTo(pt.y0, pt.y1, v.CurveG2(pt.x0, pt.x1).0, v.CurveG2(pt.x0, pt.x1).1, v.k.p)
    ensures OnTwist(pt, v.k.p)
  {
    hide Cong, Same, SquaresTo, Times, Verifier.CurveG2;
    var p, f, g := v.k.p, v.k.fraction27_82, v.k.fraction3_82;
    var a := v.CurveG2(pt.x0, pt.x1);
    CurveG2IsCube(v, pt.x0, pt.x1);
    DifferenceIs(pt, a.0, a.1, f, g, p);
    var y := Gaussian(pt.y0, pt.y1);
    TwistConstant(Minus(Times(y, y), Cube(Gaussian(pt.x0, pt.x1))), f, g, p);
  }

  lemma {:induction false} TwistConstant(w: Gaussian, f: int, g: int, p: Modulus)
    requires Same(w, Gaussian(f, -g), p)
    requires Cong(9 * f + g, 3, p) && Cong(f - 9 * g, 0, p)
    ensures Same(Times(Gaussian(9, 1), w), Gaussian(3, 0), p)
  {
    NineTimes(w.re, f, w.im, -g, p);
    assert Times(Gaussian(9, 1), w) == Gaussian(9 * w.re - w.im, 9 * w.im + w.re);
    assert 9 * f - -g == 9 * f + g && 9 * -g + f == f - 9 * g;
  }

  /** y² - x³, from what y² and x³ are congruent to. */
  lemma {:induction false} DifferenceIs(pt: G2, a0: int, a1: int, f: int, g: int, p: Modulus)
    requires SquaresTo(pt.y0, pt.y1, a0, a1, p)
    requires var c := Cube(Gaussian(pt.x0, pt.x1)); Cong(a0, f + c.re, p) && Cong(a1, c.im - g, p)
    ensures var y := Gaussian(pt.y0, pt.y1); Same(Minus(Times(y, y), Cube(Gaussian(pt.x0, pt.x1))), Gaussian(f, -g), p)
  {
    hide Cube;
    var c := Cube(Gaussian(pt.x0, pt.x1));
    var y := Gaussian(pt.y0, pt.y1);
    assert pt.y1 * pt.y0 == pt.y0 * pt.y1;
    assert Times(y, y) == Gaussian(pt.y0 * pt.y0 - pt.y1 * pt.y1, 2 * (pt.y0 * pt.y1));
    AddCong(pt.y0 * pt.y0 - pt.y1 * pt.y1, f + c.re, c.re, c.re, p);
    AddCong(2 * (pt.y0 * pt.y1), c.im - g, c.im, c.im, p);
  }

  lemma {:induction false} NineTimes(a: int, a': int, b: int, b': int, p: Modulus)
    requires Cong(a, a', p) && Cong(b, b', p)
    ensures Cong(9 * a - b, 9 * a' - b', p) && Cong(9 * b + a, 9 * b' + a', p)
  {
    MulCong(9, 9, a, a', p);
    MulCong(9, 9, b, b', p);
    AddCong(9 * a, 9 * a', b, b', p);
    AddCong(9 * b, 9 * b', a, a', p);
  }

  /** A point that decompresses, other than the point at infinity, is on the twist. */
  lemma {:induction false} DecompressG2OnTwist(v: Verifier, c0: nat, c1: nat)
    requires Sound(v.k)
    requires v.DecompressG2(c0, c1).Success? && (c0, c1) != (0, 0)
    ensures OnTwist(v.DecompressG2(c0, c1).value, v.k.p)
    ensures !Cong(v.DecompressG2(c0, c1).value.y0, 0, v.k.p)
  {
    hide OnTwist;
    var p := v.k.p;
    var a := v.CurveG2(c0 / 4, c1);
    var (y0, y1) := v.SqrtFp2(a.0, a.1, (c0 / 2) % 2 == 1).value;
    SqrtFp2Checked(v, a.0, a.1, (c0 / 2) % 2 == 1);
    SignedRoot(v, y0, y1, a.0, a.1);
    SquareOnTwist(v, v.DecompressG2(c0, c1).value);
  }

  /** Both signs of a root are roots, and neither has real part 0 when one does not. */
  lemma {:induction false} SignedRoot(v: Verifier, y0: nat, y1: nat, a0: int, a1: int)
    requires SquaresTo(y0, y1, a0, a1, v.k.p) && !Cong(y0, 0, v.k.p)
    ensures SquaresTo(v.Negate(y0), v.Negate(y1), a0, a1, v.k.p) && !Cong(v.Negate(y0), 0, v.k.p)
  {
    var p := v.k.p;
    NegateIs(v, y0, y0);
    NegateIs(v, y1, y1);
    SquaresToNegated(y0, y1, a0, a1, p);
    SquaresToCong(-(y0 as int), -(y1 as int), v.Negate(y0), v.Negate(y1), a0, a1, p);
    if Cong(v.Negate(y0), 0, p) {
      AddCong(0, 0, v.Negate(y0), 0, p);
      AddCong(0, 0, v.Negate(y0), -(y0 as int), p);
    }
  }

  /** What compresses decompresses to the same point, given that no point has x = 0. */
  lemma {:induction false} RoundTripG2(v: Verifier, pt: G2)
    requires 3 < v.k.p < TWO254 && v.HintFor(v.CurveG2(0, 0)).Revert?
    requires v.CompressG2(pt).Success?
    ensures v.DecompressG2(v.CompressG2(pt).value.0, v.CompressG2(pt).value.1) == Success(pt)
    ensures v.CompressG2(pt).value.0 < WORD && v.CompressG2(pt).value.1 < WORD
  {
    hide MulMod, AddMod, Verifier.SqrtFp2, Verifier.HintFor, Verifier.CurveG2, Verifier.Negate, OrOne, OrTwo, ShiftTwo;
    Bits(pt.x0);
    var c := v.CompressG2(pt).value;
    if pt != G2(0, 0, 0, 0) {
      assert c.0 / 4 == pt.x0;
    }
  }
}
