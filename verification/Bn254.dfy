/** The contract's constants, and the facts about the curves that its comments state, proved from
    Fermat's little theorem for P by certificates: a few numbers whose products are checked. */
module Bn254 {
  import opened Proofs
  import opened Field
  import opened Groth16
  import opened Groth16Ops
  import opened Groth16Points
  import opened Groth16Roots

  /** Numbers whose products witness what the code states about the curves without proof. */
  datatype Certificate = Certificate(
    rootOfMinus3: nat,      // its square is -3
    rootOfMinusNorm: nat,   // its square is minus the norm of 3/(9 + i)
    cubeFactor: nat,        // -3 times its cube is ninthRoot
    ninthRoot: nat,
    cubeRoot: nat,          // the cube of ninthRoot, a primitive cube root of 1
    quotient: nat)          // of (P - 1)/3 - 6 by 9

  ghost predicate Divides(p: Modulus, n: int) {
    n % p == 0
  }

  ghost predicate Certifies(w: Certificate, k: Constants) {
    && Divides(k.p, w.rootOfMinus3 * w.rootOfMinus3 + 3)
    && Divides(k.p, w.rootOfMinusNorm * w.rootOfMinusNorm + NormOfConstant(k))
    && !Divides(k.p, NormOfConstant(k))
    && Divides(k.p, 3 * (w.cubeFactor * w.cubeFactor * w.cubeFactor) + w.ninthRoot)
    && Divides(k.p, w.ninthRoot * w.ninthRoot * w.ninthRoot - w.cubeRoot)
    && Divides(k.p, w.cubeRoot * w.cubeRoot * w.cubeRoot - 1)
    && !Divides(k.p, w.cubeRoot * w.cubeRoot - 1)
    && k.p - 1 == 3 * (9 * w.quotient + 6)
  }

  function NormOfConstant(k: Constants): int {
    k.fraction27_82 * k.fraction27_82 + k.fraction3_82 * k.fraction3_82
  }

  lemma {:induction false} DividesIsCong(p: Modulus, a: int, b: int)
    ensures Divides(p, a - b) <==> Cong(a, b, p)
  {
    Reduced(0, p);
    if Divides(p, a - b) {
      AddCong(a - b, 0, b, b, p);
    }
    if Cong(a, b, p) {
      AddCong(a, b, b, b, p);
    }
  }

  /** P is 3 mod 4 and below 2^254, 1/2 is a half, 27/82 - 3/82 i is 3/(9 + i), and the exponents
      are (P + 1)/4 and P - 2. */
  lemma {:induction false} ConstantsAreSound()
    ensures Sound(BN254)
  {
    var k := BN254;
    assert Divides(k.p, 2 * k.half - 1);
    assert Divides(k.p, 9 * k.fraction27_82 + k.fraction3_82 - 3);
    assert Divides(k.p, k.fraction27_82 - 9 * k.fraction3_82 - 0);
    DividesIsCong(k.p, 2 * k.half, 1);
    DividesIsCong(k.p, 9 * k.fraction27_82 + k.fraction3_82, 3);
    DividesIsCong(k.p, k.fraction27_82 - 9 * k.fraction3_82, 0);
  }

  const WITNESS := Certificate(
    0xb3c4d79d41a91759a9e4c7e359b6b89eaec68e62effffffd,
    0x1dad75630760be932333f1ec5cd86b300480c7c86b15bdc2a7248843839cc339,
    0x1849b46eaecdc864d0042c1a7a255843364ad1659e62a1a534836bbe62c11ea7,
    0x14089413642a493f537425ab722692d3685ad354a5384d15c76a943be21e5919,
    0x59e26bcea0d48bacd4f263f1acdb5c4f5763473177fffffe,
    810675661919973156379496509083602781062826339159178654173668070172045415132)

  lemma {:induction false} WitnessChecks()
    ensures Certifies(WITNESS, BN254)
  {
  }

  /** t² = -n certifies that n, when not 0, is not a square modulo a prime that is 3 mod 4. */
  lemma {:induction false} NotASquare(v: Verifier, a: nat, n: int, t: int)
    requires Sound(v.k) && Fermat(v.k.p) && Cong(a, n, v.k.p)
    requires Divides(v.k.p, t * t + n) && !Divides(v.k.p, n)
    ensures v.SqrtFp(a).Revert?
  {
    if v.SqrtFp(a).Success? {
      var x := v.SqrtFp(a).value;
      SqrtFpChecked(v, a);
      DividesIsCong(v.k.p, t * t, -n);
      DividesIsCong(v.k.p, n, 0);
      AddCong(0, 0, x * x, n, v.k.p);
      MinusSquare(x, t, v.k.expSqrt, v.k.p);
      MulCong(x, 0, x, 0, v.k.p);
    }
  }

  /** 3 is not a square in Fp, so no point of the curve has x = 0. */
  lemma {:induction false} NoPointAtZeroG1(v: Verifier, w: Certificate)
    requires Sound(v.k) && Certifies(w, v.k) && Fermat(v.k.p)
    ensures v.SqrtFp(v.CurveG1(0)).Revert?
  {
    hide Fermat, Verifier.SqrtFp, Verifier.CurveG1;
    CurveG1Is(v, 0);
    assert 0 * 0 * 0 + 3 == 3;
    SmallNonzero(3, v.k.p);
    DividesIsCong(v.k.p, 3, 0);
    NotASquare(v, v.CurveG1(0), 3, w.rootOfMinus3);
  }

  lemma {:induction false} CubeAtZero(x: int)
    requires x == 0
    ensures CubeRe(x, x) == 0 && CubeIm(x, x) == 0
  {
    assert 0 * 0 * 0 == 0;
  }

  lemma {:induction false} CurveG2AtZero(v: Verifier, x: nat, minus: int)
    requires v.k.p > 3 && x == 0 && minus + v.k.fraction3_82 == 0
    ensures Cong(v.CurveG2(x, x).0, v.k.fraction27_82, v.k.p) && Cong(v.CurveG2(x, x).1, minus, v.k.p)
  {
    hide Cong, CubeRe, CubeIm, Verifier.CurveG2;
    CurveG2Is(v, x, x);
    CubeAtZero(x);
  }

  lemma {:induction false} NormOfConstantIs(v: Verifier, a0: nat, a1: nat, minus: int)
    requires Cong(a0, v.k.fraction27_82, v.k.p) && Cong(a1, minus, v.k.p) && minus + v.k.fraction3_82 == 0
    ensures Cong(NormOf(v, a0, a1), NormOfConstant(v.k), v.k.p)
  {
    hide Cong, MulMod, AddMod;
    var f, p := v.k.fraction27_82, v.k.p;
    MulModIs(a0, a0, f, f, p);
    MulModIs(a1, a1, minus, minus, p);
    AddModIs(MulMod(a0, a0, p), MulMod(a1, a1, p), f * f, minus * minus, p);
    assert minus * minus == v.k.fraction3_82 * v.k.fraction3_82;
  }

  /** The norm of 3/(9 + i) is not a square in Fp, so no point of the twist has x = 0. */
  lemma {:induction false} NoPointAtZeroG2(v: Verifier, w: Certificate, x: nat)
    requires Sound(v.k) && Certifies(w, v.k) && Fermat(v.k.p) && x == 0
    ensures v.HintFor(v.CurveG2(x, x)).Revert?
  {
    hide Fermat, Cong, MulMod, AddMod, Verifier.SqrtFp, Verifier.CurveG2, NormOfConstant, Sound;
    var a := v.CurveG2(x, x);
    var minus: int := 0 - v.k.fraction3_82 as int;
    CurveG2AtZero(v, x, minus);
    NormOfConstantIs(v, a.0, a.1, minus);
    NotASquare(v, NormOf(v, a.0, a.1), NormOfConstant(v.k), w.rootOfMinusNorm);
  }

  /** -3 k³ being a primitive ninth root of unity certifies that -3 is not a cube modulo a prime
      that is 19 modulo 27. */
  lemma {:induction false} NotACube(x: int, k: int, z: int, w: int, q: nat, p: Modulus)
    requires Fermat(p) && p - 1 == 3 * (9 * q + 6)
    requires Cong(-3 * (k * k * k), z, p) && Cong(z * z * z, w, p)
    requires Cong(w * w * w, 1, p) && !Cong(w * w, 1, p)
    ensures !Cong(x * x * x + 3, 0, p)
  {
    if Cong(x * x * x + 3, 0, p) {
      var u := x * k;
      var m := 9 * q + 6;
      AddCong(x * x * x + 3, 0, -3, -3, p);
      CubeOfProduct(x, k);
      MulCong(x * x * x, -3, k * k * k, k * k * k, p);
      PowSmall(u);
      PowTimes(u, 3, m);
      PowCong(u * u * u, z, m, p);
      PowerOfRoot(z, w, q, p);
      if Cong(u, 0, p) {
        PowOfZero(u, p - 1, p);
        PowOfZero(u, 3, p);
        ZeroNotRoot(z, w, p);
      } else {
        FermatAt(u, p);
      }
    }
  }

  lemma {:induction false} CubeOfProduct(x: int, k: int)
    ensures (x * k) * (x * k) * (x * k) == (x * x * x) * (k * k * k)
  {
    Regroup(x, k, x, k);
    Regroup(x * x, k * k, x, k);
  }

  lemma {:induction false} PowerOfRoot(z: int, w: int, q: nat, p: Modulus)
    requires Cong(z * z * z, w, p) && Cong(w * w * w, 1, p)
    ensures Cong(Pow(z, 9 * q + 6), w * w, p)
  {
    PowSmall(z);
    PowSmall(w);
    PowTimes(z, 3, 3);
    PowTimes(z, 3, 2);
    PowCong(Pow(z, 3), w, 3, p);
    PowCong(Pow(z, 3), w, 2, p);
    PowTimes(z, 9, q);
    PowCong(Pow(z, 9), 1, q, p);
    PowOne(q);
    PowAdd(z, 9 * q, 6);
    MulCong(Pow(z, 9 * q), 1, Pow(z, 6), w * w, p);
  }

  lemma {:induction false} ZeroNotRoot(z: int, w: int, p: Modulus)
    requires Cong(z * z * z, w, p) && Cong(w * w * w, 1, p)
    ensures !Cong(z, 0, p)
  {
    if Cong(z, 0, p) {
      MulCong(z, 0, z, 0, p);
      MulCong(z * z, 0, z, 0, p);
      MulCong(w, 0, w, 0, p);
      MulCong(w * w, 0, w, 0, p);
      SmallDistinct(p);
    }
  }

  /** x³ + 3 has no root in Fp, so no point of the curve has y = 0. */
  lemma {:induction false} NoPointWithoutY(v: Verifier, w: Certificate, x: nat)
    requires Sound(v.k) && Certifies(w, v.k) && Fermat(v.k.p)
    ensures v.CurveG1(x) != 0
  {
    hide Fermat, Verifier.CurveG1, Sound;
    var p, k, z, c := v.k.p, w.cubeFactor, w.ninthRoot, w.cubeRoot;
    var k3 := k * k * k;
    DividesIsCong(p, 3 * k3 + z, 0);
    AddCong(z, z, 3 * k3 + z, 0, p);
    DividesIsCong(p, z * z * z, c);
    DividesIsCong(p, c * c * c, 1);
    DividesIsCong(p, c * c, 1);
    NotACube(x, k, z, c, w.quotient, p);
    CurveG1Is(v, x);
  }

  /** A point of the twist with y = 2 i. */
  const IMAGINARY := G2(
    0xa0d4094608728f1b8f623b4cdf0ccb597eb4eb88cdc572e1dcc383891b6e830,
    0x1162dbbba03b247009eeb574e73a5c682869a85a205124f4e630b6cab40a5efc,
    0,
    2)

  lemma {:induction false} ImaginaryOnTwist()
    ensures OnTwist(IMAGINARY, BN254.p)
  {
    var re, im := CubeRe(IMAGINARY.x0, IMAGINARY.x1), CubeIm(IMAGINARY.x0, IMAGINARY.x1);
    assert Divides(BN254.p, 9 * (-4 - re) + im - 3) && Divides(BN254.p, -9 * im + (-4 - re));
    TwistByCoefficients(IMAGINARY, re, im, BN254.p);
  }

  lemma {:induction false} TwistByCoefficients(pt: G2, re: int, im: int, p: Modulus)
    requires pt.y0 == 0 && pt.y1 == 2 && re == CubeRe(pt.x0, pt.x1) && im == CubeIm(pt.x0, pt.x1)
    requires Divides(p, 9 * (-4 - re) + im - 3) && Divides(p, -9 * im + (-4 - re))
    ensures OnTwist(pt, p)
  {
    hide CubeRe, CubeIm, Cube, Times, Cong, Divides;
    CubeIs(pt.x0, pt.x1);
    DividesIsCong(p, 9 * (-4 - re) + im, 3);
    DividesIsCong(p, -9 * im + (-4 - re), 0);
    TimesTwoI();
    TimesNinePlusI(-4 - re, -im);
  }

  lemma {:induction false} TimesTwoI()
    ensures Times(Gaussian(0, 2), Gaussian(0, 2)) == Gaussian(-4, 0)
  {
  }

  lemma {:induction false} TimesNinePlusI(re: int, im: int)
    ensures Times(Gaussian(9, 1), Gaussian(re, im)) == Gaussian(9 * re - im, 9 * im + re)
  {
  }

  /** Compression refuses a point that is on the twist with reduced coordinates: its y0 is 0. */
  lemma {:induction false} TwistPointRefused(v: Verifier)
    requires v.k == BN254
    ensures IMAGINARY.x0 < BN254.p && IMAGINARY.x1 < BN254.p && IMAGINARY.y1 < BN254.p
    ensures OnTwist(IMAGINARY, BN254.p)
    ensures v.CompressG2(IMAGINARY).Revert?
  {
    hide Verifier.CompressG2, OnTwist;
    ConstantsAreSound();
    ImaginaryOnTwist();
    if v.CompressG2(IMAGINARY).Success? {
      AcceptedOnTwist(v, IMAGINARY);
    }
  }

  // ----- The contract's promises, for its own constants

  /** Compression and decompression of G1 points are inverse to each other on what either accepts. */
  lemma {:induction false} G1Bijection(v: Verifier, pt: G1, c: nat)
    requires v.k == BN254 && Faithful(v.evm) && Fermat(v.k.p)
    ensures v.CompressG1(pt) == Success(c) <==> v.DecompressG1(c) == Success(pt)
  {
    hide Faithful, Fermat, Certifies, Verifier.CompressG1, Verifier.DecompressG1, Verifier.CurveG1, Verifier.SqrtFp;
    ConstantsAreSound();
    WitnessChecks();
    NoPointAtZeroG1(v, WITNESS);
    if v.CompressG1(pt) == Success(c) {
      RoundTripG1(v, pt);
    }
    if v.DecompressG1(c) == Success(pt) {
      forall x: nat | x < v.k.p ensures v.CurveG1(x) != 0 {
        NoPointWithoutY(v, WITNESS, x);
      }
      CanonicalG1(v, c);
    }
  }

  /** The same for G2 points. */
  lemma {:induction false} G2Bijection(v: Verifier, pt: G2, c0: nat, c1: nat)
    requires v.k == BN254 && Faithful(v.evm) && Fermat(v.k.p)
    ensures v.CompressG2(pt) == Success((c0, c1)) <==> v.DecompressG2(c0, c1) == Success(pt)
  {
    hide Faithful, Fermat, Certifies, Verifier.CompressG2, Verifier.DecompressG2, Verifier.HintFor, Verifier.CurveG2;
    ConstantsAreSound();
    WitnessChecks();
    NoPointAtZeroG2(v, WITNESS, 0);
    if v.CompressG2(pt) == Success((c0, c1)) {
      RoundTripG2(v, pt);
    }
    if v.DecompressG2(c0, c1) == Success(pt) {
      CanonicalG2(v, c0, c1);
    }
  }
}
