/** What the contract's field operations compute, as congruences, and when they succeed. */
module Groth16Ops {
  import opened Proofs
  import opened Field
  import opened Groth16

  const TWO254: nat := 0x40000000_00000000_00000000_00000000_00000000_00000000_00000000_00000000

  /** The relations between the contract's constants. */
  ghost predicate Sound(k: Constants) {
    && k.p % 4 == 3 && 82 < k.p < TWO254
    && 4 * k.expSqrt == k.p + 1 && k.expInverse == k.p - 2
    && k.half < k.p && Cong(2 * k.half, 1, k.p)
    && k.fraction27_82 < k.p && k.fraction3_82 < k.p
    && Cong(9 * k.fraction27_82 + k.fraction3_82, 3, k.p)
    && Cong(k.fraction27_82 - 9 * k.fraction3_82, 0, k.p)
  }

  /** MODEXP computes the modular power (EIP-198). */
  ghost predicate Faithful(evm: Precompiles) {
    forall b: nat, e: nat, m: nat :: m > 1 ==> evm.modexp(b, e, m) == Some(PowMod(b, e, m))
  }

  function PowMod(b: nat, e: nat, m: Modulus): nat {
    Pow(b, e) % m
  }

  lemma {:induction false} AddModIs(a: nat, b: nat, a': int, b': int, p: Modulus)
    requires Cong(a, a', p) && Cong(b, b', p)
    ensures AddMod(a, b, p) < p && Cong(AddMod(a, b, p), a' + b', p)
  {
    AddCong(a, a', b, b', p);
    Reduced(a + b, p);
  }

  lemma {:induction false} MulModIs(a: nat, b: nat, a': int, b': int, p: Modulus)
    requires Cong(a, a', p) && Cong(b, b', p)
    ensures MulMod(a, b, p) < p && Cong(MulMod(a, b, p), a' * b', p)
  {
    MulCong(a, a', b, b', p);
    Reduced(a * b, p);
  }

  /** `negate` gives the additive inverse, reduced. */
  lemma {:induction false} NegateIs(v: Verifier, a: nat, a': int)
    requires Cong(a, a', v.k.p)
    ensures v.Negate(a) < v.k.p && Cong(v.Negate(a), -a', v.k.p)
  {
    var p := v.k.p;
    Reduced(a, p);
    AddCong(0, 0, a % p, a', p);
    ModShift(-(a % p), 1, p);
    Reduced(p - a % p, p);
  }

  /** Negating twice gives back a reduced number; only 0 is its own negation when p is odd. */
  lemma {:induction false} NegateReduced(v: Verifier, a: nat)
    requires a < v.k.p
    ensures v.Negate(a) == if a == 0 then 0 else v.k.p - a
    ensures v.Negate(v.Negate(a)) == a
    ensures v.k.p % 2 == 1 ==> (v.Negate(a) == a <==> a == 0)
  {
    var p := v.k.p;
    Reduced(a, p);
    ModShift(0, 1, p);
    Reduced(0, p);
    if a > 0 {
      Reduced(p - a, p);
    }
  }

  /** Two reduced numbers that agree up to sign are equal or negations of each other. */
  lemma {:induction false} EqualUpToSign(v: Verifier, a: nat, b: nat, minus: int)
    requires a < v.k.p && b < v.k.p && minus + b == 0
    ensures Cong(a, b, v.k.p) ==> a == b
    ensures Cong(a, minus, v.k.p) ==> a == v.Negate(b)
  {
    if Cong(a, b, v.k.p) {
      ReducedEqual(a, b, v.k.p);
    }
    if Cong(a, minus, v.k.p) {
      NegateIs(v, b, b);
      ReducedEqual(a, v.Negate(b), v.k.p);
    }
  }

  // ----- Without any assumption on MODEXP: what the checks guarantee

  lemma {:induction false} SqrtFpChecked(v: Verifier, a: nat)
    requires v.SqrtFp(a).Success?
    ensures a < v.k.p && Cong(v.SqrtFp(a).value * v.SqrtFp(a).value, a, v.k.p)
  {
    var x := v.SqrtFp(a).value;
    MulModIs(x, x, x, x, v.k.p);
  }

  /** What two accumulated products of a candidate root must be congruent to. */
  lemma {:induction false} SquareIs(v: Verifier, x0: nat, x1: nat)
    ensures Cong(AddMod(MulMod(x0, x0, v.k.p), v.Negate(MulMod(x1, x1, v.k.p)), v.k.p), x0 * x0 - x1 * x1, v.k.p)
    ensures AddMod(MulMod(x0, x0, v.k.p), v.Negate(MulMod(x1, x1, v.k.p)), v.k.p) < v.k.p
    ensures Cong(MulMod(2, MulMod(x0, x1, v.k.p), v.k.p), 2 * (x0 * x1), v.k.p)
    ensures MulMod(2, MulMod(x0, x1, v.k.p), v.k.p) < v.k.p
  {
    var p := v.k.p;
    MulModIs(x0, x0, x0, x0, p);
    MulModIs(x1, x1, x1, x1, p);
    NegateIs(v, MulMod(x1, x1, p), x1 * x1);
    AddModIs(MulMod(x0, x0, p), v.Negate(MulMod(x1, x1, p)), x0 * x0, -(x1 * x1), p);
    MulModIs(x0, x1, x0, x1, p);
    MulModIs(2, MulMod(x0, x1, p), 2, x0 * x1, p);
  }

  /** x0 + x1 i squares to a0 + a1 i. */
  ghost predicate SquaresTo(x0: int, x1: int, a0: int, a1: int, p: Modulus) {
    Cong(x0 * x0 - x1 * x1, a0, p) && Cong(2 * (x0 * x1), a1, p)
  }

  lemma {:induction false} SquaresToNegated(x0: int, x1: int, a0: int, a1: int, p: Modulus)
    requires SquaresTo(x0, x1, a0, a1, p)
    ensures SquaresTo(-x0, -x1, a0, a1, p)
  {
    assert (-x0) * (-x0) == x0 * x0 && (-x1) * (-x1) == x1 * x1 && (-x0) * (-x1) == x0 * x1;
  }

  lemma {:induction false} SquaresToCong(x0: int, x1: int, y0: int, y1: int, a0: int, a1: int, p: Modulus)
    requires SquaresTo(x0, x1, a0, a1, p) && Cong(y0, x0, p) && Cong(y1, x1, p)
    ensures SquaresTo(y0, y1, a0, a1, p)
  {
    MulCong(y0, x0, y0, x0, p);
    MulCong(y1, x1, y1, x1, p);
    MulCong(y0, x0, y1, x1, p);
    AddCong(y0 * y0, x0 * x0, y1 * y1, x1 * x1, p);
    MulCong(2, 2, y0 * y1, x0 * x1, p);
  }

  /** A root from `sqrt_Fp2` squares to its input, which was reduced, and has a nonzero real part:
      the code inverts it. */
  lemma {:induction false} SqrtFp2Checked(v: Verifier, a0: nat, a1: nat, hint: bool)
    requires v.SqrtFp2(a0, a1, hint).Success?
    ensures var (x0, x1) := v.SqrtFp2(a0, a1, hint).value;
      SquaresTo(x0, x1, a0, a1, v.k.p) && !Cong(x0, 0, v.k.p)
    ensures a0 < v.k.p && a1 < v.k.p
  {
    var p := v.k.p;
    var (x0, x1) := v.SqrtFp2(a0, a1, hint).value;
    SquareIs(v, x0, x1);
    var inverse := v.InvertFp(MulMod(x0, 2, p)).value;
    if Cong(x0, 0, p) {
      MulModIs(x0, 2, 0, 2, p);
      MulModIs(MulMod(x0, 2, p), inverse, 0, inverse, p);
      SmallDistinct(p);
    }
  }

  // ----- With MODEXP as the modular power and Fermat's little theorem: when they succeed

  lemma {:induction false} ExpIs(v: Verifier, a: nat, a': int, e: nat)
    requires Faithful(v.evm) && Cong(a, a', v.k.p)
    ensures v.Exp(a, e).Success? && v.Exp(a, e).value < v.k.p
    ensures Cong(v.Exp(a, e).value, Pow(a', e), v.k.p)
  {
    PowCong(a, a', e, v.k.p);
    Reduced(Pow(a, e), v.k.p);
    assert v.evm.modexp(a, e, v.k.p) == Some(PowMod(a, e, v.k.p));
  }

  lemma {:induction false} InvertFpSucceeds(v: Verifier, a: nat)
    requires Faithful(v.evm) && Fermat(v.k.p) && v.k.expInverse == v.k.p - 2 && !Cong(a, 0, v.k.p)
    ensures v.InvertFp(a).Success? && Cong(a * v.InvertFp(a).value, 1, v.k.p)
  {
    var p := v.k.p;
    ExpIs(v, a, a, v.k.expInverse);
    var x := v.Exp(a, v.k.expInverse).value;
    Inverse(a, p);
    MulCong(a, a, x, Pow(a, v.k.expInverse), p);
    Reduced(a * x, p);
    Reduced(1, p);
  }

  /** The square root of a square succeeds and is the number squared, up to sign. */
  lemma {:induction false} SqrtFpSucceeds(v: Verifier, a: nat, b: int)
    requires Faithful(v.evm) && Fermat(v.k.p) && 4 * v.k.expSqrt == v.k.p + 1
    requires a < v.k.p && Cong(a, b * b, v.k.p)
    ensures v.SqrtFp(a).Success? && v.SqrtFp(a).value < v.k.p
    ensures Cong(v.SqrtFp(a).value, b, v.k.p) || Cong(v.SqrtFp(a).value, -b, v.k.p)
    ensures v.IsSquareFp(a) == Success(true)
  {
    var p, e := v.k.p, v.k.expSqrt;
    ExpIs(v, a, b * b, e);
    var x := v.Exp(a, e).value;
    RootOfSquare(b, e, p);
    MulModIs(x, x, Pow(b * b, e), Pow(b * b, e), p);
    ReducedEqual(MulMod(x, x, p), a, p);
    SqrtFpChecked(v, a);
    RootsAgree(x, b, p);
  }

  /** The square root of a fourth power is the square. */
  lemma {:induction false} SqrtFpOfFourth(v: Verifier, a: nat, b: int)
    requires Faithful(v.evm) && Fermat(v.k.p) && 4 * v.k.expSqrt == v.k.p + 1
    requires a < v.k.p && Cong(a, (b * b) * (b * b), v.k.p)
    ensures v.SqrtFp(a).Success? && Cong(v.SqrtFp(a).value, b * b, v.k.p)
  {
    var p, e := v.k.p, v.k.expSqrt;
    SqrtFpSucceeds(v, a, b * b);
    ExpIs(v, a, (b * b) * (b * b), e);
    RootOfSquare(b, e, p);
  }

  lemma {:induction false} IsSquareFpChecked(v: Verifier, a: nat) returns (t: nat)
    requires Faithful(v.evm) && v.IsSquareFp(a) == Success(true)
    ensures Cong(t * t, a, v.k.p)
  {
    t := v.Exp(a, v.k.expSqrt).value;
    MulModIs(t, t, t, t, v.k.p);
  }

  /** `sqrt_Fp` succeeds exactly on the reduced squares. */
  lemma {:induction false} SqrtFpExactly(v: Verifier, a: nat)
    requires Faithful(v.evm) && Fermat(v.k.p) && 4 * v.k.expSqrt == v.k.p + 1
    ensures v.SqrtFp(a).Success? <==> a < v.k.p && exists b: nat :: IsRoot(b, a, v.k.p)
  {
    if v.SqrtFp(a).Success? {
      SqrtFpChecked(v, a);
      assert IsRoot(v.SqrtFp(a).value, a, v.k.p);
    }
    if a < v.k.p && exists b: nat :: IsRoot(b, a, v.k.p) {
      var b: nat :| IsRoot(b, a, v.k.p);
      SqrtFpSucceeds(v, a, b);
    }
  }

  ghost predicate IsRoot(b: int, a: int, p: Modulus) {
    Cong(b * b, a, p)
  }
}
