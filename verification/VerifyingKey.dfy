/** The verification key in the contract: its points lie on their curves, and its two moduli are
    those of the BN254 curve. */
module VerifyingKey {
  import opened Field
  import opened Groth16
  import opened Groth16Points

  const ALPHA := G1(ALPHA_X, ALPHA_Y)
  const CONSTANT := G1(CONSTANT_X, CONSTANT_Y)
  const PUB_0 := G1(PUB_0_X, PUB_0_Y)
  const PUB_1 := G1(PUB_1_X, PUB_1_Y)
  const BETA_NEG := G2(BETA_NEG_X_0, BETA_NEG_X_1, BETA_NEG_Y_0, BETA_NEG_Y_1)
  const GAMMA_NEG := G2(GAMMA_NEG_X_0, GAMMA_NEG_X_1, GAMMA_NEG_Y_0, GAMMA_NEG_Y_1)
  const DELTA_NEG := G2(DELTA_NEG_X_0, DELTA_NEG_X_1, DELTA_NEG_Y_0, DELTA_NEG_Y_1)

  /** A finite point with reduced coordinates that satisfies the curve equation. */
  ghost predicate FiniteG1(pt: G1, p: Modulus) {
    pt.x < p && pt.y < p && OnCurve(pt, p)
  }

  ghost predicate FiniteG2(pt: G2, p: Modulus) {
    pt.x0 < p && pt.x1 < p && pt.y0 < p && pt.y1 < p && OnTwist(pt, p)
  }

  lemma {:induction false} KeyOnCurve()
    ensures FiniteG1(ALPHA, BN254.p) && FiniteG1(CONSTANT, BN254.p)
    ensures FiniteG1(PUB_0, BN254.p) && FiniteG1(PUB_1, BN254.p)
  {
  }

  lemma {:induction false} KeyOnTwist()
    ensures FiniteG2(BETA_NEG, BN254.p) && FiniteG2(GAMMA_NEG, BN254.p) && FiniteG2(DELTA_NEG, BN254.p)
  {
  }

  /** The curve's parameter. */
  const U: nat := 4965661367192848881

  /** P and R are the field and group orders of the Barreto-Naehrig curve with parameter U. */
  lemma {:induction false} ModuliAreBn254()
    ensures BN254.p == 36 * (U * U * U * U) + 36 * (U * U * U) + 24 * (U * U) + 6 * U + 1
    ensures R == 36 * (U * U * U * U) + 36 * (U * U * U) + 18 * (U * U) + 6 * U + 1
  {
  }
}
