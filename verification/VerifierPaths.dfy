/** The contract's two verification paths, and that they agree on every proof that compresses. */
module VerifierPaths {
  import opened Proofs
  import opened Field
  import opened Groth16
  import opened Groth16Ops
  import opened Groth16Points
  import opened Groth16Roots
  import opened Bn254

  // ----- What each entry point computes

  /** The linear combination of the public inputs; a failed call or an input not below R reverts. */
  function MsmOf(evm: Precompiles, input: seq<nat>): Result<(nat, nat)>
    requires |input| == 2
  {
    var first := AddInput(evm, (CONSTANT_X, CONSTANT_Y), (PUB_0_X, PUB_0_Y), input[0]);
    var second := if first.None? then None else AddInput(evm, first.value, (PUB_1_X, PUB_1_Y), input[1]);
    if second.None? then Revert(PublicInputNotInField) else Success(second.value)
  }

  function AddInput(evm: Precompiles, sum: (nat, nat), pub: (nat, nat), s: nat): Option<(nat, nat)> {
    if s >= R then None
    else
      match evm.ecMul(pub.0, pub.1, s)
      case None => None
      case Some(m) => evm.ecAdd(sum.0, sum.1, m.0, m.1)
  }

  /** e(A, B) e(C, -delta) e(alpha, -beta) e(L, -gamma) as the pairing precompile reads it: Fp2
      coefficients imaginary part first. */
  function PairingWords(a: G1, b: G2, c: G1, l: (nat, nat)): seq<nat> {
    [a.x, a.y, b.x1, b.x0, b.y1, b.y0,
     c.x, c.y, DELTA_NEG_X_1, DELTA_NEG_X_0, DELTA_NEG_Y_1, DELTA_NEG_Y_0,
     ALPHA_X, ALPHA_Y, BETA_NEG_X_1, BETA_NEG_X_0, BETA_NEG_Y_1, BETA_NEG_Y_0,
     l.0, l.1, GAMMA_NEG_X_1, GAMMA_NEG_X_0, GAMMA_NEG_Y_1, GAMMA_NEG_Y_0]
  }

  function CompressProofTo(v: Verifier, proof: seq<nat>): Result<seq<nat>>
    requires |proof| == 8 && v.k.p > 3
  {
    var a :- v.CompressG1(G1(proof[0], proof[1]));
    var b :- v.CompressG2(G2(proof[3], proof[2], proof[5], proof[4]));
    var c :- v.CompressG1(G1(proof[6], proof[7]));
    Success([a, b.1, b.0, c])
  }

  function VerifyCompressedTo(v: Verifier, compressed: seq<nat>, input: seq<nat>): Result<()>
    requires |compressed| == 4 && |input| == 2 && v.k.p > 3
  {
    var a :- v.DecompressG1(compressed[0]);
    var b :- v.DecompressG2(compressed[2], compressed[1]);
    var c :- v.DecompressG1(compressed[3]);
    var l :- MsmOf(v.evm, input);
    if v.evm.pairing(PairingWords(a, b, c, l)) == Some(1) then Success(()) else Revert(ProofInvalid)
  }

  /** The uncompressed path keeps only the low bit of the precompile's answer. */
  function VerifyTo(v: Verifier, proof: seq<nat>, input: seq<nat>): Result<()>
    requires |proof| == 8 && |input| == 2
  {
    var l :- MsmOf(v.evm, input);
    match v.evm.pairing(proof + FixedWords(l))
    case None => Revert(ProofInvalid)
    case Some(answer) => if answer % 2 == 1 then Success(()) else Revert(ProofInvalid)
  }

  // ----- The entry points, filling memory word by word

  method PublicInputMsm(evm: Precompiles, input: seq<nat>) returns (r: Result<(nat, nat)>)
    requires |input| == 2
    ensures r == MsmOf(evm, input)
  {
    // f is memory words 0 and 1, g is words 2, 3 and 4
    var memory := new nat[5];
    var success := true;
    memory[0], memory[1] := CONSTANT_X, CONSTANT_Y;
    memory[2], memory[3], memory[4] := PUB_0_X, PUB_0_Y, input[0];
    success := success && input[0] < R;
    success := CallMul(evm, memory, success);
    success := CallAdd(evm, memory, success);
    memory[2], memory[3], memory[4] := PUB_1_X, PUB_1_Y, input[1];
    success := success && input[1] < R;
    success := CallMul(evm, memory, success);
    success := CallAdd(evm, memory, success);
    if !success {
      return Revert(PublicInputNotInField);
    }
    return Success((memory[0], memory[1]));
  }

  /** The multiplication call: words 2 to 4 in, words 2 and 3 out when it succeeds. */
  method CallMul(evm: Precompiles, memory: array<nat>, before: bool) returns (after: bool)
    requires memory.Length == 5
    modifies memory
    ensures var out := evm.ecMul(old(memory[2]), old(memory[3]), old(memory[4]));
      && after == (before && out.Some?)
      && (out.Some? ==> memory[2] == out.value.0 && memory[3] == out.value.1)
    ensures memory[0] == old(memory[0]) && memory[1] == old(memory[1])
  {
    var out := evm.ecMul(memory[2], memory[3], memory[4]);
    if out.Some? {
      memory[2], memory[3] := out.value.0, out.value.1;
    }
    after := before && out.Some?;
  }

  /** The addition call: words 0 to 3 in, words 0 and 1 out when it succeeds. */
  method CallAdd(evm: Precompiles, memory: array<nat>, before: bool) returns (after: bool)
    requires memory.Length == 5
    modifies memory
    ensures var out := evm.ecAdd(old(memory[0]), old(memory[1]), old(memory[2]), old(memory[3]));
      && after == (before && out.Some?)
      && (out.Some? ==> memory[0] == out.value.0 && memory[1] == out.value.1)
  {
    var out := evm.ecAdd(memory[0], memory[1], memory[2], memory[3]);
    if out.Some? {
      memory[0], memory[1] := out.value.0, out.value.1;
    }
    after := before && out.Some?;
  }

  method CompressProof(v: Verifier, proof: seq<nat>) returns (r: Result<seq<nat>>)
    requires |proof| == 8 && v.k.p > 3
    ensures r == CompressProofTo(v, proof)
  {
    hide Verifier.CompressG1, Verifier.CompressG2;
    var compressed := new nat[4];
    var a := v.CompressG1(G1(proof[0], proof[1]));
    if a.Revert? {
      return Revert(a.error);
    }
    compressed[0] := a.value;
    var b := v.CompressG2(G2(proof[3], proof[2], proof[5], proof[4]));
    if b.Revert? {
      return Revert(b.error);
    }
    compressed[2], compressed[1] := b.value.0, b.value.1;
    var c := v.CompressG1(G1(proof[6], proof[7]));
    if c.Revert? {
      return Revert(c.error);
    }
    compressed[3] := c.value;
    assert compressed[..] == [a.value, b.value.1, b.value.0, c.value];
    return Success(compressed[..]);
  }

  method VerifyCompressedProof(v: Verifier, compressed: seq<nat>, input: seq<nat>) returns (r: Result<()>)
    requires |compressed| == 4 && |input| == 2 && v.k.p > 3
    ensures r == VerifyCompressedTo(v, compressed, input)
  {
    hide Verifier.DecompressG1, Verifier.DecompressG2, PairingWords, FixedWords;
    var a := v.DecompressG1(compressed[0]);
    if a.Revert? {
      return Revert(a.error);
    }
    var b := v.DecompressG2(compressed[2], compressed[1]);
    if b.Revert? {
      return Revert(b.error);
    }
    var c := v.DecompressG1(compressed[3]);
    if c.Revert? {
      return Revert(c.error);
    }
    var l := PublicInputMsm(v.evm, input);
    if l.Revert? {
      return Revert(l.error);
    }
    var pairings := new nat[24];
    pairings[0], pairings[1] := a.value.x, a.value.y;
    pairings[2], pairings[3], pairings[4], pairings[5] := b.value.x1, b.value.x0, b.value.y1, b.value.y0;
    pairings[6], pairings[7] := c.value.x, c.value.y;
    WriteFixed(pairings, l.value);
    assert pairings[..] == PairingWords(a.value, b.value, c.value, l.value) by {
      PointsThenFixed(pairings[..], a.value, b.value, c.value, l.value);
    }
    var answer := v.evm.pairing(pairings[..]);
    if answer.None? || answer.value != 1 {
      return Revert(ProofInvalid);
    }
    return Success(());
  }

  /** Words 8 to 23: the key's points, and the public inputs' point at 18 and 19. */
  function FixedWords(l: (nat, nat)): seq<nat> {
    PairingWords(G1(0, 0), G2(0, 0, 0, 0), G1(0, 0), l)[8..]
  }

  method WriteFixed(f: array<nat>, l: (nat, nat))
    requires f.Length == 24
    modifies f
    ensures f[..8] == old(f[..8]) && f[8..] == FixedWords(l)
  {
    hide FixedWords;
    WriteFour(f, 8, DELTA_NEG_X_1, DELTA_NEG_X_0, DELTA_NEG_Y_1, DELTA_NEG_Y_0);
    WriteFour(f, 12, ALPHA_X, ALPHA_Y, BETA_NEG_X_1, BETA_NEG_X_0);
    WriteFour(f, 16, BETA_NEG_Y_1, BETA_NEG_Y_0, l.0, l.1);
    WriteFour(f, 20, GAMMA_NEG_X_1, GAMMA_NEG_X_0, GAMMA_NEG_Y_1, GAMMA_NEG_Y_0);
    assert f[8..12] == [DELTA_NEG_X_1, DELTA_NEG_X_0, DELTA_NEG_Y_1, DELTA_NEG_Y_0];
    assert f[12..16] == [ALPHA_X, ALPHA_Y, BETA_NEG_X_1, BETA_NEG_X_0];
    assert f[16..20] == [BETA_NEG_Y_1, BETA_NEG_Y_0, l.0, l.1];
    assert f[8..] == f[8..12] + f[12..16] + f[16..20] + f[20..24];
    FixedInFours(l);
  }

  method WriteFour(f: array<nat>, at: nat, a: nat, b: nat, c: nat, d: nat)
    requires at + 4 <= f.Length
    modifies f
    ensures f[at..at + 4] == [a, b, c, d]
    ensures forall i :: 0 <= i < f.Length && !(at <= i < at + 4) ==> f[i] == old(f[i])
  {
    f[at], f[at + 1], f[at + 2], f[at + 3] := a, b, c, d;
  }

  lemma {:induction false} FixedInFours(l: (nat, nat))
    ensures FixedWords(l) == [DELTA_NEG_X_1, DELTA_NEG_X_0, DELTA_NEG_Y_1, DELTA_NEG_Y_0]
      + [ALPHA_X, ALPHA_Y, BETA_NEG_X_1, BETA_NEG_X_0] + [BETA_NEG_Y_1, BETA_NEG_Y_0, l.0, l.1]
      + [GAMMA_NEG_X_1, GAMMA_NEG_X_0, GAMMA_NEG_Y_1, GAMMA_NEG_Y_0]
  {
  }

  lemma {:induction false} PointsThenFixed(words: seq<nat>, a: G1, b: G2, c: G1, l: (nat, nat))
    requires |words| == 24 && words[8..] == FixedWords(l)
    requires words[..8] == [a.x, a.y, b.x1, b.x0, b.y1, b.y0, c.x, c.y]
    ensures words == PairingWords(a, b, c, l)
  {
    assert words == words[..8] + words[8..];
  }

  method VerifyProof(v: Verifier, proof: seq<nat>, input: seq<nat>) returns (r: Result<()>)
    requires |proof| == 8 && |input| == 2
    ensures r == VerifyTo(v, proof, input)
  {
    hide PairingWords, FixedWords;
    var l := PublicInputMsm(v.evm, input);
    if l.Revert? {
      return Revert(l.error);
    }
    var f := new nat[24];
    for i := 0 to 8
      invariant f[..i] == proof[..i]
    {
      f[i] := proof[i];
    }
    WriteFixed(f, l.value);
    assert f[..] == proof + FixedWords(l.value) by {
      assert f[..] == f[..8] + f[8..] && proof[..8] == proof;
    }
    var answer := v.evm.pairing(f[..]);
    var success := answer.Some?;
    if success {
      f[0] := answer.value;
      success := f[0] % 2 == 1;
    }
    if !success {
      return Revert(ProofInvalid);
    }
    return Success(());
  }

  // ----- Agreement

  /** The 24 words of a proof in its points are the proof followed by the fixed words. */
  lemma {:induction false} SameWords(proof: seq<nat>, l: (nat, nat))
    requires |proof| == 8
    ensures PairingWords(G1(proof[0], proof[1]), G2(proof[3], proof[2], proof[5], proof[4]), G1(proof[6], proof[7]), l)
         == proof + FixedWords(l)
  {
  }

  /** The pairing precompile answers 0 or 1 (EIP-197). */
  ghost predicate AnswersBit(evm: Precompiles) {
    forall words: seq<nat> :: evm.pairing(words).Some? ==> evm.pairing(words).value < 2
  }

  /** What a proof compresses to decompresses to the points it is made of. */
  lemma {:induction false} ProofRoundTrip(v: Verifier, proof: seq<nat>)
    requires |proof| == 8 && 3 < v.k.p < TWO254
    requires v.SqrtFp(v.CurveG1(0)).Revert? && v.HintFor(v.CurveG2(0, 0)).Revert?
    requires CompressProofTo(v, proof).Success?
    ensures var c := CompressProofTo(v, proof).value;
      && |c| == 4
      && v.DecompressG1(c[0]) == Success(G1(proof[0], proof[1]))
      && v.DecompressG2(c[2], c[1]) == Success(G2(proof[3], proof[2], proof[5], proof[4]))
      && v.DecompressG1(c[3]) == Success(G1(proof[6], proof[7]))
  {
    hide Verifier.CompressG1, Verifier.CompressG2, Verifier.DecompressG1, Verifier.DecompressG2,
      Verifier.SqrtFp, Verifier.CurveG1, Verifier.HintFor, Verifier.CurveG2;
    RoundTripG1(v, G1(proof[0], proof[1]));
    RoundTripG2(v, G2(proof[3], proof[2], proof[5], proof[4]));
    RoundTripG1(v, G1(proof[6], proof[7]));
  }

  /** The two paths agree: verifying what a proof compresses to gives what verifying the proof
      gives, for every input, the reverted error included. */
  lemma {:induction false} PathsAgree(v: Verifier, proof: seq<nat>, input: seq<nat>)
    requires |proof| == 8 && |input| == 2 && 3 < v.k.p < TWO254
    requires v.SqrtFp(v.CurveG1(0)).Revert? && v.HintFor(v.CurveG2(0, 0)).Revert?
    requires AnswersBit(v.evm) && CompressProofTo(v, proof).Success?
    ensures |CompressProofTo(v, proof).value| == 4
    ensures VerifyCompressedTo(v, CompressProofTo(v, proof).value, input) == VerifyTo(v, proof, input)
  {
    hide Verifier.DecompressG1, Verifier.DecompressG2, CompressProofTo, MsmOf, PairingWords, FixedWords,
      Verifier.SqrtFp, Verifier.CurveG1, Verifier.HintFor, Verifier.CurveG2;
    ProofRoundTrip(v, proof);
    if MsmOf(v.evm, input).Success? {
      SameWords(proof, MsmOf(v.evm, input).value);
    }
  }

  /** The same for the contract's own constants, with MODEXP the modular power and Fermat's little
      theorem for P in place of the facts about x = 0. */
  lemma {:induction false} ContractPathsAgree(v: Verifier, proof: seq<nat>, input: seq<nat>)
    requires v.k == BN254 && Fermat(v.k.p) && AnswersBit(v.evm)
    requires |proof| == 8 && |input| == 2
    requires CompressProofTo(v, proof).Success?
    ensures |CompressProofTo(v, proof).value| == 4
    ensures VerifyCompressedTo(v, CompressProofTo(v, proof).value, input) == VerifyTo(v, proof, input)
  {
    hide Fermat, Certifies, CompressProofTo, VerifyCompressedTo, VerifyTo, Verifier.SqrtFp, Verifier.CurveG1, Verifier.HintFor, Verifier.CurveG2;
    ConstantsAreSound();
    WitnessChecks();
    NoPointAtZeroG1(v, WITNESS);
    NoPointAtZeroG2(v, WITNESS, 0);
    PathsAgree(v, proof, input);
  }

  /** A proof made of valid points compresses: A and C infinity or on the curve, B infinity or on
      the twist with nonzero y0; and no other proof does. */
  lemma {:induction false} CompressProofAccepts(v: Verifier, proof: seq<nat>)
    requires Standard(v) && |proof| == 8
    ensures CompressProofTo(v, proof).Success? <==>
      ValidG1(v, G1(proof[0], proof[1])) && ValidG2(v, G2(proof[3], proof[2], proof[5], proof[4])) && ValidG1(v, G1(proof[6], proof[7]))
  {
    hide Fermat, Faithful, OnTwist, OnCurve, Verifier.CompressG1, Verifier.CompressG2;
    CompressG1Accepts(v, G1(proof[0], proof[1]));
    CompressG2Accepts(v, G2(proof[3], proof[2], proof[5], proof[4]));
    CompressG1Accepts(v, G1(proof[6], proof[7]));
  }

  ghost predicate ValidG1(v: Verifier, pt: G1) {
    pt.x < v.k.p && pt.y < v.k.p && (pt == G1(0, 0) || OnCurve(pt, v.k.p))
  }

  ghost predicate ValidG2(v: Verifier, pt: G2) {
    && pt.x0 < v.k.p && pt.x1 < v.k.p && pt.y0 < v.k.p && pt.y1 < v.k.p
    && (pt == G2(0, 0, 0, 0) || (OnTwist(pt, v.k.p) && pt.y0 != 0))
  }
}
