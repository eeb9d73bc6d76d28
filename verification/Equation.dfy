/** What the verification paths decide, when the precompiles compute in the groups of the curve:
    whether the proof satisfies the Groth16 equation for the public inputs. */
module Equation {
  import opened Proofs
  import opened Field
  import opened Groth16
  import opened Groth16Ops
  import opened VerifyingKey
  import opened VerifierPaths

  /** Discrete logarithms to fixed generators; None is a point outside the group. */
  datatype Logs = Logs(g1: G1 -> Option<nat>, g2: G2 -> Option<nat>)

  function Log1(logs: Logs, pt: G1): nat {
    match logs.g1(pt)
    case None => 0
    case Some(n) => n
  }

  function Log2(logs: Logs, pt: G2): nat {
    match logs.g2(pt)
    case None => 0
    case Some(n) => n
  }

  // ----- The precompiles

  /** `out` is a point with logarithm n, modulo the group order. */
  ghost predicate HasLog(logs: Logs, out: Option<(nat, nat)>, n: nat) {
    out.Some? && logs.g1(G1(out.value.0, out.value.1)).Some? && Cong(Log1(logs, G1(out.value.0, out.value.1)), n, R)
  }

  /** EIP-196: the group is the whole curve with infinity. */
  ghost predicate CurveLaw(logs: Logs) {
    forall pt :: logs.g1(pt).Some? <==> pt == G1(0, 0) || FiniteG1(pt, BN254.p)
  }

  /** EIP-196: scalar multiplication multiplies the logarithm. */
  ghost predicate MulLaw(evm: Precompiles, logs: Logs) {
    forall x: nat, y: nat, s: nat ::
      if logs.g1(G1(x, y)).Some? then HasLog(logs, evm.ecMul(x, y, s), s * Log1(logs, G1(x, y)))
      else evm.ecMul(x, y, s).None?
  }

  /** EIP-196: addition adds the logarithms. */
  ghost predicate AddLaw(evm: Precompiles, logs: Logs) {
    forall x: nat, y: nat, x': nat, y': nat ::
      if logs.g1(G1(x, y)).Some? && logs.g1(G1(x', y')).Some?
      then HasLog(logs, evm.ecAdd(x, y, x', y'), Log1(logs, G1(x, y)) + Log1(logs, G1(x', y')))
      else evm.ecAdd(x, y, x', y').None?
  }

  /** The logarithm of the product of the pairings of the words' points, six words a pair. */
  function PairingLog(logs: Logs, words: seq<nat>): Option<nat>
    requires |words| % 6 == 0
    decreases |words|
  {
    if words == [] then Some(0)
    else
      var a, b := G1(words[0], words[1]), G2(words[3], words[2], words[5], words[4]);
      var rest := PairingLog(logs, words[6..]);
      if logs.g1(a).None? || logs.g2(b).None? || rest.None? then None
      else Some(Product(Log1(logs, a), Log2(logs, b)) + rest.value)
  }

  function Product(a: nat, b: nat): nat {
    PositiveProduct(a, b);
    a * b
  }

  /** EIP-197: fails on malformed input and on points outside the groups; else says whether the
      product is 1. */
  ghost predicate PairingLaw(evm: Precompiles, logs: Logs) {
    forall words: seq<nat> :: evm.pairing(words) ==
      if |words| % 6 != 0 then None
      else match PairingLog(logs, words)
        case None => None
        case Some(n) => Some(if Cong(n, 0, R) then 1 else 0)
  }

  ghost predicate Lawful(evm: Precompiles, logs: Logs) {
    CurveLaw(logs) && MulLaw(evm, logs) && AddLaw(evm, logs) && PairingLaw(evm, logs)
  }

  // ----- The public inputs

  /** The logarithm of CONSTANT + input[0] PUB_0 + input[1] PUB_1. */
  function InputLog(logs: Logs, input: seq<nat>): nat
    requires |input| == 2
  {
    Log1(logs, CONSTANT) + Product(input[0], Log1(logs, PUB_0)) + Product(input[1], Log1(logs, PUB_1))
  }

  lemma {:induction false} MulMeans(evm: Precompiles, logs: Logs, pub: (nat, nat), s: nat)
    requires MulLaw(evm, logs) && logs.g1(G1(pub.0, pub.1)).Some?
    ensures HasLog(logs, evm.ecMul(pub.0, pub.1, s), Product(s, Log1(logs, G1(pub.0, pub.1))))
  {
    hide HasLog, Log1;
  }

  lemma {:induction false} AddMeans(evm: Precompiles, logs: Logs, a: (nat, nat), b: (nat, nat), n: nat, n': nat)
    requires AddLaw(evm, logs) && HasLog(logs, Some(a), n) && HasLog(logs, Some(b), n')
    ensures HasLog(logs, evm.ecAdd(a.0, a.1, b.0, b.1), n + n')
  {
    hide Cong, Log1;
    var l, l' := Log1(logs, G1(a.0, a.1)), Log1(logs, G1(b.0, b.1));
    AddCong(l, n, l', n', R);
    SameLog(logs, evm.ecAdd(a.0, a.1, b.0, b.1), l + l', n + n');
  }

  lemma {:induction false} SameLog(logs: Logs, out: Option<(nat, nat)>, n: nat, n': nat)
    requires HasLog(logs, out, n) && Cong(n, n', R)
    ensures HasLog(logs, out, n')
  {
  }

  /** One input adds its multiple of the point, unless it is not below R. */
  lemma {:induction false} AddInputMeans(evm: Precompiles, logs: Logs, sum: (nat, nat), pub: (nat, nat), s: nat, n: nat)
    requires MulLaw(evm, logs) && AddLaw(evm, logs)
    requires HasLog(logs, Some(sum), n) && logs.g1(G1(pub.0, pub.1)).Some?
    ensures if s < R then HasLog(logs, AddInput(evm, sum, pub, s), n + Product(s, Log1(logs, G1(pub.0, pub.1))))
            else AddInput(evm, sum, pub, s).None?
  {
    hide Cong, Log1, MulLaw, AddLaw, Product;
    MulMeans(evm, logs, pub, s);
    if s < R {
      AddMeans(evm, logs, sum, evm.ecMul(pub.0, pub.1, s).value, n, Product(s, Log1(logs, G1(pub.0, pub.1))));
    }
  }

  /** The key's points are in the group. */
  lemma {:induction false} KeyHasLogs(logs: Logs)
    requires CurveLaw(logs)
    ensures logs.g1(ALPHA).Some? && logs.g1(CONSTANT).Some? && logs.g1(PUB_0).Some? && logs.g1(PUB_1).Some?
  {
    hide FiniteG1;
    KeyOnCurve();
  }

  /** The public inputs' point is CONSTANT + input[0] PUB_0 + input[1] PUB_1, and the computation
      reverts exactly when an input is not below R. */
  lemma {:induction false} InputPointMeans(evm: Precompiles, logs: Logs, input: seq<nat>)
    requires Lawful(evm, logs) && |input| == 2
    ensures if input[0] < R && input[1] < R
            then MsmOf(evm, input).Success? && HasLog(logs, Some(MsmOf(evm, input).value), InputLog(logs, input))
            else MsmOf(evm, input) == Revert(PublicInputNotInField)
  {
    hide CurveLaw, MulLaw, AddLaw, PairingLaw, AddInput, Product;
    KeyHasLogs(logs);
    var first := AddInput(evm, (CONSTANT_X, CONSTANT_Y), (PUB_0_X, PUB_0_Y), input[0]);
    var n := Log1(logs, CONSTANT);
    AddInputMeans(evm, logs, (CONSTANT_X, CONSTANT_Y), (PUB_0_X, PUB_0_Y), input[0], n);
    if input[0] < R {
      var n' := n + Product(input[0], Log1(logs, PUB_0));
      AddInputMeans(evm, logs, first.value, (PUB_1_X, PUB_1_Y), input[1], n');
    }
  }

  // ----- The equation

  /** A pair of points as the precompile reads it. */
  function PairWords(a: G1, b: G2): seq<nat> {
    [a.x, a.y, b.x1, b.x0, b.y1, b.y0]
  }

  lemma {:induction false} PairingLogPair(logs: Logs, a: G1, b: G2, words: seq<nat>)
    requires |words| % 6 == 0
    ensures var rest := PairingLog(logs, words);
      PairingLog(logs, PairWords(a, b) + words) ==
        if logs.g1(a).None? || logs.g2(b).None? || rest.None? then None
        else Some(Product(Log1(logs, a), Log2(logs, b)) + rest.value)
  {
    hide Product, Log1, Log2;
    var all := PairWords(a, b) + words;
    assert all[6..] == words;
  }

  lemma {:induction false} FourPairs(a: G1, b: G2, c: G1, l: (nat, nat))
    ensures PairingWords(a, b, c, l) ==
      PairWords(a, b) + (PairWords(c, DELTA_NEG) + (PairWords(ALPHA, BETA_NEG) + (PairWords(G1(l.0, l.1), GAMMA_NEG) + [])))
  {
  }

  /** The points are in their groups, and a b + c (-delta) + alpha (-beta) + l (-gamma) = 0 in the
      exponents, where l is the public inputs' combination of the key's points. */
  ghost predicate Satisfies(logs: Logs, a: G1, b: G2, c: G1, input: seq<nat>)
    requires |input| == 2
  {
    && logs.g1(a).Some? && logs.g2(b).Some? && logs.g1(c).Some?
    && logs.g2(BETA_NEG).Some? && logs.g2(GAMMA_NEG).Some? && logs.g2(DELTA_NEG).Some?
    && Cong(Log1(logs, a) * Log2(logs, b)
            + Log1(logs, c) * Log2(logs, DELTA_NEG)
            + Log1(logs, ALPHA) * Log2(logs, BETA_NEG)
            + InputLog(logs, input) * Log2(logs, GAMMA_NEG), 0, R)
  }

  /** The exponent of the product of the four pairings. */
  lemma {:induction false} FourPairsLog(logs: Logs, a: G1, b: G2, c: G1, l: (nat, nat))
    requires logs.g1(ALPHA).Some? && logs.g1(G1(l.0, l.1)).Some?
    ensures |PairingWords(a, b, c, l)| == 24
    ensures PairingLog(logs, PairingWords(a, b, c, l)) ==
      if logs.g1(a).None? || logs.g2(b).None? || logs.g1(c).None?
         || logs.g2(BETA_NEG).None? || logs.g2(GAMMA_NEG).None? || logs.g2(DELTA_NEG).None? then None
      else Some(Product(Log1(logs, a), Log2(logs, b)) + Product(Log1(logs, c), Log2(logs, DELTA_NEG))
                + Product(Log1(logs, ALPHA), Log2(logs, BETA_NEG)) + Product(Log1(logs, G1(l.0, l.1)), Log2(logs, GAMMA_NEG)))
  {
    hide Product, Log1, Log2, PairWords, PairingWords, PairingLog;
    PairLength(a, b);
    PairLength(c, DELTA_NEG);
    PairLength(ALPHA, BETA_NEG);
    PairLength(G1(l.0, l.1), GAMMA_NEG);
    var last := PairWords(G1(l.0, l.1), GAMMA_NEG) + [];
    var third := PairWords(ALPHA, BETA_NEG) + last;
    var second := PairWords(c, DELTA_NEG) + third;
    FourPairs(a, b, c, l);
    NoPairs(logs);
    PairingLogPair(logs, G1(l.0, l.1), GAMMA_NEG, []);
    PairingLogPair(logs, ALPHA, BETA_NEG, last);
    PairingLogPair(logs, c, DELTA_NEG, third);
    PairingLogPair(logs, a, b, second);
  }

  lemma {:induction false} PairLength(a: G1, b: G2)
    ensures |PairWords(a, b)| == 6
  {
  }

  lemma {:induction false} NoPairs(logs: Logs)
    ensures PairingLog(logs, []) == Some(0)
  {
  }

  lemma {:induction false} LastFactor(x: int, l: int, l': int, g: int)
    requires Cong(l, l', R)
    ensures Cong(x + l * g, 0, R) <==> Cong(x + l' * g, 0, R)
  {
    MulCong(l, l', g, g, R);
    AddCong(x, x, l * g, l' * g, R);
  }

  lemma {:induction false} PairingAnswers(evm: Precompiles, logs: Logs, words: seq<nat>)
    requires PairingLaw(evm, logs) && |words| == 24
    ensures evm.pairing(words) ==
      match PairingLog(logs, words)
      case None => None
      case Some(n) => Some(if Cong(n, 0, R) then 1 else 0)
  {
    hide PairingLog, Cong;
  }

  /** What the precompile answers for the points of a proof. */
  lemma {:induction false} PairingMeans(evm: Precompiles, logs: Logs, a: G1, b: G2, c: G1, l: (nat, nat), input: seq<nat>)
    requires Lawful(evm, logs) && |input| == 2 && HasLog(logs, Some(l), InputLog(logs, input))
    ensures var answer := evm.pairing(PairingWords(a, b, c, l));
      if Satisfies(logs, a, b, c, input) then answer == Some(1) else answer == None || answer == Some(0)
  {
    hide CurveLaw, MulLaw, AddLaw, PairingLaw, Cong, PairingWords, InputLog, Log1, Log2, PairingLog;
    KeyHasLogs(logs);
    FourPairsLog(logs, a, b, c, l);
    PairingAnswers(evm, logs, PairingWords(a, b, c, l));
    var x := Log1(logs, a) * Log2(logs, b) + Log1(logs, c) * Log2(logs, DELTA_NEG) + Log1(logs, ALPHA) * Log2(logs, BETA_NEG);
    LastFactor(x, Log1(logs, G1(l.0, l.1)), InputLog(logs, input), Log2(logs, GAMMA_NEG));
  }

  /** The points of an uncompressed proof, Fp2 coefficients imaginary part first. */
  function PointA(proof: seq<nat>): G1
    requires |proof| == 8
  {
    G1(proof[0], proof[1])
  }

  function PointB(proof: seq<nat>): G2
    requires |proof| == 8
  {
    G2(proof[3], proof[2], proof[5], proof[4])
  }

  function PointC(proof: seq<nat>): G1
    requires |proof| == 8
  {
    G1(proof[6], proof[7])
  }

  /** The verdict on the points of a proof. */
  ghost function Verdict(logs: Logs, a: G1, b: G2, c: G1, input: seq<nat>): Result<()>
    requires |input| == 2
  {
    if input[0] >= R || input[1] >= R then Revert(PublicInputNotInField)
    else if Satisfies(logs, a, b, c, input) then Success(()) else Revert(ProofInvalid)
  }

  /** The uncompressed path accepts exactly the proofs that satisfy the Groth16 equation for public
      inputs below R. */
  lemma {:induction false} VerifyProofMeans(v: Verifier, logs: Logs, proof: seq<nat>, input: seq<nat>)
    requires Lawful(v.evm, logs) && |proof| == 8 && |input| == 2
    ensures VerifyTo(v, proof, input) == Verdict(logs, PointA(proof), PointB(proof), PointC(proof), input)
  {
    hide Lawful, MsmOf, PairingWords, FixedWords, Satisfies, HasLog;
    InputPointMeans(v.evm, logs, input);
    if input[0] < R && input[1] < R {
      var l := MsmOf(v.evm, input).value;
      SameWords(proof, l);
      PairingMeans(v.evm, logs, PointA(proof), PointB(proof), PointC(proof), l, input);
    }
  }

  /** The compressed path decides the same about the points the words decompress to, and refuses
      words that do not. */
  lemma {:induction false} VerifyCompressedMeans(v: Verifier, logs: Logs, compressed: seq<nat>, input: seq<nat>)
    requires v.k.p > 3 && Lawful(v.evm, logs) && |compressed| == 4 && |input| == 2
    ensures var a, b, c := v.DecompressG1(compressed[0]), v.DecompressG2(compressed[2], compressed[1]), v.DecompressG1(compressed[3]);
      VerifyCompressedTo(v, compressed, input) ==
        if a.Success? && b.Success? && c.Success? then Verdict(logs, a.value, b.value, c.value, input) else Revert(ProofInvalid)
  {
    hide Lawful, MsmOf, PairingWords, Satisfies, HasLog, Verifier.DecompressG1, Verifier.DecompressG2;
    InputPointMeans(v.evm, logs, input);
    var a, b, c := v.DecompressG1(compressed[0]), v.DecompressG2(compressed[2], compressed[1]), v.DecompressG1(compressed[3]);
    RevertsAre(v, compressed[0], compressed[3], compressed[2], compressed[1]);
    if a.Success? && b.Success? && c.Success? && input[0] < R && input[1] < R {
      PairingMeans(v.evm, logs, a.value, b.value, c.value, MsmOf(v.evm, input).value, input);
    }
  }

  lemma {:induction false} RevertsAre(v: Verifier, a: nat, c: nat, b0: nat, b1: nat)
    requires v.k.p > 3
    ensures v.DecompressG1(a).Revert? ==> v.DecompressG1(a).error == ProofInvalid
    ensures v.DecompressG1(c).Revert? ==> v.DecompressG1(c).error == ProofInvalid
    ensures v.DecompressG2(b0, b1).Revert? ==> v.DecompressG2(b0, b1).error == ProofInvalid
  {
  }
}
