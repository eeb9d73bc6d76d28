/** The Groth16 verifier contract: point compression and decompression over the BN254 base field
    and its quadratic extension, and the two verification paths. Words are naturals below 2^256. */
module Groth16 {
  import opened Proofs
  import opened Field

  datatype ContractError = ProofInvalid | PublicInputNotInField

  /** A call's return value, or the error it reverts with. */
  datatype Result<+T> = Success(value: T) | Revert(error: ContractError) {
    predicate IsFailure() {
      Revert?
    }

    function PropagateFailure<U>(): Result<U>
      requires Revert?
    {
      Revert(error)
    }

    function Extract(): T
      requires Success?
    {
      value
    }
  }

  /** The precompiled contracts, as deterministic functions of their input words; None is a failed call. */
  datatype Precompiles = Precompiles(
    modexp: (nat, nat, nat) -> Option<nat>,                  // EIP-198
    ecAdd: (nat, nat, nat, nat) -> Option<(nat, nat)>,       // EIP-196
    ecMul: (nat, nat, nat) -> Option<(nat, nat)>,            // EIP-196
    pairing: seq<nat> -> Option<nat>)                        // EIP-197

  /** The field constants. */
  datatype Constants = Constants(
    p: Modulus,
    half: nat,             // 1/2
    fraction27_82: nat,    // real part of 3/(9 + i)
    fraction3_82: nat,     // minus the imaginary part of 3/(9 + i)
    expInverse: nat,
    expSqrt: nat)

  const BN254 := Constants(
    0x30644e72e131a029b85045b68181585d97816a916871ca8d3c208c16d87cfd47,
    0x183227397098d014dc2822db40c0ac2ecbc0b548b438e5469e10460b6c3e7ea4,
    0x2b149d40ceb8aaae81be18991be06ac3b5b4c5e559dbefa33267e6dc24a138e5,
    0x2fcd3ac2a640a154eb23960892a85a68f031ca0c8344b23a577dcf1052b9e775,
    0x30644e72e131a029b85045b68181585d97816a916871ca8d3c208c16d87cfd45,
    0xc19139cb84c680a6e14116da060561765e05aa45a1c72a34f082305b61f3f52)

  const R: nat := 0x30644e72e131a029b85045b68181585d2833e84879b9709143e1f593f0000001

  const ALPHA_X: nat := 2387709920592184083440184305498248923596928447823501187834217907152206095815
  const ALPHA_Y: nat := 16686835283464898692711987473057532756821822450477229260603483205883234808568
  const BETA_NEG_X_0: nat := 7494559153497325892045627170966046336166672325896621750350558282396932644674
  const BETA_NEG_X_1: nat := 19460410880324300906068073396466272299182785508436074329672385121652777787174
  const BETA_NEG_Y_0: nat := 14577117304217101835514219113496688541393521412607681298002371304801323513546
  const BETA_NEG_Y_1: nat := 15387827228489212131083561577128866348537587305481193946043600818376163115486
  const GAMMA_NEG_X_0: nat := 14512406860132349939823521203747839065265857227818496771070772556055588527931
  const GAMMA_NEG_X_1: nat := 4966308327417805485464086277584946103432506040208007145149616060952408691251
  const GAMMA_NEG_Y_0: nat := 3241757543565136230626773806796689085518185448342070109220598213528121292162
  const GAMMA_NEG_Y_1: nat := 5962817364414905811318381373037653103667126665806354554331187139689300328134
  const DELTA_NEG_X_0: nat := 21217336168531776567005224004724604559195743901519586247848595992077568080799
  const DELTA_NEG_X_1: nat := 15879362912550509366627867945434114595552423953830847398364481836128969335054
  const DELTA_NEG_Y_0: nat := 11540609877356913424862790636753914054989469465975963075543318386208461042820
  const DELTA_NEG_Y_1: nat := 12459331055386951964144762907628279845298091869204047684751637003338077748385
  const CONSTANT_X: nat := 10372641589178417033734188891882358682388878447230138700714530082853510756831
  const CONSTANT_Y: nat := 766489151683426586479684031461755325218003430206782683325502978842018132736
  const PUB_0_X: nat := 1557248352606326426810769133632832035056769273981423293422574201084031233063
  const PUB_0_Y: nat := 19250353664327455202179678437083287022061320007408601850916845369348511692598
  const PUB_1_X: nat := 3866107190902558060538340110776331123449029945227315439679708502368968517238
  const PUB_1_Y: nat := 5609415587610033580100911761576564983021031792697121293864770546937755355575

  const WORD: nat := 0x1_0000000000000000_0000000000000000_0000000000000000_0000000000000000

  // ----- Word operations

  function AddMod(a: nat, b: nat, m: Modulus): nat { (a + b) % m }

  function MulMod(a: nat, b: nat, m: Modulus): nat {
    PositiveProduct(a, b);
    (a * b) % m
  }

  lemma {:induction false} PositiveProduct(a: nat, b: nat)
    ensures a * b >= 0
  {
  }

  /** `x << 1` and `x << 2` drop the bits pushed out of the word. */
  function ShiftOne(x: nat): nat { (2 * x) % WORD }
  function ShiftTwo(x: nat): nat { (4 * x) % WORD }

  /** `v | 1` and `v | 2`. */
  function OrOne(v: nat): nat { if v % 2 == 1 then v else v + 1 }
  function OrTwo(v: nat): nat { if (v / 2) % 2 == 1 then v else v + 2 }

  datatype G1 = G1(x: nat, y: nat)
  datatype G2 = G2(x0: nat, x1: nat, y0: nat, y1: nat)

  datatype Verifier = Verifier(k: Constants, evm: Precompiles) {

    function Negate(a: nat): nat {
      (k.p - a % k.p) % k.p
    }

    function Exp(a: nat, e: nat): Result<nat> {
      match evm.modexp(a, e, k.p)
      case None => Revert(ProofInvalid)
      case Some(x) => Success(x)
    }

    function InvertFp(a: nat): Result<nat> {
      var x :- Exp(a, k.expInverse);
      if MulMod(a, x, k.p) != 1 then Revert(ProofInvalid) else Success(x)
    }

    function SqrtFp(a: nat): Result<nat> {
      var x :- Exp(a, k.expSqrt);
      if MulMod(x, x, k.p) != a then Revert(ProofInvalid) else Success(x)
    }

    function IsSquareFp(a: nat): Result<bool> {
      var x :- Exp(a, k.expSqrt);
      Success(MulMod(x, x, k.p) == a)
    }

    function SqrtFp2(a0: nat, a1: nat, hint: bool): Result<(nat, nat)> {
      var root :- SqrtFp(AddMod(MulMod(a0, a0, k.p), MulMod(a1, a1, k.p), k.p));
      var d := if hint then Negate(root) else root;
      var x0 :- SqrtFp(MulMod(AddMod(a0, d, k.p), k.half, k.p));
      var inverse :- InvertFp(MulMod(x0, 2, k.p));
      var x1 := MulMod(a1, inverse, k.p);
      if a0 != AddMod(MulMod(x0, x0, k.p), Negate(MulMod(x1, x1, k.p)), k.p)
         || a1 != MulMod(2, MulMod(x0, x1, k.p), k.p)
      then Revert(ProofInvalid)
      else Success((x0, x1))
    }

    /** x³ + 3, as both directions compute it. */
    function CurveG1(x: nat): nat {
      AddMod(MulMod(MulMod(x, x, k.p), x, k.p), 3, k.p)
    }

    function CompressG1(pt: G1): Result<nat> {
      if pt.x >= k.p || pt.y >= k.p then Revert(ProofInvalid)
      else if pt.x == 0 && pt.y == 0 then Success(0)
      else
        var y :- SqrtFp(CurveG1(pt.x));
        if pt.y == y then Success(ShiftOne(pt.x))
        else if pt.y == Negate(y) then Success(OrOne(ShiftOne(pt.x)))
        else Revert(ProofInvalid)
    }

    function DecompressG1(c: nat): Result<G1> {
      if c == 0 then Success(G1(0, 0))
      else
        var x := c / 2;
        if x >= k.p then Revert(ProofInvalid)
        else
          var y :- SqrtFp(CurveG1(x));
          Success(G1(x, if c % 2 == 1 then Negate(y) else y))
    }

    /** x³ + 3/(9 + i) for x = x0 + x1 i, as both directions compute it. */
    function CurveG2(x0: nat, x1: nat): (nat, nat)
      requires k.p > 3
    {
      var n3ab := MulMod(MulMod(x0, x1, k.p), k.p - 3, k.p);
      var a3 := MulMod(MulMod(x0, x0, k.p), x0, k.p);
      var b3 := MulMod(MulMod(x1, x1, k.p), x1, k.p);
      (AddMod(k.fraction27_82, AddMod(a3, MulMod(n3ab, x1, k.p), k.p), k.p),
       Negate(AddMod(k.fraction3_82, AddMod(b3, MulMod(n3ab, x0, k.p), k.p), k.p)))
    }

    /** The hint bit of a compressed point: which of the two half norms has a root. */
    function HintFor(a: (nat, nat)): Result<bool> {
      var d :- SqrtFp(AddMod(MulMod(a.0, a.0, k.p), MulMod(a.1, a.1, k.p), k.p));
      var square :- IsSquareFp(MulMod(AddMod(a.0, d, k.p), k.half, k.p));
      Success(!square)
    }

    function CompressG2(pt: G2): Result<(nat, nat)>
      requires k.p > 3
    {
      if pt.x0 >= k.p || pt.x1 >= k.p || pt.y0 >= k.p || pt.y1 >= k.p then Revert(ProofInvalid)
      else if pt.x0 == 0 && pt.x1 == 0 && pt.y0 == 0 && pt.y1 == 0 then Success((0, 0))
      else
        var a := CurveG2(pt.x0, pt.x1);
        var hint :- HintFor(a);
        var y :- SqrtFp2(a.0, a.1, hint);
        var c0 := if hint then OrTwo(ShiftTwo(pt.x0)) else ShiftTwo(pt.x0);
        if pt.y0 == y.0 && pt.y1 == y.1 then Success((c0, pt.x1))
        else if pt.y0 == Negate(y.0) && pt.y1 == Negate(y.1) then Success((OrOne(c0), pt.x1))
        else Revert(ProofInvalid)
    }

    function DecompressG2(c0: nat, c1: nat): Result<G2>
      requires k.p > 3
    {
      if c0 == 0 && c1 == 0 then Success(G2(0, 0, 0, 0))
      else
        var x0, x1 := c0 / 4, c1;
        if x0 >= k.p || x1 >= k.p then Revert(ProofInvalid)
        else
          var a := CurveG2(x0, x1);
          var y :- SqrtFp2(a.0, a.1, (c0 / 2) % 2 == 1);
          Success(if c0 % 2 == 1 then G2(x0, x1, Negate(y.0), Negate(y.1)) else G2(x0, x1, y.0, y.1))
    }
  }
}
