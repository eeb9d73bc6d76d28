/** A prover: the combine phase and the request loop. */
module Workers {
  import opened Proofs
  import opened Messages

  /** Proofs the combine machine takes at once. */
  const COMBINE_SIZE: nat := 2

  /** The riscv and convert phases prove one chunk. */
  function ConvertChunk(index: nat): IndexedProof {
    IndexedProof(Leaf(index), index, index)
  }

  /** `CombineProver::process`: too many or too few proofs, or proofs that are not adjacent, panic. */
  function CombineProofs(flag: bool, proofs: seq<IndexedProof>): Panicking<IndexedProof> {
    if |proofs| > COMBINE_SIZE || |proofs| < 2 then Panic
    else if proofs[0].endChunk + 1 != proofs[1].startChunk then Panic
    else Ok(IndexedProof(Node(proofs[0].inner, proofs[1].inner, flag), proofs[0].startChunk, proofs[1].endChunk))
  }

  /** What a worker does with a message it took: answer and ask again, send the embed proof and
      leave, or leave. */
  datatype Reaction = Respond(msg: GatewayMsg) | Finish(embedProof: EmbedProof) | Leave

  /** One arm of the worker's loop. `verified` is the verdict on the embed proof, which only a
      request flagged complete asks for; a rejected one falls through to the ordinary answer. */
  function React(msg: GatewayMsg, verified: bool): Panicking<Reaction> {
    match msg
    case RiscvRequest(index) => Ok(Respond(RiscvResponse(index, ConvertChunk(index))))
    case CombineRequest(flag, index, proofs) =>
      (match CombineProofs(flag, proofs)
       case Panic => Panic
       case Ok(proof) =>
         if flag && verified then Ok(Finish(EmbedProof(proof.inner)))
         else Ok(Respond(CombineResponse(index, proof))))
    case Exit => Ok(Leave)
    case _ => Panic
  }

  /** Everything a worker sends on taking `msgs` in turn, after its first request for a task. */
  function Sends(msgs: seq<GatewayMsg>, verdicts: seq<bool>): seq<GatewayMsg>
    requires |verdicts| == |msgs|
  {
    if msgs == [] then []
    else
      match React(msgs[0], verdicts[0])
      case Panic => []
      case Ok(Leave) => []
      case Ok(Finish(e)) => [Embed(e), Exit]
      case Ok(Respond(m)) => [m, RequestTask] + Sends(msgs[1..], verdicts[1..])
  }

  /** `ProverRunner::run`. */
  method Run(msgs: seq<GatewayMsg>, verdicts: seq<bool>) returns (sent: seq<GatewayMsg>)
    requires |verdicts| == |msgs|
    ensures sent == [RequestTask] + Sends(msgs, verdicts)
  {
    sent := [RequestTask];
    var i := 0;
    while i < |msgs|
      invariant 0 <= i <= |msgs|
      invariant [RequestTask] + Sends(msgs, verdicts) == sent + Sends(msgs[i..], verdicts[i..])
    {
      var msg := msgs[i];
      ghost var rest := Sends(msgs[i..], verdicts[i..]);
      assert msgs[i..][1..] == msgs[i + 1..] && verdicts[i..][1..] == verdicts[i + 1..];
      match msg {
        case RiscvRequest(index) =>
          sent := sent + [RiscvResponse(index, ConvertChunk(index))];
        case CombineRequest(flag, index, proofs) =>
          var proof := CombineProofs(flag, proofs);
          if proof.Panic? {
            return;
          }
          if flag {
            if verdicts[i] {
              sent := sent + [Embed(EmbedProof(proof.value.inner))];
              sent := sent + [Exit];
              return;
            }
          }
          sent := sent + [CombineResponse(index, proof.value)];
        case _ =>
          return;
      }
      sent := sent + [RequestTask];
      i := i + 1;
    }
  }

  /** Whatever a worker takes, its only `Exit` comes last and right after its only `Embed`. */
  lemma {:induction false} ExitFollowsEmbed(msgs: seq<GatewayMsg>, verdicts: seq<bool>, i: nat)
    requires |verdicts| == |msgs| && i < |Sends(msgs, verdicts)|
    ensures Sends(msgs, verdicts)[i].Exit? <==> i == |Sends(msgs, verdicts)| - 1 && i > 0 && Sends(msgs, verdicts)[i - 1].Embed?
    ensures Sends(msgs, verdicts)[i].Embed? <==> i == |Sends(msgs, verdicts)| - 2 && Sends(msgs, verdicts)[i + 1].Exit?
  {
    var s := Sends(msgs, verdicts);
    match React(msgs[0], verdicts[0]) {
      case Panic =>
      case Ok(Leave) =>
      case Ok(Finish(e)) =>
      case Ok(Respond(m)) =>
        var rest := Sends(msgs[1..], verdicts[1..]);
        assert s == [m, RequestTask] + rest;
        if i >= 2 {
          ExitFollowsEmbed(msgs[1..], verdicts[1..], i - 2);
        } else if i == 1 && |rest| > 0 {
          ExitFollowsEmbed(msgs[1..], verdicts[1..], 0);
        }
    }
  }
}
