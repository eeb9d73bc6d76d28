/** The messages exchanged by emulator, gateway and workers. Task ids and addresses, which no
    party reads, are dropped; the nested request and response enums are flattened. */
module Messages {
  import opened Proofs

  datatype GatewayMsg =
    | EmulatorComplete
    | RequestTask
    | RiscvRequest(chunkIndex: nat)
    | RiscvResponse(chunkIndex: nat, proof: IndexedProof)
    | CombineRequest(flagComplete: bool, chunkIndex: nat, proofs: seq<IndexedProof>)
    | CombineResponse(chunkIndex: nat, proof: IndexedProof)
    | Embed(embedProof: EmbedProof)
    | Close
    | Exit
}
