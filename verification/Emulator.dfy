/** The emulator's forwarding loop. */
module Emulators {
  import opened Messages

  /** Requests for the chunks lo, ..., hi - 1. */
  function Requests(lo: nat, hi: nat): seq<GatewayMsg>
    requires lo <= hi
  {
    seq(hi - lo, i requires 0 <= i => RiscvRequest(lo + i))
  }

  /** What the emulator sends for `records` records: one numbered request each, then completion. */
  method Forward(records: nat) returns (sent: seq<GatewayMsg>)
    ensures sent == Requests(0, records) + [EmulatorComplete]
  {
    sent := [];
    var chunkIndex := 0;
    while chunkIndex < records
      invariant chunkIndex <= records
      invariant sent == Requests(0, chunkIndex)
    {
      sent := sent + [RiscvRequest(chunkIndex)];
      chunkIndex := chunkIndex + 1;
    }
    sent := sent + [EmulatorComplete];
  }
}
