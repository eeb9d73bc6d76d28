/** One proving task as a transition system: the emulator, the gateway, any number of workers,
    and the three unbounded FIFO channels between them. */
module Protocol {
  import opened Proofs
  import opened Messages
  import opened Gateways
  import Workers

  /** Where a worker stands in its loop: about to ask for a task, waiting for a message, working
      on one, between its `Embed` and its `Exit`, out of the loop, or stopped by a panic. */
  datatype Phase = Asking | Idle | Working(request: GatewayMsg) | Exiting | Stopped | Crashed

  /** A combine request and the number of chunks initialised when it was issued. */
  datatype Issue = Issue(request: GatewayMsg, initialised: nat)

  /** What happened so far. No step reads it. */
  datatype Log = Log(
    initialised: nat,      // calls of init_node
    settled: nat,          // calls of set_proof
    issued: seq<Issue>,    // combine requests, in order
    accepted: seq<nat>,    // chunk indices of final combines whose embed proof was accepted
    rejected: nat)         // final combines whose embed proof was rejected

  datatype State = State(
    chunks: nat,           // records the emulation will produce
    forwarded: nat,
    emulatorDone: bool,
    fromEmulator: seq<GatewayMsg>,
    gateway: Gateway,
    requests: seq<GatewayMsg>,
    workers: seq<Phase>,
    replies: seq<GatewayMsg>,
    log: Log)

  datatype Action =
    | ForwardChunk
    | ForwardComplete
    | ReceiveEmulator
    | ReceiveWorker
    | Ask(worker: nat)
    | Take(worker: nat)
    | Answer(worker: nat, verified: bool)
    | SendExit(worker: nat)

  function Init(chunks: nat, workers: nat): State {
    State(chunks, 0, false, [], NEW_GATEWAY, [], seq(workers, _ => Asking), [], Log(0, 0, [], [], 0))
  }

  predicate Enabled(s: State, a: Action) {
    match a
    case ForwardChunk => s.forwarded < s.chunks
    case ForwardComplete => s.forwarded == s.chunks && !s.emulatorDone
    case ReceiveEmulator => s.gateway.status.Running? && s.fromEmulator != []
    case ReceiveWorker => s.gateway.status.Running? && s.replies != []
    case Ask(w) => w < |s.workers| && s.workers[w].Asking?
    case Take(w) => w < |s.workers| && s.workers[w].Idle? && s.requests != []
    case Answer(w, _) => w < |s.workers| && s.workers[w].Working?
    case SendExit(w) => w < |s.workers| && s.workers[w].Exiting?
  }

  /** The log after the gateway handled `msg` and sent `sent`. */
  function Note(log: Log, msg: GatewayMsg, sent: seq<GatewayMsg>): Log {
    log.(initialised := log.initialised + (if msg.RiscvRequest? then 1 else 0),
         settled := log.settled + (if msg.RiscvResponse? || msg.CombineResponse? then 1 else 0),
         issued := if |sent| == 1 && sent[0].CombineRequest?
                   then log.issued + [Issue(sent[0], log.initialised)] else log.issued)
  }

  function Apply(s: State, a: Action): State
    requires Enabled(s, a)
  {
    match a
    case ForwardChunk =>
      s.(fromEmulator := s.fromEmulator + [RiscvRequest(s.forwarded)], forwarded := s.forwarded + 1)
    case ForwardComplete =>
      s.(fromEmulator := s.fromEmulator + [EmulatorComplete], emulatorDone := true)
    case ReceiveEmulator =>
      var it := IterationTo(s.gateway, FromEmulator(s.fromEmulator[0]));
      s.(fromEmulator := s.fromEmulator[1..], gateway := it.gateway, requests := s.requests + it.sent,
         log := Note(s.log, s.fromEmulator[0], it.sent))
    case ReceiveWorker =>
      var it := IterationTo(s.gateway, FromWorkers(s.replies[0]));
      s.(replies := s.replies[1..], gateway := it.gateway, requests := s.requests + it.sent,
         log := Note(s.log, s.replies[0], it.sent))
    case Ask(w) =>
      s.(workers := s.workers[w := Idle], replies := s.replies + [RequestTask])
    case Take(w) =>
      s.(workers := s.workers[w := Working(s.requests[0])], requests := s.requests[1..])
    case Answer(w, verified) =>
      var request := s.workers[w].request;
      (match Workers.React(request, verified)
       case Panic => s.(workers := s.workers[w := Crashed])
       case Ok(Leave) => s.(workers := s.workers[w := Stopped])
       case Ok(Finish(e)) =>
         s.(workers := s.workers[w := Exiting], replies := s.replies + [Embed(e)],
            log := s.log.(accepted := s.log.accepted + [request.chunkIndex]))
       case Ok(Respond(m)) =>
         s.(workers := s.workers[w := Asking], replies := s.replies + [m],
            log := s.log.(rejected := s.log.rejected + (if IsFlagged(request) then 1 else 0))))
    case SendExit(w) =>
      s.(workers := s.workers[w := Stopped], replies := s.replies + [Exit])
  }

  predicate IsFlagged(m: GatewayMsg) {
    m.CombineRequest? && m.flagComplete
  }

  /** The state after a schedule of actions, if each is enabled in its turn. */
  function Execute(s: State, schedule: seq<Action>): Option<State>
    decreases |schedule|
  {
    if schedule == [] then Some(s)
    else if !Enabled(s, schedule[0]) then None
    else Execute(Apply(s, schedule[0]), schedule[1..])
  }

  /** `s` is reached from the start by some schedule. */
  ghost predicate Reachable(chunks: nat, workers: nat, s: State) {
    exists schedule :: Execute(Init(chunks, workers), schedule) == Some(s)
  }

  /** No party can move. */
  ghost predicate Final(s: State) {
    forall a :: !Enabled(s, a)
  }
}
