/** The gateway: its message handler and its select loop. */
module Gateways {
  import opened Proofs
  import opened ProofTrees
  import opened Messages

  /** The handler's fields as a value. */
  datatype Handler = Handler(emulatorComplete: bool, tree: Tree, embedProof: Option<EmbedProof>)

  const NEW_HANDLER := Handler(false, map[], None)

  /** `init_node`: the assertion after the insert fails on an index already present. */
  function InitNodeTo(h: Handler, index: nat): Panicking<Handler> {
    if index in h.tree then Panic
    else Ok(h.(tree := h.tree[index := InProgress([])]))
  }

  function ProcessRiscvReqTo(h: Handler, msg: GatewayMsg): Panicking<Handler> {
    match msg
    case RiscvRequest(index) => InitNodeTo(h, index)
    case _ => Panic
  }

  /** The handler's new fields and its answer, if any. */
  datatype Processed = Processed(handler: Handler, answer: Option<GatewayMsg>)

  /** The first half of `process`: the update of the fields, and the pair waiting to be combined. */
  function UpdateTo(h: Handler, msg: GatewayMsg): Panicking<(Handler, Option<(nat, seq<IndexedProof>)>)> {
    match msg
    case EmulatorComplete => Ok((h.(emulatorComplete := true), None))
    case RiscvRequest(index) =>
      (match InitNodeTo(h, index)
       case Panic => Panic
       case Ok(h') => Ok((h', None)))
    case RiscvResponse(index, proof) => SetProofIn(h, index, proof)
    case CombineResponse(index, proof) => SetProofIn(h, index, proof)
    case Embed(proof) => Ok((h.(embedProof := Some(proof)), None))
    case _ => Panic
  }

  function SetProofIn(h: Handler, index: nat, proof: IndexedProof)
    : Panicking<(Handler, Option<(nat, seq<IndexedProof>)>)>
  {
    match SetProofTo(h.tree, index, proof)
    case Panic => Panic
    case Ok(SetResult(tree, toCombine)) =>
      Ok((h.(tree := tree), if toCombine.Some? then Some((index, toCombine.value)) else None))
  }

  /** The second half of `process`: exit once an embed proof is stored, else a combine request
      flagged complete when a single node is left in the tree. */
  function AnswerFor(h: Handler, toCombine: Option<(nat, seq<IndexedProof>)>): Panicking<Option<GatewayMsg>> {
    if h.embedProof.Some? then Ok(Some(Exit))
    else if toCombine.Some? then
      if |toCombine.value.1| != 2 then Panic
      else Ok(Some(CombineRequest(|h.tree| == 1, toCombine.value.0, toCombine.value.1)))
    else Ok(None)
  }

  function ProcessTo(h: Handler, msg: GatewayMsg): Panicking<Processed> {
    match UpdateTo(h, msg)
    case Panic => Panic
    case Ok((h', toCombine)) =>
      match AnswerFor(h', toCombine)
      case Panic => Panic
      case Ok(answer) => Ok(Processed(h', answer))
  }

  class GatewayHandler {
    var emulatorComplete: bool
    const proofTree: ProofTree
    var embedProof: Option<EmbedProof>

    ghost function Value(): Handler
      reads this, proofTree
    {
      Handler(emulatorComplete, proofTree.tree, embedProof)
    }

    constructor ()
      ensures Value() == NEW_HANDLER
      ensures fresh(this) && fresh(proofTree)
    {
      emulatorComplete := false;
      proofTree := new ProofTree();
      embedProof := None;
    }

    method ProcessRiscvReq(msg: GatewayMsg) returns (panicked: bool)
      modifies proofTree
      ensures panicked <==> ProcessRiscvReqTo(old(Value()), msg).Panic?
      ensures !panicked ==> ProcessRiscvReqTo(old(Value()), msg) == Ok(Value())
    {
      if msg.RiscvRequest? {
        var isNew := proofTree.InitNode(msg.chunkIndex);
        panicked := !isNew;
      } else {
        panicked := true;
      }
    }

    method Process(msg: GatewayMsg) returns (r: Panicking<Option<GatewayMsg>>)
      modifies this, proofTree
      ensures r.Panic? <==> ProcessTo(old(Value()), msg).Panic?
      ensures r.Ok? ==> ProcessTo(old(Value()), msg) == Ok(Processed(Value(), r.value))
    {
      var toCombine: Option<(nat, seq<IndexedProof>)> := None;
      match msg {
        case EmulatorComplete =>
          emulatorComplete := true;
        case RiscvRequest(index) =>
          var isNew := proofTree.InitNode(index);
          if !isNew {
            return Panic;
          }
        case RiscvResponse(index, proof) =>
          var set_ := proofTree.SetProof(index, proof);
          if set_.Panic? {
            return Panic;
          }
          toCombine := if set_.value.Some? then Some((index, set_.value.value)) else None;
        case CombineResponse(index, proof) =>
          var set_ := proofTree.SetProof(index, proof);
          if set_.Panic? {
            return Panic;
          }
          toCombine := if set_.value.Some? then Some((index, set_.value.value)) else None;
        case Embed(proof) =>
          embedProof := Some(proof);
        case _ =>
          return Panic;
      }
      if embedProof.Some? {
        return Ok(Some(Exit));
      }
      if toCombine.Some? {
        if |toCombine.value.1| != 2 {
          return Panic;
        }
        return Ok(Some(CombineRequest(|proofTree.tree| == 1, toCombine.value.0, toCombine.value.1)));
      }
      return Ok(None);
    }
  }

  // ----- The select loop

  datatype Status = Running | Exited | Panicked

  /** What the completion callback was given: the on-chain bytes made from an embed proof, or
      the empty bytes of the branch without one. */
  datatype Completion = Delivered(embedProof: EmbedProof) | Empty

  datatype Gateway = Gateway(handler: Handler, status: Status, callbacks: seq<Completion>)

  const NEW_GATEWAY := Gateway(NEW_HANDLER, Running, [])

  datatype Received = FromEmulator(msg: GatewayMsg) | FromWorkers(msg: GatewayMsg)

  /** The gateway after one loop iteration, and what it sent to the workers. */
  datatype Iteration = Iteration(gateway: Gateway, sent: seq<GatewayMsg>)

  /** The oneshot sender can be taken once. */
  function Callback(done: seq<Completion>, c: Completion): seq<Completion> {
    if done == [] then [c] else done
  }

  function IterationTo(g: Gateway, input: Received): Iteration {
    match input
    case FromEmulator(msg) =>
      (match msg
       case RiscvRequest(_) =>
         (match ProcessRiscvReqTo(g.handler, msg)
          case Panic => Iteration(g.(status := Panicked), [])
          case Ok(h) => Iteration(g.(handler := h), [msg]))
       case EmulatorComplete =>
         (match ProcessTo(g.handler, msg)
          case Panic => Iteration(g.(status := Panicked), [])
          case Ok(Processed(h, answer)) =>
            Iteration(g.(handler := h, status := if answer == Some(Exit) then Exited else Running), []))
       case _ => Iteration(g.(status := Panicked), []))
    case FromWorkers(msg) =>
      (match msg
       case RequestTask => Iteration(g, [])
       case RiscvResponse(_, _) => Handle(g, msg)
       case CombineResponse(_, _) => Handle(g, msg)
       case Embed(_) => Handle(g, msg)
       case Exit => Handle(g, msg)
       case _ => Iteration(g.(status := Panicked), []))
  }

  function Handle(g: Gateway, msg: GatewayMsg): Iteration {
    match ProcessTo(g.handler, msg)
    case Panic => Iteration(g.(status := Panicked), [])
    case Ok(Processed(h, None)) => Iteration(g.(handler := h), [])
    case Ok(Processed(h, Some(answer))) =>
      if answer.Exit? then
        var c := if h.embedProof.Some? then Delivered(h.embedProof.value) else Empty;
        Iteration(Gateway(h, Exited, Callback(g.callbacks, c)), [])
      else
        Iteration(g.(handler := h), [answer])
  }

  /** The whole loop over the messages it receives, in the order it receives them. */
  function LoopTo(g: Gateway, inputs: seq<Received>): Iteration
    decreases |inputs|
  {
    if inputs == [] || !g.status.Running? then Iteration(g, [])
    else
      var first := IterationTo(g, inputs[0]);
      var rest := LoopTo(first.gateway, inputs[1..]);
      Iteration(rest.gateway, first.sent + rest.sent)
  }

  /** One turn of the select loop on the handler object. */
  method Turn(handler: GatewayHandler, callbacks: seq<Completion>, input: Received)
    returns (status: Status, sent: seq<GatewayMsg>, callbacks': seq<Completion>)
    modifies handler, handler.proofTree
    ensures var step := IterationTo(Gateway(old(handler.Value()), Running, callbacks), input);
      && status == step.gateway.status && sent == step.sent && callbacks' == step.gateway.callbacks
      && (status != Panicked ==> step.gateway.handler == handler.Value())
  {
    status, sent, callbacks' := Running, [], callbacks;
    match input {
      case FromEmulator(msg) =>
        match msg {
          case RiscvRequest(_) =>
            var panicked := handler.ProcessRiscvReq(msg);
            if panicked {
              status := Panicked;
            } else {
              sent := [msg];
            }
          case EmulatorComplete =>
            var answer := handler.Process(msg);
            if answer.Panic? {
              status := Panicked;
            } else if answer.value == Some(Exit) {
              status := Exited;
            }
          case _ =>
            status := Panicked;
        }
      case FromWorkers(msg) =>
        if msg.RiscvResponse? || msg.CombineResponse? || msg.Embed? || msg.Exit? {
          var answer := handler.Process(msg);
          if answer.Panic? {
            status := Panicked;
          } else if answer.value.Some? {
            if answer.value.value.Exit? {
              if callbacks == [] {
                callbacks' := if handler.embedProof.Some? then [Delivered(handler.embedProof.value)] else [Empty];
              }
              status := Exited;
            } else {
              sent := [answer.value.value];
            }
          }
        } else if !msg.RequestTask? {
          status := Panicked;
        }
    }
  }

  /** `gateway::run`, reading `inputs` in the order the select picks them until it leaves the loop. */
  method Run(inputs: seq<Received>)
    returns (status: Status, sent: seq<GatewayMsg>, callbacks: seq<Completion>, embedProof: Option<EmbedProof>)
    ensures var r := LoopTo(NEW_GATEWAY, inputs);
      && status == r.gateway.status && sent == r.sent && callbacks == r.gateway.callbacks
      && (status != Panicked ==> embedProof == r.gateway.handler.embedProof)
  {
    var handler := new GatewayHandler();
    status, sent, callbacks := Running, [], [];
    ghost var g := NEW_GATEWAY;
    var i := 0;
    while i < |inputs| && status.Running?
      invariant 0 <= i <= |inputs|
      invariant fresh(handler) && fresh(handler.proofTree)
      invariant g.status == status && g.callbacks == callbacks
      invariant status != Panicked ==> g.handler == handler.Value()
      invariant var rest := LoopTo(g, inputs[i..]);
        LoopTo(NEW_GATEWAY, inputs) == Iteration(rest.gateway, sent + rest.sent)
    {
      var new_;
      ghost var step := IterationTo(g, inputs[i]);
      assert inputs[i..][0] == inputs[i] && inputs[i..][1..] == inputs[i + 1..];
      status, new_, callbacks := Turn(handler, callbacks, inputs[i]);
      sent := sent + new_;
      g := step.gateway;
      i := i + 1;
    }
    embedProof := handler.embedProof;
  }
}
