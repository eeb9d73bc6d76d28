/** In every run of the transition system each party follows its own loop: what it sends is what
    its loop sends on the messages it received. */
module Refinement {
  import opened Proofs
  import opened Messages
  import opened Gateways
  import opened Protocol
  import Emulators
  import Workers

  /** The messages the gateway receives along a schedule, in order. */
  ghost function GatewayInputs(s: State, schedule: seq<Action>): seq<Received>
    requires Execute(s, schedule).Some?
    decreases |schedule|
  {
    if schedule == [] then []
    else
      var rest := GatewayInputs(Apply(s, schedule[0]), schedule[1..]);
      match schedule[0]
      case ReceiveEmulator => [FromEmulator(s.fromEmulator[0])] + rest
      case ReceiveWorker => [FromWorkers(s.replies[0])] + rest
      case _ => rest
  }

  /** What the gateway appends to the request queue along a schedule, in order. */
  ghost function GatewaySends(s: State, schedule: seq<Action>): seq<GatewayMsg>
    requires Execute(s, schedule).Some?
    decreases |schedule|
  {
    if schedule == [] then []
    else
      var s' := Apply(s, schedule[0]);
      var rest := GatewaySends(s', schedule[1..]);
      if schedule[0].ReceiveEmulator? || schedule[0].ReceiveWorker? then s'.requests[|s.requests|..] + rest else rest
  }

  /** The gateway of any run is where its select loop is after the messages it received, and has
      sent what the loop sends on them, in the same order. */
  lemma {:induction false} GatewayFollowsLoop(s: State, schedule: seq<Action>)
    requires Execute(s, schedule).Some?
    ensures LoopTo(s.gateway, GatewayInputs(s, schedule)) ==
      Iteration(Execute(s, schedule).value.gateway, GatewaySends(s, schedule))
    decreases |schedule|
  {
    hide IterationTo, Note, Workers.React;
    if schedule != [] {
      var a := schedule[0];
      GatewayFollowsLoop(Apply(s, a), schedule[1..]);
      var rest := GatewayInputs(Apply(s, a), schedule[1..]);
      var inputs := GatewayInputs(s, schedule);
      if a.ReceiveEmulator? || a.ReceiveWorker? {
        assert inputs[1..] == rest;
        assert Apply(s, a).requests[|s.requests|..] == IterationTo(s.gateway, inputs[0]).sent;
      }
    }
  }

  /** What the emulator appends to its queue along a schedule, in order. */
  ghost function EmulatorSends(s: State, schedule: seq<Action>): seq<GatewayMsg>
    requires Execute(s, schedule).Some?
    decreases |schedule|
  {
    if schedule == [] then []
    else
      var s' := Apply(s, schedule[0]);
      var rest := EmulatorSends(s', schedule[1..]);
      if schedule[0].ForwardChunk? || schedule[0].ForwardComplete? then s'.fromEmulator[|s.fromEmulator|..] + rest else rest
  }

  /** The emulator of any run has sent a prefix of what its loop sends for its records. */
  lemma {:induction false} EmulatorFollowsLoop(s: State, schedule: seq<Action>)
    requires Execute(s, schedule).Some? && s.forwarded <= s.chunks
    requires s.emulatorDone ==> s.forwarded == s.chunks
    ensures EmulatorSends(s, schedule) <=
      Emulators.Requests(s.forwarded, s.chunks) + (if s.emulatorDone then [] else [EmulatorComplete])
    decreases |schedule|
  {
    hide IterationTo, Note, Workers.React;
    if schedule != [] {
      EmulatorFollowsLoop(Apply(s, schedule[0]), schedule[1..]);
      if schedule[0].ForwardChunk? {
        assert Emulators.Requests(s.forwarded, s.chunks) == [RiscvRequest(s.forwarded)] + Emulators.Requests(s.forwarded + 1, s.chunks);
      }
    }
  }

  /** What worker w takes, decides and sends along a schedule. A message it holds at the end
      counts as verified. */
  datatype Trace = Trace(taken: seq<GatewayMsg>, verdicts: seq<bool>, sent: seq<GatewayMsg>)

  ghost function WorkerTrace(s: State, schedule: seq<Action>, w: nat): Trace
    requires Execute(s, schedule).Some? && w < |s.workers|
    decreases |schedule|
  {
    if schedule == [] then Trace([], if s.workers[w].Working? then [true] else [], [])
    else
      var s' := Apply(s, schedule[0]);
      var rest := WorkerTrace(s', schedule[1..], w);
      match schedule[0]
      case Ask(v) => if v == w then rest.(sent := s'.replies[|s.replies|..] + rest.sent) else rest
      case Take(v) => if v == w then rest.(taken := [s.requests[0]] + rest.taken) else rest
      case Answer(v, verified) =>
        if v == w then rest.(verdicts := [verified] + rest.verdicts, sent := s'.replies[|s.replies|..] + rest.sent) else rest
      case SendExit(v) => if v == w then rest.(sent := s'.replies[|s.replies|..] + rest.sent) else rest
      case _ => rest
  }

  /** What a worker's loop sends from a phase on, for the messages it takes from there. */
  ghost function Future(p: Phase, taken: seq<GatewayMsg>, verdicts: seq<bool>): seq<GatewayMsg>
    requires |verdicts| == |taken| + (if p.Working? then 1 else 0)
  {
    match p
    case Asking => [RequestTask] + Workers.Sends(taken, verdicts)
    case Idle => Workers.Sends(taken, verdicts)
    case Working(m) => Workers.Sends([m] + taken, verdicts)
    case Exiting => [Exit]
    case _ => []
  }

  lemma {:induction false} OtherWorker(s: State, a: Action, w: nat)
    requires Enabled(s, a) && w < |s.workers|
    requires !(a.Ask? || a.Take? || a.Answer? || a.SendExit?) || a.worker != w
    ensures w < |Apply(s, a).workers| && Apply(s, a).workers[w] == s.workers[w]
  {
    hide IterationTo, Note, Workers.React;
  }

  /** What the loop sends for one more message in front. */
  lemma {:induction false} SendsFirst(m: GatewayMsg, verified: bool, taken: seq<GatewayMsg>, verdicts: seq<bool>)
    requires |verdicts| == |taken|
    ensures Workers.Sends([m] + taken, [verified] + verdicts) ==
      match Workers.React(m, verified)
      case Panic => []
      case Ok(Leave) => []
      case Ok(Finish(e)) => [Embed(e), Exit]
      case Ok(Respond(n)) => [n, RequestTask] + Workers.Sends(taken, verdicts)
  {
    hide Workers.React;
    assert ([m] + taken)[1..] == taken && ([verified] + verdicts)[1..] == verdicts;
  }

  /** The worker's next phase, and what it appends to the replies. */
  lemma {:induction false} AnswerEffect(s: State, w: nat, verified: bool)
    requires Enabled(s, Answer(w, verified))
    ensures var s' := Apply(s, Answer(w, verified));
      && w < |s'.workers|
      && match Workers.React(s.workers[w].request, verified)
        case Panic => s'.workers[w] == Crashed && s'.replies == s.replies
        case Ok(Leave) => s'.workers[w] == Stopped && s'.replies == s.replies
        case Ok(Finish(e)) => s'.workers[w] == Exiting && s'.replies == s.replies + [Embed(e)]
        case Ok(Respond(m)) => s'.workers[w] == Asking && s'.replies == s.replies + [m]
  {
    hide IterationTo, Note, Workers.React;
  }

  /** Answering sends what the loop sends for the message held, and goes on from the next phase. */
  lemma {:induction false} AnswerSends(s: State, w: nat, verified: bool, taken: seq<GatewayMsg>, verdicts: seq<bool>)
    requires Enabled(s, Answer(w, verified)) && |verdicts| == |taken|
    ensures var s' := Apply(s, Answer(w, verified));
      && |s'.replies| >= |s.replies| && w < |s'.workers| && !s'.workers[w].Working?
      && Future(s.workers[w], taken, [verified] + verdicts) ==
           s'.replies[|s.replies|..] + Future(s'.workers[w], taken, verdicts)
  {
    hide Apply, Workers.React, Workers.Sends;
    SendsFirst(s.workers[w].request, verified, taken, verdicts);
    AnswerEffect(s, w, verified);
  }

  /** A worker of any run has sent a prefix of what its loop sends on the messages it took. */
  lemma {:induction false} WorkerFollowsLoop(s: State, schedule: seq<Action>, w: nat)
    requires Execute(s, schedule).Some? && w < |s.workers|
    ensures var t := WorkerTrace(s, schedule, w);
      && |t.verdicts| == |t.taken| + (if s.workers[w].Working? then 1 else 0)
      && t.sent <= Future(s.workers[w], t.taken, t.verdicts)
    decreases |schedule|
  {
    hide IterationTo, Note, Workers.React, Workers.Sends;
    if schedule != [] {
      var a := schedule[0];
      var s' := Apply(s, a);
      var rest := WorkerTrace(s', schedule[1..], w);
      WorkerFollowsLoop(s', schedule[1..], w);
      if (a.Ask? || a.Take? || a.Answer? || a.SendExit?) && a.worker == w {
        if a.Answer? {
          AnswerSends(s, w, a.verified, rest.taken, rest.verdicts);
        } else if a.Take? {
          assert Future(s.workers[w], [s.requests[0]] + rest.taken, rest.verdicts) == Future(s'.workers[w], rest.taken, rest.verdicts);
        }
      } else {
        OtherWorker(s, a, w);
      }
    }
  }

  // ----- The channels

  /** The messages taken from the request queue along a schedule, by whichever worker. */
  ghost function WorkersTake(s: State, schedule: seq<Action>): seq<GatewayMsg>
    requires Execute(s, schedule).Some?
    decreases |schedule|
  {
    if schedule == [] then []
    else
      var rest := WorkersTake(Apply(s, schedule[0]), schedule[1..]);
      if schedule[0].Take? then [s.requests[0]] + rest else rest
  }

  /** What the workers append to the reply queue along a schedule. */
  ghost function WorkersSend(s: State, schedule: seq<Action>): seq<GatewayMsg>
    requires Execute(s, schedule).Some?
    decreases |schedule|
  {
    if schedule == [] then []
    else
      var a, s' := schedule[0], Apply(s, schedule[0]);
      var rest := WorkersSend(s', schedule[1..]);
      if a.Ask? || a.Answer? || a.SendExit? then s'.replies[|s.replies|..] + rest else rest
  }

  function FromEmulatorOnly(inputs: seq<Received>): seq<GatewayMsg> {
    if inputs == [] then []
    else (if inputs[0].FromEmulator? then [inputs[0].msg] else []) + FromEmulatorOnly(inputs[1..])
  }

  function FromWorkersOnly(inputs: seq<Received>): seq<GatewayMsg> {
    if inputs == [] then []
    else (if inputs[0].FromWorkers? then [inputs[0].msg] else []) + FromWorkersOnly(inputs[1..])
  }

  /** One action drops at most the head of a queue and appends at its end. */
  lemma {:induction false} QueueStep(s: State, a: Action)
    requires Enabled(s, a)
    ensures var s' := Apply(s, a);
      && (if a.ReceiveEmulator? then s.fromEmulator == [s.fromEmulator[0]] + s'.fromEmulator
          else s.fromEmulator <= s'.fromEmulator && (a.ForwardChunk? || a.ForwardComplete? || s'.fromEmulator == s.fromEmulator))
      && (if a.ReceiveWorker? then s.replies == [s.replies[0]] + s'.replies
          else s.replies <= s'.replies && (a.Ask? || a.Answer? || a.SendExit? || s'.replies == s.replies))
      && (if a.Take? then s.requests == [s.requests[0]] + s'.requests
          else s.requests <= s'.requests && (a.ReceiveEmulator? || a.ReceiveWorker? || s'.requests == s.requests))
  {
    hide IterationTo, Note, Workers.React;
  }

  /** The first action's message from each side comes before the later ones. */
  lemma {:induction false} FirstInput(s: State, schedule: seq<Action>)
    requires schedule != [] && Execute(s, schedule).Some?
    ensures var a, later := schedule[0], GatewayInputs(Apply(s, schedule[0]), schedule[1..]);
      && FromEmulatorOnly(GatewayInputs(s, schedule)) ==
           (if a.ReceiveEmulator? then [s.fromEmulator[0]] else []) + FromEmulatorOnly(later)
      && FromWorkersOnly(GatewayInputs(s, schedule)) ==
           (if a.ReceiveWorker? then [s.replies[0]] else []) + FromWorkersOnly(later)
  {
    hide Apply;
    var a := schedule[0];
    if a.ReceiveEmulator? || a.ReceiveWorker? {
      assert GatewayInputs(s, schedule)[1..] == GatewayInputs(Apply(s, a), schedule[1..]);
    }
  }

  /** A queue that keeps its order in one step and in all later ones keeps it in all. */
  lemma {:induction false} KeepsOrder<T>(had: seq<T>, got: seq<T>, put: seq<T>, has: seq<T>, gets: seq<T>, puts: seq<T>, left: seq<T>)
    requires got + has == had + put && gets + left == has + puts
    ensures (got + gets) + left == had + (put + puts)
  {
    assert (got + gets) + left == got + (gets + left);
    assert got + (has + puts) == (got + has) + puts;
    assert (had + put) + puts == had + (put + puts);
  }

  /** Every channel is first in, first out and loses nothing: in any run, what was received from it
      followed by what is left in it is what it held at first followed by what was sent. */
  lemma {:induction false} EmulatorChannel(s: State, schedule: seq<Action>)
    requires Execute(s, schedule).Some?
    ensures FromEmulatorOnly(GatewayInputs(s, schedule)) + Execute(s, schedule).value.fromEmulator ==
      s.fromEmulator + EmulatorSends(s, schedule)
    decreases |schedule|
  {
    hide Apply, Enabled;
    if schedule != [] {
      hide GatewayInputs, FromEmulatorOnly, FromWorkersOnly;
      var a, later := schedule[0], schedule[1..];
      var s', e := Apply(s, a), Execute(s, schedule).value;
      EmulatorChannel(s', later);
      QueueStep(s, a);
      var got := if a.ReceiveEmulator? then [s.fromEmulator[0]] else [];
      var put := if a.ForwardChunk? || a.ForwardComplete? then s'.fromEmulator[|s.fromEmulator|..] else [];
      FirstInput(s, schedule);
      assert EmulatorSends(s, schedule) == put + EmulatorSends(s', later);
      KeepsOrder(s.fromEmulator, got, put, s'.fromEmulator, FromEmulatorOnly(GatewayInputs(s', later)), EmulatorSends(s', later), e.fromEmulator);
    }
  }

  /** The same for the reply queue. */
  lemma {:induction false} ReplyChannel(s: State, schedule: seq<Action>)
    requires Execute(s, schedule).Some?
    ensures FromWorkersOnly(GatewayInputs(s, schedule)) + Execute(s, schedule).value.replies ==
      s.replies + WorkersSend(s, schedule)
    decreases |schedule|
  {
    hide Apply, Enabled;
    if schedule != [] {
      hide GatewayInputs, FromEmulatorOnly, FromWorkersOnly;
      var a, later := schedule[0], schedule[1..];
      var s', e := Apply(s, a), Execute(s, schedule).value;
      ReplyChannel(s', later);
      QueueStep(s, a);
      var got := if a.ReceiveWorker? then [s.replies[0]] else [];
      var put := if a.Ask? || a.Answer? || a.SendExit? then s'.replies[|s.replies|..] else [];
      FirstInput(s, schedule);
      assert WorkersSend(s, schedule) == put + WorkersSend(s', later);
      KeepsOrder(s.replies, got, put, s'.replies, FromWorkersOnly(GatewayInputs(s', later)), WorkersSend(s', later), e.replies);
    }
  }

  /** The same for the request queue the workers share. */
  lemma {:induction false} RequestChannel(s: State, schedule: seq<Action>)
    requires Execute(s, schedule).Some?
    ensures WorkersTake(s, schedule) + Execute(s, schedule).value.requests ==
      s.requests + GatewaySends(s, schedule)
    decreases |schedule|
  {
    hide Apply, Enabled;
    if schedule != [] {
      var a, later := schedule[0], schedule[1..];
      var s', e := Apply(s, a), Execute(s, schedule).value;
      RequestChannel(s', later);
      QueueStep(s, a);
      var got := if a.Take? then [s.requests[0]] else [];
      var put := if a.ReceiveEmulator? || a.ReceiveWorker? then s'.requests[|s.requests|..] else [];
      assert WorkersTake(s, schedule) == got + WorkersTake(s', later);
      assert GatewaySends(s, schedule) == put + GatewaySends(s', later);
      KeepsOrder(s.requests, got, put, s'.requests, WorkersTake(s', later), GatewaySends(s', later), e.requests);
    }
  }
}
