/** Concrete runs: a final flag issued before the last chunk is known, and a run that stops
    without delivering because its final proof was rejected. */
module Witness {
  import opened Proofs
  import opened Messages
  import opened ProofTrees
  import opened Segments
  import opened Gateways
  import opened Protocol
  import opened Invariants
  import opened Safety
  import opened Liveness
  import Workers

  /** One action, respecting the select's preference for the emulator: a worker's message is
      taken with nothing from the emulator waiting. */
  ghost predicate Step(s: State, a: Action, s': State) {
    Enabled(s, a) && Apply(s, a) == s' && (a.ReceiveWorker? ==> s.fromEmulator == [])
  }

  /** A schedule of such actions leads from s to s'. */
  ghost predicate Leads(s: State, schedule: seq<Action>, s': State)
    decreases |schedule|
  {
    if schedule == [] then s == s'
    else Enabled(s, schedule[0]) && Step(s, schedule[0], Apply(s, schedule[0])) && Leads(Apply(s, schedule[0]), schedule[1..], s')
  }

  lemma {:induction false} LeadsExecute(s: State, schedule: seq<Action>, s': State)
    requires Leads(s, schedule, s')
    ensures Execute(s, schedule) == Some(s')
    decreases |schedule|
  {
    hide Apply, Enabled;
    if schedule != [] {
      LeadsExecute(Apply(s, schedule[0]), schedule[1..], s');
    }
  }

  lemma {:induction false} LeadsThen(s: State, schedule: seq<Action>, s': State, a: Action, s'': State)
    requires Leads(s, schedule, s') && Step(s', a, s'')
    ensures Leads(s, schedule + [a], s'')
    decreases |schedule|
  {
    hide Apply, Enabled;
    if schedule == [] {
      assert [a][1..] == [];
    } else {
      assert (schedule + [a])[1..] == schedule[1..] + [a];
      LeadsThen(Apply(s, schedule[0]), schedule[1..], s', a, s'');
    }
  }

  const FIRST := IndexedProof(Leaf(0), 0, 0)
  const SECOND := IndexedProof(Leaf(1), 1, 1)
  const BOTH := IndexedProof(Node(Leaf(0), Leaf(1), true), 0, 1)
  const FINAL := CombineRequest(true, 1, [FIRST, SECOND])

  const FRESH: Tree := map[0 := InProgress([]), 1 := InProgress([])]
  const HALF: Tree := map[0 := Proved(FIRST), 1 := InProgress([])]
  const MERGED: Tree := map[1 := InProgress([FIRST, SECOND])]
  const WHOLE: Tree := map[1 := Proved(BOTH)]

  /** Worker 0 in the given phase, the others not yet moving. */
  function Team(workers: nat, first: Phase): seq<Phase>
    requires workers > 0
  {
    [first] + seq(workers - 1, _ => Asking)
  }

  lemma {:induction false} TeamMoves(workers: nat, p: Phase, q: Phase)
    requires workers > 0
    ensures Team(workers, p)[0 := q] == Team(workers, q)
  {
  }

  /** A state of a running gateway that differs from the start in these fields. */
  function At(chunks: nat, workers: nat, forwarded: nat, fromEmulator: seq<GatewayMsg>, tree: Tree,
    requests: seq<GatewayMsg>, first: Phase, replies: seq<GatewayMsg>, log: Log): State
    requires workers > 0
  {
    State(chunks, forwarded, false, fromEmulator, Gateway(Handler(false, tree, None), Running, []),
          requests, Team(workers, first), replies, log)
  }

  lemma {:induction false} SetFirst()
    ensures SetProofTo(FRESH, 0, FIRST) == Ok(SetResult(HALF, None))
  {
    var higher := HigherKey(FRESH, 0);
    assert 1 in FRESH && higher == Some(1);
    assert FRESH[0 := Proved(FIRST)] == HALF;
  }

  lemma {:induction false} SetSecond()
    ensures SetProofTo(HALF, 1, SECOND) == Ok(SetResult(MERGED, Some([FIRST, SECOND])))
  {
    assert LowerKey(HALF, 1) == Some(0);
    assert (HALF - {0})[1 := InProgress([FIRST, SECOND])] == MERGED;
  }

  lemma {:induction false} SetBoth()
    ensures SetProofTo(MERGED, 1, BOTH) == Ok(SetResult(WHOLE, None))
  {
    assert LowerKey(MERGED, 1) == None;
    assert MERGED[1 := Proved(BOTH)] == WHOLE;
  }

  const NONE := Log(0, 0, [], [], 0)
  const TWO := Log(2, 0, [], [], 0)
  const ISSUED := Log(2, 2, [Issue(FINAL, 2)], [], 0)

  /** Two chunks are forwarded and received. */
  lemma {:induction false} TwoReceived(chunks: nat, workers: nat) returns (schedule: seq<Action>, s: State)
    requires chunks >= 2 && workers > 0
    ensures Leads(Init(chunks, workers), schedule, s)
    ensures s == At(chunks, workers, 2, [], FRESH, [RiscvRequest(0), RiscvRequest(1)], Asking, [], TWO)
  {
    hide Leads;
    var s0 := At(chunks, workers, 0, [], map[], [], Asking, [], NONE);
    assert s0.workers == Init(chunks, workers).workers;
    LeadsStart(s0);
    var s1 := At(chunks, workers, 1, [RiscvRequest(0)], map[], [], Asking, [], NONE);
    LeadsThen(s0, [], s0, ForwardChunk, s1);
    var s2 := At(chunks, workers, 2, [RiscvRequest(0), RiscvRequest(1)], map[], [], Asking, [], NONE);
    LeadsThen(s0, [] + [ForwardChunk], s1, ForwardChunk, s2);
    var s3 := At(chunks, workers, 2, [RiscvRequest(1)], map[0 := InProgress([])], [RiscvRequest(0)], Asking, [], NONE.(initialised := 1));
    LeadsThen(s0, [] + [ForwardChunk] + [ForwardChunk], s2, ReceiveEmulator, s3);
    s := At(chunks, workers, 2, [], FRESH, [RiscvRequest(0), RiscvRequest(1)], Asking, [], TWO);
    LeadsThen(s0, [] + [ForwardChunk] + [ForwardChunk] + [ReceiveEmulator], s3, ReceiveEmulator, s);
    schedule := [] + [ForwardChunk] + [ForwardChunk] + [ReceiveEmulator] + [ReceiveEmulator];
  }

  lemma {:induction false} LeadsStart(s: State)
    ensures Leads(s, [], s)
  {
  }

  /** Worker 0 proves both chunks. */
  lemma {:induction false} TwoAnswered(chunks: nat, workers: nat) returns (schedule: seq<Action>, s: State)
    requires chunks >= 2 && workers > 0
    ensures Leads(Init(chunks, workers), schedule, s)
    ensures s == At(chunks, workers, 2, [], FRESH, [], Asking,
                    [RequestTask, RiscvResponse(0, FIRST), RequestTask, RiscvResponse(1, SECOND)], TWO)
  {
    hide Leads;
    var q0, q1 := RiscvRequest(0), RiscvRequest(1);
    var r0, r1 := RiscvResponse(0, FIRST), RiscvResponse(1, SECOND);
    var start := Init(chunks, workers);
    var sch, s0 := TwoReceived(chunks, workers);
    TeamMoves(workers, Asking, Idle);
    var s1 := At(chunks, workers, 2, [], FRESH, [q0, q1], Idle, [RequestTask], TWO);
    LeadsThen(start, sch, s0, Ask(0), s1);
    TeamMoves(workers, Idle, Working(q0));
    var s2 := At(chunks, workers, 2, [], FRESH, [q1], Working(q0), [RequestTask], TWO);
    LeadsThen(start, sch + [Ask(0)], s1, Take(0), s2);
    TeamMoves(workers, Working(q0), Asking);
    var s3 := At(chunks, workers, 2, [], FRESH, [q1], Asking, [RequestTask, r0], TWO);
    LeadsThen(start, sch + [Ask(0)] + [Take(0)], s2, Answer(0, true), s3);
    var sch' := sch + [Ask(0)] + [Take(0)] + [Answer(0, true)];
    var s4 := At(chunks, workers, 2, [], FRESH, [q1], Idle, [RequestTask, r0, RequestTask], TWO);
    LeadsThen(start, sch', s3, Ask(0), s4);
    TeamMoves(workers, Idle, Working(q1));
    var s5 := At(chunks, workers, 2, [], FRESH, [], Working(q1), [RequestTask, r0, RequestTask], TWO);
    LeadsThen(start, sch' + [Ask(0)], s4, Take(0), s5);
    TeamMoves(workers, Working(q1), Asking);
    s := At(chunks, workers, 2, [], FRESH, [], Asking, [RequestTask, r0, RequestTask, r1], TWO);
    LeadsThen(start, sch' + [Ask(0)] + [Take(0)], s5, Answer(0, true), s);
    schedule := sch' + [Ask(0)] + [Take(0)] + [Answer(0, true)];
  }

  /** The gateway merges the two and issues a combine flagged complete. */
  lemma {:induction false} TwoMerged(chunks: nat, workers: nat) returns (schedule: seq<Action>, s: State)
    requires chunks >= 2 && workers > 0
    ensures Leads(Init(chunks, workers), schedule, s)
    ensures s == At(chunks, workers, 2, [], MERGED, [FINAL], Asking, [], ISSUED)
  {
    hide Leads, SetProofTo;
    var r0, r1 := RiscvResponse(0, FIRST), RiscvResponse(1, SECOND);
    var start := Init(chunks, workers);
    var sch, s0 := TwoAnswered(chunks, workers);
    var s1 := s0.(replies := [r0, RequestTask, r1]);
    LeadsThen(start, sch, s0, ReceiveWorker, s1);
    SetFirst();
    var s2 := At(chunks, workers, 2, [], HALF, [], Asking, [RequestTask, r1], TWO.(settled := 1));
    LeadsThen(start, sch + [ReceiveWorker], s1, ReceiveWorker, s2);
    var s3 := s2.(replies := [r1]);
    LeadsThen(start, sch + [ReceiveWorker] + [ReceiveWorker], s2, ReceiveWorker, s3);
    SetSecond();
    assert |MERGED| == 1;
    s := At(chunks, workers, 2, [], MERGED, [FINAL], Asking, [], ISSUED);
    LeadsThen(start, sch + [ReceiveWorker] + [ReceiveWorker] + [ReceiveWorker], s3, ReceiveWorker, s);
    schedule := sch + [ReceiveWorker] + [ReceiveWorker] + [ReceiveWorker] + [ReceiveWorker];
  }

  /** Worker 0 holds the flagged combine; the gateway has read its request for a task. */
  lemma {:induction false} FinalTaken(chunks: nat, workers: nat) returns (schedule: seq<Action>, s: State)
    requires chunks >= 2 && workers > 0
    ensures Leads(Init(chunks, workers), schedule, s)
    ensures s == At(chunks, workers, 2, [], MERGED, [], Working(FINAL), [], ISSUED)
  {
    hide Leads;
    var start := Init(chunks, workers);
    var sch, s0 := TwoMerged(chunks, workers);
    TeamMoves(workers, Asking, Idle);
    var s1 := At(chunks, workers, 2, [], MERGED, [FINAL], Idle, [RequestTask], ISSUED);
    LeadsThen(start, sch, s0, Ask(0), s1);
    TeamMoves(workers, Idle, Working(FINAL));
    var s2 := At(chunks, workers, 2, [], MERGED, [], Working(FINAL), [RequestTask], ISSUED);
    LeadsThen(start, sch + [Ask(0)], s1, Take(0), s2);
    s := At(chunks, workers, 2, [], MERGED, [], Working(FINAL), [], ISSUED);
    LeadsThen(start, sch + [Ask(0)] + [Take(0)], s2, ReceiveWorker, s);
    schedule := sch + [Ask(0)] + [Take(0)] + [ReceiveWorker];
  }

  /** With three or more chunks the gateway can issue a combine flagged complete after the first
      two, and leave delivering an embed proof that covers only those, although every message was
      taken in the select's order of preference. */
  lemma {:induction false} PrematureDelivery(chunks: nat, workers: nat) returns (schedule: seq<Action>, s: State)
    requires chunks >= 3 && workers > 0
    ensures Leads(Init(chunks, workers), schedule, s) && Reachable(chunks, workers, s)
    ensures s.gateway.status.Exited? && |s.gateway.callbacks| == 1 && s.gateway.callbacks[0].Delivered?
    ensures EmbedLeaves(s.gateway.callbacks[0].embedProof) == Interval(0, 2) != Interval(0, chunks)
  {
    hide Leads;
    var start := Init(chunks, workers);
    var e := EmbedProof(Node(Leaf(0), Leaf(1), true));
    var sch, s0 := FinalTaken(chunks, workers);
    TeamMoves(workers, Working(FINAL), Exiting);
    assert Workers.React(FINAL, true) == Ok(Workers.Finish(e));
    var s1 := At(chunks, workers, 2, [], MERGED, [], Exiting, [Embed(e)], ISSUED.(accepted := [1]));
    LeadsThen(start, sch, s0, Answer(0, true), s1);
    s := s1.(replies := [], gateway := Gateway(Handler(false, MERGED, Some(e)), Exited, [Delivered(e)]));
    LeadsThen(start, sch + [Answer(0, true)], s1, ReceiveWorker, s);
    schedule := sch + [Answer(0, true)] + [ReceiveWorker];
    LeadsExecute(start, schedule, s);
    IntervalEnds(0, 2, chunks);
    assert Interval(0, 2) == [0, 1];
  }

  /** Worker 0's final proof was rejected, and its ordinary answer settled. */
  lemma {:induction false} FinalRejected() returns (schedule: seq<Action>, s: State)
    ensures Leads(Init(2, 1), schedule, s)
    ensures s == At(2, 1, 2, [], WHOLE, [], Asking, [], ISSUED.(settled := 3, rejected := 1))
  {
    hide Leads, SetProofTo;
    var start := Init(2, 1);
    var sch, s0 := FinalTaken(2, 1);
    TeamMoves(1, Working(FINAL), Asking);
    assert Workers.React(FINAL, false) == Ok(Workers.Respond(CombineResponse(1, BOTH)));
    var s1 := At(2, 1, 2, [], MERGED, [], Asking, [CombineResponse(1, BOTH)], ISSUED.(rejected := 1));
    LeadsThen(start, sch, s0, Answer(0, false), s1);
    SetBoth();
    s := At(2, 1, 2, [], WHOLE, [], Asking, [], ISSUED.(settled := 3, rejected := 1));
    LeadsThen(start, sch + [Answer(0, false)], s1, ReceiveWorker, s);
    schedule := sch + [Answer(0, false)] + [ReceiveWorker];
  }

  lemma {:induction false} QuietIsFinal(s: State)
    requires s.forwarded == s.chunks && s.emulatorDone
    requires s.fromEmulator == [] && s.requests == [] && s.replies == []
    requires forall w :: 0 <= w < |s.workers| ==> s.workers[w].Idle?
    ensures Final(s)
  {
  }

  /** The gateway has read worker 0's next request for a task. */
  lemma {:induction false} RejectedIdle() returns (schedule: seq<Action>, s: State)
    ensures Leads(Init(2, 1), schedule, s)
    ensures s == At(2, 1, 2, [], WHOLE, [], Idle, [], ISSUED.(settled := 3, rejected := 1))
  {
    hide Leads, SetProofTo;
    var start := Init(2, 1);
    var sch, s0 := FinalRejected();
    TeamMoves(1, Asking, Idle);
    var s1 := s0.(workers := Team(1, Idle), replies := [RequestTask]);
    LeadsThen(start, sch, s0, Ask(0), s1);
    s := s1.(replies := []);
    LeadsThen(start, sch + [Ask(0)], s1, ReceiveWorker, s);
    schedule := sch + [Ask(0)] + [ReceiveWorker];
  }

  /** With two chunks and one worker whose final proof is rejected, the run comes to rest with
      both chunks proved in one node and the gateway still waiting: nothing is ever delivered. */
  lemma {:induction false} RejectionStalls() returns (schedule: seq<Action>, s: State)
    ensures Leads(Init(2, 1), schedule, s) && Reachable(2, 1, s)
    ensures Final(s) && s.gateway.status.Running? && s.gateway.callbacks == []
    ensures s.gateway.handler.tree == WHOLE && s.log.rejected == 1
  {
    hide Leads, Final, SetProofTo;
    var start := Init(2, 1);
    var sch, s0 := RejectedIdle();
    var s1 := s0.(fromEmulator := [EmulatorComplete], emulatorDone := true);
    LeadsThen(start, sch, s0, ForwardComplete, s1);
    s := s1.(fromEmulator := [], gateway := Gateway(Handler(true, WHOLE, None), Running, []));
    LeadsThen(start, sch + [ForwardComplete], s1, ReceiveEmulator, s);
    schedule := sch + [ForwardComplete] + [ReceiveEmulator];
    LeadsExecute(start, schedule, s);
    QuietIsFinal(s);
  }
}
