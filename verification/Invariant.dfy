/** The inductive invariant of the protocol, and the lemma that every action keeps it. */
module Invariants {
  import opened Proofs
  import opened Messages
  import opened ProofTrees
  import opened Segments
  import opened Gateways
  import opened Counting
  import opened Protocol
  import Emulators
  import Workers

  // ----- What is in flight

  /** The chunk index a request or response is about. */
  function KeyOf(m: GatewayMsg): multiset<nat> {
    if m.RiscvRequest? || m.RiscvResponse? || m.CombineRequest? || m.CombineResponse?
    then multiset{m.chunkIndex} else multiset{}
  }

  function HandOf(p: Phase): multiset<nat> {
    if p.Working? then KeyOf(p.request) else multiset{}
  }

  /** Every chunk index in a request queue, in a worker's hands, in the reply queue, or settled
      by an accepted final combine, counted as often as it occurs. */
  ghost function InFlight(requests: seq<GatewayMsg>, workers: seq<Phase>, replies: seq<GatewayMsg>, accepted: seq<nat>)
    : multiset<nat>
  {
    Gather(KeyOf, requests) + Gather(HandOf, workers) + Gather(KeyOf, replies) + multiset(accepted)
  }

  function Flagged(m: GatewayMsg): nat { if IsFlagged(m) then 1 else 0 }
  function FlaggedHand(p: Phase): nat { if p.Working? then Flagged(p.request) else 0 }
  function FlaggedIssue(i: Issue): nat { Flagged(i.request) }
  function IsEmbed(m: GatewayMsg): nat { if m.Embed? then 1 else 0 }
  function IsLeaving(p: Phase): nat { if p.Exiting? || p.Stopped? then 1 else 0 }

  /** The combine request was issued by the gateway. */
  ghost predicate Logged(issued: seq<Issue>, m: GatewayMsg) {
    exists j :: 0 <= j < |issued| && issued[j].request == m
  }

  /** The embed proof was made from the two proofs of a flagged combine request. */
  ghost predicate MadeFrom(m: GatewayMsg, e: EmbedProof) {
    IsFlagged(m) && |m.proofs| == 2 && e.combined == Node(m.proofs[0].inner, m.proofs[1].inner, true)
  }

  ghost predicate EmbedOk(issued: seq<Issue>, e: EmbedProof) {
    exists j :: 0 <= j < |issued| && MadeFrom(issued[j].request, e)
  }

  /** A request agrees with its in-progress node. */
  ghost predicate RequestOk(t: Tree, issued: seq<Issue>, m: GatewayMsg) {
    match m
    case RiscvRequest(i) => i in t && t[i] == InProgress([])
    case CombineRequest(flag, i, ps) =>
      && i in t && t[i] == InProgress(ps) && Combinable(ps)
      && (flag ==> ps[0].startChunk == 0)
      && Logged(issued, m)
    case _ => false
  }

  /** A proof for exactly the segment of the in-progress node at i. */
  ghost predicate Settles(t: Tree, i: nat, p: IndexedProof) {
    && i in t && t[i].InProgress?
    && Covers(p) && p.startChunk == Lo(Entry(i, t[i])) && p.endChunk == Hi(Entry(i, t[i]))
  }

  ghost predicate ReplyOk(t: Tree, issued: seq<Issue>, m: GatewayMsg) {
    match m
    case RequestTask => true
    case Exit => true
    case Embed(e) => EmbedOk(issued, e)
    case RiscvResponse(i, p) => Settles(t, i, p)
    case CombineResponse(i, p) => Settles(t, i, p)
    case _ => false
  }

  ghost predicate AcceptedOk(t: Tree, i: nat) {
    i in t && t[i].InProgress? && Lo(Entry(i, t[i])) == 0
  }

  // ----- The invariant

  /** The emulator channel holds exactly the chunks forwarded and not yet initialised. */
  ghost predicate EmulatorInv(chunks: nat, forwarded: nat, done: bool, queue: seq<GatewayMsg>, initialised: nat, complete: bool) {
    && initialised <= forwarded <= chunks
    && (done ==> forwarded == chunks)
    && (complete ==> done && initialised == chunks)
    && queue == Emulators.Requests(initialised, forwarded) + (if done && !complete then [EmulatorComplete] else [])
  }

  /** The tree is a chain of segments over the initialised chunks, and the log accounts for it. */
  ghost predicate TreeInv(t: Tree, initialised: nat, settled: nat, issued: nat) {
    && WellFormed(Entries(t), initialised)
    && issued + |t| == initialised
    && settled + |t| + |InProgressKeys(t)| == 2 * initialised
  }

  /** In-progress nodes correspond one to one to what is in flight. */
  ghost predicate FlightInv(t: Tree, requests: seq<GatewayMsg>, workers: seq<Phase>, replies: seq<GatewayMsg>, accepted: seq<nat>) {
    InFlight(requests, workers, replies, accepted) == multiset(InProgressKeys(t))
  }

  ghost predicate RequestsOk(t: Tree, issued: seq<Issue>, requests: seq<GatewayMsg>) {
    forall i :: 0 <= i < |requests| ==> RequestOk(t, issued, requests[i])
  }

  ghost predicate WorkersOk(t: Tree, issued: seq<Issue>, workers: seq<Phase>) {
    forall i :: 0 <= i < |workers| ==>
      !workers[i].Crashed? && (workers[i].Working? ==> RequestOk(t, issued, workers[i].request))
  }

  ghost predicate RepliesOk(t: Tree, issued: seq<Issue>, replies: seq<GatewayMsg>) {
    forall i :: 0 <= i < |replies| ==> ReplyOk(t, issued, replies[i])
  }

  ghost predicate AcceptedAllOk(t: Tree, accepted: seq<nat>) {
    forall i :: 0 <= i < |accepted| ==> AcceptedOk(t, accepted[i])
  }

  /** Every `Exit` waiting for the gateway has an `Embed` before it. */
  ghost predicate ExitsFollow(q: seq<GatewayMsg>) {
    forall j :: 0 <= j < |q| && q[j].Exit? ==> exists i :: 0 <= i < j && q[i].Embed?
  }

  /** The gateway runs with nothing delivered, or has delivered the embed proof it stored. */
  ghost predicate GatewayInv(g: Gateway, replies: seq<GatewayMsg>, issued: seq<Issue>) {
    && !g.status.Panicked?
    && (g.status.Running? ==> g.handler.embedProof == None && g.callbacks == [] && ExitsFollow(replies))
    && (g.status.Exited? ==>
          && g.handler.embedProof.Some?
          && g.callbacks == [Delivered(g.handler.embedProof.value)]
          && EmbedOk(issued, g.handler.embedProof.value))
  }

  /** One embed proof, and one leaving worker, for each accepted final combine. */
  ghost predicate ExitInv(exited: bool, workers: seq<Phase>, replies: seq<GatewayMsg>, accepted: nat) {
    && accepted == Sum(IsEmbed, replies) + (if exited then 1 else 0)
    && accepted == Sum(IsLeaving, workers)
  }

  /** The j-th combine request carries two adjacent exact proofs. It is flagged complete exactly
      when they cover all chunks initialised by then, which is when j + 2 chunks are. */
  ghost predicate IssueOk(issue: Issue, j: nat, initialised: nat) {
    var m := issue.request;
    && m.CombineRequest? && Combinable(m.proofs)
    && j + 2 <= issue.initialised <= initialised
    && m.proofs[1].endChunk < issue.initialised
    && (m.flagComplete <==> m.proofs[0].startChunk == 0 && m.proofs[1].endChunk + 1 == issue.initialised)
    && (m.flagComplete <==> issue.initialised == j + 2)
  }

  ghost predicate IssuesOk(issued: seq<Issue>, initialised: nat) {
    forall j :: 0 <= j < |issued| ==> IssueOk(issued[j], j, initialised)
  }

  /** Every flagged request is still with a worker or on its way, or was accepted or rejected. */
  ghost predicate FlagInv(log: Log, requests: seq<GatewayMsg>, workers: seq<Phase>) {
    Sum(FlaggedIssue, log.issued) ==
      |log.accepted| + log.rejected + Sum(Flagged, requests) + Sum(FlaggedHand, workers)
  }

  ghost predicate Inv(s: State) {
    var t := s.gateway.handler.tree;
    && EmulatorInv(s.chunks, s.forwarded, s.emulatorDone, s.fromEmulator, s.log.initialised, s.gateway.handler.emulatorComplete)
    && TreeInv(t, s.log.initialised, s.log.settled, |s.log.issued|)
    && FlightInv(t, s.requests, s.workers, s.replies, s.log.accepted)
    && RequestsOk(t, s.log.issued, s.requests)
    && WorkersOk(t, s.log.issued, s.workers)
    && RepliesOk(t, s.log.issued, s.replies)
    && AcceptedAllOk(t, s.log.accepted)
    && GatewayInv(s.gateway, s.replies, s.log.issued)
    && ExitInv(s.gateway.status.Exited?, s.workers, s.replies, |s.log.accepted|)
    && IssuesOk(s.log.issued, s.log.initialised)
    && FlagInv(s.log, s.requests, s.workers)
  }

  lemma {:induction false} InitInv(chunks: nat, workers: nat)
    ensures Inv(Init(chunks, workers))
  {
    var s := Init(chunks, workers);
    GatherEmpty(HandOf, s.workers);
    SumZero(IsLeaving, s.workers);
    SumZero(FlaggedHand, s.workers);
    assert InProgressKeys(s.gateway.handler.tree) == {};
  }

  // ----- Emulator actions

  lemma {:induction false} ForwardKeeps(s: State, a: Action)
    requires Inv(s) && Enabled(s, a) && (a.ForwardChunk? || a.ForwardComplete?)
    ensures Inv(Apply(s, a))
  {
    hide TreeInv, FlightInv, IssuesOk, RequestsOk, WorkersOk, RepliesOk, AcceptedAllOk, GatewayInv, ExitInv, FlagInv, IterationTo;
    var s' := Apply(s, a);
    assert EmulatorInv(s'.chunks, s'.forwarded, s'.emulatorDone, s'.fromEmulator, s'.log.initialised, s'.gateway.handler.emulatorComplete) by {
      var k := s.log.initialised;
      if a.ForwardChunk? {
        assert s'.fromEmulator == Emulators.Requests(k, s.forwarded + 1);
      }
    }
  }

  // ----- The gateway receives from the emulator

  lemma {:induction false} KeysBelowInitialised(t: Tree, initialised: nat, k: nat)
    requires WellFormed(Entries(t), initialised) && k in t
    ensures k < initialised
  {
    var e := Entries(t);
    assert Listed(e, k);
    var i :| 0 <= i < |e| && e[i].key == k;
    KeysBelow(e, initialised, i);
  }

  lemma {:induction false} NewKeyInProgress(t: Tree, k: nat)
    requires k !in t
    ensures InProgressKeys(t[k := InProgress([])]) == InProgressKeys(t) + {k}
    ensures k !in InProgressKeys(t)
    ensures |t[k := InProgress([])]| == |t| + 1
  {
    assert t[k := InProgress([])].Keys == t.Keys + {k};
  }

  /** Initialising the next chunk meets no existing key and extends the chain. */
  lemma {:induction false} InitNodeKeeps(t: Tree, k: nat, settled: nat, issued: nat)
    requires TreeInv(t, k, settled, issued)
    ensures k !in t
    ensures TreeInv(t[k := InProgress([])], k + 1, settled, issued)
  {
    hide WellFormed, Represents;
    forall j | j in t ensures j < k {
      KeysBelowInitialised(t, k, j);
    }
    InitAppends(t, k);
    InitKeeps(Entries(t), k);
    NewKeyInProgress(t, k);
  }

  /** Adding a node at a fresh key leaves all other work in agreement with the tree. */
  lemma {:induction false} FreshKeyFrame(t: Tree, t': Tree, s: State)
    requires forall i :: i in t ==> i in t' && t'[i] == t[i]
    requires RequestsOk(t, s.log.issued, s.requests) && WorkersOk(t, s.log.issued, s.workers)
    requires RepliesOk(t, s.log.issued, s.replies) && AcceptedAllOk(t, s.log.accepted)
    ensures RequestsOk(t', s.log.issued, s.requests) && WorkersOk(t', s.log.issued, s.workers)
    ensures RepliesOk(t', s.log.issued, s.replies) && AcceptedAllOk(t', s.log.accepted)
  {
  }

  /** The state after the gateway receives the next chunk: only these fields change. */
  lemma {:induction false} ReceiveChunkEffect(s: State)
    requires Enabled(s, ReceiveEmulator) && s.fromEmulator[0].RiscvRequest?
    requires s.fromEmulator[0].chunkIndex !in s.gateway.handler.tree
    ensures var k := s.fromEmulator[0].chunkIndex;
      Apply(s, ReceiveEmulator) == s.(
        fromEmulator := s.fromEmulator[1..],
        gateway := s.gateway.(handler := s.gateway.handler.(tree := s.gateway.handler.tree[k := InProgress([])])),
        requests := s.requests + [RiscvRequest(k)],
        log := s.log.(initialised := s.log.initialised + 1))
  {
  }

  /** The head of the emulator channel is the next chunk, unless only the completion is left. */
  lemma {:induction false} EmulatorHead(chunks: nat, forwarded: nat, done: bool, queue: seq<GatewayMsg>, initialised: nat, complete: bool)
    requires EmulatorInv(chunks, forwarded, done, queue, initialised, complete) && queue != []
    ensures queue[0] == RiscvRequest(initialised) || (queue == [EmulatorComplete] && initialised == chunks && done)
    ensures queue[0].RiscvRequest? ==> EmulatorInv(chunks, forwarded, done, queue[1..], initialised + 1, complete)
    ensures queue[0].EmulatorComplete? ==> EmulatorInv(chunks, forwarded, done, queue[1..], initialised, true)
  {
    var rest := if done && !complete then [EmulatorComplete] else [];
    if initialised < forwarded {
      assert queue[1..] == Emulators.Requests(initialised + 1, forwarded) + rest;
    }
  }

  lemma {:induction false} RequestsAppend(t: Tree, issued: seq<Issue>, requests: seq<GatewayMsg>, m: GatewayMsg)
    requires RequestsOk(t, issued, requests) && RequestOk(t, issued, m)
    ensures RequestsOk(t, issued, requests + [m])
  {
  }

  lemma {:induction false} IssuesStay(issued: seq<Issue>, k: nat, k': nat)
    requires IssuesOk(issued, k) && k <= k'
    ensures IssuesOk(issued, k')
  {
  }

  /** A fresh node enters the tree as its request enters the queue. */
  lemma {:induction false} FreshKeyFlight(t: Tree, k: nat, requests: seq<GatewayMsg>, workers: seq<Phase>, replies: seq<GatewayMsg>, accepted: seq<nat>)
    requires FlightInv(t, requests, workers, replies, accepted) && k !in t
    ensures FlightInv(t[k := InProgress([])], requests + [RiscvRequest(k)], workers, replies, accepted)
  {
    NewKeyInProgress(t, k);
    GatherAppend(KeyOf, requests, RiscvRequest(k));
    assert multiset(InProgressKeys(t) + {k}) == multiset(InProgressKeys(t)) + multiset{k};
  }

  lemma {:induction false} ReceiveChunkKeeps(s: State)
    requires Inv(s) && Enabled(s, ReceiveEmulator) && s.fromEmulator[0].RiscvRequest?
    ensures Inv(Apply(s, ReceiveEmulator))
  {
    hide TreeInv, FlightInv, EmulatorInv, IssuesOk, RequestsOk, WorkersOk, RepliesOk, AcceptedAllOk, ExitInv, Apply;
    var k := s.log.initialised;
    var t := s.gateway.handler.tree;
    var t' := t[k := InProgress([])];
    InitNodeKeeps(t, k, s.log.settled, |s.log.issued|);
    EmulatorHead(s.chunks, s.forwarded, s.emulatorDone, s.fromEmulator, k, s.gateway.handler.emulatorComplete);
    ReceiveChunkEffect(s);
    FreshKeyFlight(t, k, s.requests, s.workers, s.replies, s.log.accepted);
    FreshKeyFrame(t, t', s);
    RequestsAppend(t', s.log.issued, s.requests, RiscvRequest(k));
    SumAppend(Flagged, s.requests, RiscvRequest(k));
    IssuesStay(s.log.issued, k, k + 1);
  }

  lemma {:induction false} ReceiveCompleteEffect(s: State)
    requires Enabled(s, ReceiveEmulator) && s.fromEmulator[0].EmulatorComplete?
    requires s.gateway.handler.embedProof == None
    ensures Apply(s, ReceiveEmulator) == s.(
      fromEmulator := s.fromEmulator[1..],
      gateway := s.gateway.(handler := s.gateway.handler.(emulatorComplete := true)))
  {
  }

  lemma {:induction false} ReceiveCompleteKeeps(s: State)
    requires Inv(s) && Enabled(s, ReceiveEmulator) && s.fromEmulator[0].EmulatorComplete?
    ensures Inv(Apply(s, ReceiveEmulator))
  {
    hide TreeInv, FlightInv, EmulatorInv, IssuesOk, RequestsOk, WorkersOk, RepliesOk, AcceptedAllOk, ExitInv, FlagInv, Apply;
    EmulatorHead(s.chunks, s.forwarded, s.emulatorDone, s.fromEmulator, s.log.initialised, s.gateway.handler.emulatorComplete);
    ReceiveCompleteEffect(s);
  }

  lemma {:induction false} ReceiveEmulatorKeeps(s: State)
    requires Inv(s) && Enabled(s, ReceiveEmulator)
    ensures Inv(Apply(s, ReceiveEmulator))
  {
    hide TreeInv, FlightInv, EmulatorInv, IssuesOk, RequestsOk, WorkersOk, RepliesOk, AcceptedAllOk, ExitInv, FlagInv, Apply;
    EmulatorHead(s.chunks, s.forwarded, s.emulatorDone, s.fromEmulator, s.log.initialised, s.gateway.handler.emulatorComplete);
    if s.fromEmulator[0].RiscvRequest? {
      ReceiveChunkKeeps(s);
    } else {
      ReceiveCompleteKeeps(s);
    }
  }

  // ----- A worker moves: its phase changes and one message joins the replies

  lemma {:induction false} FlightSend(t: Tree, requests: seq<GatewayMsg>, workers: seq<Phase>, replies: seq<GatewayMsg>, accepted: seq<nat>,
    w: nat, p: Phase, m: GatewayMsg, accepted': seq<nat>)
    requires FlightInv(t, requests, workers, replies, accepted) && w < |workers|
    requires HandOf(workers[w]) + multiset(accepted) == HandOf(p) + KeyOf(m) + multiset(accepted')
    ensures FlightInv(t, requests, workers[w := p], replies + [m], accepted')
  {
    GatherUpdate(HandOf, workers, w, p);
    GatherAppend(KeyOf, replies, m);
    var before, after := Gather(HandOf, workers), Gather(HandOf, workers[w := p]);
    forall k: nat
      ensures InFlight(requests, workers[w := p], replies + [m], accepted')[k] == InFlight(requests, workers, replies, accepted)[k]
    {
      assert (after + HandOf(workers[w]))[k] == (before + HandOf(p))[k];
      assert (HandOf(workers[w]) + multiset(accepted))[k] == (HandOf(p) + KeyOf(m) + multiset(accepted'))[k];
    }
  }

  lemma {:induction false} ExitSend(exited: bool, workers: seq<Phase>, replies: seq<GatewayMsg>, accepted: nat, w: nat, p: Phase, m: GatewayMsg)
    requires ExitInv(exited, workers, replies, accepted) && w < |workers|
    requires IsLeaving(p) == IsLeaving(workers[w]) + IsEmbed(m)
    ensures ExitInv(exited, workers[w := p], replies + [m], accepted + IsEmbed(m))
  {
    SumUpdate(IsLeaving, workers, w, p);
    SumAppend(IsEmbed, replies, m);
  }

  /** A leaving worker has its `Embed` in the replies while the gateway runs. */
  lemma {:induction false} EmbedIsWaiting(workers: seq<Phase>, replies: seq<GatewayMsg>, accepted: nat, w: nat) returns (i: nat)
    requires ExitInv(false, workers, replies, accepted) && w < |workers| && IsLeaving(workers[w]) == 1
    ensures i < |replies| && replies[i].Embed?
  {
    SumAtLeast(IsLeaving, workers, w);
    i := SumPositive(IsEmbed, replies);
  }

  lemma {:induction false} GatewaySend(g: Gateway, replies: seq<GatewayMsg>, issued: seq<Issue>, m: GatewayMsg)
    requires GatewayInv(g, replies, issued)
    requires m.Exit? && g.status.Running? ==> exists i :: 0 <= i < |replies| && replies[i].Embed?
    ensures GatewayInv(g, replies + [m], issued)
  {
    if g.status.Running? {
      var q := replies + [m];
      forall j | 0 <= j < |q| && q[j].Exit? ensures exists i :: 0 <= i < j && q[i].Embed? {
        if j < |replies| {
          var i :| 0 <= i < j && replies[i].Embed?;
          assert q[i].Embed?;
        } else {
          var i :| 0 <= i < |replies| && replies[i].Embed?;
          assert q[i].Embed?;
        }
      }
    }
  }

  lemma {:induction false} WorkersUpdate(t: Tree, issued: seq<Issue>, workers: seq<Phase>, w: nat, p: Phase)
    requires WorkersOk(t, issued, workers) && w < |workers|
    requires !p.Crashed? && (p.Working? ==> RequestOk(t, issued, p.request))
    ensures WorkersOk(t, issued, workers[w := p])
  {
  }

  lemma {:induction false} RepliesAppend(t: Tree, issued: seq<Issue>, replies: seq<GatewayMsg>, m: GatewayMsg)
    requires RepliesOk(t, issued, replies) && ReplyOk(t, issued, m)
    ensures RepliesOk(t, issued, replies + [m])
  {
  }

  lemma {:induction false} AskKeeps(s: State, w: nat)
    requires Inv(s) && Enabled(s, Ask(w))
    ensures Inv(Apply(s, Ask(w)))
  {
    hide TreeInv, FlightInv, EmulatorInv, IssuesOk, RequestsOk, WorkersOk, RepliesOk, AcceptedAllOk, ExitInv, GatewayInv;
    var t := s.gateway.handler.tree;
    FlightSend(t, s.requests, s.workers, s.replies, s.log.accepted, w, Idle, RequestTask, s.log.accepted);
    ExitSend(s.gateway.status.Exited?, s.workers, s.replies, |s.log.accepted|, w, Idle, RequestTask);
    GatewaySend(s.gateway, s.replies, s.log.issued, RequestTask);
    WorkersUpdate(t, s.log.issued, s.workers, w, Idle);
    RepliesAppend(t, s.log.issued, s.replies, RequestTask);
    SumUpdate(FlaggedHand, s.workers, w, Idle);
  }

  lemma {:induction false} SendExitKeeps(s: State, w: nat)
    requires Inv(s) && Enabled(s, SendExit(w))
    ensures Inv(Apply(s, SendExit(w)))
  {
    hide TreeInv, FlightInv, EmulatorInv, IssuesOk, RequestsOk, WorkersOk, RepliesOk, AcceptedAllOk, ExitInv, GatewayInv;
    var t := s.gateway.handler.tree;
    FlightSend(t, s.requests, s.workers, s.replies, s.log.accepted, w, Stopped, Exit, s.log.accepted);
    ExitSend(s.gateway.status.Exited?, s.workers, s.replies, |s.log.accepted|, w, Stopped, Exit);
    if s.gateway.status.Running? {
      var i := EmbedIsWaiting(s.workers, s.replies, |s.log.accepted|, w);
    }
    GatewaySend(s.gateway, s.replies, s.log.issued, Exit);
    WorkersUpdate(t, s.log.issued, s.workers, w, Stopped);
    RepliesAppend(t, s.log.issued, s.replies, Exit);
    SumUpdate(FlaggedHand, s.workers, w, Stopped);
  }

  lemma {:induction false} TakeKeeps(s: State, w: nat)
    requires Inv(s) && Enabled(s, Take(w))
    ensures Inv(Apply(s, Take(w)))
  {
    hide TreeInv, FlightInv, EmulatorInv, IssuesOk, RequestsOk, WorkersOk, RepliesOk, AcceptedAllOk, ExitInv, GatewayInv;
    var t := s.gateway.handler.tree;
    var p := Working(s.requests[0]);
    FlightTake(t, s.requests, s.workers, s.replies, s.log.accepted, w);
    RequestsHead(t, s.log.issued, s.requests);
    WorkersUpdate(t, s.log.issued, s.workers, w, p);
    assert ExitInv(s.gateway.status.Exited?, s.workers[w := p], s.replies, |s.log.accepted|) by {
      ExitStay(s.gateway.status.Exited?, s.workers, s.replies, |s.log.accepted|, w, p);
    }
    SumUpdate(FlaggedHand, s.workers, w, p);
    SumHead(Flagged, s.requests);
  }

  lemma {:induction false} ExitStay(exited: bool, workers: seq<Phase>, replies: seq<GatewayMsg>, accepted: nat, w: nat, p: Phase)
    requires ExitInv(exited, workers, replies, accepted) && w < |workers| && IsLeaving(p) == IsLeaving(workers[w])
    ensures ExitInv(exited, workers[w := p], replies, accepted)
  {
    SumUpdate(IsLeaving, workers, w, p);
  }

  lemma {:induction false} RequestsHead(t: Tree, issued: seq<Issue>, requests: seq<GatewayMsg>)
    requires RequestsOk(t, issued, requests) && requests != []
    ensures RequestOk(t, issued, requests[0]) && RequestsOk(t, issued, requests[1..])
  {
  }

  lemma {:induction false} FlightTake(t: Tree, requests: seq<GatewayMsg>, workers: seq<Phase>, replies: seq<GatewayMsg>, accepted: seq<nat>, w: nat)
    requires FlightInv(t, requests, workers, replies, accepted) && w < |workers| && workers[w].Idle? && requests != []
    ensures FlightInv(t, requests[1..], workers[w := Working(requests[0])], replies, accepted)
  {
    var p := Working(requests[0]);
    GatherUpdate(HandOf, workers, w, p);
    GatherHead(KeyOf, requests);
    assert Gather(HandOf, workers[w := p]) + HandOf(workers[w]) == Gather(HandOf, workers[w := p]);
  }

  // ----- A worker answers

  /** What an agreeing request leads to: an answer for exactly its node, or, when it is flagged
      and verified, an embed proof made from a logged request. Nothing panics. */
  lemma {:induction false} ReactOk(t: Tree, issued: seq<Issue>, m: GatewayMsg, verified: bool)
    requires RequestOk(t, issued, m)
    ensures var r := Workers.React(m, verified);
      && r.Ok? && !r.value.Leave?
      && (r.value.Finish? <==> IsFlagged(m) && verified)
      && (r.value.Respond? ==>
            && ReplyOk(t, issued, r.value.msg) && KeyOf(r.value.msg) == KeyOf(m)
            && !r.value.msg.Embed? && !r.value.msg.Exit?)
      && (r.value.Finish? ==> EmbedOk(issued, r.value.embedProof) && AcceptedOk(t, m.chunkIndex))
  {
    match m {
      case RiscvRequest(i) =>
        assert Settles(t, i, Workers.ConvertChunk(i));
      case CombineRequest(flag, i, ps) =>
        CombinedCovers(ps, flag);
        var j :| 0 <= j < |issued| && issued[j].request == m;
        if flag && verified {
          assert MadeFrom(issued[j].request, EmbedProof(Node(ps[0].inner, ps[1].inner, flag)));
        }
    }
  }

  lemma {:induction false} AnswerEffect(s: State, w: nat, verified: bool)
    requires Enabled(s, Answer(w, verified)) && RequestOk(s.gateway.handler.tree, s.log.issued, s.workers[w].request)
    ensures var request := s.workers[w].request;
      var r := Workers.React(request, verified);
      && r.Ok? && (r.value.Respond? || r.value.Finish?)
      && (r.value.Respond? ==> Apply(s, Answer(w, verified)) == s.(
            workers := s.workers[w := Asking], replies := s.replies + [r.value.msg],
            log := s.log.(rejected := s.log.rejected + Flagged(request))))
      && (r.value.Finish? ==> Apply(s, Answer(w, verified)) == s.(
            workers := s.workers[w := Exiting], replies := s.replies + [Embed(r.value.embedProof)],
            log := s.log.(accepted := s.log.accepted + [request.chunkIndex])))
  {
    ReactOk(s.gateway.handler.tree, s.log.issued, s.workers[w].request, verified);
  }

  lemma {:induction false} WorkerRequest(t: Tree, issued: seq<Issue>, workers: seq<Phase>, w: nat)
    requires WorkersOk(t, issued, workers) && w < |workers| && workers[w].Working?
    ensures RequestOk(t, issued, workers[w].request)
  {
  }

  lemma {:induction false} AnswerKeeps(s: State, w: nat, verified: bool)
    requires Inv(s) && Enabled(s, Answer(w, verified))
    ensures Inv(Apply(s, Answer(w, verified)))
  {
    hide TreeInv, FlightInv, EmulatorInv, IssuesOk, RequestsOk, WorkersOk, RepliesOk, AcceptedAllOk, ExitInv, GatewayInv,
      RequestOk, Apply, Workers.React;
    var t := s.gateway.handler.tree;
    var request := s.workers[w].request;
    WorkerRequest(t, s.log.issued, s.workers, w);
    ReactOk(t, s.log.issued, request, verified);
    AnswerEffect(s, w, verified);
    var r := Workers.React(request, verified).value;
    var p := if r.Finish? then Exiting else Asking;
    var m := if r.Finish? then Embed(r.embedProof) else r.msg;
    var accepted := if r.Finish? then s.log.accepted + [request.chunkIndex] else s.log.accepted;
    AnswerSend(s, w, p, m, accepted);
    AnswerFlag(s, w, p, m, accepted);
    if r.Finish? {
      AcceptedAppend(t, s.log.accepted, request.chunkIndex);
    }
  }

  lemma {:induction false} AcceptedAppend(t: Tree, accepted: seq<nat>, i: nat)
    requires AcceptedAllOk(t, accepted) && AcceptedOk(t, i)
    ensures AcceptedAllOk(t, accepted + [i])
  {
  }

  lemma {:induction false} AnswerSend(s: State, w: nat, p: Phase, m: GatewayMsg, accepted: seq<nat>)
    requires Inv(s) && w < |s.workers| && s.workers[w].Working?
    requires ReplyOk(s.gateway.handler.tree, s.log.issued, m) && !m.Exit?
    requires if m.Embed? then p == Exiting && IsFlagged(s.workers[w].request) && accepted == s.log.accepted + [s.workers[w].request.chunkIndex]
             else p == Asking && KeyOf(m) == KeyOf(s.workers[w].request) && accepted == s.log.accepted
    ensures var t := s.gateway.handler.tree;
      && FlightInv(t, s.requests, s.workers[w := p], s.replies + [m], accepted)
      && WorkersOk(t, s.log.issued, s.workers[w := p])
      && RepliesOk(t, s.log.issued, s.replies + [m])
      && GatewayInv(s.gateway, s.replies + [m], s.log.issued)
      && ExitInv(s.gateway.status.Exited?, s.workers[w := p], s.replies + [m], |accepted|)
  {
    hide TreeInv, FlightInv, EmulatorInv, IssuesOk, RequestsOk, WorkersOk, RepliesOk, AcceptedAllOk, ExitInv, GatewayInv, FlagInv, RequestOk, ReplyOk;
    var t := s.gateway.handler.tree;
    FlightSend(t, s.requests, s.workers, s.replies, s.log.accepted, w, p, m, accepted);
    ExitSend(s.gateway.status.Exited?, s.workers, s.replies, |s.log.accepted|, w, p, m);
    GatewaySend(s.gateway, s.replies, s.log.issued, m);
    WorkersUpdate(t, s.log.issued, s.workers, w, p);
    RepliesAppend(t, s.log.issued, s.replies, m);
  }

  /** A flagged request leaves the worker's hands accepted or rejected. */
  lemma {:induction false} AnswerFlag(s: State, w: nat, p: Phase, m: GatewayMsg, accepted: seq<nat>)
    requires FlagInv(s.log, s.requests, s.workers) && w < |s.workers| && s.workers[w].Working?
    requires if m.Embed? then p == Exiting && IsFlagged(s.workers[w].request) && accepted == s.log.accepted + [s.workers[w].request.chunkIndex]
             else p == Asking && accepted == s.log.accepted
    ensures FlagInv(s.log.(accepted := accepted, rejected := s.log.rejected + (if m.Embed? then 0 else Flagged(s.workers[w].request))),
                    s.requests, s.workers[w := p])
  {
    SumUpdate(FlaggedHand, s.workers, w, p);
  }

  // ----- The gateway receives from the workers

  lemma {:induction false} RepliesHead(t: Tree, issued: seq<Issue>, replies: seq<GatewayMsg>)
    requires RepliesOk(t, issued, replies) && replies != []
    ensures ReplyOk(t, issued, replies[0]) && RepliesOk(t, issued, replies[1..])
  {
  }

  lemma {:induction false} FlightPop(t: Tree, requests: seq<GatewayMsg>, workers: seq<Phase>, replies: seq<GatewayMsg>, accepted: seq<nat>)
    requires FlightInv(t, requests, workers, replies, accepted) && replies != [] && KeyOf(replies[0]) == multiset{}
    ensures FlightInv(t, requests, workers, replies[1..], accepted)
  {
    GatherHead(KeyOf, replies);
    assert Gather(KeyOf, replies) == Gather(KeyOf, replies[1..]);
  }

  /** With the gateway running, the message at the head is never an `Exit`, and what follows
      anything but an `Embed` still has an `Embed` before every `Exit`. */
  lemma {:induction false} ExitsFollowTail(q: seq<GatewayMsg>)
    requires ExitsFollow(q) && q != []
    ensures !q[0].Exit?
    ensures !q[0].Embed? ==> ExitsFollow(q[1..])
  {
    if !q[0].Embed? {
      forall j | 0 <= j < |q[1..]| && q[1..][j].Exit? ensures exists i :: 0 <= i < j && q[1..][i].Embed? {
        assert q[j + 1].Exit?;
        var i :| 0 <= i < j + 1 && q[i].Embed?;
        assert q[1..][i - 1].Embed?;
      }
    }
  }

  lemma {:induction false} ReceiveTaskRequestKeeps(s: State)
    requires Inv(s) && Enabled(s, ReceiveWorker) && s.replies[0].RequestTask?
    ensures Inv(Apply(s, ReceiveWorker))
  {
    hide TreeInv, FlightInv, EmulatorInv, IssuesOk, RequestsOk, WorkersOk, RepliesOk, AcceptedAllOk, FlagInv, ExitsFollow;
    var t := s.gateway.handler.tree;
    assert Apply(s, ReceiveWorker) == s.(replies := s.replies[1..]);
    RepliesHead(t, s.log.issued, s.replies);
    FlightPop(t, s.requests, s.workers, s.replies, s.log.accepted);
    ExitsFollowTail(s.replies);
    SumHead(IsEmbed, s.replies);
  }

  lemma {:induction false} ReceiveEmbedEffect(s: State)
    requires Enabled(s, ReceiveWorker) && s.replies[0].Embed? && s.gateway.callbacks == []
    ensures var e := s.replies[0].embedProof;
      Apply(s, ReceiveWorker) == s.(
        replies := s.replies[1..],
        gateway := Gateway(s.gateway.handler.(embedProof := Some(e)), Exited, [Delivered(e)]))
  {
  }

  lemma {:induction false} ReceiveEmbedKeeps(s: State)
    requires Inv(s) && Enabled(s, ReceiveWorker) && s.replies[0].Embed?
    ensures Inv(Apply(s, ReceiveWorker))
  {
    hide TreeInv, FlightInv, EmulatorInv, IssuesOk, RequestsOk, WorkersOk, RepliesOk, AcceptedAllOk, FlagInv, ExitsFollow, Apply;
    var t := s.gateway.handler.tree;
    ReceiveEmbedEffect(s);
    RepliesHead(t, s.log.issued, s.replies);
    FlightPop(t, s.requests, s.workers, s.replies, s.log.accepted);
    SumHead(IsEmbed, s.replies);
  }

  /** What one settled proof does to the tree: the chain over the same chunks, one node fewer
      when a pair is merged, all other work in progress left as it was. */
  lemma {:induction false} SettleTree(t: Tree, k: nat, i: nat, p: IndexedProof)
    requires WellFormed(Entries(t), k) && Settles(t, i, p)
    ensures SetProofTo(t, i, p).Ok?
    ensures var r := SetProofTo(t, i, p).value;
      && WellFormed(Entries(r.tree), k)
      && |r.tree| == |t| - (if r.toCombine.Some? then 1 else 0)
      && (r.toCombine.Some? ==>
            && Combinable(r.toCombine.value)
            && (|r.tree| == 1 <==> r.toCombine.value[0].startChunk == 0 && r.toCombine.value[1].endChunk + 1 == k))
  {
    var e := Entries(t);
    assert Listed(e, i);
    var j :| 0 <= j < |e| && e[j].key == i;
    assert e[j] == Entry(i, t[i]);
    SetProofRefinesList(t, j, p);
    SetProofKeeps(e, k, j, p);
  }

  /** The in-progress nodes other than i stay; i stays in progress exactly when it merges. */
  lemma {:induction false} SettleFrame(t: Tree, i: nat, p: IndexedProof)
    requires i in t && t[i].InProgress?
    ensures var r := SetProofTo(t, i, p).value;
      && (forall j :: j in t && j != i && t[j].InProgress? ==> j in r.tree && r.tree[j] == t[j])
      && (r.toCombine.Some? ==> i in r.tree && r.tree[i] == InProgress(r.toCombine.value))
      && InProgressKeys(r.tree) == (if r.toCombine.Some? then InProgressKeys(t) else InProgressKeys(t) - {i})
  {
    var r := SetProofTo(t, i, p).value;
    match Sibling(t, i, p) {
      case Some((sibling, proofs)) =>
        assert sibling in t && sibling != i && t[sibling].Proved?;
      case None =>
    }
  }

  /** The key of the reply at the head is nowhere else in flight. */
  lemma {:induction false} HeadIsAlone(t: Tree, requests: seq<GatewayMsg>, workers: seq<Phase>, replies: seq<GatewayMsg>, accepted: seq<nat>, i: nat)
    requires FlightInv(t, requests, workers, replies, accepted) && replies != [] && KeyOf(replies[0]) == multiset{i}
    ensures InFlight(requests, workers, replies[1..], accepted) == multiset(InProgressKeys(t) - {i})
    ensures i in InProgressKeys(t)
    ensures forall j :: 0 <= j < |requests| ==> i !in KeyOf(requests[j])
    ensures forall j :: 0 <= j < |workers| ==> i !in HandOf(workers[j])
    ensures forall j :: 0 <= j < |replies[1..]| ==> i !in KeyOf(replies[1..][j])
    ensures i !in accepted
  {
    hide InProgressKeys, KeyOf, HandOf;
    var rest := InFlight(requests, workers, replies[1..], accepted);
    GatherHead(KeyOf, replies);
    assert rest + multiset{i} == InFlight(requests, workers, replies, accepted);
    OneLess(rest, i, InProgressKeys(t));
    GatherLacks(KeyOf, requests, i);
    GatherLacks(HandOf, workers, i);
    GatherLacks(KeyOf, replies[1..], i);
    assert i !in multiset(accepted);
  }

  /** All work about keys other than i agrees with the tree after i settled. */
  lemma {:induction false} SettleOthers(t: Tree, t': Tree, issued: seq<Issue>, issued': seq<Issue>, i: nat,
    requests: seq<GatewayMsg>, workers: seq<Phase>, replies: seq<GatewayMsg>, accepted: seq<nat>)
    requires forall j :: j in t && j != i && t[j].InProgress? ==> j in t' && t'[j] == t[j]
    requires issued <= issued'
    requires RequestsOk(t, issued, requests) && forall j :: 0 <= j < |requests| ==> i !in KeyOf(requests[j])
    requires WorkersOk(t, issued, workers) && forall j :: 0 <= j < |workers| ==> i !in HandOf(workers[j])
    requires RepliesOk(t, issued, replies) && forall j :: 0 <= j < |replies| ==> i !in KeyOf(replies[j])
    requires AcceptedAllOk(t, accepted) && i !in accepted
    ensures RequestsOk(t', issued', requests) && WorkersOk(t', issued', workers)
    ensures RepliesOk(t', issued', replies) && AcceptedAllOk(t', accepted)
  {
    forall j | 0 <= j < |requests| ensures RequestOk(t', issued', requests[j]) {
      RequestStays(t, t', issued, issued', i, requests[j]);
    }
    forall j | 0 <= j < |workers| && workers[j].Working? ensures RequestOk(t', issued', workers[j].request) {
      assert i !in HandOf(workers[j]);
      RequestStays(t, t', issued, issued', i, workers[j].request);
    }
    forall j | 0 <= j < |replies| ensures ReplyOk(t', issued', replies[j]) {
      ReplyStays(t, t', issued, issued', i, replies[j]);
    }
  }

  lemma {:induction false} RequestStays(t: Tree, t': Tree, issued: seq<Issue>, issued': seq<Issue>, i: nat, m: GatewayMsg)
    requires forall j :: j in t && j != i && t[j].InProgress? ==> j in t' && t'[j] == t[j]
    requires issued <= issued' && RequestOk(t, issued, m) && i !in KeyOf(m)
    ensures RequestOk(t', issued', m)
  {
    assert m.chunkIndex != i;
    if m.CombineRequest? {
      var j :| 0 <= j < |issued| && issued[j].request == m;
      assert issued'[j].request == m;
    }
  }

  lemma {:induction false} EmbedStays(issued: seq<Issue>, issued': seq<Issue>, e: EmbedProof)
    requires issued <= issued' && EmbedOk(issued, e)
    ensures EmbedOk(issued', e)
  {
    var j :| 0 <= j < |issued| && MadeFrom(issued[j].request, e);
    assert issued'[j] == issued[j];
  }

  lemma {:induction false} ReplyStays(t: Tree, t': Tree, issued: seq<Issue>, issued': seq<Issue>, i: nat, m: GatewayMsg)
    requires forall j :: j in t && j != i && t[j].InProgress? ==> j in t' && t'[j] == t[j]
    requires issued <= issued' && ReplyOk(t, issued, m) && i !in KeyOf(m)
    ensures ReplyOk(t', issued', m)
  {
    if m.Embed? {
      EmbedStays(issued, issued', m.embedProof);
    } else if m.RiscvResponse? || m.CombineResponse? {
      assert m.chunkIndex != i;
    }
  }

  /** The request issued for a merged pair, if any, as the log records it. */
  function Issued(r: SetResult, i: nat): seq<GatewayMsg> {
    if r.toCombine.Some? then [CombineRequest(|r.tree| == 1, i, r.toCombine.value)] else []
  }

  function IssuedLog(r: SetResult, i: nat, initialised: nat): seq<Issue> {
    if r.toCombine.Some? then [Issue(CombineRequest(|r.tree| == 1, i, r.toCombine.value), initialised)] else []
  }

  lemma {:induction false} ReceiveProofEffect(s: State)
    requires Enabled(s, ReceiveWorker) && (s.replies[0].RiscvResponse? || s.replies[0].CombineResponse?)
    requires s.gateway.handler.embedProof == None
    requires var r := SetProofTo(s.gateway.handler.tree, s.replies[0].chunkIndex, s.replies[0].proof);
      r.Ok? && (r.value.toCombine.Some? ==> |r.value.toCombine.value| == 2)
    ensures var i := s.replies[0].chunkIndex;
      var r := SetProofTo(s.gateway.handler.tree, i, s.replies[0].proof).value;
      Apply(s, ReceiveWorker) == s.(
        replies := s.replies[1..],
        gateway := s.gateway.(handler := s.gateway.handler.(tree := r.tree)),
        requests := s.requests + Issued(r, i),
        log := s.log.(settled := s.log.settled + 1, issued := s.log.issued + IssuedLog(r, i, s.log.initialised)))
  {
    hide SetProofTo;
    var r := SetProofTo(s.gateway.handler.tree, s.replies[0].chunkIndex, s.replies[0].proof).value;
    if r.toCombine.None? {
      assert s.log.issued + [] == s.log.issued && s.requests + [] == s.requests;
    }
  }

  /** The flight after a settled reply: its key leaves, and comes back when a pair is issued. */
  lemma {:induction false} SettleFlight(t: Tree, r: SetResult, i: nat, requests: seq<GatewayMsg>, workers: seq<Phase>, replies: seq<GatewayMsg>, accepted: seq<nat>)
    requires FlightInv(t, requests, workers, replies, accepted) && replies != [] && KeyOf(replies[0]) == multiset{i}
    requires InProgressKeys(r.tree) == if r.toCombine.Some? then InProgressKeys(t) else InProgressKeys(t) - {i}
    ensures FlightInv(r.tree, requests + Issued(r, i), workers, replies[1..], accepted)
  {
    hide InProgressKeys, Gather, HandOf;
    if r.toCombine.Some? {
      var m := Issued(r, i)[0];
      GatherHead(KeyOf, replies);
      GatherAppend(KeyOf, requests, m);
      MoveAcross(Gather(KeyOf, requests), Gather(HandOf, workers), Gather(KeyOf, replies[1..]), multiset{i}, multiset(accepted));
    } else {
      HeadIsAlone(t, requests, workers, replies, accepted, i);
      assert requests + Issued(r, i) == requests;
    }
  }

  /** The log entry of the merged pair: position, counts and flag agree. */
  lemma {:induction false} SettleLog(t: Tree, k: nat, settled: nat, issued: seq<Issue>, i: nat, p: IndexedProof)
    requires TreeInv(t, k, settled, |issued|) && Settles(t, i, p) && IssuesOk(issued, k)
    ensures SetProofTo(t, i, p).Ok?
    ensures var r := SetProofTo(t, i, p).value;
      && TreeInv(r.tree, k, settled + 1, |issued + IssuedLog(r, i, k)|)
      && IssuesOk(issued + IssuedLog(r, i, k), k)
      && (r.toCombine.Some? ==> Combinable(r.toCombine.value) && (|r.tree| == 1 ==> r.toCombine.value[0].startChunk == 0))
  {
    hide SetProofTo, WellFormed;
    SettleTree(t, k, i, p);
    SettleFrame(t, i, p);
    var r := SetProofTo(t, i, p).value;
    assert i in InProgressKeys(t);
    if r.toCombine.Some? {
      PairInRange(r.tree, k, i, r.toCombine.value);
      var issue := IssuedLog(r, i, k)[0];
      assert IssueOk(issue, |issued|, k);
    } else {
      assert issued + IssuedLog(r, i, k) == issued;
    }
  }

  lemma {:induction false} PairInRange(t: Tree, k: nat, i: nat, ps: seq<IndexedProof>)
    requires WellFormed(Entries(t), k) && i in t && t[i] == InProgress(ps) && |ps| == 2
    ensures ps[1].endChunk < k && |t| >= 1
  {
    var e := Entries(t);
    assert Listed(e, i);
    var j :| 0 <= j < |e| && e[j].key == i;
    assert Hi(e[j]) == ps[1].endChunk;
    if j < |e| - 1 {
      ChainOrder(e, k, j, |e| - 1);
      assert GoodEntry(e[|e| - 1]);
    }
  }

  lemma {:induction false} ReceiveProofKeeps(s: State)
    requires Inv(s) && Enabled(s, ReceiveWorker) && (s.replies[0].RiscvResponse? || s.replies[0].CombineResponse?)
    ensures Inv(Apply(s, ReceiveWorker))
  {
    hide TreeInv, FlightInv, EmulatorInv, IssuesOk, RequestsOk, WorkersOk, RepliesOk, AcceptedAllOk, ExitsFollow, Apply,
      SetProofTo, EmbedOk, InFlight, Settles, FlagInv, Issued, IssuedLog, GatewayInv, Sum;
    var t := s.gateway.handler.tree;
    var i, p := s.replies[0].chunkIndex, s.replies[0].proof;
    RepliesHead(t, s.log.issued, s.replies);
    SettleLog(t, s.log.initialised, s.log.settled, s.log.issued, i, p);
    NothingStored(s.gateway, s.replies, s.log.issued);
    ReceiveProofEffect(s);
    SettledTree(s, i, p);
    var r := SetProofTo(t, i, p).value;
    SettleExits(s.gateway, r.tree, s.workers, s.replies, s.log.issued, s.log.issued + IssuedLog(r, i, s.log.initialised), |s.log.accepted|);
    SettleFlags(s.log, s.requests, s.workers, r, i);
  }

  /** Settling an answer leaves the running gateway's exit obligations as they were. */
  lemma {:induction false} SettleExits(g: Gateway, tree: Tree, workers: seq<Phase>, replies: seq<GatewayMsg>,
    issued: seq<Issue>, issued': seq<Issue>, accepted: nat)
    requires g.status.Running? && replies != [] && (replies[0].RiscvResponse? || replies[0].CombineResponse?)
    requires GatewayInv(g, replies, issued) && ExitInv(false, workers, replies, accepted)
    ensures GatewayInv(g.(handler := g.handler.(tree := tree)), replies[1..], issued')
    ensures ExitInv(false, workers, replies[1..], accepted)
  {
    ExitsFollowTail(replies);
    SumHead(IsEmbed, replies);
  }

  /** With the gateway running, no embed proof is stored. */
  lemma {:induction false} NothingStored(g: Gateway, replies: seq<GatewayMsg>, issued: seq<Issue>)
    requires GatewayInv(g, replies, issued) && g.status.Running?
    ensures g.handler.embedProof == None
  {
  }

  /** A flagged request enters the log and the queue together. */
  lemma {:induction false} SettleFlags(log: Log, requests: seq<GatewayMsg>, workers: seq<Phase>, r: SetResult, i: nat)
    requires FlagInv(log, requests, workers)
    ensures FlagInv(log.(settled := log.settled + 1, issued := log.issued + IssuedLog(r, i, log.initialised)),
                    requests + Issued(r, i), workers)
  {
    if r.toCombine.Some? {
      SumAppend(Flagged, requests, Issued(r, i)[0]);
      SumAppend(FlaggedIssue, log.issued, IssuedLog(r, i, log.initialised)[0]);
    } else {
      assert log.issued + IssuedLog(r, i, log.initialised) == log.issued;
      assert requests + Issued(r, i) == requests;
    }
  }

  /** Everything in flight agrees with the tree after the head of the replies settled. */
  lemma {:induction false} SettledTree(s: State, i: nat, p: IndexedProof)
    requires s.replies != [] && KeyOf(s.replies[0]) == multiset{i}
    requires var t := s.gateway.handler.tree;
      && Settles(t, i, p) && SetProofTo(t, i, p).Ok?
      && FlightInv(t, s.requests, s.workers, s.replies, s.log.accepted)
      && RequestsOk(t, s.log.issued, s.requests) && WorkersOk(t, s.log.issued, s.workers)
      && RepliesOk(t, s.log.issued, s.replies) && AcceptedAllOk(t, s.log.accepted)
    requires var r := SetProofTo(s.gateway.handler.tree, i, p).value;
      r.toCombine.Some? ==> Combinable(r.toCombine.value) && (|r.tree| == 1 ==> r.toCombine.value[0].startChunk == 0)
    ensures var r := SetProofTo(s.gateway.handler.tree, i, p).value;
      var issued' := s.log.issued + IssuedLog(r, i, s.log.initialised);
      && FlightInv(r.tree, s.requests + Issued(r, i), s.workers, s.replies[1..], s.log.accepted)
      && RequestsOk(r.tree, issued', s.requests + Issued(r, i)) && WorkersOk(r.tree, issued', s.workers)
      && RepliesOk(r.tree, issued', s.replies[1..]) && AcceptedAllOk(r.tree, s.log.accepted)
      && (forall e :: EmbedOk(s.log.issued, e) ==> EmbedOk(issued', e))
  {
    hide FlightInv, RequestsOk, WorkersOk, RepliesOk, AcceptedAllOk, SetProofTo, InFlight, InProgressKeys, Covers;
    var t := s.gateway.handler.tree;
    var r := SetProofTo(t, i, p).value;
    var issued' := s.log.issued + IssuedLog(r, i, s.log.initialised);
    SettleFrame(t, i, p);
    SettleFlight(t, r, i, s.requests, s.workers, s.replies, s.log.accepted);
    HeadIsAlone(t, s.requests, s.workers, s.replies, s.log.accepted, i);
    RepliesHead(t, s.log.issued, s.replies);
    SettleOthers(t, r.tree, s.log.issued, issued', i, s.requests, s.workers, s.replies[1..], s.log.accepted);
    forall e | EmbedOk(s.log.issued, e) ensures EmbedOk(issued', e) {
      EmbedStays(s.log.issued, issued', e);
    }
    if r.toCombine.Some? {
      var m := Issued(r, i)[0];
      assert issued'[|s.log.issued|].request == m;
      RequestsAppend(r.tree, issued', s.requests, m);
    } else {
      assert s.requests + Issued(r, i) == s.requests;
    }
  }

  // ----- Every action keeps the invariant

  lemma {:induction false} StepKeeps(s: State, a: Action)
    requires Inv(s) && Enabled(s, a)
    ensures Inv(Apply(s, a))
  {
    hide TreeInv, FlightInv, EmulatorInv, IssuesOk, WorkersOk, RequestsOk, AcceptedAllOk, ExitInv, FlagInv, Apply;
    match a {
      case ForwardChunk => ForwardKeeps(s, a);
      case ForwardComplete => ForwardKeeps(s, a);
      case ReceiveEmulator => ReceiveEmulatorKeeps(s);
      case ReceiveWorker =>
        RepliesHead(s.gateway.handler.tree, s.log.issued, s.replies);
        ExitsFollowTail(s.replies);
        if s.replies[0].RequestTask? {
          ReceiveTaskRequestKeeps(s);
        } else if s.replies[0].Embed? {
          ReceiveEmbedKeeps(s);
        } else {
          ReceiveProofKeeps(s);
        }
      case Ask(w) => AskKeeps(s, w);
      case Take(w) => TakeKeeps(s, w);
      case Answer(w, verified) => AnswerKeeps(s, w, verified);
      case SendExit(w) => SendExitKeeps(s, w);
    }
  }

  lemma {:induction false} ExecuteKeeps(s: State, schedule: seq<Action>)
    requires Inv(s) && Execute(s, schedule).Some?
    ensures Inv(Execute(s, schedule).value)
    decreases |schedule|
  {
    hide Inv, Apply, Enabled;
    if schedule != [] {
      StepKeeps(s, schedule[0]);
      ExecuteKeeps(Apply(s, schedule[0]), schedule[1..]);
    }
  }

  /** The invariant holds in every reachable state. */
  lemma {:induction false} ReachableInv(chunks: nat, workers: nat, s: State)
    requires Reachable(chunks, workers, s)
    ensures Inv(s)
  {
    hide Inv, Init;
    var schedule :| Execute(Init(chunks, workers), schedule) == Some(s);
    InitInv(chunks, workers);
    ExecuteKeeps(Init(chunks, workers), schedule);
  }
}
