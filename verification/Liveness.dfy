/** Every run ends, and where: a measure that falls at every action, and the exact shape of the
    states in which no party can move. */
module Liveness {
  import opened Proofs
  import opened Messages
  import opened ProofTrees
  import opened Segments
  import opened Gateways
  import opened Counting
  import opened Protocol
  import opened Invariants
  import opened Safety
  import Emulators
  import Workers

  /** What the gateway still has to do: three for each chunk to come, one for each node, and one
      more for each node in progress. */
  ghost function Remaining(s: State): int {
    3 * (s.chunks - s.log.initialised) + |s.gateway.handler.tree| + |InProgressKeys(s.gateway.handler.tree)|
  }

  function Load(p: Phase): nat {
    match p
    case Asking => 2
    case Working(_) => 4
    case Exiting => 2
    case _ => 0
  }

  /** Bounds the number of actions left. */
  ghost function Measure(s: State): int {
    6 * Remaining(s) + 2 * (s.chunks - s.forwarded) + (if s.emulatorDone then 0 else 2) + |s.fromEmulator|
      + 5 * |s.requests| + Sum(Load, s.workers) + |s.replies|
  }

  /** `init_node` and `set_proof` each bring the gateway closer to the end. */
  lemma {:induction false} RemainingFalls(s: State, a: Action)
    requires Inv(s) && Enabled(s, a)
    ensures Remaining(Apply(s, a)) ==
      Remaining(s) - (Apply(s, a).log.initialised - s.log.initialised) - (Apply(s, a).log.settled - s.log.settled)
  {
    StepKeeps(s, a);
    StepFixed(s, a);
    RemainingFromLog(s);
    RemainingFromLog(Apply(s, a));
  }

  lemma {:induction false} RemainingFromLog(s: State)
    requires Inv(s)
    ensures Remaining(s) == 3 * s.chunks - s.log.initialised - s.log.settled
  {
  }

  lemma {:induction false} ReceiveMeasure(s: State)
    requires Inv(s) && Enabled(s, ReceiveWorker)
    ensures var s' := Apply(s, ReceiveWorker);
      6 * Remaining(s') + 5 * |s'.requests| + |s'.replies| < 6 * Remaining(s) + 5 * |s.requests| + |s.replies|
  {
    hide TreeInv, FlightInv, EmulatorInv, IssuesOk, WorkersOk, RequestsOk, AcceptedAllOk, ExitInv, FlagInv, SetProofTo;
    RemainingFalls(s, ReceiveWorker);
    RepliesHead(s.gateway.handler.tree, s.log.issued, s.replies);
  }

  lemma {:induction false} ReceiveEmulatorMeasure(s: State)
    requires Inv(s) && Enabled(s, ReceiveEmulator)
    ensures var s' := Apply(s, ReceiveEmulator);
      6 * Remaining(s') + 5 * |s'.requests| + |s'.fromEmulator| < 6 * Remaining(s) + 5 * |s.requests| + |s.fromEmulator|
  {
    hide TreeInv, FlightInv, EmulatorInv, IssuesOk, WorkersOk, RequestsOk, RepliesOk, AcceptedAllOk, ExitInv, FlagInv, SetProofTo;
    RemainingFalls(s, ReceiveEmulator);
    EmulatorHead(s.chunks, s.forwarded, s.emulatorDone, s.fromEmulator, s.log.initialised, s.gateway.handler.emulatorComplete);
  }

  lemma {:induction false} AnswerMeasure(s: State, w: nat, verified: bool)
    requires Inv(s) && Enabled(s, Answer(w, verified))
    ensures Measure(Apply(s, Answer(w, verified))) < Measure(s)
  {
    hide TreeInv, FlightInv, EmulatorInv, IssuesOk, RequestsOk, RepliesOk, AcceptedAllOk, ExitInv, FlagInv, GatewayInv,
      RequestOk, Apply, Workers.React, Sum, InProgressKeys;
    WorkerRequest(s.gateway.handler.tree, s.log.issued, s.workers, w);
    AnswerEffect(s, w, verified);
    SumUpdate(Load, s.workers, w, Asking);
    SumUpdate(Load, s.workers, w, Exiting);
  }

  /** Every action lowers the measure. */
  lemma {:induction false} MeasureFalls(s: State, a: Action)
    requires Inv(s) && Enabled(s, a)
    ensures Measure(Apply(s, a)) < Measure(s)
  {
    hide TreeInv, FlightInv, EmulatorInv, IssuesOk, RequestsOk, RepliesOk, AcceptedAllOk, ExitInv, FlagInv, GatewayInv, IterationTo, Workers.React, Sum;
    match a {
      case ForwardChunk =>
      case ForwardComplete =>
      case ReceiveEmulator => ReceiveEmulatorMeasure(s);
      case ReceiveWorker => ReceiveMeasure(s);
      case Ask(w) => SumUpdate(Load, s.workers, w, Idle);
      case Take(w) => SumUpdate(Load, s.workers, w, Working(s.requests[0]));
      case Answer(w, verified) => AnswerMeasure(s, w, verified);
      case SendExit(w) => SumUpdate(Load, s.workers, w, Stopped);
    }
  }

  lemma {:induction false} MeasureBounds(s: State)
    requires Inv(s)
    ensures Measure(s) >= 0
  {
  }

  lemma {:induction false} ExecuteFalls(s: State, schedule: seq<Action>)
    requires Inv(s) && Execute(s, schedule).Some?
    ensures |schedule| <= Measure(s)
    decreases |schedule|
  {
    hide Inv, Measure, Apply, Enabled;
    if schedule == [] {
      MeasureBounds(s);
    } else {
      StepKeeps(s, schedule[0]);
      MeasureFalls(s, schedule[0]);
      ExecuteFalls(Apply(s, schedule[0]), schedule[1..]);
    }
  }

  lemma {:induction false} LoadAtStart(workers: seq<Phase>)
    requires forall i :: 0 <= i < |workers| ==> workers[i] == Asking
    ensures Sum(Load, workers) == 2 * |workers|
    decreases |workers|
  {
    if workers != [] {
      LoadAtStart(workers[..|workers| - 1]);
    }
  }

  /** Termination: no schedule of a task is longer than this. */
  lemma {:induction false} EveryRunEnds(chunks: nat, workers: nat, schedule: seq<Action>)
    requires Execute(Init(chunks, workers), schedule).Some?
    ensures |schedule| <= 20 * chunks + 2 * workers + 2
  {
    var s := Init(chunks, workers);
    InitInv(chunks, workers);
    ExecuteFalls(s, schedule);
    LoadAtStart(s.workers);
    assert InProgressKeys(s.gateway.handler.tree) == {};
  }

  // ----- Where runs end

  /** When no party can move and the gateway still runs, all queues are empty and all workers idle. */
  lemma {:induction false} FinalIsQuiet(s: State)
    requires Inv(s) && Final(s) && s.gateway.status.Running? && |s.workers| > 0
    ensures s.fromEmulator == [] && s.requests == [] && s.replies == [] && s.log.accepted == []
    ensures s.emulatorDone && s.log.initialised == s.chunks
    ensures forall w :: 0 <= w < |s.workers| ==> s.workers[w].Idle?
  {
    hide TreeInv, FlightInv, IssuesOk, RequestsOk, RepliesOk, AcceptedAllOk, FlagInv;
    assert !Enabled(s, ForwardChunk) && !Enabled(s, ForwardComplete);
    assert !Enabled(s, ReceiveEmulator) && !Enabled(s, ReceiveWorker);
    SumZero(IsEmbed, s.replies);
    forall w | 0 <= w < |s.workers| ensures s.workers[w].Idle? {
      assert !Enabled(s, Ask(w)) && !Enabled(s, Answer(w, true)) && !Enabled(s, SendExit(w));
      SumAtLeast(IsLeaving, s.workers, w);
    }
    assert !Enabled(s, Take(0));
    assert |Emulators.Requests(s.log.initialised, s.forwarded)| == s.forwarded - s.log.initialised;
  }

  /** With nothing in flight, one proved node over all chunks is left, if there is any chunk. */
  lemma {:induction false} QuietTree(t: Tree, k: nat, settled: nat, issued: nat)
    requires TreeInv(t, k, settled, issued) && InProgressKeys(t) == {}
    ensures |t| == if k == 0 then 0 else 1
    ensures k > 0 ==> exists i :: i in t && t[i].Proved? && Leaves(t[i].proof.inner) == Interval(0, k)
  {
    hide InProgressKeys, Leaves, Interval, CountInProgress;
    var e := Entries(t);
    LengthBound(e);
    CountIsKeys(t, e);
    if k > 0 {
      OnlyEntry(t, e[0].key);
      assert GoodEntry(e[0]);
    }
  }

  lemma {:induction false} OnlyEntry(t: Tree, i: nat)
    requires i in t && InProgressKeys(t) == {}
    ensures t[i].Proved?
  {
    assert i !in InProgressKeys(t);
  }

  /** Where a run that cannot go on has ended. Either the gateway left, which is exactly when some
      final proof was accepted; or every chunk was initialised, the tree is one proved node over
      all of them, and every flagged combine, the complete one included, was rejected. */
  lemma {:induction false} WhereRunsEnd(chunks: nat, workers: nat, s: State)
    requires Reachable(chunks, workers, s) && Final(s) && workers > 0
    ensures s.gateway.status.Exited? <==> s.log.accepted != []
    ensures !s.gateway.status.Exited? ==>
      && s.log.initialised == chunks
      && |s.gateway.handler.tree| == (if chunks == 0 then 0 else 1)
      && (chunks > 0 ==> exists i :: i in s.gateway.handler.tree && s.gateway.handler.tree[i].Proved?
                                     && Leaves(s.gateway.handler.tree[i].proof.inner) == Interval(0, chunks))
      && s.log.rejected == Sum(FlaggedIssue, s.log.issued)
      && (chunks >= 2 ==> |s.log.issued| == chunks - 1 && IsFlagged(s.log.issued[chunks - 2].request) && s.log.rejected >= 1)
  {
    ReachableInv(chunks, workers, s);
    ChunksFixed(chunks, workers, s);
    if !s.gateway.status.Exited? {
      FinalIsQuiet(s);
      GatherEmpty(HandOf, s.workers);
      SumZero(FlaggedHand, s.workers);
      NoneInProgress(s);
      QuietTree(s.gateway.handler.tree, chunks, s.log.settled, |s.log.issued|);
      if chunks >= 2 {
        FlagMeans(chunks, workers, s, chunks - 2);
        SumAtLeast(FlaggedIssue, s.log.issued, chunks - 2);
      }
    }
  }

  lemma {:induction false} NoneInProgress(s: State)
    requires FlightInv(s.gateway.handler.tree, s.requests, s.workers, s.replies, s.log.accepted)
    requires s.requests == [] && s.replies == [] && s.log.accepted == [] && Gather(HandOf, s.workers) == multiset{}
    ensures InProgressKeys(s.gateway.handler.tree) == {}
  {
    var keys := InProgressKeys(s.gateway.handler.tree);
    assert |multiset(keys)| == |keys|;
  }

  /** A run of a task in which no final proof is rejected ends with the proof delivered exactly
      when the emulation has at least two chunks: with none or one no combine is ever issued. */
  lemma {:induction false} DeliversWithTwoChunks(chunks: nat, workers: nat, s: State)
    requires Reachable(chunks, workers, s) && Final(s) && workers > 0 && s.log.rejected == 0
    ensures s.gateway.status.Exited? <==> chunks >= 2
  {
    WhereRunsEnd(chunks, workers, s);
    ExitDelivers(chunks, workers, s);
    ExactAccounting(chunks, workers, s);
    if s.gateway.status.Exited? {
      var j :| 0 <= j < |s.log.issued| && DeliveredFrom(s.log.issued[j], s.gateway.handler.embedProof.value, chunks);
      FlagMeans(chunks, workers, s, j);
    }
  }
}
