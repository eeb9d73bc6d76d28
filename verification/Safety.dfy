/** What holds in every reachable state of a proving task, whatever order the workers answer in
    and whatever the verdicts on final proofs. */
module Safety {
  import opened Proofs
  import opened Messages
  import opened ProofTrees
  import opened Segments
  import opened Gateways
  import opened Counting
  import opened Protocol
  import opened Invariants

  /** Conservation and order: in key order the nodes hold exactly the chunks initialised so far,
      and every node's key lies among the chunks it holds. */
  lemma {:induction false} ChunksConserved(chunks: nat, workers: nat, s: State)
    requires Reachable(chunks, workers, s)
    ensures var e := Entries(s.gateway.handler.tree);
      && Held(e) == Interval(0, s.log.initialised)
      && (forall i :: 0 <= i < |e| ==> e[i].key in HeldBy(e[i]))
  {
    ReachableInv(chunks, workers, s);
    var e := Entries(s.gateway.handler.tree);
    HeldIsInterval(e, s.log.initialised);
    forall i | 0 <= i < |e| ensures e[i].key in HeldBy(e[i]) {
      assert GoodEntry(e[i]);
      HeldByIsRange(e[i]);
      assert HeldBy(e[i])[e[i].key - Lo(e[i])] == e[i].key;
    }
  }

  /** No assertion, unwrap, index or unsupported message ever panics, in the gateway or a worker. */
  lemma {:induction false} NothingPanics(chunks: nat, workers: nat, s: State)
    requires Reachable(chunks, workers, s)
    ensures !s.gateway.status.Panicked?
    ensures forall w :: 0 <= w < |s.workers| ==> !s.workers[w].Crashed?
  {
    ReachableInv(chunks, workers, s);
  }

  /** In-progress nodes correspond one to one to the indices in flight, so none is in flight twice. */
  lemma {:induction false} FlightBijection(chunks: nat, workers: nat, s: State)
    requires Reachable(chunks, workers, s)
    ensures InFlight(s.requests, s.workers, s.replies, s.log.accepted) == multiset(InProgressKeys(s.gateway.handler.tree))
    ensures forall i: nat :: InFlight(s.requests, s.workers, s.replies, s.log.accepted)[i] <= 1
  {
    ReachableInv(chunks, workers, s);
  }

  /** No two neighbours are both proved, so with nothing in progress at most one node is left. */
  lemma {:induction false} TreeStaysShort(chunks: nat, workers: nat, s: State)
    requires Reachable(chunks, workers, s)
    ensures NoProvedNeighbours(Entries(s.gateway.handler.tree))
    ensures |s.gateway.handler.tree| <= 2 * |InProgressKeys(s.gateway.handler.tree)| + 1
  {
    ReachableInv(chunks, workers, s);
    var t := s.gateway.handler.tree;
    LengthBound(Entries(t));
    CountIsKeys(t, Entries(t));
  }

  /** Exact accounting: combine requests issued and proofs settled are determined by the chunks
      initialised, the length of the tree, and the nodes in progress. */
  lemma {:induction false} ExactAccounting(chunks: nat, workers: nat, s: State)
    requires Reachable(chunks, workers, s)
    ensures |s.log.issued| == s.log.initialised - |s.gateway.handler.tree|
    ensures s.log.settled == 2 * s.log.initialised - |s.gateway.handler.tree| - |InProgressKeys(s.gateway.handler.tree)|
    ensures s.log.initialised <= s.chunks == chunks
    ensures chunks > 0 ==> |s.log.issued| <= chunks - 1
  {
    ReachableInv(chunks, workers, s);
    ChunksFixed(chunks, workers, s);
  }

  lemma {:induction false} ChunksFixed(chunks: nat, workers: nat, s: State)
    requires Reachable(chunks, workers, s)
    ensures s.chunks == chunks && |s.workers| == workers
  {
    var schedule :| Execute(Init(chunks, workers), schedule) == Some(s);
    ExecuteFixed(Init(chunks, workers), schedule);
  }

  lemma {:induction false} ExecuteFixed(s: State, schedule: seq<Action>)
    requires Execute(s, schedule).Some?
    ensures Execute(s, schedule).value.chunks == s.chunks
    ensures |Execute(s, schedule).value.workers| == |s.workers|
    decreases |schedule|
  {
    if schedule != [] {
      StepFixed(s, schedule[0]);
      ExecuteFixed(Apply(s, schedule[0]), schedule[1..]);
    }
  }

  lemma {:induction false} StepFixed(s: State, a: Action)
    requires Enabled(s, a)
    ensures Apply(s, a).chunks == s.chunks && |Apply(s, a).workers| == |s.workers|
  {
    hide IterationTo, Note;
  }

  /** The chunks the two proofs of a combine request cover, in order. */
  function PairLeaves(m: GatewayMsg): seq<nat>
    requires m.CombineRequest? && |m.proofs| == 2
  {
    Leaves(m.proofs[0].inner) + Leaves(m.proofs[1].inner)
  }

  lemma {:induction false} IntervalEnds(a: nat, b: nat, m: nat)
    requires a < b
    ensures Interval(a, b) == Interval(0, m) <==> a == 0 && b == m
  {
    if Interval(a, b) == Interval(0, m) {
      assert |Interval(a, b)| == b - a && |Interval(0, m)| == m;
      assert Interval(a, b)[0] == a && Interval(0, m)[0] == 0;
    }
  }

  /** The j-th combine request of any run carries two adjacent proofs of exactly the ranges they
      claim. It is flagged complete exactly when they cover all chunks initialised by then, and
      that is exactly when j + 2 chunks were. */
  lemma {:induction false} FlagMeans(chunks: nat, workers: nat, s: State, j: nat)
    requires Reachable(chunks, workers, s) && j < |s.log.issued|
    ensures var issue := s.log.issued[j];
      && issue.request.CombineRequest? && Combinable(issue.request.proofs)
      && PairLeaves(issue.request) == Interval(issue.request.proofs[0].startChunk, issue.request.proofs[1].endChunk + 1)
      && (issue.request.flagComplete <==> PairLeaves(issue.request) == Interval(0, issue.initialised))
      && (issue.request.flagComplete <==> issue.initialised == j + 2)
      && j + 2 <= issue.initialised <= chunks
  {
    ReachableInv(chunks, workers, s);
    ChunksFixed(chunks, workers, s);
    assert IssueOk(s.log.issued[j], j, s.log.initialised);
    var ps := s.log.issued[j].request.proofs;
    IntervalConcat(ps[0].startChunk, ps[1].startChunk, ps[1].endChunk + 1);
    IntervalEnds(ps[0].startChunk, ps[1].endChunk + 1, s.log.issued[j].initialised);
  }

  /** A flagged combine request covers the whole run exactly when no chunk is initialised after it,
      which makes it the last request of the run, the (chunks - 1)-th. */
  lemma {:induction false} FlaggedCoversRun(chunks: nat, workers: nat, s: State, j: nat)
    requires Reachable(chunks, workers, s) && j < |s.log.issued| && IsFlagged(s.log.issued[j].request)
    ensures |s.log.issued[j].request.proofs| == 2
    ensures PairLeaves(s.log.issued[j].request) == Interval(0, chunks) <==> s.log.issued[j].initialised == chunks
    ensures PairLeaves(s.log.issued[j].request) == Interval(0, chunks) <==> j == chunks - 2
    ensures j == chunks - 2 ==> |s.log.issued| == chunks - 1
  {
    FlagMeans(chunks, workers, s, j);
    ExactAccounting(chunks, workers, s);
    IntervalEnds(0, s.log.issued[j].initialised, chunks);
  }

  /** Of the requests issued after the last initialisation, only the run's last one, covering all
      chunks, is flagged; once chunks - 1 requests are issued, it has been. */
  lemma {:induction false} LastRequestIsFlagged(chunks: nat, workers: nat, s: State, j: nat)
    requires Reachable(chunks, workers, s) && j < |s.log.issued| && s.log.issued[j].initialised == chunks
    ensures IsFlagged(s.log.issued[j].request) <==> j == chunks - 2
    ensures |s.log.issued| == chunks - 1 ==> IsFlagged(s.log.issued[chunks - 2].request)
  {
    FlagMeans(chunks, workers, s, j);
    if |s.log.issued| == chunks - 1 {
      FlagMeans(chunks, workers, s, chunks - 2);
    }
  }

  /** A request in the queue or in a worker's hands carries exactly two adjacent proofs, and an
      answer covers exactly the segment of its node, also after a rejected final proof. */
  lemma {:induction false} InFlightProofsAreExact(chunks: nat, workers: nat, s: State)
    requires Reachable(chunks, workers, s)
    ensures forall i :: 0 <= i < |s.requests| && s.requests[i].CombineRequest? ==> Combinable(s.requests[i].proofs)
    ensures forall w :: 0 <= w < |s.workers| && s.workers[w].Working? && s.workers[w].request.CombineRequest? ==>
              Combinable(s.workers[w].request.proofs)
    ensures forall i :: 0 <= i < |s.replies| && (s.replies[i].RiscvResponse? || s.replies[i].CombineResponse?) ==>
              Settles(s.gateway.handler.tree, s.replies[i].chunkIndex, s.replies[i].proof)
  {
    ReachableInv(chunks, workers, s);
    forall i | 0 <= i < |s.replies| && (s.replies[i].RiscvResponse? || s.replies[i].CombineResponse?)
      ensures Settles(s.gateway.handler.tree, s.replies[i].chunkIndex, s.replies[i].proof)
    {
      assert ReplyOk(s.gateway.handler.tree, s.log.issued, s.replies[i]);
    }
  }

  /** At most one final proof is ever accepted, so at most one `Embed` and one `Exit` are sent. */
  lemma {:induction false} OneEmbedOnly(chunks: nat, workers: nat, s: State)
    requires Reachable(chunks, workers, s)
    ensures |s.log.accepted| <= 1
    ensures Sum(IsEmbed, s.replies) <= 1 && Sum(IsLeaving, s.workers) <= 1
  {
    ReachableInv(chunks, workers, s);
    var t, accepted := s.gateway.handler.tree, s.log.accepted;
    if |accepted| >= 2 {
      assert AcceptedOk(t, accepted[0]) && AcceptedOk(t, accepted[1]);
      DistinctInSet(accepted, InProgressKeys(t));
      StartsAtZero(t, s.log.initialised, accepted[0], accepted[1]);
    }
  }

  lemma {:induction false} StartsAtZero(t: Tree, k: nat, a: nat, b: nat)
    requires WellFormed(Entries(t), k) && AcceptedOk(t, a) && AcceptedOk(t, b)
    ensures a == b
  {
    var e := Entries(t);
    assert Listed(e, a) && Listed(e, b);
    var i :| 0 <= i < |e| && e[i].key == a;
    var j :| 0 <= j < |e| && e[j].key == b;
    FirstIsUnique(e, k, i);
    FirstIsUnique(e, k, j);
  }

  /** The chunks an embed proof establishes. */
  function EmbedLeaves(e: EmbedProof): seq<nat> {
    Leaves(e.combined)
  }

  /** The embed proof was made for a flagged combine request: it covers the chunks initialised when
      that was issued, and so the whole run exactly when all chunks were. */
  ghost predicate DeliveredFrom(issue: Issue, e: EmbedProof, chunks: nat) {
    && MadeFrom(issue.request, e)
    && EmbedLeaves(e) == Interval(0, issue.initialised)
    && (EmbedLeaves(e) == Interval(0, chunks) <==> issue.initialised == chunks)
  }

  /** The exit protocol: the callback fires at most once, exactly when the gateway leaves, and with
      the stored embed proof, which was made from a flagged combine request. What it delivers
      covers the chunks initialised when that request was issued, and the whole run exactly when
      all chunks were. */
  lemma {:induction false} ExitDelivers(chunks: nat, workers: nat, s: State)
    requires Reachable(chunks, workers, s)
    ensures |s.gateway.callbacks| <= 1
    ensures s.gateway.status.Exited? <==> s.gateway.callbacks != []
    ensures s.gateway.status.Exited? <==> s.gateway.handler.embedProof.Some?
    ensures s.gateway.status.Exited? ==> s.gateway.callbacks == [Delivered(s.gateway.handler.embedProof.value)]
    ensures s.gateway.status.Exited? ==>
      exists j :: 0 <= j < |s.log.issued| && DeliveredFrom(s.log.issued[j], s.gateway.handler.embedProof.value, chunks)
  {
    ReachableInv(chunks, workers, s);
    if s.gateway.status.Exited? {
      var e := s.gateway.handler.embedProof.value;
      var j :| 0 <= j < |s.log.issued| && MadeFrom(s.log.issued[j].request, e);
      FlagMeans(chunks, workers, s, j);
      assert EmbedLeaves(e) == PairLeaves(s.log.issued[j].request);
      IntervalEnds(0, s.log.issued[j].initialised, chunks);
      assert DeliveredFrom(s.log.issued[j], e, chunks);
    }
  }

  /** While the gateway runs, the first `Exit` it could receive is preceded by an `Embed`, and
      nothing is stored that would make it leave on `EmulatorComplete`. */
  lemma {:induction false} EmbedBeforeExit(chunks: nat, workers: nat, s: State)
    requires Reachable(chunks, workers, s) && s.gateway.status.Running?
    ensures forall j :: 0 <= j < |s.replies| && s.replies[j].Exit? ==> exists i :: 0 <= i < j && s.replies[i].Embed?
    ensures s.gateway.handler.embedProof.None?
  {
    ReachableInv(chunks, workers, s);
  }
}
