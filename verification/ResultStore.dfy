/** Finished proofs in memory and in the database, under any interleaving of the proving queue
    with readers. */
module ResultStore {
  import opened Proofs

  datatype Key = Key(appId: string, taskId: string)
  type Bytes = seq<nat>

  // ----- The shared objects and the code that uses them

  class Store {
    var outputs: map<Key, Bytes>    // in memory, shared with the readers
    var proofs: map<Key, Bytes>     // the database table, by primary key

    constructor (table: map<Key, Bytes>)
      ensures outputs == map[] && proofs == table
    {
      outputs := map[];
      proofs := table;
    }

    method Insert(key: Key, proof: Bytes)
      modifies this`outputs
      ensures outputs == old(outputs)[key := proof]
    {
      outputs := outputs[key := proof];
    }

    /** `store_proof_in_db`: insert or replace, unless the statement fails. */
    method StoreProofInDb(key: Key, proof: Bytes, succeeds: bool)
      modifies this`proofs
      ensures proofs == if succeeds then old(proofs)[key := proof] else old(proofs)
    {
      if succeeds {
        proofs := proofs[key := proof];
      }
    }

    /** `outputs.remove(&key)`. */
    method Remove(key: Key) returns (proof: Option<Bytes>)
      modifies this`outputs
      ensures proof == Lookup(old(outputs), key)
      ensures outputs == old(outputs) - {key}
    {
      proof := Lookup(outputs, key);
      outputs := outputs - {key};
    }

    /** `get_proving_result` with nothing in between its two steps. */
    method GetProvingResult(key: Key) returns (proof: Option<Bytes>)
      modifies this`outputs
      ensures proof == if key in old(outputs) then Some(old(outputs)[key]) else Lookup(proofs, key)
      ensures outputs == old(outputs) - {key}
    {
      proof := Remove(key);
      if proof.None? {
        proof := Lookup(proofs, key);
      }
    }

    /** `ProvingQueue::run` over the proving tasks it receives, each with the outcome of proving it and of
        writing the database. */
    method Run(tasks: seq<Task>)
      modifies this
      ensures (outputs, proofs) == RunTo(old(outputs), old(proofs), tasks)
    {
      var i := 0;
      while i < |tasks|
        invariant 0 <= i <= |tasks|
        invariant RunTo(outputs, proofs, tasks[i..]) == RunTo(old(outputs), old(proofs), tasks)
      {
        var task := tasks[i];
        assert tasks[i..][1..] == tasks[i + 1..];
        if task.proof.Some? {
          Insert(task.key, task.proof.value);
          StoreProofInDb(task.key, task.proof.value, task.written);
        }
        i := i + 1;
      }
    }
  }

  datatype Task = Task(key: Key, proof: Option<Bytes>, written: bool)

  function Lookup(m: map<Key, Bytes>, key: Key): Option<Bytes> {
    if key in m then Some(m[key]) else None
  }

  function RunTo(outputs: map<Key, Bytes>, proofs: map<Key, Bytes>, tasks: seq<Task>): (map<Key, Bytes>, map<Key, Bytes>)
    decreases |tasks|
  {
    if tasks == [] then (outputs, proofs)
    else
      var t := tasks[0];
      if t.proof.None? then RunTo(outputs, proofs, tasks[1..])
      else
        RunTo(outputs[t.key := t.proof.value],
              if t.written then proofs[t.key := t.proof.value] else proofs,
              tasks[1..])
  }

  // ----- Every interleaving

  /** A reader that found nothing in memory and has yet to read the database. */
  datatype Reader = Reader(key: Key, since: nat)

  /** What happened so far. No step reads it. */
  datatype History = History(
    completed: map<Key, seq<Bytes>>,   // the proofs of each key in order, the table's own first
    stored: map<Key, nat>,             // which of them the table holds
    failed: set<Key>)                  // keys whose latest write failed

  datatype State = State(
    outputs: map<Key, Bytes>,
    proofs: map<Key, Bytes>,
    writing: Option<(Key, Bytes)>,     // the queue stands between its insert and its write
    readers: seq<Reader>,
    answers: seq<Answer>,
    history: History)

  /** An answer given to a reader, whether memory or the table gave it, the number of the key's
      proofs the table had caught up with when the reader began, and the numbers it had caught up
      with and that were completed when the answer was given. */
  datatype Answer = Answer(key: Key, proof: Option<Bytes>, fromMemory: bool, since: nat, stored: nat, completed: nat)

  function AnswerNow(h: History, key: Key, proof: Option<Bytes>, fromMemory: bool, since: nat): Answer {
    Answer(key, proof, fromMemory, since, StoredCount(h, key), |CompletedOf(h, key)|)
  }

  datatype Step =
    | Complete(key: Key, proof: Bytes)
    | Write(succeeds: bool)
    | BeginRead(key: Key)
    | FinishRead(reader: nat)

  function Start(table: map<Key, Bytes>): State {
    State(map[], table, None, [], [],
      History(map k | k in table :: [table[k]], map k | k in table :: 0, {}))
  }

  function CompletedOf(h: History, key: Key): seq<Bytes> {
    if key in h.completed then h.completed[key] else []
  }

  /** How many of the key's proofs the table has caught up with. */
  function StoredCount(h: History, key: Key): nat {
    if key in h.stored then h.stored[key] + 1 else 0
  }

  predicate Enabled(s: State, a: Step) {
    match a
    case Complete(_, _) => s.writing.None?
    case Write(_) => s.writing.Some?
    case BeginRead(_) => true
    case FinishRead(i) => i < |s.readers|
  }

  function Apply(s: State, a: Step): State
    requires Enabled(s, a)
  {
    var h := s.history;
    match a
    case Complete(key, proof) =>
      s.(outputs := s.outputs[key := proof], writing := Some((key, proof)),
         history := h.(completed := h.completed[key := CompletedOf(h, key) + [proof]]))
    case Write(succeeds) =>
      var (key, proof) := s.writing.value;
      if succeeds then
        s.(proofs := s.proofs[key := proof], writing := None,
           history := h.(stored := h.stored[key := Latest(h, key)], failed := h.failed - {key}))
      else
        s.(writing := None, history := h.(failed := h.failed + {key}))
    case BeginRead(key) =>
      if key in s.outputs then
        s.(outputs := s.outputs - {key},
           answers := s.answers + [AnswerNow(h, key, Some(s.outputs[key]), true, StoredCount(h, key))])
      else
        s.(readers := s.readers + [Reader(key, StoredCount(h, key))])
    case FinishRead(i) =>
      var r := s.readers[i];
      s.(readers := s.readers[..i] + s.readers[i + 1..],
         answers := s.answers + [AnswerNow(h, r.key, Lookup(s.proofs, r.key), false, r.since)])
  }

  function Latest(h: History, key: Key): nat {
    if |CompletedOf(h, key)| == 0 then 0 else |CompletedOf(h, key)| - 1
  }

  function Execute(s: State, steps: seq<Step>): Option<State>
    decreases |steps|
  {
    if steps == [] then Some(s)
    else if !Enabled(s, steps[0]) then None
    else Execute(Apply(s, steps[0]), steps[1..])
  }

  ghost predicate Reachable(table: map<Key, Bytes>, s: State) {
    exists steps :: Execute(Start(table), steps) == Some(s)
  }

  /** The queue's steps for the proving tasks it receives, with no reader in between. */
  function QueueSteps(tasks: seq<Task>): seq<Step> {
    if tasks == [] then []
    else if tasks[0].proof.None? then QueueSteps(tasks[1..])
    else [Complete(tasks[0].key, tasks[0].proof.value), Write(tasks[0].written)] + QueueSteps(tasks[1..])
  }

  /** The queue's loop is the run of its steps alone. */
  lemma {:induction false} QueueFollowsLoop(s: State, tasks: seq<Task>)
    requires s.writing.None?
    ensures Execute(s, QueueSteps(tasks)).Some?
    ensures var r := Execute(s, QueueSteps(tasks)).value; (r.outputs, r.proofs) == RunTo(s.outputs, s.proofs, tasks)
    decreases |tasks|
  {
    if tasks != [] {
      var t, rest := tasks[0], QueueSteps(tasks[1..]);
      if t.proof.None? {
        QueueFollowsLoop(s, tasks[1..]);
      } else {
        var done := Apply(s, Complete(t.key, t.proof.value));
        assert QueueSteps(tasks)[1..] == [Write(t.written)] + rest && ([Write(t.written)] + rest)[1..] == rest;
        assert Execute(done, [Write(t.written)] + rest) == Execute(Apply(done, Write(t.written)), rest);
        QueueFollowsLoop(Apply(done, Write(t.written)), tasks[1..]);
      }
    }
  }

  /** The steps of one read with nothing in between. */
  function ReadSteps(s: State, key: Key): seq<Step> {
    [BeginRead(key)] + if key in s.outputs then [] else [FinishRead(|s.readers|)]
  }

  /** The steps of one read alone do what the call does: one answer is given, from memory first and
      from the table else, and only the key's memory entry is gone. */
  lemma {:induction false} ReadFollowsCall(s: State, key: Key)
    ensures var r := Execute(s, ReadSteps(s, key));
      && r.Some? && |r.value.answers| == |s.answers| + 1
      && r.value == s.(outputs := s.outputs - {key}, answers := s.answers + [r.value.answers[|s.answers|]])
      && r.value.answers[|s.answers|].key == key
      && r.value.answers[|s.answers|].proof ==
           if key in s.outputs then Some(s.outputs[key]) else Lookup(s.proofs, key)
  {
    var begun := Apply(s, BeginRead(key));
    if key in s.outputs {
      assert Execute(begun, []) == Some(begun);
    } else {
      var finish := FinishRead(|s.readers|);
      var done := Apply(begun, finish);
      assert ReadSteps(s, key)[1..] == [finish];
      assert Execute(begun, [finish]) == Execute(done, []) == Some(done);
      assert done.readers == s.readers;
    }
  }

  // ----- The invariant

  /** Memory holds the latest proof of its key; the table holds the stored one; and a key whose
      stored proof is not its latest is being written or its latest write failed. */
  ghost predicate KeyInv(s: State, key: Key) {
    var h, c := s.history, CompletedOf(s.history, key);
    && (key in h.completed ==> c != [])
    && (key in s.outputs ==> c != [] && s.outputs[key] == c[|c| - 1])
    && (key in s.proofs <==> key in h.stored)
    && (key in h.stored ==> h.stored[key] < |c| && s.proofs[key] == c[h.stored[key]])
    && (StoredCount(h, key) < |c| ==> key in h.failed || (s.writing.Some? && s.writing.value.0 == key))
  }

  ghost predicate WritingInv(s: State) {
    s.writing.Some? ==>
      var (key, proof) := s.writing.value;
      var c := CompletedOf(s.history, key);
      c != [] && c[|c| - 1] == proof
  }

  /** The first n proofs of a key, and what they leave a reader with. */
  function NthProof(c: seq<Bytes>, n: nat): Option<Bytes>
    requires n <= |c|
  {
    if n == 0 then None else Some(c[n - 1])
  }

  /** An answer from memory is the last proof completed when it was given; one from the table is
      the last it had caught up with then, and it never falls back. */
  ghost predicate AnswerOk(h: History, a: Answer) {
    && a.since <= a.stored <= a.completed <= |CompletedOf(h, a.key)|
    && (a.fromMemory ==> a.completed > 0)
    && a.proof == NthProof(CompletedOf(h, a.key), if a.fromMemory then a.completed else a.stored)
  }

  ghost predicate Inv(s: State) {
    && (forall key :: KeyInv(s, key))
    && WritingInv(s)
    && (forall i :: 0 <= i < |s.readers| ==> s.readers[i].since <= StoredCount(s.history, s.readers[i].key))
    && (forall i :: 0 <= i < |s.answers| ==> AnswerOk(s.history, s.answers[i]))
  }

  lemma {:induction false} AnswerStays(h: History, h': History, a: Answer)
    requires AnswerOk(h, a) && CompletedOf(h, a.key) <= CompletedOf(h', a.key)
    ensures AnswerOk(h', a)
  {
  }

  lemma {:induction false} CompleteKeeps(s: State, key: Key, proof: Bytes)
    requires Inv(s) && Enabled(s, Complete(key, proof))
    ensures Inv(Apply(s, Complete(key, proof)))
  {
    var s' := Apply(s, Complete(key, proof));
    forall k ensures KeyInv(s', k) {
      assert KeyInv(s, k);
    }
    forall i | 0 <= i < |s.answers| ensures AnswerOk(s'.history, s.answers[i]) {
      AnswerStays(s.history, s'.history, s.answers[i]);
    }
  }

  lemma {:induction false} WriteKeeps(s: State, succeeds: bool)
    requires Inv(s) && Enabled(s, Write(succeeds))
    ensures Inv(Apply(s, Write(succeeds)))
  {
    var s' := Apply(s, Write(succeeds));
    forall k ensures KeyInv(s', k) && StoredCount(s.history, k) <= StoredCount(s'.history, k) {
      assert KeyInv(s, k);
    }
    forall i | 0 <= i < |s.answers| ensures AnswerOk(s'.history, s.answers[i]) {
      AnswerStays(s.history, s'.history, s.answers[i]);
    }
  }

  lemma {:induction false} BeginReadKeeps(s: State, key: Key)
    requires Inv(s)
    ensures Inv(Apply(s, BeginRead(key)))
  {
    var s' := Apply(s, BeginRead(key));
    forall k ensures KeyInv(s', k) {
      assert KeyInv(s, k);
    }
    if key in s.outputs {
      assert KeyInv(s, key);
      assert AnswerOk(s.history, s'.answers[|s.answers|]);
    }
  }

  lemma {:induction false} FinishReadKeeps(s: State, i: nat)
    requires Inv(s) && Enabled(s, FinishRead(i))
    ensures Inv(Apply(s, FinishRead(i)))
  {
    var s' := Apply(s, FinishRead(i));
    var r := s.readers[i];
    forall k ensures KeyInv(s', k) {
      assert KeyInv(s, k);
    }
    assert KeyInv(s, r.key);
    assert AnswerOk(s.history, s'.answers[|s.answers|]);
    forall j | 0 <= j < |s'.readers| ensures s'.readers[j].since <= StoredCount(s.history, s'.readers[j].key) {
      assert s'.readers[j] == s.readers[if j < i then j else j + 1];
    }
  }

  lemma {:induction false} ExecuteKeeps(s: State, steps: seq<Step>)
    requires Inv(s) && Execute(s, steps).Some?
    ensures Inv(Execute(s, steps).value)
    decreases |steps|
  {
    hide Inv, Apply;
    if steps != [] {
      match steps[0] {
        case Complete(key, proof) => CompleteKeeps(s, key, proof);
        case Write(succeeds) => WriteKeeps(s, succeeds);
        case BeginRead(key) => BeginReadKeeps(s, key);
        case FinishRead(i) => FinishReadKeeps(s, i);
      }
      ExecuteKeeps(Apply(s, steps[0]), steps[1..]);
    }
  }

  lemma {:induction false} ReachableInv(table: map<Key, Bytes>, s: State)
    requires Reachable(table, s)
    ensures Inv(s)
  {
    var steps :| Execute(Start(table), steps) == Some(s);
    assert Inv(Start(table)) by {
      forall k ensures KeyInv(Start(table), k) {
      }
    }
    ExecuteKeeps(Start(table), steps);
  }

  // ----- What readers get

  /** What a read of the key returns if nothing comes between its two steps. */
  function ReadNow(s: State, key: Key): Option<Bytes> {
    if key in s.outputs then Some(s.outputs[key]) else Lookup(s.proofs, key)
  }

  function LatestProof(s: State, key: Key): Option<Bytes> {
    var c := CompletedOf(s.history, key);
    if c == [] then None else Some(c[|c| - 1])
  }

  /** No write of the key is pending, and the latest did not fail. */
  ghost predicate Settled(s: State, key: Key) {
    key !in s.history.failed && (s.writing.None? || s.writing.value.0 != key)
  }

  /** Agreement: unless the key is being written or its latest write failed, a read returns the
      last completed proof; and while the proof is still in memory it does in any case. */
  lemma {:induction false} ReadsAgree(table: map<Key, Bytes>, s: State, key: Key)
    requires Reachable(table, s)
    requires key in s.outputs || Settled(s, key)
    ensures ReadNow(s, key) == LatestProof(s, key)
  {
    ReachableInv(table, s);
    assert KeyInv(s, key);
  }

  /** Memory is never older than the database: it holds the last completed proof, and that is what
      a reader gets that begins now. */
  lemma {:induction false} MemoryIsLatest(table: map<Key, Bytes>, s: State, key: Key)
    requires Reachable(table, s) && key in s.outputs
    ensures LatestProof(s, key) == Some(s.outputs[key])
    ensures var answers := Apply(s, BeginRead(key)).answers;
      |answers| == |s.answers| + 1 && answers[|s.answers|].key == key && answers[|s.answers|].proof == LatestProof(s, key)
    ensures key in s.proofs ==>
      exists i :: 0 <= i < |CompletedOf(s.history, key)| && CompletedOf(s.history, key)[i] == s.proofs[key]
  {
    ReachableInv(table, s);
    assert KeyInv(s, key);
  }

  /** An older or missing answer needs all of: the latest proof taken out of memory by a reader,
      and its write pending or failed; and then the answer is what the table last stored. */
  lemma {:induction false} StaleReads(table: map<Key, Bytes>, s: State, key: Key)
    requires Reachable(table, s) && ReadNow(s, key) != LatestProof(s, key)
    ensures key !in s.outputs
    ensures key in s.history.failed || (s.writing.Some? && s.writing.value.0 == key)
    ensures StoredCount(s.history, key) < |CompletedOf(s.history, key)|
    ensures ReadNow(s, key) == if StoredCount(s.history, key) == 0 then None
                               else Some(CompletedOf(s.history, key)[StoredCount(s.history, key) - 1])
  {
    ReachableInv(table, s);
    assert KeyInv(s, key);
  }

  /** Every answer ever given, whatever came between the two steps of its reader: one taken from
      memory is the last proof completed by then; any other is the last the table had caught up
      with by then, which is no older than when its reader began, and empty only if it had none. */
  lemma {:induction false} AnswersAreFresh(table: map<Key, Bytes>, s: State, i: nat)
    requires Reachable(table, s) && i < |s.answers|
    ensures var a, c := s.answers[i], CompletedOf(s.history, s.answers[i].key);
      && a.since <= a.stored <= a.completed <= |c|
      && (if a.fromMemory then a.completed > 0 && a.proof == Some(c[a.completed - 1])
          else a.proof == if a.stored == 0 then None else Some(c[a.stored - 1]))
  {
    ReachableInv(table, s);
    assert AnswerOk(s.history, s.answers[i]);
  }

  // ----- Only readers empty memory

  /** From step number `from` on, no proof of the key is completed. */
  ghost predicate NoneCompleted(steps: seq<Step>, key: Key, from: nat) {
    forall i :: from <= i < |steps| ==> !(steps[i].Complete? && steps[i].key == key)
  }

  ghost predicate NoneReads(steps: seq<Step>, key: Key) {
    forall i :: 0 <= i < |steps| ==> steps[i] != BeginRead(key)
  }

  /** A completed proof stays in memory until a reader takes it or a later proof replaces it. */
  lemma {:induction false} StaysInMemory(s: State, key: Key, proof: Bytes, steps: seq<Step>)
    requires Enabled(s, Complete(key, proof)) && Execute(Apply(s, Complete(key, proof)), steps).Some?
    requires NoneCompleted(steps, key, 0) && NoneReads(steps, key)
    ensures var e := Execute(Apply(s, Complete(key, proof)), steps).value;
      key in e.outputs && e.outputs[key] == proof
  {
    MemoryKept(Apply(s, Complete(key, proof)), steps, key);
  }

  lemma {:induction false} MemoryKept(s: State, steps: seq<Step>, key: Key)
    requires Execute(s, steps).Some? && NoneCompleted(steps, key, 0) && NoneReads(steps, key)
    ensures Lookup(Execute(s, steps).value.outputs, key) == Lookup(s.outputs, key)
    decreases |steps|
  {
    if steps != [] {
      assert steps[0] != BeginRead(key);
      MemoryKept(Apply(s, steps[0]), steps[1..], key);
    }
  }

  /** A reader of the key began after the key's last completed proof. */
  ghost predicate TakenBy(steps: seq<Step>, key: Key, j: nat) {
    j < |steps| && steps[j] == BeginRead(key) && NoneCompleted(steps, key, j)
  }

  /** Memory holds the key, or a reader began after its last proof, or it never had one. */
  lemma {:induction false} HeldOrTaken(s: State, steps: seq<Step>, key: Key)
    requires Execute(s, steps).Some?
    ensures var e := Execute(s, steps).value;
      || key in e.outputs
      || (exists j :: TakenBy(steps, key, j))
      || (key !in s.outputs && NoneCompleted(steps, key, 0) && (Settled(s, key) ==> Settled(e, key)))
    decreases |steps|
  {
    if steps != [] {
      var a, later := steps[0], steps[1..];
      HeldOrTaken(Apply(s, a), later, key);
      if j: nat :| TakenBy(later, key, j) {
        assert later[j] == steps[j + 1];
        assert TakenBy(steps, key, j + 1);
      } else if key !in Execute(s, steps).value.outputs {
        assert NoneCompleted(later, key, 0);
        assert NoneCompleted(steps, key, 0);
        if a == BeginRead(key) {
          assert TakenBy(steps, key, 0);
        }
      }
    }
  }

  /** So an older or missing answer needs a reader of the key that began after its last proof. */
  lemma {:induction false} StaleNeedsReader(table: map<Key, Bytes>, steps: seq<Step>, key: Key)
    requires Execute(Start(table), steps).Some?
    requires var s := Execute(Start(table), steps).value; ReadNow(s, key) != LatestProof(s, key)
    ensures exists j :: TakenBy(steps, key, j)
  {
    StaleReads(table, Execute(Start(table), steps).value, key);
    HeldOrTaken(Start(table), steps, key);
  }
}
