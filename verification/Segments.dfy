/** The proof tree as a list of consecutive chunk segments, and what one merge step keeps. */
module Segments {
  import opened Proofs
  import opened ProofTrees

  /** First chunk a node stands for: its own index while it is fresh. */
  function Lo(en: Entry): nat {
    match en.node
    case Proved(p) => p.startChunk
    case InProgress(ps) => if ps == [] then en.key else ps[0].startChunk
  }

  /** Last chunk a node stands for. */
  function Hi(en: Entry): nat {
    match en.node
    case Proved(p) => p.endChunk
    case InProgress(ps) => if ps == [] then en.key else ps[|ps| - 1].endChunk
  }

  ghost predicate GoodEntry(en: Entry) {
    && Lo(en) <= en.key <= Hi(en)
    && (en.node.Proved? ==> Covers(en.node.proof))
    && (en.node.InProgress? && en.node.subProofs != [] ==> Combinable(en.node.subProofs))
  }

  /** The segments start at 0, follow one another without gap or overlap, and end before k. */
  ghost predicate Chain(e: seq<Entry>, k: nat) {
    && (e == [] <==> k == 0)
    && (e != [] ==> Lo(e[0]) == 0 && Hi(e[|e| - 1]) + 1 == k)
    && (forall i, j :: 0 <= i < j < |e| && j == i + 1 ==> Hi(e[i]) + 1 == Lo(e[j]))
  }

  ghost predicate NoProvedNeighbours(e: seq<Entry>) {
    forall i, j :: 0 <= i < j < |e| && j == i + 1 ==> !(e[i].node.Proved? && e[j].node.Proved?)
  }

  /** The invariant of the tree over the k chunks initialised so far. */
  ghost predicate WellFormed(e: seq<Entry>, k: nat) {
    && (forall i :: 0 <= i < |e| ==> GoodEntry(e[i]))
    && Chain(e, k)
    && NoProvedNeighbours(e)
  }

  // ----- Conservation

  /** The chunks a node holds: a proved node's proof, a combining node's sub-proofs, or a
      fresh node's own index. */
  function HeldBy(en: Entry): seq<nat> {
    match en.node
    case Proved(p) => Leaves(p.inner)
    case InProgress(ps) => if ps == [] then [en.key] else LeavesOf(ps)
  }

  function LeavesOf(ps: seq<IndexedProof>): seq<nat> {
    if ps == [] then [] else Leaves(ps[0].inner) + LeavesOf(ps[1..])
  }

  function Held(e: seq<Entry>): seq<nat> {
    if e == [] then [] else Held(e[..|e| - 1]) + HeldBy(e[|e| - 1])
  }

  lemma {:induction false} HeldByIsRange(en: Entry)
    requires GoodEntry(en)
    ensures HeldBy(en) == Interval(Lo(en), Hi(en) + 1)
  {
    if en.node.InProgress? && en.node.subProofs != [] {
      var ps := en.node.subProofs;
      assert ps[1..] == [ps[1]];
      assert LeavesOf(ps[1..]) == Leaves(ps[1].inner) + LeavesOf(ps[1..][1..]);
      IntervalConcat(ps[0].startChunk, ps[1].startChunk, ps[1].endChunk + 1);
    }
  }

  lemma {:induction false} WellFormedPrefix(e: seq<Entry>, k: nat)
    requires WellFormed(e, k) && e != []
    ensures WellFormed(e[..|e| - 1], Lo(e[|e| - 1]))
  {
    var init := e[..|e| - 1];
    if init != [] {
      assert init[0] == e[0] && init[|init| - 1] == e[|e| - 2];
      assert GoodEntry(e[|e| - 2]);
    }
  }

  /** Conservation and order: in key order the tree holds exactly the chunks 0, 1, ..., k - 1. */
  lemma {:induction false} HeldIsInterval(e: seq<Entry>, k: nat)
    requires WellFormed(e, k)
    ensures Held(e) == Interval(0, k)
    decreases |e|
  {
    if e != [] {
      var last := e[|e| - 1];
      WellFormedPrefix(e, k);
      HeldIsInterval(e[..|e| - 1], Lo(last));
      HeldByIsRange(last);
      IntervalConcat(0, Lo(last), k);
    }
  }

  lemma {:induction false} ChainOrder(e: seq<Entry>, k: nat, i: nat, j: nat)
    requires WellFormed(e, k) && i < j < |e|
    ensures Hi(e[i]) < Lo(e[j])
    decreases j - i
  {
    if i + 1 < j {
      ChainOrder(e, k, i, j - 1);
      assert GoodEntry(e[j - 1]);
      assert Hi(e[j - 1]) + 1 == Lo(e[j]);
    }
  }

  lemma {:induction false} KeysBelow(e: seq<Entry>, k: nat, i: nat)
    requires WellFormed(e, k) && i < |e|
    ensures e[i].key < k
  {
    assert GoodEntry(e[i]);
    assert GoodEntry(e[|e| - 1]);
    if i < |e| - 1 {
      ChainOrder(e, k, i, |e| - 1);
    }
  }

  /** Only one entry starts at chunk 0. */
  lemma {:induction false} FirstIsUnique(e: seq<Entry>, k: nat, i: nat)
    requires WellFormed(e, k) && i < |e| && Lo(e[i]) == 0
    ensures i == 0
  {
    if i > 0 {
      ChainOrder(e, k, 0, i);
    }
  }

  // ----- Steps

  lemma {:induction false} InitKeeps(e: seq<Entry>, k: nat)
    requires WellFormed(e, k)
    ensures WellFormed(e + [Entry(k, InProgress([]))], k + 1)
  {
    var e' := e + [Entry(k, InProgress([]))];
    assert forall i :: 0 <= i < |e| ==> e'[i] == e[i];
  }

  /** A proof for exactly the segment that node p stands for. */
  ghost predicate Answers(e: seq<Entry>, p: nat, proof: IndexedProof) {
    && p < |e| && e[p].node.InProgress?
    && Covers(proof) && proof.startChunk == Lo(e[p]) && proof.endChunk == Hi(e[p])
  }

  /** Merging positions lo and lo + 1 into one in-progress node keeps the segments. */
  lemma {:induction false} MergeKeeps(e: seq<Entry>, k: nat, lo: nat, en: Entry)
    requires WellFormed(e, k) && lo + 1 < |e|
    requires en.node.InProgress? && GoodEntry(en)
    requires Lo(en) == Lo(e[lo]) && Hi(en) == Hi(e[lo + 1])
    ensures WellFormed(e[..lo] + [en] + e[lo + 2..], k)
  {
    hide Lo, Hi, GoodEntry;
    var e' := e[..lo] + [en] + e[lo + 2..];
    assert forall i :: 0 <= i < lo ==> e'[i] == e[i];
    assert forall i :: lo < i < |e'| ==> e'[i] == e[i + 1];
    forall i, j | 0 <= i < j < |e'| && j == i + 1
      ensures Hi(e'[i]) + 1 == Lo(e'[j]) && !(e'[i].node.Proved? && e'[j].node.Proved?)
    {
      if i > lo {
        assert Hi(e[i + 1]) + 1 == Lo(e[j + 1]);
      } else if i == lo {
        assert Hi(e[lo + 1]) + 1 == Lo(e[lo + 2]);
      } else {
        assert Hi(e[i]) + 1 == Lo(e[i + 1]);
      }
    }
    assert e'[|e'| - 1] == if lo + 2 == |e| then en else e[|e| - 1];
  }

  lemma {:induction false} ProveKeeps(e: seq<Entry>, k: nat, p: nat, proof: IndexedProof)
    requires WellFormed(e, k) && Answers(e, p, proof)
    requires p > 0 ==> !e[p - 1].node.Proved?
    requires p + 1 < |e| ==> !e[p + 1].node.Proved?
    ensures WellFormed(e[p := Entry(e[p].key, Proved(proof))], k)
  {
    var e' := e[p := Entry(e[p].key, Proved(proof))];
    assert GoodEntry(e'[p]) by {
      assert GoodEntry(e[p]);
    }
    forall i | 0 <= i < |e| ensures Lo(e'[i]) == Lo(e[i]) && Hi(e'[i]) == Hi(e[i]) && GoodEntry(e'[i]) {
      assert i == p || e'[i] == e[i];
    }
    assert Chain(e', k) by {
      forall i, j | 0 <= i < j < |e| && j == i + 1 ensures Hi(e'[i]) + 1 == Lo(e'[j]) {
        assert Hi(e[i]) + 1 == Lo(e[j]);
      }
    }
    assert NoProvedNeighbours(e') by {
      forall i, j | 0 <= i < j < |e| && j == i + 1 ensures !(e'[i].node.Proved? && e'[j].node.Proved?) {
        assert i == p || j == p || (e'[i] == e[i] && e'[j] == e[j]);
      }
    }
  }

  /** Two neighbouring exact proofs make a good in-progress node over their joint segment. */
  lemma {:induction false} JoinedNode(e: seq<Entry>, k: nat, lo: nat, key: nat, ps: seq<IndexedProof>)
    requires WellFormed(e, k) && lo + 1 < |e| && |ps| == 2
    requires Covers(ps[0]) && ps[0].startChunk == Lo(e[lo]) && ps[0].endChunk == Hi(e[lo])
    requires Covers(ps[1]) && ps[1].startChunk == Lo(e[lo + 1]) && ps[1].endChunk == Hi(e[lo + 1])
    requires key == e[lo].key || key == e[lo + 1].key
    ensures Combinable(ps) && GoodEntry(Entry(key, InProgress(ps)))
  {
    assert GoodEntry(e[lo]) && GoodEntry(e[lo + 1]);
    assert Hi(e[lo]) + 1 == Lo(e[lo + 1]);
  }

  /** A node reaching from chunk 0 to chunk k - 1 is the whole list, and conversely. */
  lemma {:induction false} WholeRange(e: seq<Entry>, k: nat, p: nat)
    requires WellFormed(e, k) && p < |e|
    ensures |e| == 1 <==> Lo(e[p]) == 0 && Hi(e[p]) + 1 == k
  {
    if Lo(e[p]) == 0 && Hi(e[p]) + 1 == k {
      FirstIsUnique(e, k, p);
      assert GoodEntry(e[|e| - 1]);
      if |e| > 1 {
        ChainOrder(e, k, 0, |e| - 1);
      }
    }
  }

  /** What one `set_proof` keeps and produces, on the list of segments: the invariant holds
      again, the two proofs to combine are adjacent and exact, and the merged node is the
      only one left exactly when the two proofs reach from chunk 0 to chunk k - 1. */
  lemma {:induction false} SetProofKeeps(e: seq<Entry>, k: nat, p: nat, proof: IndexedProof)
    requires WellFormed(e, k) && Answers(e, p, proof)
    ensures WellFormed(ListSetProof(e, p, proof).0, k)
    ensures var (e', toCombine) := ListSetProof(e, p, proof);
      && |e'| == |e| - (if toCombine.Some? then 1 else 0)
      && (toCombine.Some? ==>
            && Combinable(toCombine.value)
            && (|e'| == 1 <==> toCombine.value[0].startChunk == 0 && toCombine.value[1].endChunk + 1 == k))
  {
    hide Chain, NoProvedNeighbours, Covers, Leaves, Interval;
    var (e', toCombine) := ListSetProof(e, p, proof);
    if toCombine.Some? {
      var left := p > 0 && e[p - 1].node.Proved?;
      var lo := if left then p - 1 else p;
      assert GoodEntry(if left then e[p - 1] else e[p + 1]);
      JoinedNode(e, k, lo, e[p].key, toCombine.value);
      var en := Entry(e[p].key, InProgress(toCombine.value));
      MergeKeeps(e, k, lo, en);
      assert e' == e[..lo] + [en] + e[lo + 2..];
      assert e'[lo] == en;
      WholeRange(e', k, lo);
    } else {
      ProveKeeps(e, k, p, proof);
    }
  }

  // ----- How long the tree can be

  function CountInProgress(e: seq<Entry>): nat {
    if e == [] then 0
    else CountInProgress(e[..|e| - 1]) + (if e[|e| - 1].node.InProgress? then 1 else 0)
  }

  /** No two neighbours are both proved, so the tree is at most twice the work in progress plus one. */
  lemma {:induction false} LengthBound(e: seq<Entry>)
    requires NoProvedNeighbours(e)
    ensures |e| <= 2 * CountInProgress(e) + 1
    decreases |e|
  {
    if e != [] {
      var init := e[..|e| - 1];
      if e[|e| - 1].node.InProgress? {
        LengthBound(init);
      } else if init != [] {
        assert e[|e| - 2].node.InProgress?;
        LengthBound(init[..|init| - 1]);
      }
    }
  }

  ghost function InProgressKeys(t: Tree): set<nat> {
    set k | k in t && t[k].InProgress?
  }

  lemma {:induction false} CountIsKeys(t: Tree, e: seq<Entry>)
    requires Represents(t, e)
    ensures CountInProgress(e) == |InProgressKeys(t)|
    decreases |e|
  {
    if e == [] {
      assert forall k :: k in t ==> Listed(e, k);
      assert InProgressKeys(t) == {};
    } else {
      var last := e[|e| - 1];
      var t' := t - {last.key};
      DropLast(t, e);
      CountIsKeys(t', e[..|e| - 1]);
      if last.node.InProgress? {
        assert InProgressKeys(t) == InProgressKeys(t') + {last.key};
      } else {
        assert InProgressKeys(t) == InProgressKeys(t');
      }
    }
  }
}
