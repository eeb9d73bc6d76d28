/** Symbolic proofs. A STARK proof is a term: a leaf for one converted chunk, or the
    combination of two proofs together with the flag it was combined under. What a proof
    establishes is its in-order list of chunks. */
module Proofs {

  datatype Option<+T> = None | Some(value: T)

  /** The result of code that can stop on `panic!`, `assert!`, `unwrap` or an index out of bounds. */
  datatype Panicking<+T> = Panic | Ok(value: T)

  datatype Proof =
    | Leaf(chunk: nat)
    | Node(left: Proof, right: Proof, complete: bool)

  /** A proof with the inclusive chunk range it is said to cover. */
  datatype IndexedProof = IndexedProof(inner: Proof, startChunk: nat, endChunk: nat)

  /** The symbolic result of the compress and embed phases on a combined proof. */
  datatype EmbedProof = EmbedProof(combined: Proof)

  function Leaves(p: Proof): seq<nat> {
    match p
    case Leaf(i) => [i]
    case Node(l, r, _) => Leaves(l) + Leaves(r)
  }

  /** The chunks lo, lo + 1, ..., hi - 1. */
  function Interval(lo: nat, hi: nat): seq<nat>
    requires lo <= hi
  {
    seq(hi - lo, i requires 0 <= i => lo + i)
  }

  /** The claimed range is the real one: the leaves are exactly startChunk .. endChunk, in order. */
  ghost predicate Covers(p: IndexedProof) {
    p.startChunk <= p.endChunk &&
    Leaves(p.inner) == Interval(p.startChunk, p.endChunk + 1)
  }

  /** Two proofs the combine phase accepts: each exact, and adjacent in order. */
  ghost predicate Combinable(ps: seq<IndexedProof>) {
    && |ps| == 2
    && Covers(ps[0]) && Covers(ps[1])
    && ps[0].endChunk + 1 == ps[1].startChunk
  }

  lemma {:induction false} IntervalConcat(a: nat, b: nat, c: nat)
    requires a <= b <= c
    ensures Interval(a, b) + Interval(b, c) == Interval(a, c)
  {
  }

  /** Combining adjacent proofs gives a proof whose leaves are exactly the joint range. */
  lemma {:induction false} CombinedCovers(ps: seq<IndexedProof>, flag: bool)
    requires Combinable(ps)
    ensures Covers(IndexedProof(Node(ps[0].inner, ps[1].inner, flag), ps[0].startChunk, ps[1].endChunk))
  {
    IntervalConcat(ps[0].startChunk, ps[1].startChunk, ps[1].endChunk + 1);
  }
}
