/** The gateway's proof tree: an ordered map from chunk indices to nodes, and its merge step. */
module ProofTrees {
  import opened Proofs

  datatype ProofNode =
    | InProgress(subProofs: seq<IndexedProof>)
    | Proved(proof: IndexedProof)

  type Tree = map<nat, ProofNode>

  datatype SetResult = SetResult(tree: Tree, toCombine: Option<seq<IndexedProof>>)

  lemma {:induction false} LeastKey(keys: set<nat>, k: nat)
    requires k in keys
    ensures exists m :: m in keys && forall j :: j in keys ==> m <= j
    decreases k
  {
    if j :| j in keys && j < k {
      LeastKey(keys, j);
    }
  }

  /** `tree.range(..index).next_back()`: the greatest key below `index`. */
  function LowerKey(t: Tree, index: nat): (r: Option<nat>)
    ensures r.None? <==> forall k :: k in t ==> index <= k
    ensures r.Some? ==> r.value in t && r.value < index && forall k :: k in t && k < index ==> k <= r.value
  {
    if index == 0 then None
    else if index - 1 in t then Some(index - 1)
    else LowerKey(t, index - 1)
  }

  /** `tree.range((Excluded(index), Unbounded)).next()`: the least key above `index`. */
  function HigherKey(t: Tree, index: nat): (r: Option<nat>)
    ensures r.None? <==> forall k :: k in t ==> k <= index
    ensures r.Some? ==> r.value in t && index < r.value && forall k :: k in t && index < k ==> r.value <= k
  {
    var above := set k | k in t && index < k;
    if above == {} then
      assert forall k :: k in t && index < k ==> k in above;
      None
    else
      assert exists m :: m in above && forall j :: j in above ==> m <= j by {
        var any :| any in above;
        LeastKey(above, any);
      }
      var m :| m in above && forall k :: k in above ==> m <= k;
      assert forall k :: k in t && index < k ==> k in above;
      Some(m)
  }

  /** The proved neighbour to merge with and the two proofs in order: the lower one is tried first. */
  function Sibling(t: Tree, index: nat, proof: IndexedProof): Option<(nat, seq<IndexedProof>)> {
    var lower := LowerKey(t, index);
    if lower.Some? && t[lower.value].Proved? then
      Some((lower.value, [t[lower.value].proof, proof]))
    else
      var higher := HigherKey(t, index);
      if higher.Some? && t[higher.value].Proved? then
        Some((higher.value, [proof, t[higher.value].proof]))
      else
        None
  }

  /** What `set_proof` does to the map; a missing node makes the final `unwrap` panic. */
  function SetProofTo(t: Tree, index: nat, proof: IndexedProof): Panicking<SetResult> {
    if index !in t then Panic
    else
      match Sibling(t, index, proof)
      case Some((sibling, proofs)) =>
        Ok(SetResult((t - {sibling})[index := InProgress(proofs)], Some(proofs)))
      case None =>
        Ok(SetResult(t[index := Proved(proof)], None))
  }

  class ProofTree {
    var tree: Tree

    constructor ()
      ensures tree == map[]
    {
      tree := map[];
    }

    /** `isNew` is the condition the code asserts after inserting. */
    method InitNode(index: nat) returns (isNew: bool)
      modifies this
      ensures tree == old(tree)[index := InProgress([])]
      ensures isNew <==> index !in old(tree)
    {
      isNew := index !in tree;
      tree := tree[index := InProgress([])];
    }

    method SetProof(index: nat, proof: IndexedProof) returns (r: Panicking<Option<seq<IndexedProof>>>)
      modifies this
      ensures r.Panic? <==> SetProofTo(old(tree), index, proof).Panic?
      ensures r.Ok? ==> SetProofTo(old(tree), index, proof) == Ok(SetResult(tree, r.value))
    {
      var indexProofs: Option<(nat, seq<IndexedProof>)> := None;
      var lower := LowerKey(tree, index);
      if lower.Some? && tree[lower.value].Proved? {
        indexProofs := Some((lower.value, [tree[lower.value].proof, proof]));
      }
      if indexProofs.None? {
        var higher := HigherKey(tree, index);
        if higher.Some? && tree[higher.value].Proved? {
          indexProofs := Some((higher.value, [proof, tree[higher.value].proof]));
        }
      }
      var node: ProofNode;
      var toCombine: Option<seq<IndexedProof>>;
      match indexProofs {
        case Some((sibling, proofs)) =>
          tree := tree - {sibling};
          node, toCombine := InProgress(proofs), Some(proofs);
        case None =>
          node, toCombine := Proved(proof), None;
      }
      if index !in tree {
        return Panic;
      }
      tree := tree[index := node];
      return Ok(toCombine);
    }
  }

  // ----- The map in key order

  datatype Entry = Entry(key: nat, node: ProofNode)

  ghost predicate Sorted(e: seq<Entry>) {
    forall i, j :: 0 <= i < j < |e| ==> e[i].key < e[j].key
  }

  ghost predicate Listed(e: seq<Entry>, k: nat) {
    exists i :: 0 <= i < |e| && e[i].key == k
  }

  /** `e` lists exactly the bindings of `t`, in strictly increasing key order. */
  ghost predicate Represents(t: Tree, e: seq<Entry>) {
    && Sorted(e)
    && (forall i :: 0 <= i < |e| ==> e[i].key in t && t[e[i].key] == e[i].node)
    && (forall k {:trigger Listed(e, k)} :: k in t ==> Listed(e, k))
  }

  lemma {:induction false} GreatestKey(t: Tree)
    requires t != map[]
    ensures exists m :: m in t && forall k :: k in t ==> k <= m
  {
    var k :| k in t;
    var rest := t - {k};
    assert forall j :: j in t ==> j == k || j in rest;
    if rest != map[] {
      assert rest.Keys == t.Keys - {k};
      GreatestKey(rest);
      var m :| m in rest && forall j :: j in rest ==> j <= m;
      var top := if m <= k then k else m;
      assert top in t && forall j :: j in t ==> j <= top;
    } else {
      assert forall j :: j in t ==> j <= k;
    }
  }

  ghost function MaxKey(t: Tree): (m: nat)
    requires t != map[]
    ensures m in t && forall k :: k in t ==> k <= m
  {
    GreatestKey(t);
    var m :| m in t && forall k :: k in t ==> k <= m;
    m
  }

  /** The bindings of a map in key order, as iterating the ordered map gives them. */
  ghost function Entries(t: Tree): (e: seq<Entry>)
    ensures Represents(t, e)
    ensures |e| == |t|
    decreases |t|
  {
    if t == map[] then []
    else
      var m := MaxKey(t);
      assert (t - {m}).Keys == t.Keys - {m};
      assert |t.Keys - {m}| == |t.Keys| - 1;
      var init := Entries(t - {m});
      AppendLast(t, m, init);
      init + [Entry(m, t[m])]
  }

  lemma {:induction false} AppendLast(t: Tree, m: nat, init: seq<Entry>)
    requires m in t && forall k :: k in t ==> k <= m
    requires Represents(t - {m}, init)
    ensures Represents(t, init + [Entry(m, t[m])])
  {
    var e := init + [Entry(m, t[m])];
    forall k | k in t ensures Listed(e, k) {
      if k == m {
        assert e[|init|].key == m;
      } else {
        assert Listed(init, k);
        var i :| 0 <= i < |init| && init[i].key == k;
        assert e[i].key == k;
      }
    }
  }

  lemma {:induction false} DropLast(t: Tree, e: seq<Entry>)
    requires Represents(t, e) && e != []
    ensures Represents(t - {e[|e| - 1].key}, e[..|e| - 1])
  {
    var m := e[|e| - 1].key;
    var init := e[..|e| - 1];
    forall k | k in t - {m} ensures Listed(init, k) {
      assert Listed(e, k);
      var i :| 0 <= i < |e| && e[i].key == k;
      assert init[i].key == k;
    }
  }

  lemma {:induction false} LastIsMax(t: Tree, e: seq<Entry>, k: nat)
    requires Represents(t, e) && k in t
    ensures e != [] && k <= e[|e| - 1].key
  {
    assert Listed(e, k);
  }

  /** Key order determines the list: any representation of a map is its `Entries`. */
  lemma {:induction false} RepresentsUnique(t: Tree, e: seq<Entry>, f: seq<Entry>)
    requires Represents(t, e) && Represents(t, f)
    ensures e == f
    decreases |e|
  {
    if e == [] {
      if f != [] {
        LastIsMax(t, e, f[0].key);
      }
    } else {
      var last := e[|e| - 1];
      LastIsMax(t, f, last.key);
      LastIsMax(t, e, f[|f| - 1].key);
      DropLast(t, e);
      DropLast(t, f);
      RepresentsUnique(t - {last.key}, e[..|e| - 1], f[..|f| - 1]);
      assert e == e[..|e| - 1] + [last] && f == f[..|f| - 1] + [last];
    }
  }

  // ----- The list machine that `set_proof` refines

  /** The merge step on a plain list: position p receives its proof and absorbs a proved
      neighbour, the left one first; the merged entry keeps the key of position p. */
  ghost function ListSetProof(e: seq<Entry>, p: nat, proof: IndexedProof): (r: (seq<Entry>, Option<seq<IndexedProof>>))
    requires p < |e|
  {
    var key := e[p].key;
    if p > 0 && e[p - 1].node.Proved? then
      var proofs := [e[p - 1].node.proof, proof];
      (e[..p - 1] + [Entry(key, InProgress(proofs))] + e[p + 1..], Some(proofs))
    else if p + 1 < |e| && e[p + 1].node.Proved? then
      var proofs := [proof, e[p + 1].node.proof];
      (e[..p] + [Entry(key, InProgress(proofs))] + e[p + 2..], Some(proofs))
    else
      (e[p := Entry(key, Proved(proof))], None)
  }

  /** In a representation, the nearest keys of an entry are the entries beside it. */
  lemma {:induction false} NeighbourKeys(t: Tree, e: seq<Entry>, p: nat)
    requires Represents(t, e) && p < |e|
    ensures LowerKey(t, e[p].key) == if p > 0 then Some(e[p - 1].key) else None
    ensures HigherKey(t, e[p].key) == if p + 1 < |e| then Some(e[p + 1].key) else None
  {
    var lower := LowerKey(t, e[p].key);
    if lower.Some? {
      assert Listed(e, lower.value);
      var i :| 0 <= i < |e| && e[i].key == lower.value;
      assert e[p - 1].key <= lower.value;
    }
    var higher := HigherKey(t, e[p].key);
    if higher.Some? {
      assert Listed(e, higher.value);
      var i :| 0 <= i < |e| && e[i].key == higher.value;
      assert higher.value <= e[p + 1].key;
    }
  }

  lemma {:induction false} UpdateAt(t: Tree, e: seq<Entry>, p: nat, node: ProofNode)
    requires Represents(t, e) && p < |e|
    ensures Represents(t[e[p].key := node], e[p := Entry(e[p].key, node)])
  {
    var e' := e[p := Entry(e[p].key, node)];
    assert forall i :: 0 <= i < |e| ==> e'[i].key == e[i].key;
    forall k | k in t[e[p].key := node] ensures Listed(e', k) {
      assert Listed(e, k);
      var i :| 0 <= i < |e| && e[i].key == k;
      assert e'[i].key == k;
    }
  }

  lemma {:induction false} RemoveAt(t: Tree, e: seq<Entry>, q: nat)
    requires Represents(t, e) && q < |e|
    ensures Represents(t - {e[q].key}, e[..q] + e[q + 1..])
  {
    var e' := e[..q] + e[q + 1..];
    assert forall i :: 0 <= i < |e'| ==> e'[i] == if i < q then e[i] else e[i + 1];
    forall k | k in t - {e[q].key} ensures Listed(e', k) {
      assert Listed(e, k);
      var i :| 0 <= i < |e| && e[i].key == k;
      assert e'[if i < q then i else i - 1].key == k;
    }
  }

  /** Dropping the entry at q, a neighbour of p, and replacing the node at p. */
  lemma {:induction false} MergeAt(t: Tree, e: seq<Entry>, p: nat, q: nat, node: ProofNode)
    requires Represents(t, e) && p < |e| && q < |e|
    requires q + 1 == p || q == p + 1
    ensures var lo := if q < p then q else p;
            Represents((t - {e[q].key})[e[p].key := node], e[..lo] + [Entry(e[p].key, node)] + e[lo + 2..])
  {
    var lo := if q < p then q else p;
    var dropped := e[..q] + e[q + 1..];
    RemoveAt(t, e, q);
    assert dropped[lo] == e[p];
    UpdateAt(t - {e[q].key}, dropped, lo, node);
    assert dropped[lo := Entry(e[p].key, node)] == e[..lo] + [Entry(e[p].key, node)] + e[lo + 2..];
  }

  /** The list merge step is what `set_proof` does, for any list representing the map. */
  lemma {:induction false} SetProofOnEntries(t: Tree, e: seq<Entry>, p: nat, proof: IndexedProof)
    requires Represents(t, e) && p < |e|
    ensures SetProofTo(t, e[p].key, proof).Ok?
    ensures var r := SetProofTo(t, e[p].key, proof).value;
            Represents(r.tree, ListSetProof(e, p, proof).0) && r.toCombine == ListSetProof(e, p, proof).1
  {
    NeighbourKeys(t, e, p);
    if p > 0 && e[p - 1].node.Proved? {
      MergeAt(t, e, p, p - 1, InProgress([e[p - 1].node.proof, proof]));
    } else if p + 1 < |e| && e[p + 1].node.Proved? {
      MergeAt(t, e, p, p + 1, InProgress([proof, e[p + 1].node.proof]));
    } else {
      UpdateAt(t, e, p, Proved(proof));
    }
  }

  /** `set_proof` on the ordered map refines the list merge step on its entries in key order. */
  lemma {:induction false} SetProofRefinesList(t: Tree, p: nat, proof: IndexedProof)
    requires p < |Entries(t)|
    ensures SetProofTo(t, Entries(t)[p].key, proof).Ok?
    ensures var r := SetProofTo(t, Entries(t)[p].key, proof).value;
            (Entries(r.tree), r.toCombine) == ListSetProof(Entries(t), p, proof)
  {
    var e := Entries(t);
    SetProofOnEntries(t, e, p, proof);
    var r := SetProofTo(t, e[p].key, proof).value;
    RepresentsUnique(r.tree, Entries(r.tree), ListSetProof(e, p, proof).0);
  }

  /** Initialising a node above every key appends it. */
  lemma {:induction false} InitAppends(t: Tree, index: nat)
    requires forall k :: k in t ==> k < index
    ensures Entries(t[index := InProgress([])]) == Entries(t) + [Entry(index, InProgress([]))]
  {
    var e := Entries(t);
    var t' := t[index := InProgress([])];
    var e' := e + [Entry(index, InProgress([]))];
    forall k | k in t' ensures Listed(e', k) {
      if k == index {
        assert e'[|e|].key == k;
      } else {
        assert Listed(e, k);
        var i :| 0 <= i < |e| && e[i].key == k;
        assert e'[i].key == k;
      }
    }
    assert Represents(t', e');
    RepresentsUnique(t', Entries(t'), e');
  }
}
