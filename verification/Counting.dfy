/** Sums and multisets gathered over a sequence, under append, removal of the head, and update. */
module Counting {

  ghost function Sum<T>(f: T -> nat, q: seq<T>): nat {
    if q == [] then 0 else Sum(f, q[..|q| - 1]) + f(q[|q| - 1])
  }

  lemma {:induction false} SumAppend<T>(f: T -> nat, q: seq<T>, x: T)
    ensures Sum(f, q + [x]) == Sum(f, q) + f(x)
  {
    assert (q + [x])[..|q|] == q;
  }

  lemma {:induction false} SumHead<T>(f: T -> nat, q: seq<T>)
    requires q != []
    ensures Sum(f, q) == f(q[0]) + Sum(f, q[1..])
    decreases |q|
  {
    if |q| > 1 {
      var init := q[..|q| - 1];
      SumHead(f, init);
      assert q[1..][..|q| - 2] == init[1..];
    } else {
      assert q[..0] == [] && q[1..] == [];
    }
  }

  lemma {:induction false} SumUpdate<T>(f: T -> nat, q: seq<T>, i: nat, x: T)
    requires i < |q|
    ensures Sum(f, q[i := x]) + f(q[i]) == Sum(f, q) + f(x)
    decreases |q|
  {
    var init := q[..|q| - 1];
    if i < |q| - 1 {
      SumUpdate(f, init, i, x);
      assert q[i := x][..|q| - 1] == init[i := x];
    } else {
      assert q[i := x][..|q| - 1] == init;
    }
  }

  lemma {:induction false} SumAtLeast<T>(f: T -> nat, q: seq<T>, i: nat)
    requires i < |q|
    ensures Sum(f, q) >= f(q[i])
    decreases |q|
  {
    if i < |q| - 1 {
      SumAtLeast(f, q[..|q| - 1], i);
    }
  }

  lemma {:induction false} SumPositive<T>(f: T -> nat, q: seq<T>) returns (i: nat)
    requires Sum(f, q) > 0
    ensures i < |q| && f(q[i]) > 0
    decreases |q|
  {
    if f(q[|q| - 1]) > 0 {
      i := |q| - 1;
    } else {
      i := SumPositive(f, q[..|q| - 1]);
    }
  }

  lemma {:induction false} SumZero<T>(f: T -> nat, q: seq<T>)
    requires forall i :: 0 <= i < |q| ==> f(q[i]) == 0
    ensures Sum(f, q) == 0
    decreases |q|
  {
    if q != [] {
      SumZero(f, q[..|q| - 1]);
    }
  }

  ghost function Gather<T>(f: T -> multiset<nat>, q: seq<T>): multiset<nat> {
    if q == [] then multiset{} else Gather(f, q[..|q| - 1]) + f(q[|q| - 1])
  }

  lemma {:induction false} GatherAppend<T>(f: T -> multiset<nat>, q: seq<T>, x: T)
    ensures Gather(f, q + [x]) == Gather(f, q) + f(x)
  {
    assert (q + [x])[..|q|] == q;
  }

  lemma {:induction false} GatherHead<T>(f: T -> multiset<nat>, q: seq<T>)
    requires q != []
    ensures Gather(f, q) == f(q[0]) + Gather(f, q[1..])
    decreases |q|
  {
    if |q| > 1 {
      var init := q[..|q| - 1];
      GatherHead(f, init);
      assert q[1..][..|q| - 2] == init[1..];
    } else {
      assert q[..0] == [] && q[1..] == [];
    }
  }

  lemma {:induction false} GatherUpdate<T>(f: T -> multiset<nat>, q: seq<T>, i: nat, x: T)
    requires i < |q|
    ensures Gather(f, q[i := x]) + f(q[i]) == Gather(f, q) + f(x)
    decreases |q|
  {
    var init := q[..|q| - 1];
    if i < |q| - 1 {
      GatherUpdate(f, init, i, x);
      assert q[i := x][..|q| - 1] == init[i := x];
      var last := f(q[|q| - 1]);
      assert Gather(f, q[i := x]) == Gather(f, init[i := x]) + last;
      assert Gather(f, init[i := x]) + last + f(q[i]) == Gather(f, init[i := x]) + f(init[i]) + last;
      assert Gather(f, init) + f(x) + last == Gather(f, q) + f(x);
    } else {
      assert q[i := x][..|q| - 1] == init;
    }
  }

  lemma {:induction false} GatherHas<T>(f: T -> multiset<nat>, q: seq<T>, i: nat, k: nat)
    requires i < |q| && k in f(q[i])
    ensures k in Gather(f, q)
    decreases |q|
  {
    if i < |q| - 1 {
      GatherHas(f, q[..|q| - 1], i, k);
    }
  }

  lemma {:induction false} GatherEmpty<T>(f: T -> multiset<nat>, q: seq<T>)
    requires forall i :: 0 <= i < |q| ==> f(q[i]) == multiset{}
    ensures Gather(f, q) == multiset{}
    decreases |q|
  {
    if q != [] {
      GatherEmpty(f, q[..|q| - 1]);
    }
  }

  lemma {:induction false} GatherLacks<T>(f: T -> multiset<nat>, q: seq<T>, k: nat)
    requires k !in Gather(f, q)
    ensures forall i :: 0 <= i < |q| ==> k !in f(q[i])
  {
    forall i | 0 <= i < |q| ensures k !in f(q[i]) {
      if k in f(q[i]) {
        GatherHas(f, q, i, k);
      }
    }
  }

  /** Taking one occurrence away from a set, seen as a multiset. */
  lemma {:induction false} OneLess(rest: multiset<nat>, k: nat, keys: set<nat>)
    requires rest + multiset{k} == multiset(keys)
    ensures k in keys && k !in rest && rest == multiset(keys - {k})
  {
    var total: multiset<nat> := multiset(keys);
    assert total[k] == rest[k] + 1;
    forall j: nat ensures rest[j] == multiset(keys - {k})[j] {
      assert total[j] == rest[j] + multiset{k}[j];
    }
  }

  lemma {:induction false} DistinctInSet(q: seq<nat>, keys: set<nat>)
    requires |q| >= 2 && multiset(q) <= multiset(keys)
    ensures q[0] != q[1]
  {
    var all: multiset<nat> := multiset(q);
    assert q == [q[0]] + ([q[1]] + q[2..]);
    assert all == multiset{q[0]} + (multiset{q[1]} + multiset(q[2..]));
    assert all[q[0]] >= if q[0] == q[1] then 2 else 1;
    assert all[q[0]] <= multiset(keys)[q[0]];
  }

  lemma {:induction false} MoveAcross(a: multiset<nat>, w: multiset<nat>, r: multiset<nat>, x: multiset<nat>, rest: multiset<nat>)
    ensures (a + x) + w + r + rest == a + w + (x + r) + rest
  {
  }
}
