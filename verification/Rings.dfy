/**
 * Doubly linked lists, with the links given as maps: a ring of elements around a sentinel.  A list of siblings under
 * a parent is one too, the parent being its own sentinel.
 */
module Rings {

  ghost predicate Distinct<T>(list: seq<T>) { forall i, j :: 0 <= i < j < |list| ==> list[i] != list[j] }

  /** The neighbours of position `i`, the sentinel standing at both ends. */
  function NextOf<T>(list: seq<T>, i: nat, s: T): T {
    if i + 1 < |list| then list[i + 1] else s
  }

  function PrevOf<T>(list: seq<T>, i: nat, s: T): T {
    if 0 < i <= |list| then list[i - 1] else s
  }

  /** Walking `next` from the sentinel visits `list` in order and comes back. */
  ghost predicate Forward<T>(list: seq<T>, next: map<T, T>, s: T) {
    && s in next && next[s] == (if list == [] then s else list[0])
    && (forall i: nat :: i < |list| ==> list[i] in next && next[list[i]] == NextOf(list, i, s))
  }

  /** Walking `prev` from the sentinel visits `list` in reverse order and comes back. */
  ghost predicate Backward<T>(list: seq<T>, prev: map<T, T>, s: T) {
    && s in prev && prev[s] == PrevOf(list, |list|, s)
    && (forall i: nat :: i < |list| ==> list[i] in prev && prev[list[i]] == PrevOf(list, i, s))
  }

  ghost predicate Ring<T>(list: seq<T>, next: map<T, T>, prev: map<T, T>, s: T) {
    s !in list && Distinct(list) && Forward(list, next, s) && Backward(list, prev, s)
  }

  /** The element at index `k`, the sentinel at the end. */
  function AtOr<T>(list: seq<T>, k: nat, s: T): T {
    if k < |list| then list[k] else s
  }

  lemma {:induction false} RingStep<T>(list: seq<T>, next: map<T, T>, prev: map<T, T>, s: T, k: nat)
    requires Ring(list, next, prev, s) && k < |list|
    ensures list[k] in next && list[k] in prev && next[list[k]] == AtOr(list, k + 1, s)
            && prev[list[k]] == PrevOf(list, k, s)
  {
  }

  lemma {:induction false} RingStart<T>(list: seq<T>, next: map<T, T>, prev: map<T, T>, s: T)
    requires Ring(list, next, prev, s)
    ensures s in next && s in prev && next[s] == AtOr(list, 0, s) && prev[s] == PrevOf(list, |list|, s)
    ensures forall k: nat :: k < |list| ==> list[k] != s
  {
  }

  function InsertedAt<T>(list: seq<T>, k: nat, x: T): seq<T>
    requires k <= |list|
  {
    list[..k] + [x] + list[k..]
  }

  function RemovedAt<T>(list: seq<T>, k: nat): seq<T>
    requires k < |list|
  {
    list[..k] + list[k + 1..]
  }

  lemma {:induction false} InsertedIndex<T>(list: seq<T>, k: nat, x: T)
    requires k <= |list|
    ensures var l := InsertedAt(list, k, x);
            && |l| == |list| + 1 && l[k] == x
            && (forall i: nat :: i < k ==> l[i] == list[i]) && (forall i: nat :: k < i < |l| ==> l[i] == list[i - 1])
  {
  }

  lemma {:induction false} RemovedIndex<T>(list: seq<T>, k: nat)
    requires k < |list|
    ensures var l := RemovedAt(list, k);
            && |l| == |list| - 1
            && (forall i: nat :: i < k ==> l[i] == list[i]) && (forall i: nat :: k <= i < |l| ==> l[i] == list[i + 1])
  {
  }

  lemma {:induction false} InsertDistinct<T>(list: seq<T>, k: nat, x: T, s: T)
    requires Distinct(list) && k <= |list| && x !in list && s !in list && x != s
    ensures Distinct(InsertedAt(list, k, x)) && s !in InsertedAt(list, k, x)
  {
    var l := InsertedAt(list, k, x);
    InsertedIndex(list, k, x);
    hide InsertedAt;
    forall i, j | 0 <= i < j < |l| ensures l[i] != l[j] {
      if i != k && j != k {
        assert list[if i < k then i else i - 1] != list[if j < k then j else j - 1];
      }
    }
  }

  lemma {:induction false} InsertForward<T>(list: seq<T>, next: map<T, T>, s: T, k: nat, x: T)
    requires Forward(list, next, s) && Distinct(list) && s !in list && k <= |list| && x !in list && x != s
    ensures Forward(InsertedAt(list, k, x), next[x := AtOr(list, k, s)][PrevOf(list, k, s) := x], s)
  {
    var l, next' := InsertedAt(list, k, x), next[x := AtOr(list, k, s)][PrevOf(list, k, s) := x];
    InsertedIndex(list, k, x);
    hide InsertedAt;
    forall i: nat | i < |l| ensures l[i] in next' && next'[l[i]] == NextOf(l, i, s) {
      if i != k {
        var j := if i < k then i else i - 1;
        assert l[i] == list[j] && list[j] in next;
      }
    }
  }

  lemma {:induction false} InsertBackward<T>(list: seq<T>, prev: map<T, T>, s: T, k: nat, x: T)
    requires Backward(list, prev, s) && Distinct(list) && s !in list && k <= |list| && x !in list && x != s
    ensures Backward(InsertedAt(list, k, x), prev[x := PrevOf(list, k, s)][AtOr(list, k, s) := x], s)
  {
    var l, prev' := InsertedAt(list, k, x), prev[x := PrevOf(list, k, s)][AtOr(list, k, s) := x];
    InsertedIndex(list, k, x);
    hide InsertedAt;
    forall i: nat | i < |l| ensures l[i] in prev' && prev'[l[i]] == PrevOf(l, i, s) {
      if i != k {
        var j := if i < k then i else i - 1;
        assert l[i] == list[j] && list[j] in prev;
      }
    }
  }

  /** Linking a new element in between its neighbours inserts it there. */
  lemma {:induction false} RingInsert<T>(list: seq<T>, next: map<T, T>, prev: map<T, T>, s: T, k: nat, x: T)
    requires Ring(list, next, prev, s) && k <= |list| && x !in list && x != s
    ensures var a, b := PrevOf(list, k, s), AtOr(list, k, s);
            Ring(InsertedAt(list, k, x), next[x := b][a := x], prev[x := a][b := x], s)
  {
    hide Forward, Backward, Distinct, InsertedAt;
    InsertDistinct(list, k, x, s);
    InsertForward(list, next, s, k, x);
    InsertBackward(list, prev, s, k, x);
  }

  lemma {:induction false} RemoveDistinct<T>(list: seq<T>, k: nat, s: T)
    requires Distinct(list) && k < |list| && s !in list
    ensures Distinct(RemovedAt(list, k)) && s !in RemovedAt(list, k) && list[k] !in RemovedAt(list, k)
  {
    var l := RemovedAt(list, k);
    RemovedIndex(list, k);
    hide RemovedAt;
    forall i, j | 0 <= i < j < |l| ensures l[i] != l[j] {
      assert list[if i < k then i else i + 1] != list[if j < k then j else j + 1];
    }
  }

  lemma {:induction false} RemoveForward<T>(list: seq<T>, next: map<T, T>, s: T, k: nat)
    requires Forward(list, next, s) && Distinct(list) && s !in list && k < |list|
    ensures Forward(RemovedAt(list, k), next[PrevOf(list, k, s) := AtOr(list, k + 1, s)], s)
  {
    var l, next' := RemovedAt(list, k), next[PrevOf(list, k, s) := AtOr(list, k + 1, s)];
    RemovedIndex(list, k);
    hide RemovedAt;
    forall i: nat | i < |l| ensures l[i] in next' && next'[l[i]] == NextOf(l, i, s) {
      var j := if i < k then i else i + 1;
      assert l[i] == list[j] && list[j] in next;
    }
  }

  lemma {:induction false} RemoveBackward<T>(list: seq<T>, prev: map<T, T>, s: T, k: nat)
    requires Backward(list, prev, s) && Distinct(list) && s !in list && k < |list|
    ensures Backward(RemovedAt(list, k), prev[AtOr(list, k + 1, s) := PrevOf(list, k, s)], s)
  {
    var l, prev' := RemovedAt(list, k), prev[AtOr(list, k + 1, s) := PrevOf(list, k, s)];
    RemovedIndex(list, k);
    hide RemovedAt;
    forall i: nat | i < |l| ensures l[i] in prev' && prev'[l[i]] == PrevOf(l, i, s) {
      var j := if i < k then i else i + 1;
      assert l[i] == list[j] && list[j] in prev;
    }
  }

  /** Joining the neighbours of an element takes it out. */
  lemma {:induction false} RingRemove<T>(list: seq<T>, next: map<T, T>, prev: map<T, T>, s: T, k: nat)
    requires Ring(list, next, prev, s) && k < |list|
    ensures var a, b := PrevOf(list, k, s), AtOr(list, k + 1, s);
            Ring(RemovedAt(list, k), next[a := b], prev[b := a], s) && list[k] !in RemovedAt(list, k) && list[k] != s
  {
    hide Forward, Backward, Distinct, RemovedAt;
    RemoveDistinct(list, k, s);
    RemoveForward(list, next, s, k);
    RemoveBackward(list, prev, s, k);
  }

  /** The links of an element outside the ring do not matter. */
  lemma {:induction false} RingApart<T>(list: seq<T>, next: map<T, T>, prev: map<T, T>, s: T, x: T, y: T, z: T)
    requires Ring(list, next, prev, s) && x !in list && x != s
    ensures Ring(list, next[x := y], prev[x := z], s)
  {
  }
}
