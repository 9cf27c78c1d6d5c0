/**
 * The links of TinyXML nodes as values: what each operation does to the parent, sibling and child pointers, and
 * the shape of a well-formed document that every operation keeps.
 */
module XmlLinks {
  import opened Bytes
  import opened Rings

  /** The pointers of a node, and the children they are to link. */
  datatype Cell<T> = Cell(parent: Option<T>, prev: Option<T>, next: Option<T>, first: Option<T>, last: Option<T>,
                          children: seq<T>)

  type Cells<T> = map<T, Cell<T>>

  /** The neighbours of position `k` of a list. */
  function Before<T>(list: seq<T>, k: nat): Option<T> { if 0 < k <= |list| then Some(list[k - 1]) else None }

  function Behind<T>(list: seq<T>, k: nat): Option<T> { if k < |list| then Some(list[k]) else None }

  /** Child `c` of `p` stands at index `i` and is linked to its neighbours. */
  predicate ChildAt<T(==)>(s: Cells<T>, p: T, list: seq<T>, i: nat)
    requires i < |list|
  {
    list[i] in s && s[list[i]].parent == Some(p) && s[list[i]].prev == Before(list, i)
    && s[list[i]].next == Behind(list, i + 1)
  }

  /** The sibling walks below `p`, forward and backward, visit its children and their reverse. */
  ghost predicate Siblings<T>(s: Cells<T>, p: T)
    requires p in s
  {
    var list := s[p].children;
    && Distinct(list) && p !in list && s[p].first == Behind(list, 0) && s[p].last == Before(list, |list|)
    && forall i: nat :: i < |list| ==> ChildAt(s, p, list, i)
  }

  /** Whole trees; `depth` bears witness that no node is among its own descendants. */
  ghost predicate Forest<T>(s: Cells<T>, depth: map<T, nat>) {
    && (forall n :: n in s ==> n in depth)
    && (forall p :: p in s ==> Siblings(s, p))
    && (forall p, c :: p in s && c in s[p].children ==> c in depth && depth[p] < depth[c])
    && (forall c :: c in s && s[c].parent.Some? ==> s[c].parent.value in s && c in s[s[c].parent.value].children)
  }

  lemma {:induction false} ChildFacts<T>(s: Cells<T>, p: T, c: T)
    requires p in s && Siblings(s, p) && c in s[p].children
    ensures c in s && s[c].parent == Some(p) && c != p
  {
    var i: nat :| i < |s[p].children| && s[p].children[i] == c;
    assert ChildAt(s, p, s[p].children, i);
  }

  /** A node whose own links down, and whose children's links, were not touched. */
  lemma {:induction false} SiblingsFrame<T>(s: Cells<T>, s': Cells<T>, p: T)
    requires p in s && p in s' && Siblings(s, p)
    requires s'[p].children == s[p].children && s'[p].first == s[p].first && s'[p].last == s[p].last
    requires forall c :: c in s[p].children ==>
               c in s && c in s' && s'[c].parent == s[c].parent && s'[c].prev == s[c].prev && s'[c].next == s[c].next
    ensures Siblings(s', p)
  {
    var list := s[p].children;
    forall i: nat | i < |list| ensures ChildAt(s', p, list, i) {
      assert ChildAt(s, p, list, i) && list[i] in list;
    }
  }

  // ------------------------------------------------------------------ insertion

  /** What linking `n` between the children `a` and `b` of `p` does, either being missing at an end of the list. */
  function Spliced<T>(s: Cells<T>, p: T, n: T, a: Option<T>, b: Option<T>, children: seq<T>): Cells<T>
    requires p in s && n in s && (a.Some? ==> a.value in s) && (b.Some? ==> b.value in s)
  {
    var s1 := s[n := s[n].(parent := Some(p), prev := a, next := b)];
    var s2 := if b.Some? then s1[b.value := s1[b.value].(prev := Some(n))] else s1[p := s1[p].(last := Some(n))];
    var s3 := if a.Some? then s2[a.value := s2[a.value].(next := Some(n))] else s2[p := s2[p].(first := Some(n))];
    s3[p := s3[p].(children := children)]
  }

  function Inserted<T>(s: Cells<T>, p: T, n: T, k: nat): Cells<T>
    requires p in s && n in s && k <= |s[p].children| && forall c :: c in s[p].children ==> c in s
  {
    var list := s[p].children;
    Spliced(s, p, n, Before(list, k), Behind(list, k), InsertedAt(list, k, n))
  }

  /** A detached node that is not among the ancestors of `p`. */
  ghost predicate CanInsert<T>(s: Cells<T>, depth: map<T, nat>, p: T, n: T, k: nat) {
    && Forest(s, depth) && p in s && n in s && k <= |s[p].children|
    && s[n].parent.None? && p in depth && n in depth && depth[p] < depth[n]
  }

  lemma {:induction false} InsertApart<T>(s: Cells<T>, depth: map<T, nat>, p: T, n: T, k: nat)
    requires CanInsert(s, depth, p, n, k)
    ensures Siblings(s, p) && p != n && n !in s[p].children && p !in s[p].children
    ensures forall c :: c in s[p].children ==> c in s && s[c].parent == Some(p)
  {
    hide Siblings;
    assert Siblings(s, p);
    forall c | c in s[p].children ensures c in s && s[c].parent == Some(p) && c != p {
      ChildFacts(s, p, c);
    }
  }

  /** The cells after an insertion, one by one. */
  lemma {:induction false} InsertCells<T>(s: Cells<T>, p: T, n: T, k: nat)
    requires p in s && n in s && k <= |s[p].children| && (forall c :: c in s[p].children ==> c in s)
    requires p != n && n !in s[p].children && p !in s[p].children
    ensures var s', list := Inserted(s, p, n, k), s[p].children;
            && s'.Keys == s.Keys
            && s'[n] == s[n].(parent := Some(p), prev := Before(list, k), next := Behind(list, k))
            && s'[p] == s[p].(first := if k == 0 then Some(n) else s[p].first,
                              last := if k == |list| then Some(n) else s[p].last, children := InsertedAt(list, k, n))
            && (forall c :: c in list ==>
                  s'[c] == s[c].(next := if Before(list, k) == Some(c) then Some(n) else s[c].next,
                                 prev := if Behind(list, k) == Some(c) then Some(n) else s[c].prev))
            && (forall q :: q in s && q != n && q != p && q !in list ==> s'[q] == s[q])
  {
    hide InsertedAt;
  }

  lemma {:induction false} InsertSiblings<T>(s: Cells<T>, depth: map<T, nat>, p: T, n: T, k: nat)
    requires CanInsert(s, depth, p, n, k)
    ensures forall c :: c in s[p].children ==> c in s
    ensures p in Inserted(s, p, n, k) && Siblings(Inserted(s, p, n, k), p)
  {
    hide Forest, InsertedAt, Inserted, Distinct, ChildAt;
    InsertApart(s, depth, p, n, k);
    InsertCells(s, p, n, k);
    var s', list := Inserted(s, p, n, k), s[p].children;
    var l := InsertedAt(list, k, n);
    InsertedIndex(list, k, n);
    InsertDistinct(list, k, n, p);
    forall i: nat | i < |l| ensures ChildAt(s', p, l, i) {
      InsertedChild(s, depth, p, n, k, i);
    }
  }

  lemma {:induction false} InsertedChild<T>(s: Cells<T>, depth: map<T, nat>, p: T, n: T, k: nat, i: nat)
    requires CanInsert(s, depth, p, n, k) && i <= |s[p].children|
    ensures forall c :: c in s[p].children ==> c in s
    ensures |InsertedAt(s[p].children, k, n)| == |s[p].children| + 1
    ensures ChildAt(Inserted(s, p, n, k), p, InsertedAt(s[p].children, k, n), i)
  {
    hide Forest, InsertedAt, Inserted, Distinct, Siblings;
    InsertApart(s, depth, p, n, k);
    InsertCells(s, p, n, k);
    var list := s[p].children;
    InsertedIndex(list, k, n);
    if i != k {
      var j := if i < k then i else i - 1;
      SiblingAt(s, p, j);
      NeighbourIs(list, k, j);
    }
  }

  lemma {:induction false} SiblingAt<T>(s: Cells<T>, p: T, j: nat)
    requires p in s && Siblings(s, p) && j < |s[p].children|
    ensures Distinct(s[p].children) && s[p].children[j] in s[p].children && ChildAt(s, p, s[p].children, j)
  {
  }

  /** In a list without duplicates an element is the neighbour of only one position on each side. */
  lemma {:induction false} NeighbourIs<T>(list: seq<T>, k: nat, j: nat)
    requires Distinct(list) && k <= |list| && j < |list|
    ensures Before(list, k) == Some(list[j]) <==> k == j + 1
    ensures Behind(list, k) == Some(list[j]) <==> k == j
  {
  }

  /** Only `p` gains a child, and only `n` gains a parent. */
  ghost predicate Grew<T>(s: Cells<T>, s': Cells<T>, p: T, n: T) {
    && s'.Keys == s.Keys && p in s && n in s
    && (forall q :: q in s ==> s'[q].parent == if q == n then Some(p) else s[q].parent)
    && (forall q :: q in s && q != p ==> s'[q].children == s[q].children)
    && n in s'[p].children && (forall c :: c in s[p].children ==> c in s'[p].children)
    && (forall c :: c in s'[p].children ==> c == n || c in s[p].children)
  }

  lemma {:induction false} InsertGrew<T>(s: Cells<T>, depth: map<T, nat>, p: T, n: T, k: nat)
    requires CanInsert(s, depth, p, n, k)
    ensures forall c :: c in s[p].children ==> c in s
    ensures Grew(s, Inserted(s, p, n, k), p, n)
  {
    hide InsertedAt, Inserted, Siblings, Forest;
    InsertApart(s, depth, p, n, k);
    InsertCells(s, p, n, k);
    InsertedMembers(s[p].children, k, n);
    var s' := Inserted(s, p, n, k);
    forall q | q in s ensures s'[q].parent == if q == n then Some(p) else s[q].parent {
      if q != n && q != p && q !in s[p].children {
        assert s'[q] == s[q];
      }
    }
    forall q | q in s && q != p ensures s'[q].children == s[q].children {
      if q != n && q !in s[p].children {
        assert s'[q] == s[q];
      }
    }
    var l := InsertedAt(s[p].children, k, n);
    assert s'[p].children == l && n in l;
  }

  lemma {:induction false} GrewTree<T>(s: Cells<T>, s': Cells<T>, depth: map<T, nat>, p: T, n: T)
    requires Forest(s, depth) && Grew(s, s', p, n) && depth[p] < depth[n]
    ensures forall q :: q in s' ==> q in depth
    ensures forall q, c :: q in s' && c in s'[q].children ==> c in depth && depth[q] < depth[c]
    ensures s[n].parent.None? ==>
              forall c :: c in s' && s'[c].parent.Some?
                  ==> s'[c].parent.value in s' && c in s'[s'[c].parent.value].children
  {
    hide Siblings;
  }

  lemma {:induction false} OthersKept<T>(s: Cells<T>, depth: map<T, nat>, p: T, n: T, k: nat, q: T)
    requires CanInsert(s, depth, p, n, k) && q in s && q != p
    ensures forall c :: c in s[p].children ==> c in s
    ensures q in Inserted(s, p, n, k) && Siblings(Inserted(s, p, n, k), q)
  {
    OthersApart(s, depth, p, n, q);
    hide InsertedAt, Inserted, Siblings, Forest;
    InsertApart(s, depth, p, n, k);
    InsertCells(s, p, n, k);
    SiblingsFrame(s, Inserted(s, p, n, k), q);
  }

  /** Inserting keeps every document well formed. */
  lemma {:induction false} InsertKeeps<T>(s: Cells<T>, depth: map<T, nat>, p: T, n: T, k: nat)
    requires CanInsert(s, depth, p, n, k)
    ensures forall c :: c in s[p].children ==> c in s
    ensures Forest(Inserted(s, p, n, k), depth)
  {
    hide Inserted, Siblings, Grew, Forest;
    InsertGrew(s, depth, p, n, k);
    GrewTree(s, Inserted(s, p, n, k), depth, p, n);
    AllSiblings(s, depth, p, n, k);
    IsForest(Inserted(s, p, n, k), depth);
  }

  lemma {:induction false} IsForest<T>(s: Cells<T>, depth: map<T, nat>)
    requires forall n :: n in s ==> n in depth
    requires forall p :: p in s ==> Siblings(s, p)
    requires forall p, c :: p in s && c in s[p].children ==> c in depth && depth[p] < depth[c]
    requires forall c :: c in s && s[c].parent.Some? ==> s[c].parent.value in s && c in s[s[c].parent.value].children
    ensures Forest(s, depth)
  {
    hide Siblings;
  }

  lemma {:induction false} AllSiblings<T>(s: Cells<T>, depth: map<T, nat>, p: T, n: T, k: nat)
    requires CanInsert(s, depth, p, n, k)
    ensures forall c :: c in s[p].children ==> c in s
    ensures Inserted(s, p, n, k).Keys == s.Keys
    ensures forall q :: q in Inserted(s, p, n, k) ==> Siblings(Inserted(s, p, n, k), q)
  {
    hide Inserted, Siblings, Forest, Grew;
    InsertGrew(s, depth, p, n, k);
    GrewKeys(s, Inserted(s, p, n, k), p, n);
    forall q | q in Inserted(s, p, n, k) ensures Siblings(Inserted(s, p, n, k), q) {
      if q != p {
        OthersKept(s, depth, p, n, k, q);
      } else {
        InsertSiblings(s, depth, p, n, k);
      }
    }
  }

  lemma {:induction false} GrewKeys<T>(s: Cells<T>, s': Cells<T>, p: T, n: T)
    requires Grew(s, s', p, n)
    ensures s'.Keys == s.Keys && p in s && n in s
  {
  }

  /** Another node's children are neither the new node nor its new siblings. */
  lemma {:induction false} OthersApart<T>(s: Cells<T>, depth: map<T, nat>, p: T, n: T, q: T)
    requires Forest(s, depth) && p in s && q in s && q != p && n in s && s[n].parent.None?
    ensures Siblings(s, q) && forall c :: c in s[q].children ==> c in s && c != n
    ensures forall c :: c in s[q].children ==> c !in s[p].children
  {
    hide Siblings;
    forall c | c in s[q].children ensures c in s && s[c].parent == Some(q) {
      ChildFacts(s, q, c);
    }
    forall c | c in s[p].children ensures c in s && s[c].parent == Some(p) {
      ChildFacts(s, p, c);
    }
  }

  lemma {:induction false} InsertedMembers<T>(list: seq<T>, k: nat, x: T)
    requires k <= |list|
    ensures x in InsertedAt(list, k, x) && forall y :: y in list ==> y in InsertedAt(list, k, x)
    ensures forall y :: y in InsertedAt(list, k, x) ==> y == x || y in list
  {
    var l := InsertedAt(list, k, x);
    forall y ensures y in l <==> y == x || y in list {
      if y in list {
        var i :| 0 <= i < |list| && list[i] == y;
        assert l[if i < k then i else i + 1] == y;
      } else if y == x {
        assert l[k] == y;
      }
    }
  }

  // -------------------------------------------------------------------- removal

  /** What joining the neighbours of the child at index `k` does. */
  function Unlinked<T>(s: Cells<T>, p: T, k: nat): Cells<T>
    requires p in s && k < |s[p].children| && forall c :: c in s[p].children ==> c in s
  {
    var list := s[p].children;
    var a, b := Before(list, k), Behind(list, k + 1);
    var s1 := if b.Some? then s[b.value := s[b.value].(prev := a)] else s[p := s[p].(last := a)];
    var s2 := if a.Some? then s1[a.value := s1[a.value].(next := b)] else s1[p := s1[p].(first := b)];
    s2[p := s2[p].(children := RemovedAt(list, k))]
  }

  /** Whether `c` is `r` or one of its descendants. */
  ghost predicate Under<T>(s: Cells<T>, depth: map<T, nat>, c: T, r: T)
    decreases if c in depth then depth[c] else 0
  {
    c == r
    || (c in s && c in depth && s[c].parent.Some? && s[c].parent.value in depth && depth[s[c].parent.value] < depth[c]
        && Under(s, depth, s[c].parent.value, r))
  }

  /** The nodes that deleting `r` leaves. */
  ghost function Without<T>(s: Cells<T>, depth: map<T, nat>, r: T): set<T> {
    set c | c in s && !Under(s, depth, c, r)
  }

  ghost function Restricted<T>(s: Cells<T>, keep: set<T>): Cells<T> {
    map c | c in s && c in keep :: s[c]
  }

  /** The cells after the child at index `k` is unlinked and deleted with everything below it. */
  ghost function Removed<T>(s: Cells<T>, depth: map<T, nat>, p: T, k: nat): Cells<T>
    requires p in s && k < |s[p].children| && forall c :: c in s[p].children ==> c in s
  {
    Restricted(Unlinked(s, p, k), Without(s, depth, s[p].children[k]))
  }

  lemma {:induction false} UnlinkCells<T>(s: Cells<T>, p: T, k: nat)
    requires p in s && k < |s[p].children| && (forall c :: c in s[p].children ==> c in s) && p !in s[p].children
    ensures var s', list := Unlinked(s, p, k), s[p].children;
            var a, b := Before(list, k), Behind(list, k + 1);
            && s'.Keys == s.Keys
            && s'[p] == s[p].(first := if k == 0 then b else s[p].first, last := if k + 1 == |list| then a
                              else s[p].last, children := RemovedAt(list, k))
            && (forall c :: c in list ==>
                  s'[c] == s[c].(next := if a == Some(c) then b else s[c].next, prev := if b == Some(c) then a
                                 else s[c].prev))
            && (forall q :: q in s && q != p && q !in list ==> s'[q] == s[q])
  {
    hide RemovedAt;
  }

  lemma {:induction false} ChildrenApart<T>(s: Cells<T>, depth: map<T, nat>, p: T)
    requires Forest(s, depth) && p in s
    ensures Siblings(s, p) && p !in s[p].children && forall c :: c in s[p].children ==> c in s && s[c].parent == Some(p)
  {
    hide Siblings;
    assert Siblings(s, p);
    forall c | c in s[p].children ensures c in s && s[c].parent == Some(p) && c != p {
      ChildFacts(s, p, c);
    }
  }

  lemma {:induction false} UnlinkSiblings<T>(s: Cells<T>, depth: map<T, nat>, p: T, k: nat)
    requires Forest(s, depth) && p in s && k < |s[p].children|
    ensures forall c :: c in s[p].children ==> c in s
    ensures p in Unlinked(s, p, k) && Siblings(Unlinked(s, p, k), p)
  {
    hide Forest, RemovedAt, Unlinked, Distinct;
    ChildrenApart(s, depth, p);
    UnlinkCells(s, p, k);
    var s', list := Unlinked(s, p, k), s[p].children;
    var l := RemovedAt(list, k);
    RemovedIndex(list, k);
    RemoveDistinct(list, k, p);
    forall i: nat | i < |l| ensures ChildAt(s', p, l, i) {
      var j := if i < k then i else i + 1;
      assert ChildAt(s, p, list, j) && l[i] == list[j] && list[j] in list;
      UnlinkNeighbours(list, k, i);
    }
  }

  /** The neighbours in the shortened list. */
  lemma {:induction false} UnlinkNeighbours<T>(list: seq<T>, k: nat, i: nat)
    requires Distinct(list) && k < |list| && i + 1 < |list|
    ensures var l, j := RemovedAt(list, k), if i < k then i else i + 1;
            && Behind(l, i + 1) == (if Before(list, k) == Some(list[j]) then Behind(list, k + 1)
                                    else Behind(list, j + 1))
            && Before(l, i) == (if Behind(list, k + 1) == Some(list[j]) then Before(list, k) else Before(list, j))
  {
    var j := if i < k then i else i + 1;
    NeighbourIs(list, k, j);
    NeighbourIs(list, k + 1, j);
    RemovedIndex(list, k);
    hide Distinct, RemovedAt;
  }

  /** Only `p` loses a child. */
  ghost predicate Shrank<T>(s: Cells<T>, s': Cells<T>, p: T, r: T) {
    && s'.Keys == s.Keys && p in s && r in s[p].children
    && (forall q :: q in s ==> s'[q].parent == s[q].parent)
    && (forall q :: q in s && q != p ==> s'[q].children == s[q].children)
    && r !in s'[p].children && (forall c :: c in s'[p].children ==> c in s[p].children)
    && (forall c :: c in s[p].children && c != r ==> c in s'[p].children)
  }

  lemma {:induction false} RemovedMembers<T>(list: seq<T>, k: nat)
    requires k < |list| && Distinct(list)
    ensures list[k] !in RemovedAt(list, k)
    ensures forall y :: y in RemovedAt(list, k) ==> y in list
    ensures forall y :: y in list && y != list[k] ==> y in RemovedAt(list, k)
  {
    var l := RemovedAt(list, k);
    forall y | y in list && y != list[k] ensures y in l {
      var i :| 0 <= i < |list| && list[i] == y;
      assert l[if i < k then i else i - 1] == y;
    }
  }

  lemma {:induction false} SiblingsDistinct<T>(s: Cells<T>, p: T)
    requires p in s && Siblings(s, p)
    ensures Distinct(s[p].children)
  {
  }

  lemma {:induction false} UnlinkShrank<T>(s: Cells<T>, depth: map<T, nat>, p: T, k: nat)
    requires Forest(s, depth) && p in s && k < |s[p].children|
    ensures forall c :: c in s[p].children ==> c in s
    ensures Shrank(s, Unlinked(s, p, k), p, s[p].children[k])
  {
    hide RemovedAt, Unlinked, Siblings, Forest, Distinct;
    ChildrenApart(s, depth, p);
    SiblingsDistinct(s, p);
    UnlinkCells(s, p, k);
    RemovedMembers(s[p].children, k);
    var s' := Unlinked(s, p, k);
    forall q | q in s ensures s'[q].parent == s[q].parent && (q != p ==> s'[q].children == s[q].children) {
      if q != p && q !in s[p].children {
        assert s'[q] == s[q];
      }
    }
  }

  /** A child is deleted exactly when it is the one removed, or its parent is. */
  lemma {:induction false} UnderParent<T>(s: Cells<T>, depth: map<T, nat>, c: T, r: T)
    requires Forest(s, depth) && c in s && c != r
    ensures Under(s, depth, c, r) <==> s[c].parent.Some? && Under(s, depth, s[c].parent.value, r)
  {
    hide Siblings;
  }

  /** Every node a deletion keeps keeps its children, but for the deleted one. */
  lemma {:induction false} KeptChildren<T>(s: Cells<T>, s': Cells<T>, depth: map<T, nat>, p: T, r: T, q: T)
    requires Forest(s, depth) && Shrank(s, s', p, r) && q in Without(s, depth, r)
    ensures forall c :: c in s'[q].children ==> c in Without(s, depth, r) && c in s'
  {
    hide Siblings, Under;
    ChildrenApart(s, depth, q);
    ChildrenApart(s, depth, p);
    forall c | c in s'[q].children ensures c in s && !Under(s, depth, c, r) {
      assert c in s[q].children && c != r;
      UnderParent(s, depth, c, r);
    }
  }

  lemma {:induction false} RestrictedIs<T>(s: Cells<T>, keep: set<T>)
    requires forall c :: c in keep ==> c in s
    ensures Restricted(s, keep).Keys == keep && forall c :: c in keep ==> Restricted(s, keep)[c] == s[c]
  {
  }

  lemma {:induction false} ShrankForest<T>(s: Cells<T>, s': Cells<T>, depth: map<T, nat>, p: T, r: T)
    requires Forest(s, depth) && Shrank(s, s', p, r)
    requires forall q :: q in s' ==> Siblings(s', q)
    ensures Forest(Restricted(s', Without(s, depth, r)), depth)
  {
    hide Siblings, Under, Restricted, Forest, Without;
    var keep := Without(s, depth, r);
    var t := Restricted(s', keep);
    WithoutKnown(s, depth, r);
    RestrictedIs(s', keep);
    forall q | q in t ensures Siblings(t, q) && forall c :: c in t[q].children ==> c in depth && depth[q] < depth[c] {
      KeptChildren(s, s', depth, p, r, q);
      KeptSiblings(s', keep, q);
      ShrankDepths(s, s', depth, p, r, q);
    }
    forall c | c in t && t[c].parent.Some? ensures t[c].parent.value in t && c in t[t[c].parent.value].children {
      KeptParent(s, s', depth, p, r, c);
    }
    IsForest(t, depth);
  }

  lemma {:induction false} WithoutKnown<T>(s: Cells<T>, depth: map<T, nat>, r: T)
    requires Forest(s, depth)
    ensures forall c :: c in Without(s, depth, r) ==> c in s && c in depth
  {
    hide Siblings, Under;
  }

  lemma {:induction false} ShrankDepths<T>(s: Cells<T>, s': Cells<T>, depth: map<T, nat>, p: T, r: T, q: T)
    requires Forest(s, depth) && Shrank(s, s', p, r) && q in s'
    ensures forall c :: c in s'[q].children ==> q in depth && c in depth && depth[q] < depth[c]
  {
    hide Siblings;
  }

  /** The parent of a node that stays stays, and still has it among its children. */
  lemma {:induction false} KeptParent<T>(s: Cells<T>, s': Cells<T>, depth: map<T, nat>, p: T, r: T, c: T)
    requires Forest(s, depth) && Shrank(s, s', p, r) && c in Without(s, depth, r) && c in s' && s'[c].parent.Some?
    ensures s'[c].parent.value in Without(s, depth, r) && s'[c].parent.value in s'
    ensures c in s'[s'[c].parent.value].children
  {
    hide Siblings, Under;
    UnderSelf(s, depth, r);
    UnderParent(s, depth, c, r);
  }

  lemma {:induction false} UnderSelf<T>(s: Cells<T>, depth: map<T, nat>, r: T)
    ensures Under(s, depth, r, r)
  {
  }

  lemma {:induction false} KeptSiblings<T>(s: Cells<T>, keep: set<T>, q: T)
    requires (forall c :: c in keep ==> c in s) && q in keep && Siblings(s, q)
    requires forall c :: c in s[q].children ==> c in keep
    ensures q in Restricted(s, keep) && Siblings(Restricted(s, keep), q)
  {
    hide Siblings;
    RestrictedIs(s, keep);
    SiblingsFrame(s, Restricted(s, keep), q);
  }

  lemma {:induction false} UnlinkOthers<T>(s: Cells<T>, depth: map<T, nat>, p: T, k: nat, q: T)
    requires Forest(s, depth) && p in s && k < |s[p].children| && q in s && q != p
    ensures forall c :: c in s[p].children ==> c in s
    ensures q in Unlinked(s, p, k) && Siblings(Unlinked(s, p, k), q)
  {
    hide RemovedAt, Unlinked, Siblings, Forest;
    ChildrenApart(s, depth, p);
    ChildrenApart(s, depth, q);
    UnlinkCells(s, p, k);
    SiblingsFrame(s, Unlinked(s, p, k), q);
  }

  /** Removing a child keeps every document well formed. */
  lemma {:induction false} RemoveKeeps<T>(s: Cells<T>, depth: map<T, nat>, p: T, k: nat)
    requires Forest(s, depth) && p in s && k < |s[p].children|
    ensures forall c :: c in s[p].children ==> c in s
    ensures Forest(Removed(s, depth, p, k), depth)
  {
    hide Unlinked, Siblings, Shrank, Forest, Restricted, Without;
    UnlinkShrank(s, depth, p, k);
    ShrankKeys(s, Unlinked(s, p, k), p, s[p].children[k]);
    forall q | q in Unlinked(s, p, k) ensures Siblings(Unlinked(s, p, k), q) {
      if q != p {
        UnlinkOthers(s, depth, p, k, q);
      } else {
        UnlinkSiblings(s, depth, p, k);
      }
    }
    ShrankForest(s, Unlinked(s, p, k), depth, p, s[p].children[k]);
  }

  lemma {:induction false} ShrankKeys<T>(s: Cells<T>, s': Cells<T>, p: T, r: T)
    requires Shrank(s, s', p, r)
    ensures s'.Keys == s.Keys
  {
  }
}
