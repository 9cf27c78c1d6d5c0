/** The tree a linked document stands for, and the tree its copy stands for. */
module XmlShapes {
  import opened Bytes
  import opened Rings
  import opened XmlAttributes
  import opened XmlLinks

  datatype Kind = Document | Element | Comment | Unknown | Text | Declaration

  datatype Label = Label(kind: Kind, value: string, attributes: seq<Pair>)

  datatype Tree = Tree(info: Label, children: seq<Tree>)

  /** Children are known and deeper than their parents, and depths are bounded. */
  ghost predicate Shape<T>(s: Cells<T>, labels: map<T, Label>, depth: map<T, nat>, limit: nat) {
    && (forall n :: n in s ==> n in labels && n in depth && depth[n] <= limit)
    && (forall p, c :: p in s && c in s[p].children ==> c in s && c in depth && depth[p] < depth[c])
  }

  ghost predicate Deeper<T>(s: Cells<T>, depth: map<T, nat>, list: seq<T>, bound: nat) {
    forall c :: c in list ==> c in s && c in depth && bound < depth[c]
  }

  /** The tree at `n`, following the children only. */
  ghost function TreeOf<T>(s: Cells<T>, labels: map<T, Label>, depth: map<T, nat>, limit: nat, n: T): Tree
    requires Shape(s, labels, depth, limit) && n in s
    decreases limit - depth[n], 1, 0
  {
    Tree(labels[n], TreesOf(s, labels, depth, limit, s[n].children, depth[n]))
  }

  ghost function TreesOf<T>(s: Cells<T>, labels: map<T, Label>, depth: map<T, nat>, limit: nat, list: seq<T>,
                            bound: nat): (ts: seq<Tree>)
    requires Shape(s, labels, depth, limit) && bound <= limit && Deeper(s, depth, list, bound)
    ensures |ts| == |list|
    decreases limit - bound, 0, |list|
  {
    if list == [] then []
    else [TreeOf(s, labels, depth, limit, list[0])] + TreesOf(s, labels, depth, limit, list[1..], bound)
  }

  /** The nodes of `s` deeper than `floor` have the same children and labels in `s'`. */
  ghost predicate SameBelow<T>(s: Cells<T>, labels: map<T, Label>, depth: map<T, nat>, floor: int, s': Cells<T>,
                               labels': map<T, Label>) {
    forall n :: n in s && n in labels && n in depth && floor < depth[n] ==>
      n in s' && n in labels' && s'[n].children == s[n].children && labels'[n] == labels[n]
  }

  /** The tree only depends on children and labels. */
  lemma {:induction false} TreeFrame<T>(s: Cells<T>, labels: map<T, Label>, depth: map<T, nat>, limit: nat, floor: int,
                                        s': Cells<T>, labels': map<T, Label>, depth': map<T, nat>, limit': nat, n: T)
    requires Shape(s, labels, depth, limit) && Shape(s', labels', depth', limit') && n in s
    requires SameBelow(s, labels, depth, floor, s', labels') && floor < depth[n]
    ensures n in s' && TreeOf(s', labels', depth', limit', n) == TreeOf(s, labels, depth, limit, n)
    decreases limit - depth[n], 1, 0
  {
    TreesFrame(s, labels, depth, limit, floor, s', labels', depth', limit', s[n].children, depth[n], depth'[n]);
  }

  lemma {:induction false} TreesFrame<T>(s: Cells<T>, labels: map<T, Label>, depth: map<T, nat>, limit: nat, floor: int,
                                         s': Cells<T>, labels': map<T, Label>, depth': map<T, nat>, limit': nat,
                                         list: seq<T>, bound: nat, bound': nat)
    requires Shape(s, labels, depth, limit) && Shape(s', labels', depth', limit')
    requires SameBelow(s, labels, depth, floor, s', labels') && floor <= bound
    requires bound <= limit && bound' <= limit' && Deeper(s, depth, list, bound) && Deeper(s', depth', list, bound')
    ensures TreesOf(s', labels', depth', limit', list, bound') == TreesOf(s, labels, depth, limit, list, bound)
    decreases limit - bound, 0, |list|
  {
    hide SameBelow;
    if list != [] {
      assert list[0] in list;
      TreeFrame(s, labels, depth, limit, floor, s', labels', depth', limit', list[0]);
      TreesFrame(s, labels, depth, limit, floor, s', labels', depth', limit', list[1..], bound, bound');
    }
  }

  lemma {:induction false} TreesAppend<T>(s: Cells<T>, labels: map<T, Label>, depth: map<T, nat>, limit: nat,
                                          list: seq<T>, bound: nat, x: T)
    requires Shape(s, labels, depth, limit) && bound <= limit && Deeper(s, depth, list + [x], bound)
    ensures Deeper(s, depth, list, bound) && x in s
    ensures TreesOf(s, labels, depth, limit, list + [x], bound)
         == TreesOf(s, labels, depth, limit, list, bound) + [TreeOf(s, labels, depth, limit, x)]
    decreases |list|
  {
    assert x in list + [x] && forall c :: c in list ==> c in list + [x];
    hide Shape;
    if list == [] {
      assert list + [x] == [x] && [x][1..] == [];
    } else {
      assert (list + [x])[1..] == list[1..] + [x];
      assert forall c :: c in list[1..] + [x] ==> c in list + [x];
      TreesAppend(s, labels, depth, limit, list[1..], bound, x);
    }
  }

  // ----------------------------------------------------------------------- copies

  /** Only documents and elements copy their children, and no document becomes a child. */
  predicate Container(k: Kind) { k.Document? || k.Element? }

  function CopiedLabel(l: Label): Label {
    l.(attributes := if l.kind.Element? then SetPairs([], Visited(l.attributes)) else [])
  }

  function Copied(t: Tree): Tree
    decreases t, 1
  {
    Tree(CopiedLabel(t.info), if Container(t.info.kind) then CopiedAll(t.children) else [])
  }

  function CopiedAll(ts: seq<Tree>): seq<Tree>
    decreases ts, 0
  {
    if ts == [] then [] else (if ts[0].info.kind.Document? then [] else [Copied(ts[0])]) + CopiedAll(ts[1..])
  }

  /** Attributes have distinct names, as SetAttribute keeps them. */
  ghost predicate Named(t: Tree)
    decreases t, 1
  {
    UniqueNames(t.info.attributes) && AllNamed(t.children)
  }

  ghost predicate AllNamed(ts: seq<Tree>)
    decreases ts, 0
  {
    ts == [] || (Named(ts[0]) && AllNamed(ts[1..]))
  }

  /** What a copy can reproduce. */
  ghost predicate Copyable(t: Tree)
    decreases t, 1
  {
    && (if t.info.kind.Element? then forall k :: 1 <= k < |t.info.attributes| ==> !Blank(t.info.attributes[k])
        else t.info.attributes == [])
    && (if Container(t.info.kind) then AllCopyable(t.children) else t.children == [])
  }

  ghost predicate AllCopyable(ts: seq<Tree>)
    decreases ts, 0
  {
    ts == [] || (!ts[0].info.kind.Document? && Copyable(ts[0]) && AllCopyable(ts[1..]))
  }

  /**
   * A copy is structurally equal to the original if and only if no attribute behind an element's first is blank,
   * only documents and elements have children, and no document is a child.
   */
  lemma {:induction false} CopyIsEqual(t: Tree)
    requires Named(t)
    ensures Copied(t) == t <==> Copyable(t)
    decreases t, 1
  {
    hide UniqueNames, SetPairs, Visited, Blank;
    if t.info.kind.Element? {
      CopiesAll(t.info.attributes);
    }
    CopiesAreEqual(t.children);
  }

  lemma {:induction false} CopiesAreEqual(ts: seq<Tree>)
    requires AllNamed(ts)
    ensures |CopiedAll(ts)| <= |ts| && (CopiedAll(ts) == ts <==> AllCopyable(ts))
    decreases ts, 0
  {
    hide UniqueNames, Copied, Copyable;
    if ts != [] {
      CopyIsEqual(ts[0]);
      CopiesAreEqual(ts[1..]);
      assert ts == [ts[0]] + ts[1..];
      if !ts[0].info.kind.Document? {
        assert ([Copied(ts[0])] + CopiedAll(ts[1..]))[1..] == CopiedAll(ts[1..]);
      }
    }
  }

  // ------------------------------------------------------------- forests together

  /** Two sets of whole trees without a common node are one. */
  lemma {:induction false} UnionKeeps<T>(s: Cells<T>, depth: map<T, nat>, t: Cells<T>, depths: map<T, nat>)
    requires Forest(s, depth) && Forest(t, depths) && s.Keys !! t.Keys && depths.Keys == t.Keys
    ensures Forest(s + t, depth + depths)
  {
    hide Siblings, Forest;
    var u, d := s + t, depth + depths;
    ForestKnown(s, depth);
    ForestKnown(t, depths);
    assert forall n :: n in s ==> n in u && u[n] == s[n] && n in d && d[n] == depth[n];
    assert forall n :: n in t ==> n in u && u[n] == t[n] && n in d && d[n] == depths[n];
    forall p | p in u
      ensures Siblings(u, p) && (forall c :: c in u[p].children ==> c in d && d[p] < d[c])
      ensures u[p].parent.Some? ==> u[p].parent.value in u && p in u[u[p].parent.value].children
    {
      if p in s {
        UnionPart(s, depth, u, d, p);
      } else {
        UnionPart(t, depths, u, d, p);
      }
    }
    IsForest(u, d);
  }

  lemma {:induction false} ForestKnown<T>(s: Cells<T>, depth: map<T, nat>)
    requires Forest(s, depth)
    ensures forall n :: n in s ==> n in depth
  {
    hide Siblings;
  }

  /** What a node of one of two separate forests is in both together. */
  lemma {:induction false} UnionPart<T>(s: Cells<T>, depth: map<T, nat>, u: Cells<T>, d: map<T, nat>, p: T)
    requires Forest(s, depth) && p in s
    requires forall n :: n in s ==> n in u && u[n] == s[n] && n in depth && n in d && d[n] == depth[n]
    ensures Siblings(u, p) && forall c :: c in u[p].children ==> c in d && d[p] < d[c]
    ensures u[p].parent.Some? ==> u[p].parent.value in u && p in u[u[p].parent.value].children
  {
    hide Siblings;
    ChildrenApart(s, depth, p);
    SiblingsFrame(s, u, p);
  }

  /** The nodes left when everything below `p` is deleted. */
  ghost function AboveOrAt<T>(s: Cells<T>, depth: map<T, nat>, p: T): set<T> {
    set c | c in s && (c == p || !Under(s, depth, c, p))
  }

  ghost function Cleared<T>(s: Cells<T>, depth: map<T, nat>, p: T): Cells<T>
    requires p in s
  {
    Restricted(s[p := s[p].(first := None, last := None, children := [])], AboveOrAt(s, depth, p))
  }

  lemma {:induction false} ClearedCells<T>(s: Cells<T>, depth: map<T, nat>, p: T)
    requires p in s
    ensures var t := Cleared(s, depth, p);
            && t.Keys == AboveOrAt(s, depth, p) && p in t && t[p] == s[p].(first := None, last := None, children := [])
            && forall c :: c in t && c != p ==> c in s && t[c] == s[c]
  {
    hide Under;
  }

  /** Clearing a node keeps every document well formed. */
  lemma {:induction false} ClearKeeps<T>(s: Cells<T>, depth: map<T, nat>, p: T)
    requires Forest(s, depth) && p in s
    ensures Forest(Cleared(s, depth, p), depth)
  {
    hide Siblings, Under, Cleared;
    var t := Cleared(s, depth, p);
    ClearedCells(s, depth, p);
    forall q | q in t ensures Siblings(t, q) && forall c :: c in t[q].children ==> c in t {
      if q != p {
        ClearedChildren(s, depth, p, q);
        ChildrenApart(s, depth, q);
        ClearedSiblings(s, t, p, q);
      } else {
        NoSiblings(t, p);
      }
    }
    forall c | c in t && t[c].parent.Some? ensures t[c].parent.value in t && c in t[t[c].parent.value].children {
      ClearedParent(s, depth, p, c);
    }
  }

  lemma {:induction false} ClearedSiblings<T>(s: Cells<T>, t: Cells<T>, p: T, q: T)
    requires q in s && q in t && q != p && Siblings(s, q) && p in s && p in t
    requires t[p] == s[p].(first := None, last := None, children := []) && t[q] == s[q]
    requires forall c :: c in t && c != p ==> c in s && t[c] == s[c]
    requires forall c :: c in s[q].children ==> c in s && c in t
    ensures Siblings(t, q)
  {
    hide Siblings;
    SiblingsFrame(s, t, q);
  }

  lemma {:induction false} NoSiblings<T>(t: Cells<T>, p: T)
    requires p in t && t[p].first == None && t[p].last == None && t[p].children == []
    ensures Siblings(t, p)
  {
  }

  lemma {:induction false} ClearedChildren<T>(s: Cells<T>, depth: map<T, nat>, p: T, q: T)
    requires Forest(s, depth) && p in s && q in AboveOrAt(s, depth, p) && q != p
    ensures forall c :: c in s[q].children ==> c in AboveOrAt(s, depth, p)
  {
    hide Siblings, Under;
    ChildrenApart(s, depth, q);
    forall c | c in s[q].children ensures c in AboveOrAt(s, depth, p) {
      if c != p {
        UnderParent(s, depth, c, p);
      }
    }
  }

  lemma {:induction false} ClearedParent<T>(s: Cells<T>, depth: map<T, nat>, p: T, c: T)
    requires Forest(s, depth) && p in s && c in AboveOrAt(s, depth, p) && s[c].parent.Some?
    ensures var q := s[c].parent.value; q in AboveOrAt(s, depth, p) && q != p && q in s && c in s[q].children
  {
    hide Siblings;
    ParentNotUnder(s, depth, p, c);
  }

  /** A node that is kept has a parent that is kept; a node is not below itself. */
  lemma {:induction false} ParentNotUnder<T>(s: Cells<T>, depth: map<T, nat>, p: T, c: T)
    requires Forest(s, depth) && p in s && c in s && s[c].parent.Some? && (c == p || !Under(s, depth, c, p))
    ensures !Under(s, depth, s[c].parent.value, p)
  {
    hide Siblings;
    if c != p {
      UnderParent(s, depth, c, p);
    } else {
      Shallower(s, depth, s[c].parent.value, p);
    }
  }

  lemma {:induction false} Shallower<T>(s: Cells<T>, depth: map<T, nat>, q: T, p: T)
    requires Forest(s, depth) && q in s && p in s && depth[q] < depth[p]
    ensures !Under(s, depth, q, p)
    decreases depth[q]
  {
    hide Siblings;
    if s[q].parent.Some? {
      Shallower(s, depth, s[q].parent.value, p);
    }
  }

  // ------------------------------------------------------------------ copying on

  lemma {:induction false} CopiedAppend(ts: seq<Tree>, t: Tree)
    ensures CopiedAll(ts + [t]) == CopiedAll(ts) + if t.info.kind.Document? then [] else [Copied(t)]
  {
    hide Copied;
    if ts == [] {
      assert ts + [t] == [t] && [t][1..] == [];
    } else {
      assert (ts + [t])[1..] == ts[1..] + [t];
      CopiedAppend(ts[1..], t);
      var front, back := if ts[0].info.kind.Document? then [] else [Copied(ts[0])], if t.info.kind.Document? then []
                         else [Copied(t)];
      assert front + (CopiedAll(ts[1..]) + back) == (front + CopiedAll(ts[1..])) + back;
    }
  }

  /** What a set of trees with its labels and depths has to be for its trees to be read off. */
  ghost predicate Readable<T>(s: Cells<T>, labels: map<T, Label>, depth: map<T, nat>, limit: nat) {
    Forest(s, depth) && s.Keys == labels.Keys && Shape(s, labels, depth, limit)
  }

  /** A finished copy below a root, and the copy of one more child. */
  ghost predicate TwoCopies<T>(s: Cells<T>, labels: map<T, Label>, depth: map<T, nat>, limit: nat, root: T,
                               t: Cells<T>, labels': map<T, Label>, depths: map<T, nat>, child: T) {
    && Readable(s, labels, depth, limit) && Readable(t, labels', depths, limit) && s.Keys !! t.Keys
    && depths.Keys == t.Keys && root in s && child in t && t[child].parent.None? && depth[root] < depths[child]
    && (forall m :: m in s && m != root ==> depth[root] < depth[m])
  }

  lemma {:induction false} CanLinkCopy<T>(s: Cells<T>, labels: map<T, Label>, depth: map<T, nat>, limit: nat, root: T,
                                          t: Cells<T>, labels': map<T, Label>, depths: map<T, nat>, child: T)
    requires TwoCopies(s, labels, depth, limit, root, t, labels', depths, child)
    ensures forall c :: c in s[root].children ==> c in s
    ensures (s + t)[root] == s[root] && CanInsert(s + t, depth + depths, root, child, |s[root].children|)
  {
    ChildrenApart(s, depth, root);
    UnionKeeps(s, depth, t, depths);
    hide Siblings, Forest, Shape;
  }

  /** After the link: same nodes, labels and depths, and one child more. */
  lemma {:induction false} LinkCopyCells<T>(s: Cells<T>, labels: map<T, Label>, depth: map<T, nat>, limit: nat, root: T,
                                            t: Cells<T>, labels': map<T, Label>, depths: map<T, nat>, child: T,
                                            u: Cells<T>)
    requires TwoCopies(s, labels, depth, limit, root, t, labels', depths, child)
    requires (s + t)[root] == s[root] && CanInsert(s + t, depth + depths, root, child, |s[root].children|)
    requires (forall c :: c in s[root].children ==> c in s) && u == Inserted(s + t, root, child, |s[root].children|)
    ensures Forest(u, depth + depths) && Grew(s + t, u, root, child) && u[root].children == s[root].children + [child]
  {
    hide Siblings, Forest, Inserted, InsertedAt, Grew, Readable, CanInsert;
    var w, d, list := s + t, depth + depths, s[root].children;
    InsertApart(w, d, root, child, |list|);
    InsertCells(w, root, child, |list|);
    InsertKeeps(w, d, root, child, |list|);
    InsertGrew(w, d, root, child, |list|);
    AppendIs(list, child);
  }

  lemma {:induction false} GrownShape<T>(s: Cells<T>, labels: map<T, Label>, depth: map<T, nat>, limit: nat, root: T,
                                         t: Cells<T>, labels': map<T, Label>, depths: map<T, nat>, child: T,
                                         u: Cells<T>)
    requires TwoCopies(s, labels, depth, limit, root, t, labels', depths, child) && Grew(s + t, u, root, child)
    ensures u.Keys == (labels + labels').Keys && Shape(u, labels + labels', depth + depths, limit)
  {
    UnionShape(s, labels, depth, limit, t, labels', depths);
    hide Siblings, Forest, Shape;
    ShapeGrew(s + t, labels + labels', depth + depths, limit, u, root, child);
  }

  lemma {:induction false} UnionShape<T>(s: Cells<T>, labels: map<T, Label>, depth: map<T, nat>, limit: nat,
                                         t: Cells<T>, labels': map<T, Label>, depths: map<T, nat>)
    requires s.Keys == labels.Keys && Shape(s, labels, depth, limit) && s.Keys !! t.Keys
    requires t.Keys == labels'.Keys && t.Keys == depths.Keys && Shape(t, labels', depths, limit)
    ensures Shape(s + t, labels + labels', depth + depths, limit)
  {
    hide Shape;
    var w, d, ls := s + t, depth + depths, labels + labels';
    ShapeKnown(s, labels, depth, limit);
    ShapeKnown(t, labels', depths, limit);
    assert forall n :: n in s ==> n in w && w[n] == s[n] && n in d && d[n] == depth[n] && n in ls;
    assert forall n :: n in t ==> n in w && w[n] == t[n] && n in d && d[n] == depths[n] && n in ls;
    forall p, c | p in w && c in w[p].children ensures c in w && c in d && d[p] < d[c] {
      if p in s {
        PartShape(s, labels, depth, limit, w, d, p, c);
      } else {
        PartShape(t, labels', depths, limit, w, d, p, c);
      }
    }
    IsShape(w, ls, d, limit);
  }

  lemma {:induction false} ShapeKnown<T>(s: Cells<T>, labels: map<T, Label>, depth: map<T, nat>, limit: nat)
    requires Shape(s, labels, depth, limit)
    ensures forall n :: n in s ==> n in labels && n in depth && depth[n] <= limit
  {
  }

  lemma {:induction false} IsShape<T>(s: Cells<T>, labels: map<T, Label>, depth: map<T, nat>, limit: nat)
    requires forall n :: n in s ==> n in labels && n in depth && depth[n] <= limit
    requires forall p, c :: p in s && c in s[p].children ==> c in s && c in depth && depth[p] < depth[c]
    ensures Shape(s, labels, depth, limit)
  {
  }

  lemma {:induction false} PartShape<T>(s: Cells<T>, labels: map<T, Label>, depth: map<T, nat>, limit: nat, w: Cells<T>,
                                        d: map<T, nat>, p: T, c: T)
    requires Shape(s, labels, depth, limit) && p in s && p in w && w[p] == s[p] && c in s[p].children
    requires forall n :: n in s && n in depth ==> n in w && n in d && d[n] == depth[n]
    ensures c in w && c in d && p in d && d[p] < d[c]
  {
  }

  lemma {:induction false} ShapeGrew<T>(w: Cells<T>, labels: map<T, Label>, d: map<T, nat>, limit: nat, u: Cells<T>,
                                        p: T, n: T)
    requires Shape(w, labels, d, limit) && Grew(w, u, p, n) && p in d && n in d && d[p] < d[n]
    ensures Shape(u, labels, d, limit)
  {
    forall q, c | q in u && c in u[q].children ensures c in u && d[q] < d[c] {
      if q != p {
        assert u[q].children == w[q].children;
      } else if c != n {
        assert c in w[p].children;
      }
    }
  }

  lemma {:induction false} GrownSame<T>(s: Cells<T>, labels: map<T, Label>, depth: map<T, nat>, limit: nat, root: T,
                                        t: Cells<T>, labels': map<T, Label>, depths: map<T, nat>, child: T, u: Cells<T>)
    requires TwoCopies(s, labels, depth, limit, root, t, labels', depths, child) && Grew(s + t, u, root, child)
    ensures SameBelow(s, labels, depth, depth[root], u, labels + labels')
            && SameBelow(t, labels', depths, -1, u, labels + labels')
    ensures root in u && u[root].parent == s[root].parent
  {
    hide Siblings, Forest, Shape;
  }

  /** Linking a copied child behind the children copied so far. */
  lemma {:induction false} LinkCopy<T>(s: Cells<T>, labels: map<T, Label>, depth: map<T, nat>, limit: nat, root: T,
                                       t: Cells<T>, labels': map<T, Label>, depths: map<T, nat>, child: T, u: Cells<T>)
    requires TwoCopies(s, labels, depth, limit, root, t, labels', depths, child)
    requires (s + t)[root] == s[root] && CanInsert(s + t, depth + depths, root, child, |s[root].children|)
    requires (forall c :: c in s[root].children ==> c in s) && u == Inserted(s + t, root, child, |s[root].children|)
    ensures Readable(u, labels + labels', depth + depths, limit) && root in u
    ensures u[root].children == s[root].children + [child] && u[root].parent == s[root].parent
    ensures TreeOf(u, labels + labels', depth + depths, limit, root).children
         == TreeOf(s, labels, depth, limit, root).children + [TreeOf(t, labels', depths, limit, child)]
  {
    hide Siblings, Forest, Inserted, CanInsert, Grew, SameBelow;
    LinkCopyCells(s, labels, depth, limit, root, t, labels', depths, child, u);
    GrownShape(s, labels, depth, limit, root, t, labels', depths, child, u);
    GrownSame(s, labels, depth, limit, root, t, labels', depths, child, u);
    var list := s[root].children;
    TreesAppend(u, labels + labels', depth + depths, limit, list, depth[root], child);
    TreesFrame(s, labels, depth, limit, depth[root], u, labels + labels', depth + depths, limit, list, depth[root],
               depth[root]);
    TreeFrame(t, labels', depths, limit, -1, u, labels + labels', depth + depths, limit, child);
  }

  lemma {:induction false} TreesAt<T>(s: Cells<T>, labels: map<T, Label>, depth: map<T, nat>, limit: nat, list: seq<T>,
                                      bound: nat, k: nat)
    requires Shape(s, labels, depth, limit) && bound <= limit && Deeper(s, depth, list, bound) && k < |list|
    ensures list[k] in s && TreesOf(s, labels, depth, limit, list, bound)[k] == TreeOf(s, labels, depth, limit, list[k])
    decreases k
  {
    assert list[0] in list && list[k] in list;
    if k > 0 {
      TreesAt(s, labels, depth, limit, list[1..], bound, k - 1);
    }
  }

  /** The child at index `k` of a readable node. */
  lemma {:induction false} ChildTree<T>(s: Cells<T>, labels: map<T, Label>, depth: map<T, nat>, limit: nat, p: T,
                                        k: nat)
    requires Readable(s, labels, depth, limit) && p in s && k < |s[p].children|
    ensures var c, t := s[p].children[k], TreeOf(s, labels, depth, limit, p);
            && c in s && depth[p] < depth[c] <= limit && s[c].next == Behind(s[p].children, k + 1)
            && |t.children| == |s[p].children| && t.children[k] == TreeOf(s, labels, depth, limit, c)
  {
    hide Shape, TreesOf;
    ReadableChild(s, labels, depth, limit, p, k);
    TreesAt(s, labels, depth, limit, s[p].children, depth[p], k);
  }

  lemma {:induction false} ReadableChild<T>(s: Cells<T>, labels: map<T, Label>, depth: map<T, nat>, limit: nat, p: T,
                                            k: nat)
    requires Readable(s, labels, depth, limit) && p in s && k < |s[p].children|
    ensures var c := s[p].children[k];
            c in s && depth[p] < depth[c] <= limit && s[c].next == Behind(s[p].children, k + 1)
    ensures Deeper(s, depth, s[p].children, depth[p]) && depth[p] <= limit
  {
    assert Siblings(s, p) && ChildAt(s, p, s[p].children, k);
    assert s[p].children[k] in s[p].children;
  }

  lemma {:induction false} RootTree<T>(s: Cells<T>, labels: map<T, Label>, depth: map<T, nat>, limit: nat, p: T)
    requires Readable(s, labels, depth, limit) && p in s
    ensures p in labels && TreeOf(s, labels, depth, limit, p).info == labels[p]
    ensures |TreeOf(s, labels, depth, limit, p).children| == |s[p].children| && s[p].first == Behind(s[p].children, 0)
  {
    assert Siblings(s, p);
  }

  /** A node on its own. */
  lemma {:induction false} SingleTree<T>(s: Cells<T>, labels: map<T, Label>, depth: map<T, nat>, limit: nat, p: T)
    requires s.Keys == labels.Keys == depth.Keys == {p} && depth[p] <= limit
    requires s[p] == Cell(None, None, None, None, None, [])
    ensures Readable(s, labels, depth, limit) && TreeOf(s, labels, depth, limit, p) == Tree(labels[p], [])
  {
  }

  /** A larger bound on the depths changes no tree. */
  lemma {:induction false} TreeLimit<T>(s: Cells<T>, labels: map<T, Label>, depth: map<T, nat>, limit: nat, limit': nat,
                                        n: T)
    requires Readable(s, labels, depth, limit) && n in s && limit <= limit'
    ensures Readable(s, labels, depth, limit')
    ensures TreeOf(s, labels, depth, limit', n) == TreeOf(s, labels, depth, limit, n)
  {
    hide Forest;
    TreeFrame(s, labels, depth, limit, -1, s, labels, depth, limit', n);
  }

  /** A whole document, and a detached copy that is to go below one of its nodes. */
  ghost predicate DocumentAndCopy<T>(s: Cells<T>, labels: map<T, Label>, depth: map<T, nat>, limit: nat, p: T,
                                     t: Cells<T>, labels': map<T, Label>, depths: map<T, nat>, child: T) {
    && Readable(s, labels, depth, limit) && Readable(t, labels', depths, limit) && s.Keys !! t.Keys
    && depths.Keys == t.Keys && p in s && p in depth && child in t && t[child].parent.None? && depth[p] < depths[child]
  }

  lemma {:induction false} CanInsertCopy<T>(s: Cells<T>, labels: map<T, Label>, depth: map<T, nat>, limit: nat, p: T,
                                            t: Cells<T>, labels': map<T, Label>, depths: map<T, nat>, child: T, k: nat)
    requires DocumentAndCopy(s, labels, depth, limit, p, t, labels', depths, child) && k <= |s[p].children|
    ensures (forall c :: c in s[p].children ==> c in s) && (s + t)[p] == s[p]
    ensures CanInsert(s + t, depth + depths, p, child, k)
  {
    ChildrenApart(s, depth, p);
    UnionKeeps(s, depth, t, depths);
    hide Siblings, Forest, Shape;
  }

  /** Inserting the copy leaves well-formed documents, in which it stands for the same tree. */
  lemma {:induction false} InsertCopy<T>(s: Cells<T>, labels: map<T, Label>, depth: map<T, nat>, limit: nat, p: T,
                                         t: Cells<T>, labels': map<T, Label>, depths: map<T, nat>, child: T, k: nat,
                                         u: Cells<T>)
    requires DocumentAndCopy(s, labels, depth, limit, p, t, labels', depths, child) && k <= |s[p].children|
    requires (forall c :: c in s[p].children ==> c in s) && (s + t)[p] == s[p]
    requires CanInsert(s + t, depth + depths, p, child, k) && u == Inserted(s + t, p, child, k)
    ensures Readable(u, labels + labels', depth + depths, limit) && child in u
    ensures TreeOf(u, labels + labels', depth + depths, limit, child) == TreeOf(t, labels', depths, limit, child)
    ensures Grew(s + t, u, p, child) && u[p].children == InsertedAt(s[p].children, k, child)
  {
    hide Siblings, Forest, Inserted, InsertedAt, CanInsert;
    InsertApart(s + t, depth + depths, p, child, k);
    InsertCells(s + t, p, child, k);
    InsertKeeps(s + t, depth + depths, p, child, k);
    InsertGrew(s + t, depth + depths, p, child, k);
    UnionShape(s, labels, depth, limit, t, labels', depths);
    CopyShape(s, labels, depth, limit, p, t, labels', depths, child, u);
    TreeFrame(t, labels', depths, limit, -1, u, labels + labels', depth + depths, limit, child);
  }

  lemma {:induction false} CopyShape<T>(s: Cells<T>, labels: map<T, Label>, depth: map<T, nat>, limit: nat, p: T,
                                        t: Cells<T>, labels': map<T, Label>, depths: map<T, nat>, child: T, u: Cells<T>)
    requires DocumentAndCopy(s, labels, depth, limit, p, t, labels', depths, child) && Grew(s + t, u, p, child)
    requires Shape(s + t, labels + labels', depth + depths, limit)
    ensures u.Keys == (labels + labels').Keys && Shape(u, labels + labels', depth + depths, limit)
    ensures SameBelow(t, labels', depths, -1, u, labels + labels')
  {
    hide Siblings, Forest, Shape;
    ShapeGrew(s + t, labels + labels', depth + depths, limit, u, p, child);
  }
}
