/** TinyXML's document tree: nodes linked to their parent, their siblings and their first and last child. */
module XmlTree {
  import opened Bytes
  import opened Rings
  import opened XmlAttributes
  import opened XmlLinks
  import opened XmlShapes

  ghost function Opt(x: TiXmlNode?): Option<TiXmlNode> { if x == null then None else Some(x) }

  /** The links of these nodes. */
  ghost function Snap(nodes: set<TiXmlNode>): (s: Cells<TiXmlNode>)
    reads nodes`parent, nodes`prev, nodes`next, nodes`firstChild, nodes`lastChild, nodes`children
    ensures s.Keys == nodes
  {
    map n | n in nodes :: Cell(Opt(n.parent), Opt(n.prev), Opt(n.next), Opt(n.firstChild), Opt(n.lastChild), n.children)
  }

  ghost function Labels(nodes: set<TiXmlNode>): (labels: map<TiXmlNode, Label>)
    reads nodes`value, nodes`attributes
    ensures labels.Keys == nodes
  {
    map n | n in nodes :: Label(n.kind, n.value, n.attributes)
  }

  /** Well-formed documents made of these nodes. */
  ghost predicate Sound(nodes: set<TiXmlNode>, depth: map<TiXmlNode, nat>, limit: nat)
    reads nodes
  {
    Readable(Snap(nodes), Labels(nodes), depth, limit)
  }

  /** The tree at one of them. */
  ghost function TreeAt(nodes: set<TiXmlNode>, depth: map<TiXmlNode, nat>, limit: nat, n: TiXmlNode): Tree
    requires Sound(nodes, depth, limit) && n in nodes
    reads nodes
  {
    TreeOf(Snap(nodes), Labels(nodes), depth, limit, n)
  }

  /** New nodes that are a detached copy: a whole tree standing for `tree`, every other node deeper than its root. */
  ghost predicate IsCopy(added: set<TiXmlNode>, depths: map<TiXmlNode, nat>, limit: nat, root: TiXmlNode, at: nat,
                         tree: Tree)
    reads added
  {
    && Sound(added, depths, limit) && root in added && root.parent == null
    && depths.Keys == added && depths[root] == at && (forall m :: m in added && m != root ==> at < depths[m])
    && TreeAt(added, depths, limit, root) == tree
  }

  class TiXmlNode {
    const kind: Kind
    var value: string
    /** An element's attributes, in order. */
    var attributes: seq<Pair>
    var parent: TiXmlNode?
    var prev: TiXmlNode?
    var next: TiXmlNode?
    var firstChild: TiXmlNode?
    var lastChild: TiXmlNode?
    ghost var children: seq<TiXmlNode>

    constructor (kind: Kind)
      ensures this.kind == kind && value == "" && attributes == [] && children == []
      ensures parent == null && prev == null && next == null && firstChild == null && lastChild == null
    {
      this.kind, value, attributes, children := kind, "", [], [];
      parent, prev, next, firstChild, lastChild := null, null, null, null, null;
    }

    // One pointer assignment each, and what it does to the links.

    method SetParent(x: TiXmlNode?, ghost nodes: set<TiXmlNode>)
      requires this in nodes
      modifies `parent
      ensures parent == x && Snap(nodes) == old(Snap(nodes))[this := old(Snap(nodes))[this].(parent := Opt(x))]
    {
      parent := x;
    }

    method SetPrev(x: TiXmlNode?, ghost nodes: set<TiXmlNode>)
      requires this in nodes
      modifies `prev
      ensures prev == x && Snap(nodes) == old(Snap(nodes))[this := old(Snap(nodes))[this].(prev := Opt(x))]
    {
      prev := x;
    }

    method SetNext(x: TiXmlNode?, ghost nodes: set<TiXmlNode>)
      requires this in nodes
      modifies `next
      ensures next == x && Snap(nodes) == old(Snap(nodes))[this := old(Snap(nodes))[this].(next := Opt(x))]
    {
      next := x;
    }

    method SetFirstChild(x: TiXmlNode?, ghost nodes: set<TiXmlNode>)
      requires this in nodes
      modifies `firstChild
      ensures firstChild == x && Snap(nodes) == old(Snap(nodes))[this := old(Snap(nodes))[this].(first := Opt(x))]
    {
      firstChild := x;
    }

    method SetLastChild(x: TiXmlNode?, ghost nodes: set<TiXmlNode>)
      requires this in nodes
      modifies `lastChild
      ensures lastChild == x && Snap(nodes) == old(Snap(nodes))[this := old(Snap(nodes))[this].(last := Opt(x))]
    {
      lastChild := x;
    }

    ghost method SetChildren(list: seq<TiXmlNode>, nodes: set<TiXmlNode>)
      requires this in nodes
      modifies `children
      ensures children == list && Snap(nodes) == old(Snap(nodes))[this := old(Snap(nodes))[this].(children := list)]
    {
      children := list;
    }

    // The assignments of each operation.

    method LinkEnd(node: TiXmlNode, ghost nodes: set<TiXmlNode>, ghost list: seq<TiXmlNode>)
      requires this in nodes && node in nodes && node != this && (lastChild != null ==> lastChild in nodes)
      modifies nodes`parent, nodes`prev, nodes`next, nodes`firstChild, nodes`lastChild, nodes`children
      ensures Snap(nodes) == LinkedEnd(old(Snap(nodes)), this, node, list)
    {
      SnapAt(nodes, this);
      hide Snap;
      node.SetParent(this, nodes);
      node.SetPrev(lastChild, nodes);
      node.SetNext(null, nodes);
      if lastChild != null {
        lastChild.SetNext(node, nodes);
      } else {
        SetFirstChild(node, nodes);
      }
      SetLastChild(node, nodes);
      SetChildren(list, nodes);
    }

    method LinkBefore(beforeThis: TiXmlNode, node: TiXmlNode, ghost nodes: set<TiXmlNode>, ghost list: seq<TiXmlNode>)
      requires this in nodes && node in nodes && node != this && node != beforeThis && beforeThis in nodes
               && beforeThis != this
      requires beforeThis.prev != null ==> beforeThis.prev in nodes
      modifies nodes`parent, nodes`prev, nodes`next, nodes`firstChild, nodes`lastChild, nodes`children
      ensures Snap(nodes) == LinkedBefore(old(Snap(nodes)), this, node, beforeThis, list)
    {
      SnapAt(nodes, beforeThis);
      hide Snap;
      node.SetParent(this, nodes);
      node.SetNext(beforeThis, nodes);
      node.SetPrev(beforeThis.prev, nodes);
      if beforeThis.prev != null {
        beforeThis.prev.SetNext(node, nodes);
      } else {
        SetFirstChild(node, nodes);
      }
      beforeThis.SetPrev(node, nodes);
      SetChildren(list, nodes);
    }

    method LinkAfter(afterThis: TiXmlNode, node: TiXmlNode, ghost nodes: set<TiXmlNode>, ghost list: seq<TiXmlNode>)
      requires this in nodes && node in nodes && node != this && node != afterThis && afterThis in nodes
               && afterThis != this
      requires afterThis.next != null ==> afterThis.next in nodes
      modifies nodes`parent, nodes`prev, nodes`next, nodes`firstChild, nodes`lastChild, nodes`children
      ensures Snap(nodes) == LinkedAfter(old(Snap(nodes)), this, node, afterThis, list)
    {
      SnapAt(nodes, afterThis);
      hide Snap;
      node.SetParent(this, nodes);
      node.SetPrev(afterThis, nodes);
      node.SetNext(afterThis.next, nodes);
      if afterThis.next != null {
        afterThis.next.SetPrev(node, nodes);
      } else {
        SetLastChild(node, nodes);
      }
      afterThis.SetNext(node, nodes);
      SetChildren(list, nodes);
    }

    method LinkInstead(replaceThis: TiXmlNode, node: TiXmlNode, ghost nodes: set<TiXmlNode>, ghost list: seq<TiXmlNode>)
      requires this in nodes && node in nodes && node != this && node != replaceThis && replaceThis in nodes
               && replaceThis != this
      requires replaceThis.prev != null ==> replaceThis.prev in nodes && replaceThis.prev != replaceThis
      requires replaceThis.next != null ==> replaceThis.next in nodes && replaceThis.next != replaceThis
      modifies nodes`parent, nodes`prev, nodes`next, nodes`firstChild, nodes`lastChild, nodes`children
      ensures Snap(nodes) == LinkedInstead(old(Snap(nodes)), this, node, replaceThis, list)
    {
      SnapAt(nodes, replaceThis);
      hide Snap;
      node.SetNext(replaceThis.next, nodes);
      node.SetPrev(replaceThis.prev, nodes);
      if replaceThis.next != null {
        replaceThis.next.SetPrev(node, nodes);
      } else {
        SetLastChild(node, nodes);
      }
      if replaceThis.prev != null {
        replaceThis.prev.SetNext(node, nodes);
      } else {
        SetFirstChild(node, nodes);
      }
      node.SetParent(this, nodes);
      SetChildren(list, nodes);
    }

    method ForgetChildren(ghost nodes: set<TiXmlNode>)
      requires this in nodes
      modifies `firstChild, `lastChild, `children
      ensures firstChild == null && lastChild == null && children == []
      ensures Snap(nodes) == Emptied(old(Snap(nodes)), this) && Labels(nodes) == old(Labels(nodes))
    {
      firstChild := null;
      lastChild := null;
      children := [];
    }

    method Unlink(removeThis: TiXmlNode, ghost nodes: set<TiXmlNode>, ghost list: seq<TiXmlNode>)
      requires this in nodes && removeThis in nodes && removeThis != this
      requires removeThis.prev != null ==> removeThis.prev in nodes && removeThis.prev != removeThis
      requires removeThis.next != null ==> removeThis.next in nodes && removeThis.next != removeThis
      modifies nodes`parent, nodes`prev, nodes`next, nodes`firstChild, nodes`lastChild, nodes`children
      ensures Snap(nodes) == LinkedAround(old(Snap(nodes)), this, removeThis, list)
    {
      SnapAt(nodes, removeThis);
      hide Snap;
      if removeThis.next != null {
        removeThis.next.SetPrev(removeThis.prev, nodes);
      } else {
        SetLastChild(removeThis.prev, nodes);
      }
      if removeThis.prev != null {
        removeThis.prev.SetNext(removeThis.next, nodes);
      } else {
        SetFirstChild(removeThis.next, nodes);
      }
      SetChildren(list, nodes);
    }

    // The operations.

    /**
     * LinkEndChild; a document cannot be a child, and is deleted.  The source also lets pass a node that is among
     * the children already, and then leaves links that no list of children describes.
     */
    method LinkEndChild(node: TiXmlNode, ghost nodes: set<TiXmlNode>, ghost depth: map<TiXmlNode, nat>)
      returns (linked: TiXmlNode?)
      requires this in nodes && node in nodes && CanLink(Snap(nodes), depth, this, node)
      requires forall c :: c in children ==> c in nodes
      modifies nodes`parent, nodes`prev, nodes`next, nodes`firstChild, nodes`lastChild, nodes`children
      ensures node.kind.Document? ==> linked == null && unchanged(nodes)
      ensures !node.kind.Document? ==>
                linked == node
                && Snap(nodes) == LinkedEnd(old(Snap(nodes)), this, node, old(InsertedAt(children, |children|, node)))
      ensures !node.kind.Document? && old(node.parent) == null ==>
                Snap(nodes) == Inserted(old(Snap(nodes)), this, node, |old(children)|)
      ensures Forest(Snap(nodes), depth) <==> node.kind.Document? || old(node.parent) == null
    {
      hide Forest, Siblings, CanInsert, Inserted, LinkedEnd, InsertedAt;
      LinkFacts(Snap(nodes), depth, this, node);
      if node.kind == Document {
        return null;
      }
      LinkedEndIs(Snap(nodes), depth, this, node);
      LinkEndKeepsIff(Snap(nodes), depth, this, node);
      LinkEnd(node, nodes, InsertedAt(children, |children|, node));
      return node;
    }

    /**
     * Clone with CopyTo.  `nodes` are the documents the node belongs to; the copies get the depths of their
     * originals plus `shift`.
     */
    method Clone(ghost nodes: set<TiXmlNode>, ghost depth: map<TiXmlNode, nat>, ghost limit: nat, ghost shift: nat)
      returns (clone: TiXmlNode, ghost added: set<TiXmlNode>, ghost depths: map<TiXmlNode, nat>)
      requires this in nodes && Sound(nodes, depth, limit)
      ensures this in depth && fresh(added) && clone.kind == kind
      ensures IsCopy(added, depths, limit + shift, clone, depth[this] + shift,
                     Copied(TreeAt(nodes, depth, limit, this)))
      decreases if this in depth then limit - depth[this] else 0, 0
    {
      hide Sound, TreeAt, IsCopy, CopiedAll, Copied, CopiedLabel;
      SourceFacts(nodes, depth, limit, this);
      ghost var source, at := TreeAt(nodes, depth, limit, this), depth[this] + shift;
      clone := new TiXmlNode(kind);
      clone.value := value;
      if kind == Element {
        clone.attributes := SetPairs([], Visited(attributes));
      }
      added, depths := {clone}, map[clone := at];
      StartsCopy(nodes, depth, limit, shift, this, clone);
      ghost var k := 0;
      if kind == Document || kind == Element {
        var node := firstChild;
        while node != null
          invariant k <= |children| == |source.children| && Opt(node) == Behind(children, k) && fresh(added)
          invariant IsCopy(added, depths, limit + shift, clone, at,
                           Tree(CopiedLabel(source.info), CopiedAll(source.children[..k])))
          decreases |children| - k
        {
          NextChild(nodes, depth, limit, this, k);
          added, depths := clone.AppendClone(node, nodes, depth, limit, shift, at, added, depths,
                                             CopiedLabel(source.info), source.children[..k]);
          assert source.children[..k + 1] == source.children[..k] + [source.children[k]];
          node := node.next;
          k := k + 1;
        }
      }
      CopyIs(source, k);
    }

    /** The child loop of CopyTo: link the clone of one more child behind those linked so far. */
    method AppendClone(child: TiXmlNode, ghost nodes: set<TiXmlNode>, ghost depth: map<TiXmlNode, nat>,
                       ghost limit: nat, ghost shift: nat, ghost at: nat, ghost added0: set<TiXmlNode>,
                       ghost depths0: map<TiXmlNode, nat>, ghost info: Label, ghost ts: seq<Tree>)
      returns (ghost added: set<TiXmlNode>, ghost depths: map<TiXmlNode, nat>)
      requires child in nodes && Sound(nodes, depth, limit) && nodes !! added0
      requires IsCopy(added0, depths0, limit + shift, this, at, Tree(info, CopiedAll(ts)))
      requires child in depth && at < depth[child] + shift
      modifies added0
      ensures fresh(added - added0)
      ensures IsCopy(added, depths, limit + shift, this, at,
                     Tree(info, CopiedAll(ts + [old(TreeAt(nodes, depth, limit, child))])))
      decreases limit - depth[child], 1
    {
      hide Sound, TreeAt, IsCopy, CopiedAll, Copied;
      SourceFacts(nodes, depth, limit, child);
      ghost var source := TreeAt(nodes, depth, limit, child);
      CopiedAppend(ts, source);
      var clone, copies, copyDepths := child.Clone(nodes, depth, limit, shift);
      added, depths := LinkClone(clone, limit + shift, at, depth[child] + shift, added0, depths0, info, CopiedAll(ts),
                                 copies, copyDepths, Copied(source));
      if child.kind == Document {
        assert CopiedAll(ts) + [] == CopiedAll(ts);
      }
    }

    /** `target->LinkEndChild( node->Clone() )`, the clone being at hand. */
    method LinkClone(clone: TiXmlNode, ghost limit: nat, ghost at: nat, ghost at': nat, ghost added0: set<TiXmlNode>,
                     ghost depths0: map<TiXmlNode, nat>, ghost info: Label, ghost ts: seq<Tree>,
                     ghost copies: set<TiXmlNode>, ghost copyDepths: map<TiXmlNode, nat>, ghost t: Tree)
      returns (ghost added: set<TiXmlNode>, ghost depths: map<TiXmlNode, nat>)
      requires IsCopy(added0, depths0, limit, this, at, Tree(info, ts))
               && IsCopy(copies, copyDepths, limit, clone, at', t)
      requires at < at' && added0 !! copies
      modifies added0, copies
      ensures added == if clone.kind.Document? then added0 else added0 + copies
      ensures IsCopy(added, depths, limit, this, at, Tree(info, if clone.kind.Document? then ts else ts + [t]))
    {
      hide IsCopy, TwoCopies, Inserted, InsertedAt, LinkedEnd, CanInsert, CanLink, Snap, Labels, TreeOf, Readable,
           Forest;
      ghost var s, labels, s', labels' := Snap(added0), Labels(added0), Snap(copies), Labels(copies);
      CopiesApart(limit, this, clone, at, at', added0, depths0, Tree(info, ts), copies, copyDepths, t);
      added, depths := added0 + copies, depths0 + copyDepths;
      CanLinkCopy(s, labels, depths0, limit, this, s', labels', copyDepths, clone);
      LinkInserted(s + s', depths, this, clone);
      var linked := LinkEndChild(clone, added, depths);
      if clone.kind == Document {
        added, depths := added0, depths0;
      } else {
        LinkCopy(s, labels, depths0, limit, this, s', labels', copyDepths, clone, Snap(added));
        RootTree(s, labels, depths0, limit, this);
        RootTree(Snap(added), Labels(added), depths, limit, this);
        NowCopy(added, depths, limit, this, at);
      }
    }

    /** InsertBeforeChild: a copy of `addThis` in front of one of this node's children. */
    method InsertBeforeChild(beforeThis: TiXmlNode?, addThis: TiXmlNode,
                             ghost nodes: set<TiXmlNode>, ghost depth: map<TiXmlNode, nat>, ghost limit: nat,
                             ghost from: set<TiXmlNode>, ghost fromDepth: map<TiXmlNode, nat>, ghost fromLimit: nat)
      returns (linked: TiXmlNode?, ghost added: set<TiXmlNode>, ghost depths: map<TiXmlNode, nat>, ghost limit': nat)
      requires this in nodes && Sound(nodes, depth, limit) && addThis in from && Sound(from, fromDepth, fromLimit)
      requires beforeThis != null && beforeThis.parent == this ==> beforeThis in nodes
      modifies nodes`parent, nodes`prev, nodes`next, nodes`firstChild, nodes`lastChild, nodes`children
      ensures linked == null <==> beforeThis == null || old(beforeThis.parent) != this || addThis.kind.Document?
      ensures linked == null ==> added == {} && unchanged(nodes)
      ensures linked != null ==>
                && fresh(added)
                && exists k: nat :: k < |old(children)| && old(children)[k] == beforeThis
                     && Received(old(Snap(nodes)), nodes, added, depths, limit', this, k, linked,
                                 old(Copied(TreeAt(from, fromDepth, fromLimit, addThis))))
    {
      hide Sound, TreeAt, IsCopy, Received, Snap, Labels, Copied, Prepared;
      added, depths, limit' := {}, depth, limit;
      if beforeThis == null || beforeThis.parent != this {
        return null, added, depths, limit';
      }
      if addThis.kind == Document {
        return null, added, depths, limit';
      }
      ghost var k := ChildIndex(nodes, depth, limit, this, beforeThis);
      DepthOf(nodes, depth, limit, this);
      DepthOf(from, fromDepth, fromLimit, addThis);
      ghost var shift := depth[this] + 1;
      var node, copies, copyDepths := addThis.Clone(from, fromDepth, fromLimit, shift);
      ghost var tree := Copied(TreeAt(from, fromDepth, fromLimit, addThis));
      added, depths, limit' := copies, depth + copyDepths, limit + (fromLimit + shift);
      BeforeInsert(nodes, depth, limit, this, k, copies, copyDepths, fromLimit + shift, node,
                   fromDepth[addThis] + shift, tree);
      PlaceBefore(beforeThis, node, nodes, added, k, Snap(nodes), Labels(nodes), depth, Snap(added), Labels(added),
                  copyDepths, limit', tree);
      linked := node;
    }

    /** Link the copy in, which changes no other node's children. */
    method PlaceBefore(beforeThis: TiXmlNode, node: TiXmlNode, ghost nodes: set<TiXmlNode>, ghost added: set<TiXmlNode>,
                       ghost k: nat, ghost was: Cells<TiXmlNode>, ghost labels: map<TiXmlNode, Label>,
                       ghost depth: map<TiXmlNode, nat>, ghost t: Cells<TiXmlNode>,
                       ghost labels': map<TiXmlNode, Label>, ghost copyDepths: map<TiXmlNode, nat>, ghost limit: nat,
                       ghost tree: Tree)
      requires Prepared(was, labels, depth, t, labels', copyDepths, limit, this, k, node, tree)
      requires was.Keys == nodes && t.Keys == added && Snap(nodes + added) == was + t
               && Labels(nodes + added) == labels + labels'
      requires this in nodes && node in added && was[this].children == children && k < |children|
               && children[k] == beforeThis
      modifies nodes`parent, nodes`prev, nodes`next, nodes`firstChild, nodes`lastChild, nodes`children
      modifies added`parent, added`prev, added`next, added`firstChild, added`lastChild, added`children
      ensures Received(was, nodes, added, depth + copyDepths, limit, this, k, node, tree)
    {
      hide Received, Snap, Labels, Readable, TreeOf, CanInsert, Inserted, InsertedAt, LinkedBefore;
      LinkedBeforeIs(was + t, depth + copyDepths, this, node, k);
      SnapAt(nodes + added, beforeThis);
      LinkBefore(beforeThis, node, nodes + added, InsertedAt(children, k, node));
      AfterInsert(was, labels, depth, t, labels', copyDepths, limit, nodes, added, this, k, node, tree);
    }

    /** InsertAfterChild: a copy of `addThis` behind one of this node's children. */
    method InsertAfterChild(afterThis: TiXmlNode?, addThis: TiXmlNode,
                            ghost nodes: set<TiXmlNode>, ghost depth: map<TiXmlNode, nat>, ghost limit: nat,
                            ghost from: set<TiXmlNode>, ghost fromDepth: map<TiXmlNode, nat>, ghost fromLimit: nat)
      returns (linked: TiXmlNode?, ghost added: set<TiXmlNode>, ghost depths: map<TiXmlNode, nat>, ghost limit': nat)
      requires this in nodes && Sound(nodes, depth, limit) && addThis in from && Sound(from, fromDepth, fromLimit)
      requires afterThis != null && afterThis.parent == this ==> afterThis in nodes
      modifies nodes`parent, nodes`prev, nodes`next, nodes`firstChild, nodes`lastChild, nodes`children
      ensures linked == null <==> afterThis == null || old(afterThis.parent) != this || addThis.kind.Document?
      ensures linked == null ==> added == {} && unchanged(nodes)
      ensures linked != null ==>
                && fresh(added)
                && exists k: nat :: k < |old(children)| && old(children)[k] == afterThis
                     && Received(old(Snap(nodes)), nodes, added, depths, limit', this, k + 1, linked,
                                 old(Copied(TreeAt(from, fromDepth, fromLimit, addThis))))
    {
      hide Sound, TreeAt, IsCopy, Received, Snap, Labels, Copied, Prepared;
      added, depths, limit' := {}, depth, limit;
      if afterThis == null || afterThis.parent != this {
        return null, added, depths, limit';
      }
      if addThis.kind == Document {
        return null, added, depths, limit';
      }
      ghost var k := ChildIndex(nodes, depth, limit, this, afterThis);
      DepthOf(nodes, depth, limit, this);
      DepthOf(from, fromDepth, fromLimit, addThis);
      ghost var shift := depth[this] + 1;
      var node, copies, copyDepths := addThis.Clone(from, fromDepth, fromLimit, shift);
      ghost var tree := Copied(TreeAt(from, fromDepth, fromLimit, addThis));
      added, depths, limit' := copies, depth + copyDepths, limit + (fromLimit + shift);
      BeforeInsert(nodes, depth, limit, this, k + 1, copies, copyDepths, fromLimit + shift, node,
                   fromDepth[addThis] + shift, tree);
      PlaceAfter(afterThis, node, nodes, added, k, Snap(nodes), Labels(nodes), depth, Snap(added), Labels(added),
                 copyDepths, limit', tree);
      linked := node;
    }

    method PlaceAfter(afterThis: TiXmlNode, node: TiXmlNode, ghost nodes: set<TiXmlNode>, ghost added: set<TiXmlNode>,
                      ghost k: nat, ghost was: Cells<TiXmlNode>, ghost labels: map<TiXmlNode, Label>,
                      ghost depth: map<TiXmlNode, nat>, ghost t: Cells<TiXmlNode>, ghost labels': map<TiXmlNode, Label>,
                      ghost copyDepths: map<TiXmlNode, nat>, ghost limit: nat, ghost tree: Tree)
      requires Prepared(was, labels, depth, t, labels', copyDepths, limit, this, k + 1, node, tree)
      requires was.Keys == nodes && t.Keys == added && Snap(nodes + added) == was + t
               && Labels(nodes + added) == labels + labels'
      requires this in nodes && node in added && was[this].children == children && k < |children|
               && children[k] == afterThis
      modifies nodes`parent, nodes`prev, nodes`next, nodes`firstChild, nodes`lastChild, nodes`children
      modifies added`parent, added`prev, added`next, added`firstChild, added`lastChild, added`children
      ensures Received(was, nodes, added, depth + copyDepths, limit, this, k + 1, node, tree)
    {
      hide Received, Snap, Labels, Readable, TreeOf, CanInsert, Inserted, InsertedAt, LinkedAfter;
      LinkedAfterIs(was + t, depth + copyDepths, this, node, k);
      SnapAt(nodes + added, afterThis);
      LinkAfter(afterThis, node, nodes + added, InsertedAt(children, k + 1, node));
      AfterInsert(was, labels, depth, t, labels', copyDepths, limit, nodes, added, this, k + 1, node, tree);
    }

    /** ReplaceChild: a copy of `withThis` in the place of a child, which is deleted with everything below it. */
    method ReplaceChild(replaceThis: TiXmlNode?, withThis: TiXmlNode,
                        ghost nodes: set<TiXmlNode>, ghost depth: map<TiXmlNode, nat>, ghost limit: nat,
                        ghost from: set<TiXmlNode>, ghost fromDepth: map<TiXmlNode, nat>, ghost fromLimit: nat)
      returns (linked: TiXmlNode?, ghost left: set<TiXmlNode>, ghost added: set<TiXmlNode>,
               ghost depths: map<TiXmlNode, nat>, ghost limit': nat)
      requires this in nodes && Sound(nodes, depth, limit) && withThis in from && Sound(from, fromDepth, fromLimit)
      requires replaceThis != null && replaceThis.parent == this ==> replaceThis in nodes
      modifies nodes`parent, nodes`prev, nodes`next, nodes`firstChild, nodes`lastChild, nodes`children
      ensures linked == null <==> replaceThis == null || old(replaceThis.parent) != this || withThis.kind.Document?
      ensures linked == null ==> left == nodes && added == {} && unchanged(nodes)
      ensures linked != null ==>
                && fresh(added)
                && exists k: nat :: k < |old(children)| && old(children)[k] == replaceThis
                     && Swapped(old(Snap(nodes)), depth, left, added, depths, limit', this, k, linked,
                                old(Copied(TreeAt(from, fromDepth, fromLimit, withThis))))
    {
      hide Sound, TreeAt, IsCopy, Swapped, Snap, Labels, Copied, Prepared, Without;
      left, added, depths, limit' := nodes, {}, depth, limit;
      if replaceThis == null {
        return null, left, added, depths, limit';
      }
      if replaceThis.parent != this {
        return null, left, added, depths, limit';
      }
      if withThis.kind == Document {
        return null, left, added, depths, limit';
      }
      ghost var k := ChildIndex(nodes, depth, limit, this, replaceThis);
      DepthOf(nodes, depth, limit, this);
      DepthOf(from, fromDepth, fromLimit, withThis);
      ghost var shift := depth[this] + 1;
      var node, copies, copyDepths := withThis.Clone(from, fromDepth, fromLimit, shift);
      ghost var tree := Copied(TreeAt(from, fromDepth, fromLimit, withThis));
      added, depths, limit' := copies, depth + copyDepths, limit + (fromLimit + shift);
      BeforeInsert(nodes, depth, limit, this, k, copies, copyDepths, fromLimit + shift, node,
                   fromDepth[withThis] + shift, tree);
      left := Without(Snap(nodes), depth, replaceThis);
      PlaceInstead(replaceThis, node, nodes, left, added, k, Snap(nodes), Labels(nodes), depth, Snap(added),
                   Labels(added), copyDepths, limit', tree);
      linked := node;
    }

    method PlaceInstead(replaceThis: TiXmlNode, node: TiXmlNode, ghost nodes: set<TiXmlNode>,
                        ghost left: set<TiXmlNode>, ghost added: set<TiXmlNode>, ghost k: nat,
                        ghost was: Cells<TiXmlNode>, ghost labels: map<TiXmlNode, Label>,
                        ghost depth: map<TiXmlNode, nat>, ghost t: Cells<TiXmlNode>,
                        ghost labels': map<TiXmlNode, Label>, ghost copyDepths: map<TiXmlNode, nat>, ghost limit: nat,
                        ghost tree: Tree)
      requires Prepared(was, labels, depth, t, labels', copyDepths, limit, this, k, node, tree)
      requires was.Keys == nodes && t.Keys == added && Snap(nodes + added) == was + t
               && Labels(nodes + added) == labels + labels'
      requires this in nodes && node in added && was[this].children == children && k < |children|
               && children[k] == replaceThis
      requires left == Without(was, depth, replaceThis)
      modifies nodes`parent, nodes`prev, nodes`next, nodes`firstChild, nodes`lastChild, nodes`children
      modifies added`parent, added`prev, added`next, added`firstChild, added`lastChild, added`children
      ensures Swapped(was, depth, left, added, depth + copyDepths, limit, this, k, node, tree)
    {
      hide Swapped, Snap, Labels, Readable, TreeOf, CanInsert, LinkedInstead, Forest, Without;
      InsteadReady(was + t, depth + copyDepths, this, node, k);
      SnapAt(nodes + added, replaceThis);
      LinkInstead(replaceThis, node, nodes + added, children[k := node]);
      AfterReplace(was, labels, depth, t, labels', copyDepths, limit, nodes, left, added, this, k, node, tree);
    }

    /** RemoveChild: unlink a child and delete it with everything below it; `left` are the nodes that remain. */
    method RemoveChild(removeThis: TiXmlNode?, ghost nodes: set<TiXmlNode>, ghost depth: map<TiXmlNode, nat>,
                       ghost limit: nat)
      returns (ok: bool, ghost left: set<TiXmlNode>)
      requires this in nodes && Sound(nodes, depth, limit)
      requires removeThis != null && removeThis.parent == this ==> removeThis in nodes
      modifies nodes`parent, nodes`prev, nodes`next, nodes`firstChild, nodes`lastChild, nodes`children
      ensures ok <==> removeThis != null && old(removeThis.parent) == this
      ensures !ok ==> left == nodes && unchanged(nodes)
      ensures ok ==>
                exists k: nat :: k < |old(children)| && old(children)[k] == removeThis
                  && Lost(old(Snap(nodes)), depth, limit, left, this, k)
    {
      hide Sound, Snap, Labels, Lost, Without, RemovedAt, Unlinked, LinkedAround, Forest, Readable, Siblings;
      left := nodes;
      if removeThis == null {
        return false, left;
      }
      if removeThis.parent != this {
        return false, left;
      }
      ghost var k := ChildIndex(nodes, depth, limit, this, removeThis);
      ghost var was, labels := Snap(nodes), Labels(nodes);
      SoundForest(nodes, depth, limit, this);
      LinkedAroundIs(was, depth, this, k);
      SnapAt(nodes, removeThis);
      Unlink(removeThis, nodes, RemovedAt(children, k));
      left := Without(was, depth, removeThis);
      AfterRemove(was, labels, depth, limit, nodes, left, this, k);
      return true, left;
    }

    /** Clear: delete every child with everything below it. */
    method Clear(ghost nodes: set<TiXmlNode>, ghost depth: map<TiXmlNode, nat>, ghost limit: nat)
      returns (ghost left: set<TiXmlNode>, ghost deleted: seq<TiXmlNode>)
      requires this in nodes && Sound(nodes, depth, limit)
      modifies `firstChild, `lastChild, `children
      ensures deleted == old(children) && children == [] && firstChild == null && lastChild == null
      ensures left == AboveOrAt(old(Snap(nodes)), depth, this) && this in left && Sound(left, depth, limit)
    {
      hide Sound, Snap, Labels, AboveOrAt, Readable, Emptied;
      ghost var was, labels := Snap(nodes), Labels(nodes);
      SoundReadable(nodes, depth, limit);
      deleted := DeleteChildren(nodes, depth, limit);
      ForgetChildren(nodes);
      left := AboveOrAt(was, depth, this);
      AfterClear(was, labels, depth, limit, nodes, left, this);
    }

    /** The deleting loop of Clear and the destructor: every child is reached before the one in front of it is gone. */
    method DeleteChildren(ghost nodes: set<TiXmlNode>, ghost depth: map<TiXmlNode, nat>, ghost limit: nat)
      returns (ghost deleted: seq<TiXmlNode>)
      requires this in nodes && Sound(nodes, depth, limit)
      ensures deleted == children
    {
      hide Sound;
      SoundStart(nodes, depth, limit, this);
      deleted := [];
      var node := firstChild;
      while node != null
        invariant |deleted| <= |children| && deleted == children[..|deleted|]
                  && Opt(node) == Behind(children, |deleted|)
        decreases |children| - |deleted|
      {
        var temp := node;
        SoundNext(nodes, depth, limit, this, |deleted|);
        node := node.next;
        deleted := deleted + [temp];
      }
    }
  }

  /** Node `p` gained the copy `linked` at index `k`; no other node's children changed. */
  ghost predicate Received(was: Cells<TiXmlNode>, nodes: set<TiXmlNode>, added: set<TiXmlNode>,
                           depths: map<TiXmlNode, nat>, limit: nat, p: TiXmlNode, k: nat, linked: TiXmlNode, tree: Tree)
    reads nodes, added
  {
    && Sound(nodes + added, depths, limit) && p in nodes && p in was && linked in added && k <= |was[p].children|
    && p.children == InsertedAt(was[p].children, k, linked) && linked.parent == p
    && (forall n :: n in nodes && n in was && n != p ==> n.children == was[n].children)
    && TreeAt(nodes + added, depths, limit, linked) == tree
  }

  /** Node `p` lost its child at index `k` and everything below it; no other remaining node's children changed. */
  ghost predicate Lost(was: Cells<TiXmlNode>, depth: map<TiXmlNode, nat>, limit: nat, left: set<TiXmlNode>,
                       p: TiXmlNode, k: nat)
    reads left
  {
    && Sound(left, depth, limit) && p in left && p in was && k < |was[p].children|
    && left == Without(was, depth, was[p].children[k]) && p.children == RemovedAt(was[p].children, k)
    && forall n :: n in left && n in was && n != p ==> n.children == was[n].children
  }

  /** The child of `p` at index `k` and everything below it gave way to the copy `linked`. */
  ghost predicate Swapped(was: Cells<TiXmlNode>, depth: map<TiXmlNode, nat>, left: set<TiXmlNode>,
                          added: set<TiXmlNode>, depths: map<TiXmlNode, nat>, limit: nat, p: TiXmlNode, k: nat,
                          linked: TiXmlNode, tree: Tree)
    reads left, added
  {
    && Sound(left + added, depths, limit) && p in left && p in was && linked in added && k < |was[p].children|
    && left == Without(was, depth, was[p].children[k])
    && p.children == was[p].children[k := linked] && linked.parent == p
    && (forall n :: n in left && n in was && n != p ==> n.children == was[n].children)
    && TreeAt(left + added, depths, limit, linked) == tree
  }

  lemma {:induction false} InsteadReady<T>(s: Cells<T>, depth: map<T, nat>, p: T, n: T, k: nat)
    requires CanInsert(s, depth, p, n, k) && k < |s[p].children|
    ensures var r := s[p].children[k];
            && r in s && r != p && r != n && p != n
            && (s[r].prev.Some? ==> s[r].prev.value in s) && (s[r].next.Some? ==> s[r].next.value in s)
            && s[r].prev != Some(r) && s[r].next != Some(r)
    ensures forall c :: c in s[p].children ==> c in s
  {
    hide Siblings, Forest;
    InsertApart(s, depth, p, n, k);
    ChildLinks(s, p, k);
  }

  lemma {:induction false} SoundForest(nodes: set<TiXmlNode>, depth: map<TiXmlNode, nat>, limit: nat, p: TiXmlNode)
    requires Sound(nodes, depth, limit) && p in nodes
    ensures Forest(Snap(nodes), depth) && Snap(nodes)[p].children == p.children
    ensures forall c :: c in p.children ==> c in nodes
    ensures Readable(Snap(nodes), Labels(nodes), depth, limit)
  {
    ChildrenApart(Snap(nodes), depth, p);
  }

  lemma {:induction false} SoundReadable(nodes: set<TiXmlNode>, depth: map<TiXmlNode, nat>, limit: nat)
    requires Sound(nodes, depth, limit)
    ensures Readable(Snap(nodes), Labels(nodes), depth, limit)
  {
    hide Readable, Snap, Labels;
  }

  lemma {:induction false} SoundStart(nodes: set<TiXmlNode>, depth: map<TiXmlNode, nat>, limit: nat, p: TiXmlNode)
    requires Sound(nodes, depth, limit) && p in nodes
    ensures Opt(p.firstChild) == Behind(p.children, 0)
  {
    SnapAt(nodes, p);
    assert Siblings(Snap(nodes), p);
  }

  lemma {:induction false} SoundNext(nodes: set<TiXmlNode>, depth: map<TiXmlNode, nat>, limit: nat, p: TiXmlNode,
                                     k: nat)
    requires Sound(nodes, depth, limit) && p in nodes && k < |p.children|
    ensures Opt(p.children[k].next) == Behind(p.children, k + 1)
  {
    hide TreeOf, Readable;
    ChildTree(Snap(nodes), Labels(nodes), depth, limit, p, k);
  }

  lemma {:induction false} AfterRemove(was: Cells<TiXmlNode>, labels: map<TiXmlNode, Label>, depth: map<TiXmlNode, nat>,
                                       limit: nat, nodes: set<TiXmlNode>, left: set<TiXmlNode>, p: TiXmlNode, k: nat)
    requires Readable(was, labels, depth, limit) && was.Keys == nodes && labels == Labels(nodes)
    requires p in nodes && k < |was[p].children| && forall c :: c in was[p].children ==> c in was
    requires left == Without(was, depth, was[p].children[k]) && Snap(nodes) == Unlinked(was, p, k)
    ensures Lost(was, depth, limit, left, p, k)
  {
    hide Readable, Forest, Shape, Unlinked, Removed, Without, RemovedAt, Shrank, SubCells;
    ReadableForest(was, labels, depth, limit);
    RemovedReadable(was, labels, depth, limit, p, k);
    SnapPart(nodes, left);
    RemovedIs(was, depth, p, k);
    SubReadable(was, labels, depth, limit, Snap(left), Labels(left));
    UnlinkShrank(was, depth, p, k);
    ShrankChildren(was, Snap(nodes), p, was[p].children[k]);
    UnlinkedList(was, depth, p, k);
    forall n | n in left && n != p ensures n.children == was[n].children {
      SnapAt(nodes, n);
    }
    SnapAt(nodes, p);
  }

  lemma {:induction false} RemovedIs<T>(s: Cells<T>, depth: map<T, nat>, p: T, k: nat)
    requires p in s && k < |s[p].children| && forall c :: c in s[p].children ==> c in s
    ensures Removed(s, depth, p, k) == Restricted(Unlinked(s, p, k), Without(s, depth, s[p].children[k]))
  {
  }

  lemma {:induction false} UnlinkedList<T>(s: Cells<T>, depth: map<T, nat>, p: T, k: nat)
    requires Forest(s, depth) && p in s && k < |s[p].children| && forall c :: c in s[p].children ==> c in s
    ensures p in Unlinked(s, p, k) && Unlinked(s, p, k)[p].children == RemovedAt(s[p].children, k)
  {
    hide Forest, RemovedAt;
    ChildrenApart(s, depth, p);
    UnlinkCells(s, p, k);
  }

  lemma {:induction false} ShrankChildren<T>(s: Cells<T>, s': Cells<T>, p: T, r: T)
    requires Shrank(s, s', p, r)
    ensures s'.Keys == s.Keys && forall q :: q in s && q != p ==> s'[q].children == s[q].children
  {
  }

  lemma {:induction false} SnapPart(nodes: set<TiXmlNode>, left: set<TiXmlNode>)
    requires left <= nodes
    ensures Snap(left) == Restricted(Snap(nodes), left)
  {
  }

  /** What a removal leaves is readable. */
  lemma {:induction false} RemovedReadable<T>(s: Cells<T>, labels: map<T, Label>, depth: map<T, nat>, limit: nat, p: T,
                                              k: nat)
    requires Readable(s, labels, depth, limit) && p in s && k < |s[p].children|
    ensures forall c :: c in s[p].children ==> c in s
    ensures var keep, u := Without(s, depth, s[p].children[k]), Removed(s, depth, p, k);
            keep <= s.Keys && p in keep && u.Keys == keep && Forest(u, depth) && SubCells(s, u)
  {
    hide Unlinked, Shrank, Under, Siblings;
    ChildrenApart(s, depth, p);
    RemoveKeeps(s, depth, p, k);
    UnlinkShrank(s, depth, p, k);
    ShrankSub(s, Unlinked(s, p, k), p, s[p].children[k]);
    Shallower(s, depth, p, s[p].children[k]);
    RestrictedIs(Unlinked(s, p, k), Without(s, depth, s[p].children[k]));
    hide Forest, Without;
  }

  lemma {:induction false} ShrankSub<T>(s: Cells<T>, s': Cells<T>, p: T, r: T)
    requires Shrank(s, s', p, r)
    ensures s'.Keys == s.Keys && SubCells(s, s')
  {
  }

  /** Fewer nodes with fewer children. */
  ghost predicate SubCells<T>(s: Cells<T>, u: Cells<T>) {
    u.Keys <= s.Keys && forall q, c :: q in u && c in u[q].children ==> c in s[q].children
  }

  lemma {:induction false} SubReadable<T>(s: Cells<T>, labels: map<T, Label>, depth: map<T, nat>, limit: nat,
                                          u: Cells<T>, part: map<T, Label>)
    requires Readable(s, labels, depth, limit) && SubCells(s, u) && Forest(u, depth) && u.Keys == part.Keys
    ensures Readable(u, part, depth, limit)
  {
    hide Siblings, Forest;
    ForestShape(u, part, depth);
  }

  lemma {:induction false} ForestShape<T>(u: Cells<T>, part: map<T, Label>, depth: map<T, nat>)
    requires Forest(u, depth)
    ensures forall q, c :: q in u && c in u[q].children ==> c in u && c in depth && depth[q] < depth[c]
  {
    hide Siblings;
    forall q, c | q in u && c in u[q].children ensures c in u {
      ChildrenApart(u, depth, q);
    }
  }

  /** The cells once `p` has no children any more. */
  ghost function Emptied<T>(s: Cells<T>, p: T): Cells<T>
    requires p in s
  {
    s[p := s[p].(first := None, last := None, children := [])]
  }

  lemma {:induction false} AfterClear(was: Cells<TiXmlNode>, labels: map<TiXmlNode, Label>, depth: map<TiXmlNode, nat>,
                                      limit: nat, nodes: set<TiXmlNode>, left: set<TiXmlNode>, p: TiXmlNode)
    requires Readable(was, labels, depth, limit) && was.Keys == nodes && labels == Labels(nodes) && p in nodes
    requires left == AboveOrAt(was, depth, p)
    requires Snap(nodes) == Emptied(was, p)
    ensures p in left && Sound(left, depth, limit)
  {
    hide Readable, Forest, AboveOrAt, SubCells;
    ReadableForest(was, labels, depth, limit);
    ClearKeeps(was, depth, p);
    ClearedSub(was, depth, p);
    AboveIn(was, depth, p);
    SnapPart(nodes, left);
    ClearedIs(was, depth, p);
    SubReadable(was, labels, depth, limit, Snap(left), Labels(left));
  }

  lemma {:induction false} ClearedIs<T>(s: Cells<T>, depth: map<T, nat>, p: T)
    requires p in s
    ensures Cleared(s, depth, p) == Restricted(Emptied(s, p), AboveOrAt(s, depth, p))
  {
  }

  lemma {:induction false} AboveIn<T>(s: Cells<T>, depth: map<T, nat>, p: T)
    ensures AboveOrAt(s, depth, p) <= s.Keys && (p in s ==> p in AboveOrAt(s, depth, p))
  {
  }

  lemma {:induction false} ClearedSub<T>(s: Cells<T>, depth: map<T, nat>, p: T)
    requires p in s
    ensures SubCells(s, Cleared(s, depth, p))
  {
    hide AboveOrAt, Cleared;
    AboveIn(s, depth, p);
    ClearedCells(s, depth, p);
  }

  lemma {:induction false} ReadableForest<T>(s: Cells<T>, labels: map<T, Label>, depth: map<T, nat>, limit: nat)
    requires Readable(s, labels, depth, limit)
    ensures Forest(s, depth)
  {
  }

  lemma {:induction false} ChildIndex(nodes: set<TiXmlNode>, depth: map<TiXmlNode, nat>, limit: nat, p: TiXmlNode,
                                      c: TiXmlNode)
    returns (k: nat)
    requires Sound(nodes, depth, limit) && c in nodes && c.parent == p && p in nodes
    ensures k < |p.children| && p.children[k] == c
  {
    hide Siblings, Shape;
    assert Snap(nodes)[c].parent == Some(p);
    assert c in Snap(nodes)[p].children;
    k :| k < |p.children| && p.children[k] == c;
  }

  lemma {:induction false} DepthOf(nodes: set<TiXmlNode>, depth: map<TiXmlNode, nat>, limit: nat, n: TiXmlNode)
    requires Sound(nodes, depth, limit) && n in nodes
    ensures n in depth
  {
    ReadableDepths(Snap(nodes), Labels(nodes), depth, limit);
  }

  /** A document and a copy that can be inserted at index `k` below `p`. */
  ghost predicate Prepared<T>(was: Cells<T>, labels: map<T, Label>, depth: map<T, nat>, t: Cells<T>,
                              labels': map<T, Label>, copyDepths: map<T, nat>, limit: nat, p: T, k: nat, node: T,
                              tree: Tree) {
    && DocumentAndCopy(was, labels, depth, limit, p, t, labels', copyDepths, node)
    && TreeOf(t, labels', copyDepths, limit, node) == tree && k <= |was[p].children|
    && (forall c :: c in was[p].children ==> c in was) && (was + t)[p] == was[p]
    && CanInsert(was + t, depth + copyDepths, p, node, k)
  }

  lemma {:induction false} Prepares<T>(was: Cells<T>, labels: map<T, Label>, depth: map<T, nat>, limit: nat,
                                       t: Cells<T>, labels': map<T, Label>, copyDepths: map<T, nat>, copyLimit: nat,
                                       p: T, k: nat, node: T)
    requires Readable(was, labels, depth, limit) && Readable(t, labels', copyDepths, copyLimit) && was.Keys !! t.Keys
    requires p in was && p in depth && k <= |was[p].children| && copyDepths.Keys == t.Keys
    requires node in t && t[node].parent.None? && depth[p] < copyDepths[node]
    ensures Prepared(was, labels, depth, t, labels', copyDepths, limit + copyLimit, p, k, node,
                     TreeOf(t, labels', copyDepths, copyLimit, node))
  {
    hide Readable, TreeOf;
    var limit' := limit + copyLimit;
    TreeLimit(was, labels, depth, limit, limit', p);
    TreeLimit(t, labels', copyDepths, copyLimit, limit', node);
    CanInsertCopy(was, labels, depth, limit', p, t, labels', copyDepths, node, k);
  }

  lemma {:induction false} SnapUnion(a: set<TiXmlNode>, b: set<TiXmlNode>)
    ensures Snap(a + b) == Snap(a) + Snap(b) && Labels(a + b) == Labels(a) + Labels(b)
  {
  }

  /** A document and a fresh copy, as the pure lemmas want them. */
  lemma {:induction false} BeforeInsert(nodes: set<TiXmlNode>, depth: map<TiXmlNode, nat>, limit: nat, p: TiXmlNode,
                                        k: nat, copies: set<TiXmlNode>, copyDepths: map<TiXmlNode, nat>, copyLimit: nat,
                                        node: TiXmlNode, at: nat, tree: Tree)
    requires Sound(nodes, depth, limit) && p in nodes && k <= |p.children| && nodes !! copies
    requires IsCopy(copies, copyDepths, copyLimit, node, at, tree) && p in depth && depth[p] < at
    ensures node in copies && Snap(nodes)[p].children == p.children
    ensures Snap(nodes + copies) == Snap(nodes) + Snap(copies)
            && Labels(nodes + copies) == Labels(nodes) + Labels(copies)
    ensures Prepared(Snap(nodes), Labels(nodes), depth, Snap(copies), Labels(copies), copyDepths, limit + copyLimit, p,
                     k, node, tree)
  {
    hide Readable, TreeOf, Prepared;
    SnapAt(nodes, p);
    SnapAt(copies, node);
    SnapUnion(nodes, copies);
    Prepares(Snap(nodes), Labels(nodes), depth, limit, Snap(copies), Labels(copies), copyDepths, copyLimit, p, k, node);
  }

  /** The pointer assignments of an insertion are done. */
  lemma {:induction false} AfterInsert(was: Cells<TiXmlNode>, labels: map<TiXmlNode, Label>, depth: map<TiXmlNode, nat>,
                                       t: Cells<TiXmlNode>, labels': map<TiXmlNode, Label>,
                                       copyDepths: map<TiXmlNode, nat>, limit: nat, nodes: set<TiXmlNode>,
                                       added: set<TiXmlNode>, p: TiXmlNode, k: nat, node: TiXmlNode, tree: Tree)
    requires was.Keys == nodes && t.Keys == added && p in nodes && node in added && k <= |was[p].children|
    requires Prepared(was, labels, depth, t, labels', copyDepths, limit, p, k, node, tree)
    requires Snap(nodes + added) == Inserted(was + t, p, node, k) && Labels(nodes + added) == labels + labels'
    ensures Received(was, nodes, added, depth + copyDepths, limit, p, k, node, tree)
  {
    hide Readable, TreeOf, Inserted, CanInsert, InsertedAt;
    var u := Snap(nodes + added);
    InsertCopy(was, labels, depth, limit, p, t, labels', copyDepths, node, k, u);
    SnapAt(nodes + added, p);
    SnapAt(nodes + added, node);
    OthersSame(was, t, u, nodes, added, p, node);
  }

  lemma {:induction false} OthersSame(was: Cells<TiXmlNode>, t: Cells<TiXmlNode>, u: Cells<TiXmlNode>,
                                      nodes: set<TiXmlNode>, added: set<TiXmlNode>, p: TiXmlNode, node: TiXmlNode)
    requires was.Keys == nodes && t.Keys == added && nodes !! added && u == Snap(nodes + added)
             && Grew(was + t, u, p, node)
    requires node in added
    ensures forall n :: n in nodes && n != p ==> n.children == was[n].children
    ensures node.parent == p
  {
    forall n | n in nodes && n != p ensures n.children == was[n].children {
      assert u[n].children == (was + t)[n].children;
    }
    assert u[node].parent == Some(p);
  }

  lemma {:induction false} CopiesApart(limit: nat, root: TiXmlNode, clone: TiXmlNode, at: nat, at': nat,
                                       added0: set<TiXmlNode>, depths0: map<TiXmlNode, nat>, t0: Tree,
                                       copies: set<TiXmlNode>, copyDepths: map<TiXmlNode, nat>, t: Tree)
    requires IsCopy(added0, depths0, limit, root, at, t0) && IsCopy(copies, copyDepths, limit, clone, at', t)
    requires at < at' && added0 !! copies
    ensures TwoCopies(Snap(added0), Labels(added0), depths0, limit, root, Snap(copies), Labels(copies), copyDepths,
                      clone)
    ensures Snap(added0 + copies) == Snap(added0) + Snap(copies)
            && Labels(added0 + copies) == Labels(added0) + Labels(copies)
    ensures root in added0 && clone in copies && root.parent == null && clone.parent == null
    ensures Snap(added0)[root].children == root.children && Snap(added0)[root].parent == None
    ensures Readable(Snap(added0), Labels(added0), depths0, limit)
            && Readable(Snap(copies), Labels(copies), copyDepths, limit)
    ensures TreeOf(Snap(added0), Labels(added0), depths0, limit, root) == t0
    ensures TreeOf(Snap(copies), Labels(copies), copyDepths, limit, clone) == t
    ensures forall m :: m in (depths0 + copyDepths) && m != root ==> at < (depths0 + copyDepths)[m]
    ensures (depths0 + copyDepths).Keys == added0 + copies && (depths0 + copyDepths)[root] == at
  {
    hide Readable, TreeOf;
  }

  lemma {:induction false} NowCopy(added: set<TiXmlNode>, depths: map<TiXmlNode, nat>, limit: nat, root: TiXmlNode,
                                   at: nat)
    requires root in added && Readable(Snap(added), Labels(added), depths, limit) && Snap(added)[root].parent == None
    requires depths.Keys == added && depths[root] == at && forall m :: m in depths && m != root ==> at < depths[m]
    ensures IsCopy(added, depths, limit, root, at, TreeOf(Snap(added), Labels(added), depths, limit, root))
  {
    SnapAt(added, root);
    hide Readable, TreeOf, Snap, Labels;
  }

  lemma {:induction false} SnapAt(nodes: set<TiXmlNode>, n: TiXmlNode)
    requires n in nodes
    ensures Snap(nodes)[n] == Cell(Opt(n.parent), Opt(n.prev), Opt(n.next), Opt(n.firstChild), Opt(n.lastChild),
                                   n.children)
  {
  }

  lemma {:induction false} SourceFacts(nodes: set<TiXmlNode>, depth: map<TiXmlNode, nat>, limit: nat, n: TiXmlNode)
    requires n in nodes && Sound(nodes, depth, limit)
    ensures n in depth && depth[n] <= limit
    ensures var source := TreeAt(nodes, depth, limit, n);
            && |source.children| == |n.children| && source.info == Label(n.kind, n.value, n.attributes)
            && Opt(n.firstChild) == Behind(n.children, 0)
  {
    RootTree(Snap(nodes), Labels(nodes), depth, limit, n);
    hide TreeOf, Forest;
  }

  /** The copied node before it has children. */
  lemma {:induction false} StartsCopy(nodes: set<TiXmlNode>, depth: map<TiXmlNode, nat>, limit: nat, shift: nat,
                                      n: TiXmlNode, clone: TiXmlNode)
    requires n in nodes && Sound(nodes, depth, limit) && clone.kind == n.kind && clone.value == n.value
    requires clone.attributes == if n.kind.Element? then SetPairs([], Visited(n.attributes)) else []
    requires clone.parent == null && clone.prev == null && clone.next == null && clone.firstChild == null
    requires clone.lastChild == null && clone.children == []
    ensures var source := TreeAt(nodes, depth, limit, n);
            && source.children[..0] == [] && n in depth
            && IsCopy({clone}, map[clone := depth[n] + shift], limit + shift, clone, depth[n] + shift,
                      Tree(CopiedLabel(source.info), CopiedAll(source.children[..0])))
  {
    hide Sound, TreeAt;
    SourceFacts(nodes, depth, limit, n);
    var source := TreeAt(nodes, depth, limit, n);
    StartsAlone(clone, depth[n] + shift, limit + shift);
    assert source.children[..0] == [];
  }

  lemma {:induction false} StartsAlone(clone: TiXmlNode, at: nat, limit: nat)
    requires clone.parent == null && clone.prev == null && clone.next == null && clone.firstChild == null
    requires clone.lastChild == null && clone.children == [] && at <= limit
    ensures IsCopy({clone}, map[clone := at], limit, clone, at,
                   Tree(Label(clone.kind, clone.value, clone.attributes), []))
  {
    SnapAt({clone}, clone);
    SingleTree(Snap({clone}), Labels({clone}), map[clone := at], limit, clone);
    hide TreeOf, Readable, Snap;
  }

  lemma {:induction false} NextChild(nodes: set<TiXmlNode>, depth: map<TiXmlNode, nat>, limit: nat, n: TiXmlNode,
                                     k: nat)
    requires n in nodes && Sound(nodes, depth, limit) && k < |n.children|
    ensures var c, t := n.children[k], TreeAt(nodes, depth, limit, n);
            && c in nodes && n in depth && c in depth && depth[n] < depth[c] && Opt(c.next) == Behind(n.children, k + 1)
            && |t.children| == |n.children| && t.children[k] == TreeAt(nodes, depth, limit, c)
  {
    hide TreeOf, Readable;
    ChildTree(Snap(nodes), Labels(nodes), depth, limit, n, k);
    ReadableDepths(Snap(nodes), Labels(nodes), depth, limit);
  }

  lemma {:induction false} ReadableDepths<T>(s: Cells<T>, labels: map<T, Label>, depth: map<T, nat>, limit: nat)
    requires Readable(s, labels, depth, limit)
    ensures s.Keys <= depth.Keys
  {
  }

  lemma {:induction false} CopyIs(source: Tree, k: nat)
    requires if Container(source.info.kind) then k == |source.children| else k == 0
    ensures k <= |source.children|
    ensures Copied(source) == Tree(CopiedLabel(source.info), CopiedAll(source.children[..k]))
  {
    hide CopiedLabel;
    assert source.children[..|source.children|] == source.children;
    assert source.children[..0] == [];
  }

  // ------------------------------------------------- the assignments as functions

  function LinkedEnd<T>(s: Cells<T>, p: T, n: T, list: seq<T>): Cells<T>
    requires p in s && n in s && (s[p].last.Some? ==> s[p].last.value in s)
  {
    var last := s[p].last;
    var s1 := s[n := s[n].(parent := Some(p))];
    var s2 := s1[n := s1[n].(prev := last)];
    var s3 := s2[n := s2[n].(next := None)];
    var s4 := if last.Some? then s3[last.value := s3[last.value].(next := Some(n))]
              else s3[p := s3[p].(first := Some(n))];
    var s5 := s4[p := s4[p].(last := Some(n))];
    s5[p := s5[p].(children := list)]
  }

  function LinkedBefore<T>(s: Cells<T>, p: T, n: T, b: T, list: seq<T>): Cells<T>
    requires p in s && n in s && b in s && (s[b].prev.Some? ==> s[b].prev.value in s)
  {
    var a := s[b].prev;
    var s1 := s[n := s[n].(parent := Some(p))];
    var s2 := s1[n := s1[n].(next := Some(b))];
    var s3 := s2[n := s2[n].(prev := a)];
    var s4 := if a.Some? then s3[a.value := s3[a.value].(next := Some(n))] else s3[p := s3[p].(first := Some(n))];
    var s5 := s4[b := s4[b].(prev := Some(n))];
    s5[p := s5[p].(children := list)]
  }

  function LinkedAfter<T>(s: Cells<T>, p: T, n: T, a: T, list: seq<T>): Cells<T>
    requires p in s && n in s && a in s && (s[a].next.Some? ==> s[a].next.value in s)
  {
    var b := s[a].next;
    var s1 := s[n := s[n].(parent := Some(p))];
    var s2 := s1[n := s1[n].(prev := Some(a))];
    var s3 := s2[n := s2[n].(next := b)];
    var s4 := if b.Some? then s3[b.value := s3[b.value].(prev := Some(n))] else s3[p := s3[p].(last := Some(n))];
    var s5 := s4[a := s4[a].(next := Some(n))];
    s5[p := s5[p].(children := list)]
  }

  function LinkedInstead<T>(s: Cells<T>, p: T, n: T, r: T, list: seq<T>): Cells<T>
    requires p in s && n in s && r in s
    requires (s[r].prev.Some? ==> s[r].prev.value in s) && (s[r].next.Some? ==> s[r].next.value in s)
  {
    var a, b := s[r].prev, s[r].next;
    var s1 := s[n := s[n].(next := b)];
    var s2 := s1[n := s1[n].(prev := a)];
    var s3 := if b.Some? then s2[b.value := s2[b.value].(prev := Some(n))] else s2[p := s2[p].(last := Some(n))];
    var s4 := if a.Some? then s3[a.value := s3[a.value].(next := Some(n))] else s3[p := s3[p].(first := Some(n))];
    var s5 := s4[n := s4[n].(parent := Some(p))];
    s5[p := s5[p].(children := list)]
  }

  function LinkedAround<T>(s: Cells<T>, p: T, r: T, list: seq<T>): Cells<T>
    requires p in s && r in s
    requires (s[r].prev.Some? ==> s[r].prev.value in s) && (s[r].next.Some? ==> s[r].next.value in s)
  {
    var a, b := s[r].prev, s[r].next;
    var s1 := if b.Some? then s[b.value := s[b.value].(prev := a)] else s[p := s[p].(last := a)];
    var s2 := if a.Some? then s1[a.value := s1[a.value].(next := b)] else s1[p := s1[p].(first := b)];
    s2[p := s2[p].(children := list)]
  }

  // ------------------------------------------------------ what the assignments do

  /** A node without a parent, or already below this one, that is not among its ancestors. */
  ghost predicate CanLink<T>(s: Cells<T>, depth: map<T, nat>, p: T, n: T) {
    && Forest(s, depth) && p in s && n in s && (s[n].parent.None? || s[n].parent == Some(p))
    && (s[p].last.Some? ==> s[p].last.value in s) && p in depth && n in depth && depth[p] < depth[n]
  }

  lemma {:induction false} LinkInserted<T>(s: Cells<T>, depth: map<T, nat>, p: T, n: T)
    requires p in s && CanInsert(s, depth, p, n, |s[p].children|)
    ensures CanLink(s, depth, p, n)
  {
    hide Siblings;
    InsertApart(s, depth, p, n, |s[p].children|);
    EndIs(s, p);
  }

  lemma {:induction false} LinkFacts<T>(s: Cells<T>, depth: map<T, nat>, p: T, n: T)
    requires CanLink(s, depth, p, n)
    ensures p != n && Forest(s, depth) && (s[n].parent.None? ==> CanInsert(s, depth, p, n, |s[p].children|))
    ensures forall c :: c in s[p].children ==> c in s
  {
    hide Siblings;
    forall c | c in s[p].children ensures c in s {
      ChildFacts(s, p, c);
    }
  }

  lemma {:induction false} LinkedEndIs<T>(s: Cells<T>, depth: map<T, nat>, p: T, n: T)
    requires CanLink(s, depth, p, n) && forall c :: c in s[p].children ==> c in s
    ensures s[n].parent.None? ==>
              LinkedEnd(s, p, n, InsertedAt(s[p].children, |s[p].children|, n)) == Inserted(s, p, n, |s[p].children|)
  {
    hide Forest, InsertedAt, Siblings, Inserted;
    LinkFacts(s, depth, p, n);
    if s[n].parent.None? {
      InsertApart(s, depth, p, n, |s[p].children|);
      EndIs(s, p);
      InsertCells(s, p, n, |s[p].children|);
    }
  }

  /** Linking a node at the end leaves well-formed trees if and only if it had no parent. */
  lemma {:induction false} LinkEndKeepsIff<T>(s: Cells<T>, depth: map<T, nat>, p: T, n: T)
    requires CanLink(s, depth, p, n)
    ensures Forest(LinkedEnd(s, p, n, InsertedAt(s[p].children, |s[p].children|, n)), depth) <==> s[n].parent.None?
  {
    hide Forest, InsertedAt, Siblings, Inserted, LinkedEnd;
    LinkFacts(s, depth, p, n);
    if s[n].parent.None? {
      LinkedEndIs(s, depth, p, n);
      InsertKeeps(s, depth, p, n, |s[p].children|);
    } else {
      RelinkBreaks(s, depth, p, n, InsertedAt(s[p].children, |s[p].children|, n), depth);
    }
  }

  /** A child linked once more leaves links that fit no list of children, and trees of no depth. */
  lemma {:induction false} RelinkBreaks<T>(s: Cells<T>, depth: map<T, nat>, p: T, n: T, list: seq<T>,
                                           depth': map<T, nat>)
    requires CanLink(s, depth, p, n) && s[n].parent == Some(p)
    ensures !Forest(LinkedEnd(s, p, n, list), depth')
  {
    hide Forest, Siblings;
    LinkFacts(s, depth, p, n);
    LastChild(s, depth, p, n);
    var s' := LinkedEnd(s, p, n, list);
    if s[p].last == Some(n) {
      assert s'[n].next == Some(n);
    } else {
      var c := s[n].next.value;
      assert s'[c].prev == Some(n) && s'[c].parent == Some(p);
    }
    LastChild(s', depth', p, n);
  }

  /** The last child has no sibling behind it, and every other child has one that points back. */
  lemma {:induction false} LastChild<T>(s: Cells<T>, depth: map<T, nat>, p: T, n: T)
    requires p in s && n in s && s[n].parent == Some(p)
    ensures Forest(s, depth) && s[p].last == Some(n) ==>
              s[n].next.None? && forall c :: c in s && s[c].parent == Some(p) ==> s[c].prev != Some(n)
    ensures Forest(s, depth) && s[p].last != Some(n) ==>
              && s[n].next.Some? && var c := s[n].next.value;
              c != n && c in s && s[c].parent == Some(p) && s[c].prev == Some(n)
  {
    if Forest(s, depth) {
      ChildrenOf(s, depth, p);
      LinksOf(s, p, n);
      forall c | c in s && s[c].parent == Some(p) && s[p].last == Some(n) ensures s[c].prev != Some(n) {
        LinksOf(s, p, c);
      }
    }
  }

  lemma {:induction false} ChildrenOf<T>(s: Cells<T>, depth: map<T, nat>, p: T)
    requires Forest(s, depth) && p in s
    ensures Siblings(s, p) && forall c :: c in s && s[c].parent == Some(p) ==> c in s[p].children
  {
    hide Siblings;
  }

  /** A child's links, by its place. */
  lemma {:induction false} LinksOf<T>(s: Cells<T>, p: T, c: T)
    requires p in s && c in s && Siblings(s, p) && c in s[p].children
    ensures var list := s[p].children;
            && s[p].last == Some(list[|list| - 1])
            && (c == list[|list| - 1] ==> s[c].next.None?)
            && (c != list[|list| - 1] ==>
                  && s[c].next.Some? && s[c].next.value != c && s[c].next.value in s
                  && s[s[c].next.value].parent == Some(p) && s[s[c].next.value].prev == Some(c))
            && s[c].prev != Some(list[|list| - 1])
  {
    var list := s[p].children;
    var i: nat :| i < |list| && list[i] == c;
    ChildLinks(s, p, i);
    if i + 1 < |list| {
      ChildLinks(s, p, i + 1);
      assert ChildAt(s, p, list, i + 1);
    }
  }

  lemma {:induction false} EndIs<T>(s: Cells<T>, p: T)
    requires p in s && Siblings(s, p)
    ensures var list := s[p].children;
            && s[p].last == Before(list, |list|) && s[p].first == Behind(list, 0)
            && (s[p].last.Some? ==> s[p].last.value in list)
  {
  }

  lemma {:induction false} ChildLinks<T>(s: Cells<T>, p: T, k: nat)
    requires p in s && Siblings(s, p) && k < |s[p].children|
    ensures var list := s[p].children;
            && list[k] in s && s[list[k]].prev == Before(list, k) && s[list[k]].next == Behind(list, k + 1)
            && Before(list, k) != Some(list[k]) && Behind(list, k + 1) != Some(list[k])
            && (Before(list, k).Some? ==> Before(list, k).value in list)
            && (Behind(list, k + 1).Some? ==> Behind(list, k + 1).value in list)
  {
    assert ChildAt(s, p, s[p].children, k);
    NeighbourIs(s[p].children, k, k);
    NeighbourIs(s[p].children, k + 1, k);
  }

  lemma {:induction false} LinkedBeforeIs<T>(s: Cells<T>, depth: map<T, nat>, p: T, n: T, k: nat)
    requires p in s && CanInsert(s, depth, p, n, k) && k < |s[p].children|
    ensures forall c :: c in s[p].children ==> c in s && c != p && c != n
    ensures p != n && (s[s[p].children[k]].prev.Some? ==> s[s[p].children[k]].prev.value in s)
    ensures LinkedBefore(s, p, n, s[p].children[k], InsertedAt(s[p].children, k, n)) == Inserted(s, p, n, k)
  {
    hide Forest, InsertedAt, Siblings;
    InsertApart(s, depth, p, n, k);
    ChildLinks(s, p, k);
  }

  lemma {:induction false} LinkedAfterIs<T>(s: Cells<T>, depth: map<T, nat>, p: T, n: T, k: nat)
    requires p in s && CanInsert(s, depth, p, n, k + 1) && k < |s[p].children|
    ensures forall c :: c in s[p].children ==> c in s && c != p && c != n
    ensures p != n && (s[s[p].children[k]].next.Some? ==> s[s[p].children[k]].next.value in s)
    ensures LinkedAfter(s, p, n, s[p].children[k], InsertedAt(s[p].children, k + 1, n)) == Inserted(s, p, n, k + 1)
  {
    hide Forest, InsertedAt, Siblings;
    InsertApart(s, depth, p, n, k + 1);
    ChildLinks(s, p, k);
  }

  lemma {:induction false} LinkedAroundIs<T>(s: Cells<T>, depth: map<T, nat>, p: T, k: nat)
    requires Forest(s, depth) && p in s && k < |s[p].children|
    ensures forall c :: c in s[p].children ==> c in s && c != p
    ensures var r := s[p].children[k];
            && (s[r].prev.Some? ==> s[r].prev.value in s) && (s[r].next.Some? ==> s[r].next.value in s)
            && s[r].prev != Some(r) && s[r].next != Some(r)
            && LinkedAround(s, p, r, RemovedAt(s[p].children, k)) == Unlinked(s, p, k)
  {
    hide Forest, RemovedAt, Siblings;
    ChildrenApart(s, depth, p);
    ChildLinks(s, p, k);
  }

  // ------------------------------------------------------------------ replacement

  /** The cells after a replacement, one by one. */
  lemma {:induction false} InsteadCells<T>(s: Cells<T>, p: T, n: T, k: nat)
    requires p in s && n in s && Siblings(s, p) && k < |s[p].children| && n !in s[p].children && p != n
    requires (forall c :: c in s[p].children ==> c in s) && p !in s[p].children
    ensures var list := s[p].children;
            var r, a, b := list[k], Before(list, k), Behind(list, k + 1);
            && s[r].prev == a && s[r].next == b && (a.Some? ==> a.value in s) && (b.Some? ==> b.value in s)
            && var u := LinkedInstead(s, p, n, r, list[k := n]);
            && u.Keys == s.Keys && u[n] == s[n].(parent := Some(p), prev := a, next := b)
            && u[p] == s[p].(first := if k == 0 then Some(n) else s[p].first,
                             last := if k + 1 == |list| then Some(n) else s[p].last, children := list[k := n])
            && (forall c :: c in list ==>
                  u[c] == s[c].(next := if a == Some(c) then Some(n) else s[c].next, prev := if b == Some(c)
                                then Some(n) else s[c].prev))
            && (forall q :: q in s && q != p && q != n && q !in list ==> u[q] == s[q])
  {
    hide Siblings;
    ChildLinks(s, p, k);
  }

  lemma {:induction false} ReplacedList<T>(list: seq<T>, k: nat, n: T)
    requires k < |list|
    ensures InsertedAt(RemovedAt(list, k), k, n) == list[k := n] && |RemovedAt(list, k)| == |list| - 1
    ensures Before(RemovedAt(list, k), k) == Before(list, k) && Behind(RemovedAt(list, k), k) == Behind(list, k + 1)
  {
  }

  /** Removing the child and inserting the new node there is the same as replacing. */
  lemma {:induction false} ReplaceIs<T>(s: Cells<T>, depth: map<T, nat>, p: T, n: T, k: nat)
    requires CanInsert(s, depth, p, n, k) && k < |s[p].children|
    requires (forall c :: c in s[p].children ==> c in s) && var r := s[p].children[k];
             (s[r].prev.Some? ==> s[r].prev.value in s) && (s[r].next.Some? ==> s[r].next.value in s)
    ensures var r := s[p].children[k];
            var keep, rest := Without(s, depth, r), Removed(s, depth, p, k);
            && CanInsert(rest, depth, p, n, k) && rest.Keys == keep && keep <= s.Keys
            && (forall c :: c in rest[p].children ==> c in rest)
            && Restricted(LinkedInstead(s, p, n, r, s[p].children[k := n]), keep) == Inserted(rest, p, n, k)
  {
    hide Siblings, Forest, Restricted, Inserted, LinkedInstead, SubCells, Removed, Without;
    var r, keep, rest := s[p].children[k], Without(s, depth, s[p].children[k]), Removed(s, depth, p, k);
    InsertApart(s, depth, p, n, k);
    CanRemove(s, depth, p, n, k);
    InsertApart(rest, depth, p, n, k);
    var u := LinkedInstead(s, p, n, r, s[p].children[k := n]);
    KeysInstead(s, p, n, k);
    RestrictedIs(u, keep);
    SameInsteadKeys(rest, p, n, k);
    forall c | c in keep ensures c in u && u[c] == Inserted(rest, p, n, k)[c] {
      SameInstead(s, depth, p, n, k, c);
    }
  }

  lemma {:induction false} KeysInstead<T>(s: Cells<T>, p: T, n: T, k: nat)
    requires p in s && n in s && Siblings(s, p) && k < |s[p].children| && n !in s[p].children && p != n
    requires (forall c :: c in s[p].children ==> c in s) && p !in s[p].children
    ensures var r := s[p].children[k];
            && (s[r].prev.Some? ==> s[r].prev.value in s) && (s[r].next.Some? ==> s[r].next.value in s)
            && LinkedInstead(s, p, n, r, s[p].children[k := n]).Keys == s.Keys
  {
    hide Siblings, LinkedInstead;
    InsteadCells(s, p, n, k);
  }

  lemma {:induction false} SameInsteadKeys<T>(rest: Cells<T>, p: T, n: T, k: nat)
    requires p in rest && n in rest && k <= |rest[p].children| && (forall c :: c in rest[p].children ==> c in rest)
    requires p != n && n !in rest[p].children && p !in rest[p].children
    ensures Inserted(rest, p, n, k).Keys == rest.Keys
  {
    hide Inserted;
    InsertCells(rest, p, n, k);
  }

  lemma {:induction false} SameInstead<T>(s: Cells<T>, depth: map<T, nat>, p: T, n: T, k: nat, c: T)
    requires CanInsert(s, depth, p, n, k) && k < |s[p].children| && (forall c :: c in s[p].children ==> c in s)
    requires var r := s[p].children[k];
             && (s[r].prev.Some? ==> s[r].prev.value in s) && (s[r].next.Some? ==> s[r].next.value in s)
             && c in Without(s, depth, r)
    requires var rest := Removed(s, depth, p, k);
             && CanInsert(rest, depth, p, n, k) && rest.Keys == Without(s, depth, s[p].children[k])
             && (forall c :: c in rest[p].children ==> c in rest) && n !in rest[p].children && p !in rest[p].children
    ensures var u := LinkedInstead(s, p, n, s[p].children[k], s[p].children[k := n]);
            c in u && c in Inserted(Removed(s, depth, p, k), p, n, k)
            && u[c] == Inserted(Removed(s, depth, p, k), p, n, k)[c]
  {
    hide Siblings, Forest, LinkedInstead, Inserted, Removed, Without, InsertedAt, RemovedAt;
    InsertApart(s, depth, p, n, k);
    InsteadCells(s, p, n, k);
    ReplacedList(s[p].children, k, n);
    RemovedCells(s, depth, p, k);
    InsertCells(Removed(s, depth, p, k), p, n, k);
  }

  /** The cells a removal leaves, one by one. */
  lemma {:induction false} RemovedCells<T>(s: Cells<T>, depth: map<T, nat>, p: T, k: nat)
    requires p in s && k < |s[p].children| && (forall c :: c in s[p].children ==> c in s) && Siblings(s, p)
    requires p !in s[p].children && p in Without(s, depth, s[p].children[k])
    ensures var list := s[p].children;
            var rest, a, b := Removed(s, depth, p, k), Before(list, k), Behind(list, k + 1);
            && rest.Keys == Without(s, depth, list[k]) && list[k] !in rest
            && rest[p] == s[p].(first := if k == 0 then b else s[p].first, last := if k + 1 == |list| then a
                                else s[p].last, children := RemovedAt(list, k))
            && (forall c :: c in list && c in rest ==>
                  c in RemovedAt(list, k)
                  && rest[c] == s[c].(next := if a == Some(c) then b else s[c].next, prev := if b == Some(c) then a
                                      else s[c].prev))
            && (forall c :: c in rest && c != p && c !in list ==> c in s && rest[c] == s[c] && c !in RemovedAt(list, k))
  {
    hide Siblings, Unlinked, RemovedAt, Restricted, Distinct;
    SiblingsDistinct(s, p);
    UnlinkCells(s, p, k);
    UnderSelf(s, depth, s[p].children[k]);
    RestrictedIs(Unlinked(s, p, k), Without(s, depth, s[p].children[k]));
    RemovedMembers(s[p].children, k);
  }

  lemma {:induction false} CanRemove<T>(s: Cells<T>, depth: map<T, nat>, p: T, n: T, k: nat)
    requires CanInsert(s, depth, p, n, k) && k < |s[p].children| && forall c :: c in s[p].children ==> c in s
    ensures var keep, rest := Without(s, depth, s[p].children[k]), Removed(s, depth, p, k);
            && CanInsert(rest, depth, p, n, k) && rest.Keys == keep && keep <= s.Keys && SubCells(s, rest) && p in keep
            && n in keep
            && rest[p].children == RemovedAt(s[p].children, k)
  {
    hide Siblings, Forest, Unlinked, Restricted, RemovedAt, Removed, SubCells, Without;
    var r := s[p].children[k];
    InsertApart(s, depth, p, n, k);
    KeepsBoth(s, depth, p, n, r);
    RemoveKeeps(s, depth, p, k);
    RemovedCells(s, depth, p, k);
    RemovedSub(s, depth, p, k);
    ShorterList(s[p].children, k);
  }

  lemma {:induction false} ShorterList<T>(list: seq<T>, k: nat)
    requires k < |list|
    ensures |RemovedAt(list, k)| == |list| - 1
  {
  }

  lemma {:induction false} KeepsBoth<T>(s: Cells<T>, depth: map<T, nat>, p: T, n: T, r: T)
    requires Forest(s, depth) && p in s && r in s[p].children && n in s && s[n].parent.None? && n != r
    ensures p in Without(s, depth, r) && n in Without(s, depth, r) && Without(s, depth, r) <= s.Keys
  {
    ChildrenApart(s, depth, p);
    Shallower(s, depth, p, r);
    UnderParent(s, depth, n, r);
    hide Forest, Under;
  }

  lemma {:induction false} RemovedSub<T>(s: Cells<T>, depth: map<T, nat>, p: T, k: nat)
    requires Forest(s, depth) && p in s && k < |s[p].children| && forall c :: c in s[p].children ==> c in s
    ensures SubCells(s, Removed(s, depth, p, k))
  {
    hide Forest, Unlinked, Shrank, Without;
    UnlinkShrank(s, depth, p, k);
    ShrankSub(s, Unlinked(s, p, k), p, s[p].children[k]);
  }

  /** The cells `u` are `s` with `n` linked in the place of the child of `p` at index `k`. */
  ghost predicate Replaces<T>(s: Cells<T>, p: T, n: T, k: nat, u: Cells<T>) {
    && p in s && n in s && k < |s[p].children| && s[p].children[k] in s
    && var r := s[p].children[k];
    && (s[r].prev.Some? ==> s[r].prev.value in s) && (s[r].next.Some? ==> s[r].next.value in s)
    && u == LinkedInstead(s, p, n, r, s[p].children[k := n])
  }

  lemma {:induction false} AfterReplace(was: Cells<TiXmlNode>, labels: map<TiXmlNode, Label>,
                                        depth: map<TiXmlNode, nat>, t: Cells<TiXmlNode>, labels': map<TiXmlNode, Label>,
                                        copyDepths: map<TiXmlNode, nat>, limit: nat, nodes: set<TiXmlNode>,
                                        left: set<TiXmlNode>, added: set<TiXmlNode>, p: TiXmlNode, k: nat,
                                        node: TiXmlNode, tree: Tree)
    requires was.Keys == nodes && t.Keys == added && p in nodes && node in added && k < |was[p].children|
    requires Prepared(was, labels, depth, t, labels', copyDepths, limit, p, k, node, tree)
    requires left == Without(was, depth, was[p].children[k])
    requires (was + t)[p] == was[p] && Replaces(was + t, p, node, k, Snap(nodes + added))
    requires Labels(nodes + added) == labels + labels'
    ensures Swapped(was, depth, left, added, depth + copyDepths, limit, p, k, node, tree)
  {
    hide Readable, TreeOf, Forest, Inserted, CanInsert, Removed, LinkedInstead, Without, SubCells, Restricted, Snap,
         Labels;
    var s, d, u := was + t, depth + copyDepths, Snap(left + added);
    WithoutUnion(was, labels, depth, limit, t, labels', copyDepths, was[p].children[k]);
    ReplaceIs(s, d, p, node, k);
    SnapPart(nodes + added, left + added);
    LabelsPart(left, nodes, added, labels, labels');
    ReplacedReads(was, labels, depth, limit, p, t, labels', copyDepths, node, k, u, Labels(left + added));
    SameTree(t, labels', copyDepths, limit, u, Labels(left + added), d, node);
    SwappedLinks(was, left, added, p, k, node);
  }

  lemma {:induction false} SwappedLinks(was: Cells<TiXmlNode>, left: set<TiXmlNode>, added: set<TiXmlNode>,
                                        p: TiXmlNode, k: nat, node: TiXmlNode)
    requires p in was && p in left && left <= was.Keys && node in added && k < |was[p].children|
    requires var u := Snap(left + added);
             && u[p].children == was[p].children[k := node] && u[node].parent == Some(p)
             && forall c :: c in left && c != p ==> u[c].children == was[c].children
    ensures p.children == was[p].children[k := node] && node.parent == p
    ensures forall n :: n in left && n != p ==> n.children == was[n].children
  {
    forall n | n in left ensures Snap(left + added)[n].children == n.children {
      SnapAt(left + added, n);
    }
  }

  lemma {:induction false} LabelsPart(left: set<TiXmlNode>, nodes: set<TiXmlNode>, added: set<TiXmlNode>,
                                      labels: map<TiXmlNode, Label>, labels': map<TiXmlNode, Label>)
    requires left <= nodes && Labels(nodes + added) == labels + labels' && labels'.Keys == added
    ensures forall c :: c in added ==> Labels(left + added)[c] == labels'[c]
  {
    forall c | c in added ensures Labels(left + added)[c] == labels'[c] {
      assert Labels(nodes + added)[c] == (labels + labels')[c];
    }
  }

  lemma {:induction false} WithoutUnion<T>(was: Cells<T>, labels: map<T, Label>, depth: map<T, nat>, limit: nat,
                                           t: Cells<T>, labels': map<T, Label>, depths: map<T, nat>, r: T)
    requires Readable(was, labels, depth, limit) && Readable(t, labels', depths, limit)
    requires was.Keys !! t.Keys && depths.Keys == t.Keys && r in was
    ensures Without(was + t, depth + depths, r) == Without(was, depth, r) + t.Keys && Without(was, depth, r) <= was.Keys
    ensures labels'.Keys == t.Keys
  {
    hide Forest, Under;
    forall c | c in was + t ensures Under(was + t, depth + depths, c, r) <==> c in was && Under(was, depth, c, r) {
      UnderUnion(was, depth, t, depths, r, c);
    }
  }

  /** After a replacement the remaining nodes and the copy are readable. */
  lemma {:induction false} ReplacedReads<T>(was: Cells<T>, labels: map<T, Label>, depth: map<T, nat>, limit: nat, p: T,
                                            t: Cells<T>, labels': map<T, Label>, depths: map<T, nat>, node: T, k: nat,
                                            u: Cells<T>, part: map<T, Label>)
    requires DocumentAndCopy(was, labels, depth, limit, p, t, labels', depths, node) && k < |was[p].children|
    requires (was + t)[p] == was[p] && CanInsert(was + t, depth + depths, p, node, k)
    requires (forall c :: c in was[p].children ==> c in was)
    requires var rest := Removed(was + t, depth + depths, p, k);
             && CanInsert(rest, depth + depths, p, node, k) && (forall c :: c in rest[p].children ==> c in rest)
             && u == Inserted(rest, p, node, k) && rest.Keys == part.Keys
             && rest.Keys == Without(was + t, depth + depths, was[p].children[k])
             && rest.Keys == Without(was, depth, was[p].children[k]) + t.Keys
    requires forall c :: c in t ==> c in part && c in labels' && part[c] == labels'[c]
    ensures Readable(u, part, depth + depths, limit) && SameBelow(t, labels', depths, -1, u, part)
    ensures p in u && p in Without(was, depth, was[p].children[k])
    ensures u[p].children == was[p].children[k := node] && node in u && u[node].parent == Some(p)
    ensures forall c :: c in u && c != p ==> c in was + t && u[c].children == (was + t)[c].children
  {
    hide Readable, Forest, Inserted, CanInsert, Removed, Without, SubCells, InsertedAt, RemovedAt, Grew;
    var s, d, rest := was + t, depth + depths, Removed(was + t, depth + depths, p, k);
    UnionReads(was, labels, depth, limit, t, labels', depths);
    CanInsertFacts(s, d, p, node, k);
    CanInsertFacts(rest, d, p, node, k);
    RemovedSub(s, d, p, k);
    SubReadable(s, labels + labels', d, limit, rest, part);
    InsertKeeps(rest, d, p, node, k);
    InsertGrew(rest, d, p, node, k);
    GrewReads(rest, part, d, limit, p, node, u);
    ReplacedChildren(s, d, p, node, k, u);
    SameCopy(was, t, labels', depths, u, part, p);
  }

  /** A separate forest of which every node kept its children is the same below any floor. */
  lemma {:induction false} SameCopy<T>(was: Cells<T>, t: Cells<T>, labels': map<T, Label>, depths: map<T, nat>,
                                       u: Cells<T>, part: map<T, Label>, p: T)
    requires t.Keys <= u.Keys && p !in t && was.Keys !! t.Keys
    requires forall c :: c in t ==> c in part && c in labels' && part[c] == labels'[c]
    requires forall c :: c in u && c != p ==> c in was + t && u[c].children == (was + t)[c].children
    ensures SameBelow(t, labels', depths, -1, u, part)
  {
  }

  lemma {:induction false} ReplacedChildren<T>(s: Cells<T>, depth: map<T, nat>, p: T, n: T, k: nat, u: Cells<T>)
    requires CanInsert(s, depth, p, n, k) && k < |s[p].children| && (forall c :: c in s[p].children ==> c in s)
    requires var rest := Removed(s, depth, p, k);
             && CanInsert(rest, depth, p, n, k) && (forall c :: c in rest[p].children ==> c in rest)
             && rest.Keys == Without(s, depth, s[p].children[k]) && u == Inserted(rest, p, n, k)
    ensures p in u && u[p].children == s[p].children[k := n] && n in u && u[n].parent == Some(p)
    ensures u.Keys == Removed(s, depth, p, k).Keys
    ensures forall c :: c in u && c != p ==> c in s && u[c].children == s[c].children
  {
    hide Forest, Inserted, Removed, Without, InsertedAt, RemovedAt, Grew;
    var rest := Removed(s, depth, p, k);
    InsertApart(s, depth, p, n, k);
    InsertApart(rest, depth, p, n, k);
    RemovedCells(s, depth, p, k);
    InsertCells(rest, p, n, k);
    ReplacedList(s[p].children, k, n);
    InsertGrew(rest, depth, p, n, k);
    GrewChildren(rest, u, p, n);
    forall c | c in u && c != p ensures c in s && u[c].children == s[c].children {
      RemovedChildren(s, depth, p, k, c);
    }
  }

  lemma {:induction false} GrewChildren<T>(s: Cells<T>, u: Cells<T>, p: T, n: T)
    requires Grew(s, u, p, n)
    ensures u.Keys == s.Keys && forall q :: q in s && q != p ==> u[q].children == s[q].children
  {
  }

  lemma {:induction false} SameTree<T>(t: Cells<T>, labels: map<T, Label>, depths: map<T, nat>, limit: nat, u: Cells<T>,
                                       part: map<T, Label>, depth: map<T, nat>, n: T)
    requires Readable(t, labels, depths, limit) && Readable(u, part, depth, limit)
             && SameBelow(t, labels, depths, -1, u, part)
    requires n in t
    ensures n in u && TreeOf(u, part, depth, limit, n) == TreeOf(t, labels, depths, limit, n)
  {
    hide Forest, SameBelow;
    TreeFrame(t, labels, depths, limit, -1, u, part, depth, limit, n);
  }

  lemma {:induction false} RemovedChildren<T>(s: Cells<T>, depth: map<T, nat>, p: T, k: nat, c: T)
    requires Forest(s, depth) && p in s && k < |s[p].children| && (forall c :: c in s[p].children ==> c in s)
    requires c in Removed(s, depth, p, k) && c != p
    ensures c in s && Removed(s, depth, p, k)[c].children == s[c].children
  {
    hide Forest, Unlinked, Without;
    UnlinkShrank(s, depth, p, k);
  }

  lemma {:induction false} UnionReads<T>(s: Cells<T>, labels: map<T, Label>, depth: map<T, nat>, limit: nat,
                                         t: Cells<T>, labels': map<T, Label>, depths: map<T, nat>)
    requires Readable(s, labels, depth, limit) && Readable(t, labels', depths, limit) && s.Keys !! t.Keys
             && depths.Keys == t.Keys
    ensures Readable(s + t, labels + labels', depth + depths, limit)
  {
    hide Forest, Shape;
    UnionKeeps(s, depth, t, depths);
    UnionShape(s, labels, depth, limit, t, labels', depths);
  }

  lemma {:induction false} CanInsertFacts<T>(s: Cells<T>, depth: map<T, nat>, p: T, n: T, k: nat)
    requires CanInsert(s, depth, p, n, k)
    ensures Forest(s, depth) && p in s && n in s && k <= |s[p].children| && p in depth && n in depth
            && depth[p] < depth[n]
  {
  }

  lemma {:induction false} GrewReads<T>(s: Cells<T>, labels: map<T, Label>, depth: map<T, nat>, limit: nat, p: T, n: T,
                                        u: Cells<T>)
    requires Readable(s, labels, depth, limit) && Grew(s, u, p, n) && Forest(u, depth) && p in depth && n in depth
             && depth[p] < depth[n]
    ensures Readable(u, labels, depth, limit)
  {
    hide Forest, Shape;
    ShapeGrew(s, labels, depth, limit, u, p, n);
  }

  /** Nodes of another forest are not below `r`, and being below it does not depend on them. */
  lemma {:induction false} UnderUnion<T>(s: Cells<T>, depth: map<T, nat>, t: Cells<T>, depths: map<T, nat>, r: T, c: T)
    requires Forest(s, depth) && Forest(t, depths) && s.Keys !! t.Keys && depths.Keys == t.Keys && r in s && c in s + t
    ensures Under(s + t, depth + depths, c, r) <==> c in s && Under(s, depth, c, r)
    decreases if c in s then depth[c] else depths[c]
  {
    hide Siblings;
    if c != r {
      if c in s {
        if s[c].parent.Some? {
          UnderUnion(s, depth, t, depths, r, s[c].parent.value);
        }
      } else if t[c].parent.Some? {
        UnderUnion(s, depth, t, depths, r, t[c].parent.value);
      }
    }
  }
}
