/** The attributes of an XML element: TinyXML's circular list around a sentinel, and the list it stands for. */
module XmlAttributes {
  import opened Rings

  datatype Pair = Pair(name: string, value: string)

  /** The sentinel is told apart by having neither name nor value. */
  predicate Blank(p: Pair) { p.name == "" && p.value == "" }

  ghost predicate UniqueNames(ps: seq<Pair>) {
    forall i, j :: 0 <= i < j < |ps| ==> ps[i].name != ps[j].name
  }

  /** The first attribute of this name, or the end. */
  function IndexOf(ps: seq<Pair>, name: string): (k: nat)
    ensures k <= |ps| && (forall j :: 0 <= j < k ==> ps[j].name != name) && (k < |ps| ==> ps[k].name == name)
  {
    if ps == [] || ps[0].name == name then 0 else 1 + IndexOf(ps[1..], name)
  }

  /** SetAttribute: replace the value in place, or add the attribute at the end. */
  function SetPair(ps: seq<Pair>, p: Pair): seq<Pair> {
    var k := IndexOf(ps, p.name);
    if k < |ps| then ps[k := p] else ps + [p]
  }

  /** Set one pair after the other. */
  function SetPairs(ps: seq<Pair>, more: seq<Pair>): seq<Pair>
    decreases |more|
  {
    if more == [] then ps else SetPairs(SetPair(ps, more[0]), more[1..])
  }

  /** How far iterating with Next gets from behind an attribute: up to the first blank one. */
  function UpToBlank(ps: seq<Pair>): (r: seq<Pair>)
    ensures |r| <= |ps| && r == ps[..|r|] && (|r| < |ps| ==> Blank(ps[|r|]))
    ensures forall k :: 0 <= k < |r| ==> !Blank(r[k])
  {
    if ps == [] || Blank(ps[0]) then [] else [ps[0]] + UpToBlank(ps[1..])
  }

  /** What First and Next visit. */
  function Visited(ps: seq<Pair>): seq<Pair> {
    if ps == [] then [] else [ps[0]] + UpToBlank(ps[1..])
  }

  /** Names stay unique, and setting changes the value of one name only. */
  lemma {:induction false} SetPairKeeps(ps: seq<Pair>, p: Pair)
    requires UniqueNames(ps)
    ensures UniqueNames(SetPair(ps, p))
    ensures var k := IndexOf(SetPair(ps, p), p.name); k < |SetPair(ps, p)| && SetPair(ps, p)[k] == p
    ensures forall q: Pair :: q.name != p.name ==> (q in SetPair(ps, p) <==> q in ps)
  {
    var k, r := IndexOf(ps, p.name), SetPair(ps, p);
    if k < |ps| {
      assert r[k] == p;
      forall q: Pair | q.name != p.name && q in ps ensures q in r {
        var j :| 0 <= j < |ps| && ps[j] == q;
        assert r[j] == q;
      }
    } else {
      assert r[|ps|] == p;
    }
  }

  lemma {:induction false} SetDistinct(ps: seq<Pair>, more: seq<Pair>)
    requires UniqueNames(ps + more)
    ensures SetPairs(ps, more) == ps + more
    decreases |more|
  {
    if more == [] {
      assert ps + more == ps;
    } else {
      var p := more[0];
      assert (ps + more)[|ps|] == p;
      forall j | 0 <= j < |ps| ensures ps[j].name != p.name {
        assert (ps + more)[j] == ps[j];
      }
      assert SetPair(ps, p) == ps + [p];
      assert (ps + [p]) + more[1..] == ps + more;
      SetDistinct(ps + [p], more[1..]);
    }
  }

  /** Copying attributes one by one copies all of them if and only if none behind the first is blank. */
  lemma {:induction false} CopiesAll(ps: seq<Pair>)
    requires UniqueNames(ps)
    ensures SetPairs([], Visited(ps)) == Visited(ps)
    ensures SetPairs([], Visited(ps)) == ps <==> forall k :: 1 <= k < |ps| ==> !Blank(ps[k])
  {
    hide SetPairs, UniqueNames, Blank;
    var v := Visited(ps);
    VisitedPrefix(ps);
    UniquePrefix(ps, |v|);
    assert [] + v == v;
    SetDistinct([], v);
  }

  lemma {:induction false} VisitedPrefix(ps: seq<Pair>)
    ensures var v := Visited(ps);
            && |v| <= |ps| && v == ps[..|v|] && (v == ps <==> forall k :: 1 <= k < |ps| ==> !Blank(ps[k]))
  {
    hide Blank;
    var v := Visited(ps);
    if ps != [] {
      var u := UpToBlank(ps[1..]);
      assert v == ps[..1 + |u|];
      assert forall k :: 1 <= k < |ps| ==> ps[k] == ps[1..][k - 1];
      if |u| < |ps[1..]| {
        assert Blank(ps[1 + |u|]);
      } else {
        assert forall k :: 1 <= k < |ps| ==> !Blank(u[k - 1]) && u[k - 1] == ps[k];
      }
    }
  }

  lemma {:induction false} UniquePrefix(ps: seq<Pair>, n: nat)
    requires UniqueNames(ps) && n <= |ps|
    ensures UniqueNames(ps[..n])
  {
  }

  class TiXmlAttribute {
    var name: string
    var value: string
    var prev: TiXmlAttribute?
    var next: TiXmlAttribute?

    constructor ()
      ensures name == "" && value == "" && prev == null && next == null
    {
      name, value, prev, next := "", "", null, null;
    }

    method SetName(name: string)
      modifies `name
      ensures this.name == name
    {
      this.name := name;
    }

    method SetValue(value: string)
      modifies `value
      ensures this.value == value
    {
      this.value := value;
    }

    /** The next attribute, the sentinel being recognized by its blank name and value. */
    method Next() returns (attribute: TiXmlAttribute?)
      requires next != null
      ensures attribute == if Blank(Pair(next.name, next.value)) then null else next
    {
      if next.value == "" && next.name == "" {
        return null;
      }
      return next;
    }
  }

  /** A link of the circle. */
  type Link = TiXmlAttribute?

  class TiXmlAttributeSet {
    const sentinel: TiXmlAttribute
    ghost var list: seq<TiXmlAttribute>
    /** Name and value of the attributes, in order. */
    ghost var pairs: seq<Pair>

    /** The sentinel and every attribute ever added. */
    ghost var nodes: set<TiXmlAttribute>

    ghost function Nexts(): map<Link, Link>
      reads `nodes, nodes`next
    {
      map a | a in nodes :: a.next
    }

    ghost function Prevs(): map<Link, Link>
      reads `nodes, nodes`prev
    {
      map a | a in nodes :: a.prev
    }

    /** The circle runs through the attributes in order. */
    ghost predicate Linked()
      reads `list, `nodes, nodes`next, nodes`prev
    {
      sentinel in nodes && (forall a :: a in list ==> a in nodes) && Ring<Link>(list, Nexts(), Prevs(), sentinel)
    }

    ghost predicate Named()
      reads `list, `pairs, sentinel`name, sentinel`value, list`name, list`value
    {
      && sentinel.name == "" && sentinel.value == "" && |pairs| == |list|
      && forall i: nat :: i < |list| ==> pairs[i] == Pair(list[i].name, list[i].value)
    }

    ghost predicate Valid()
      reads this, nodes, sentinel, list
    {
      Linked() && Named()
    }

    constructor ()
      ensures Valid() && list == [] && pairs == [] && fresh(sentinel)
    {
      sentinel := new TiXmlAttribute();
      list, pairs, nodes := [], [], {sentinel};
      new;
      sentinel.prev, sentinel.next := sentinel, sentinel;
    }

    /** Link a new attribute in front of the sentinel. */
    method Add(addMe: TiXmlAttribute)
      requires Linked() && addMe !in nodes
      modifies `list, `nodes, nodes`next, nodes`prev, addMe`next, addMe`prev
      ensures Linked() && list == old(list) + [addMe] && nodes == old(nodes) + {addMe}
    {
      hide Ring, InsertedAt;
      ghost var was, nexts, prevs := list, Nexts(), Prevs();
      ghost var last := PrevOf<Link>(was, |was|, sentinel);
      RingStart<Link>(list, nexts, prevs, sentinel);
      RingInsert<Link>(list, nexts, prevs, sentinel, |list|, addMe);
      AppendIs<Link>(list, addMe);
      addMe.next := sentinel;
      addMe.prev := sentinel.prev;
      sentinel.prev.next := addMe;
      sentinel.prev := addMe;
      list, nodes := list + [addMe], nodes + {addMe};
      assert Nexts() == nexts[addMe := sentinel][last := addMe];
      assert Prevs() == prevs[addMe := last][sentinel := addMe];
    }

    /** Unlink an attribute. */
    method Remove(removeMe: TiXmlAttribute)
      requires Valid() && removeMe in list
      modifies `list, `pairs, nodes`next, nodes`prev
      ensures Valid() && removeMe.next == null && removeMe.prev == null
      ensures exists k: nat :: k < |old(list)| && old(list)[k] == removeMe && list == RemovedAt(old(list), k)
                               && pairs == RemovedAt(old(pairs), k)
    {
      hide Ring, RemovedAt;
      ghost var k := 0;
      var node := sentinel.next;
      RingStart<Link>(list, Nexts(), Prevs(), sentinel);
      while node != sentinel && node != removeMe
        modifies {}
        invariant k <= |list| && node == AtOr<Link>(list, k, sentinel)
        invariant forall j: nat :: j < k ==> list[j] != removeMe
        invariant forall j: nat :: j < |list| ==> list[j] != sentinel
        decreases |list| - k
      {
        RingStep<Link>(list, Nexts(), Prevs(), sentinel, k);
        node := node.next;
        k := k + 1;
      }
      Unlink(node, k);
    }

    /** Take the attribute at index `k` out of the circle. */
    method Unlink(node: TiXmlAttribute, ghost k: nat)
      requires Valid() && k < |list| && list[k] == node
      modifies `list, `pairs, nodes`next, nodes`prev
      ensures Valid() && node.next == null && node.prev == null
      ensures list == RemovedAt(old(list), k) && pairs == RemovedAt(old(pairs), k)
    {
      hide Ring, RemovedAt, PrevOf, AtOr;
      ghost var nexts, prevs := Nexts(), Prevs();
      ghost var a, b := PrevOf<Link>(list, k, sentinel), AtOr<Link>(list, k + 1, sentinel);
      RingStep<Link>(list, nexts, prevs, sentinel, k);
      RingRemove<Link>(list, nexts, prevs, sentinel, k);
      RingApart<Link>(RemovedAt<Link>(list, k), nexts[a := b], prevs[b := a], sentinel, node, null, null);
      RemovedParts(list, pairs, k);
      OnlyHere<Link>(list, nexts, prevs, sentinel, k);
      Neighbours<Link>(list, nexts, prevs, sentinel, k);
      Detach(node, a, b);
      list, pairs := RemovedAt(list, k), RemovedAt(pairs, k);
    }

    /** The pointer changes of Remove. */
    method Detach(node: TiXmlAttribute, ghost a: Link, ghost b: Link)
      requires node in nodes && a != null && b != null && a in nodes && b in nodes && a != node && b != node
      requires node.prev == a && node.next == b
      modifies nodes`next, nodes`prev
      ensures node.next == null && node.prev == null
      ensures Nexts() == old(Nexts())[a := b][node := null] && Prevs() == old(Prevs())[b := a][node := null]
    {
      ghost var nexts, prevs := Nexts(), Prevs();
      node.prev.next := node.next;
      assert Nexts() == nexts[a := b] && Prevs() == prevs;
      node.next.prev := node.prev;
      assert Nexts() == nexts[a := b] && Prevs() == prevs[b := a];
      node.next := null;
      assert Nexts() == nexts[a := b][node := null] && Prevs() == prevs[b := a];
      node.prev := null;
    }

    /** The first attribute of this name. */
    method Find(name: string) returns (attribute: TiXmlAttribute?)
      requires Valid()
      ensures var k := IndexOf(pairs, name); attribute == AtOr<Link>(list, k, null)
    {
      hide Ring, IndexOf;
      ghost var k := 0;
      var node := sentinel.next;
      RingStart<Link>(list, Nexts(), Prevs(), sentinel);
      while node != sentinel
        invariant k <= |list| && node == AtOr<Link>(list, k, sentinel)
        invariant forall j: nat :: j < k ==> pairs[j].name != name
        invariant forall j: nat :: j < |list| ==> list[j] != sentinel
        decreases |list| - k
      {
        RingStep<Link>(list, Nexts(), Prevs(), sentinel, k);
        if node.name == name {
          IndexIs(pairs, name, k);
          return node;
        }
        node := node.next;
        k := k + 1;
      }
      return null;
    }

    /** The attribute of this name, added at the end with an empty value if there is none. */
    method FindOrCreate(name: string) returns (attribute: TiXmlAttribute)
      requires Valid()
      modifies `list, `pairs, `nodes, nodes`next, nodes`prev
      ensures Valid() && nodes >= old(nodes) && fresh(nodes - old(nodes))
      ensures var k := IndexOf(old(pairs), name);
              && k < |list| && list[k] == attribute
              && pairs == if k < |old(pairs)| then old(pairs) else old(pairs) + [Pair(name, "")]
    {
      hide Ring, IndexOf;
      var found := Find(name);
      if found != null {
        return found;
      }
      attribute := new TiXmlAttribute();
      Add(attribute);
      attribute.SetName(name);
      pairs := pairs + [Pair(name, "")];
    }

    /** TiXmlElement::SetAttribute on the element's set. */
    method SetAttribute(name: string, value: string)
      requires Valid()
      modifies `list, `pairs, `nodes, nodes`next, nodes`prev, nodes`value
      ensures Valid() && nodes >= old(nodes) && fresh(nodes - old(nodes))
      ensures pairs == SetPair(old(pairs), Pair(name, value))
    {
      hide Ring, IndexOf;
      ghost var k := IndexOf(pairs, name);
      var attrib := FindOrCreate(name);
      OnlyHere<Link>(list, Nexts(), Prevs(), sentinel, k);
      attrib.SetValue(value);
      pairs := pairs[k := Pair(name, value)];
    }

    /** The first attribute; only the end of the list is tested here. */
    method First() returns (attribute: TiXmlAttribute?)
      requires Valid()
      ensures attribute == AtOr<Link>(list, 0, null)
    {
      return if sentinel.next == sentinel then null else sentinel.next;
    }

    /** The attribute after the one at index `k`, as Next finds it. */
    method NextOfThis(attribute: TiXmlAttribute, ghost k: nat) returns (next: TiXmlAttribute?)
      requires Valid() && k < |list| && attribute == list[k]
      ensures next == if k + 1 < |list| && !Blank(pairs[k + 1]) then list[k + 1] else null
    {
      hide Ring;
      RingStep<Link>(list, Nexts(), Prevs(), sentinel, k);
      next := attribute.Next();
    }

    /** The attribute loop of TiXmlElement::CopyTo, into the set of a new element. */
    method CopyTo(target: TiXmlAttributeSet)
      requires Valid() && target.Valid() && target != this && nodes !! target.nodes && target.pairs == []
      modifies target`list, target`pairs, target`nodes, target.nodes`next, target.nodes`prev, target.nodes`value
      ensures target.Valid() && fresh(target.nodes - old(target.nodes))
      ensures target.pairs == SetPairs([], Visited(pairs))
    {
      hide Ring, SetPair, UpToBlank, Visited;
      ghost var k, rest := 0, Visited(pairs);
      NothingVisited();
      var attribute := First();
      assert pairs[0..] == pairs;
      while attribute != null
        invariant Valid() && target.Valid() && nodes !! target.nodes && fresh(target.nodes - old(target.nodes))
        invariant SetPairs(target.pairs, rest) == SetPairs([], Visited(pairs))
        invariant attribute == null ==> rest == []
        invariant attribute != null ==> k < |list| && attribute == list[k] && rest == Visited(pairs[k..])
        decreases |list| - k, attribute
      {
        VisitStep(pairs, k);
        target.SetAttribute(attribute.name, attribute.value);
        attribute := NextOfThis(attribute, k);
        rest := rest[1..];
        k := k + 1;
      }
    }
  }

  lemma {:induction false} RemovedParts(list: seq<TiXmlAttribute>, pairs: seq<Pair>, k: nat)
    requires |list| == |pairs| && k < |list|
    ensures var l, ps := RemovedAt(list, k), RemovedAt(pairs, k);
            && l == RemovedAt<Link>(list, k) && |l| == |ps| == |list| - 1 && (forall a :: a in l ==> a in list)
            && forall i: nat :: i < |l| ==>
                 var j := if i < k then i else i + 1; l[i] == list[j] && ps[i] == pairs[j]
  {
  }

  lemma {:induction false} NothingVisited()
    ensures Visited([]) == []
  {
  }

  /** The neighbours of an element are the sentinel or other elements. */
  lemma {:induction false} Neighbours<T>(list: seq<T>, next: map<T, T>, prev: map<T, T>, s: T, k: nat)
    requires Ring(list, next, prev, s) && k < |list|
    ensures var a, b := PrevOf(list, k, s), AtOr(list, k + 1, s);
            (a == s || a in list) && (b == s || b in list) && a != list[k] && b != list[k]
  {
    OnlyHere(list, next, prev, s, k);
  }

  /** An element stands in its ring only once. */
  lemma {:induction false} OnlyHere<T>(list: seq<T>, next: map<T, T>, prev: map<T, T>, s: T, k: nat)
    requires Ring(list, next, prev, s) && k < |list|
    ensures list[k] != s && forall j: nat :: j < |list| && j != k ==> list[j] != list[k]
  {
    forall j: nat | j < |list| && j != k ensures list[j] != list[k] {
      if j < k {
        assert list[j] != list[k];
      } else {
        assert list[k] != list[j];
      }
    }
  }

  lemma {:induction false} VisitStep(ps: seq<Pair>, k: nat)
    requires k < |ps|
    ensures var v := Visited(ps[k..]);
            && v != [] && v[0] == ps[k]
            && v[1..] == if k + 1 == |ps| || Blank(ps[k + 1]) then [] else Visited(ps[k + 1..])
  {
    assert ps[k..][1..] == ps[k + 1..];
    if k + 1 < |ps| {
      assert ps[k + 1..][1..] == ps[k + 2..];
    }
  }

  lemma {:induction false} IndexIs(ps: seq<Pair>, name: string, k: nat)
    requires k < |ps| && ps[k].name == name && forall j :: 0 <= j < k ==> ps[j].name != name
    ensures IndexOf(ps, name) == k
  {
    var i := IndexOf(ps, name);
    assert !(i < k) && !(k < i);
  }

  lemma {:induction false} AppendIs<T>(list: seq<T>, x: T)
    ensures InsertedAt(list, |list|, x) == list + [x]
  {
  }
}
