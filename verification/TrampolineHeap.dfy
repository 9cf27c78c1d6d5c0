/** The trampoline allocator: 64K regions cut into slots, each region with its own free list (detours.cpp). */
module TrampolineHeap {
  import opened Bytes
  import opened Relocation

  const REGION_SIZE: nat := 0x1_0000
  /** DETOUR_TRAMPOLINES_PER_REGION. */
  const TRAMPOLINES_PER_REGION: nat := 0x1_0000 / 32 - 1
  const NULL: dword := 0

  /** The fields of a DETOUR_TRAMPOLINE behind its code bytes; pbRemain doubles as the free-list link. */
  datatype Slot = Slot(cbTarget: byte, pbRemain: dword, pbDetour: dword)

  /** The regions in list order, the head of each one's free list, and every slot's fields. */
  datatype Slabs = Slabs(regions: seq<dword>, pFree: map<dword, dword>, slots: map<dword, Slot>)

  function RegionOf(a: dword): dword { a - a % 0x1_0000 }

  /** Slots 3 to 2047 of a region; the ones below hold the region header or are never handed out. */
  predicate IsSlot(a: dword) { a % 32 == 0 && a % 0x1_0000 >= 3 * 32 }

  ghost predicate NoDuplicates(s: seq<dword>) { forall i, j :: 0 <= i < j < |s| ==> s[i] != s[j] }

  /** The linked list starting at `head` runs through exactly `list`, all of it empty slots, and ends. */
  ghost predicate Chain(slots: map<dword, Slot>, head: dword, list: seq<dword>)
    decreases |list|
  {
    if list == [] then head == NULL
    else head == list[0] && head in slots && slots[head].cbTarget == 0 && Chain(slots, slots[head].pbRemain, list[1..])
  }

  lemma {:induction false} ChainFrame(slots: map<dword, Slot>, slots': map<dword, Slot>, head: dword, list: seq<dword>)
    requires Chain(slots, head, list)
    requires forall a :: a in list && a in slots ==> a in slots' && slots'[a] == slots[a]
    ensures Chain(slots', head, list)
    decreases |list|
  {
    if list != [] {
      ChainFrame(slots, slots', slots[head].pbRemain, list[1..]);
    }
  }

  /** Region `r` is well formed, and `list` is its free list. */
  ghost predicate ValidRegion(s: Slabs, r: dword, list: seq<dword>) {
    && r % 0x1_0000 == 0 && r != NULL && r in s.pFree
    && Chain(s.slots, s.pFree[r], list) && NoDuplicates(list)
    && forall a :: a in list ==> RegionOf(a) == r && IsSlot(a)
  }

  ghost predicate ValidSlabs(s: Slabs, free: map<dword, seq<dword>>) {
    && NoDuplicates(s.regions)
    && (forall r :: r in s.regions <==> r in free)
    && (forall r :: r in s.regions ==> ValidRegion(s, r, free[r]))
    && (forall a :: a in s.slots <==> IsSlot(a) && RegionOf(a) in s.regions)
  }

  /** The slots handed out: every slot of every region that is on no free list. */
  ghost function LiveSlots(s: Slabs, free: map<dword, seq<dword>>): (live: set<dword>)
  {
    set a | a in s.slots && RegionOf(a) in free && a !in free[RegionOf(a)]
  }

  /** The links decide which list they run through. */
  lemma {:induction false} ChainUnique(slots: map<dword, Slot>, head: dword, a: seq<dword>, b: seq<dword>)
    requires Chain(slots, head, a) && Chain(slots, head, b) && NULL !in slots
    ensures a == b
    decreases |a|
  {
    if a != [] {
      ChainUnique(slots, slots[head].pbRemain, a[1..], b[1..]);
      assert a == [a[0]] + a[1..] && b == [b[0]] + b[1..];
    }
  }

  lemma {:induction false} CountDistinct(list: seq<dword>, a: dword)
    requires NoDuplicates(list)
    ensures multiset(list)[a] == if a in list then 1 else 0
  {
    if list != [] {
      var rest := list[1..];
      assert list == [list[0]] + rest;
      assert forall i :: 0 <= i < |rest| ==> rest[i] == list[i + 1];
      CountDistinct(rest, a);
    }
  }

  /** Following the links of a slot's region comes past the slot once if it was not handed out, and never otherwise. */
  lemma {:induction false} ListedOnce(s: Slabs, free: map<dword, seq<dword>>, a: dword, list: seq<dword>)
    requires ValidSlabs(s, free) && IsSlot(a) && RegionOf(a) in s.regions && RegionOf(a) in s.pFree
    requires Chain(s.slots, s.pFree[RegionOf(a)], list)
    ensures multiset(list)[a] == if a in LiveSlots(s, free) then 0 else 1
  {
    hide Chain;
    var r := RegionOf(a);
    assert ValidRegion(s, r, free[r]);
    ChainUnique(s.slots, s.pFree[r], list, free[r]);
    CountDistinct(list, a);
  }

  lemma {:induction false} RegionChained(s: Slabs, free: map<dword, seq<dword>>, r: dword)
    requires ValidSlabs(s, free) && r in s.regions
    ensures r in s.pFree && r in free && Chain(s.slots, s.pFree[r], free[r])
  {
    assert ValidRegion(s, r, free[r]);
  }

  // ------------------------------------------------------------ pop and push

  function Pop(s: Slabs, r: dword, fill: Slot): Slabs
    requires r in s.pFree && s.pFree[r] in s.slots
  {
    var t := s.pFree[r];
    s.(pFree := s.pFree[r := s.slots[t].pbRemain], slots := s.slots[t := fill])
  }

  /** A slot that is not live is empty, which is how Detach recognizes it. */
  lemma {:induction false} FreeIsEmpty(s: Slabs, free: map<dword, seq<dword>>, t: dword)
    requires ValidSlabs(s, free) && t in s.slots && t !in LiveSlots(s, free)
    ensures s.slots[t].cbTarget == 0
  {
    ChainEmpty(s.slots, s.pFree[RegionOf(t)], free[RegionOf(t)], t);
  }

  lemma {:induction false} ChainEmpty(slots: map<dword, Slot>, head: dword, list: seq<dword>, t: dword)
    requires Chain(slots, head, list) && t in list && t in slots
    ensures slots[t].cbTarget == 0
    decreases |list|
  {
    if t != list[0] {
      ChainEmpty(slots, slots[head].pbRemain, list[1..], t);
    }
  }

  /** Writing a live slot's fields touches no free list. */
  lemma {:induction false} FillKeeps(s: Slabs, free: map<dword, seq<dword>>, t: dword, slot: Slot)
    requires ValidSlabs(s, free) && t in LiveSlots(s, free)
    ensures ValidSlabs(s.(slots := s.slots[t := slot]), free)
    ensures LiveSlots(s.(slots := s.slots[t := slot]), free) == LiveSlots(s, free)
  {
    hide ValidRegion, NoDuplicates;
    var s' := s.(slots := s.slots[t := slot]);
    forall q | q in s'.regions ensures ValidRegion(s', q, free[q]) {
      NotListed(s, free, q, t);
      RegionFrame(s, s', q, free[q]);
    }
  }

  lemma {:induction false} NotListed(s: Slabs, free: map<dword, seq<dword>>, q: dword, t: dword)
    requires q in s.regions && q in free && ValidRegion(s, q, free[q]) && t in LiveSlots(s, free)
    ensures t !in free[q] && q in s.pFree
  {
  }

  /** Different slots never overlap. */
  lemma {:induction false} SlotsDisjoint(a: dword, b: dword)
    requires IsSlot(a) && IsSlot(b) && a != b
    ensures a + SLOT_SIZE <= b || b + SLOT_SIZE <= a
  {
  }

  /** A region whose list and links were not touched stays well formed. */
  lemma {:induction false} RegionFrame(s: Slabs, s': Slabs, r: dword, list: seq<dword>)
    requires ValidRegion(s, r, list)
    requires r in s'.pFree && s'.pFree[r] == s.pFree[r]
    requires forall a :: a in list && a in s.slots ==> a in s'.slots && s'.slots[a] == s.slots[a]
    ensures ValidRegion(s', r, list)
  {
    ChainFrame(s.slots, s'.slots, s.pFree[r], list);
  }

  lemma {:induction false} PopRegion(s: Slabs, r: dword, list: seq<dword>, fill: Slot)
    requires ValidRegion(s, r, list) && s.pFree[r] != NULL
    ensures list != [] && s.pFree[r] == list[0] && list[0] in s.slots && list[0] !in list[1..]
    ensures ValidRegion(Pop(s, r, fill), r, list[1..])
  {
    var rest, s' := list[1..], Pop(s, r, fill);
    assert forall a :: a in rest ==> a in list && a != list[0];
    ChainFrame(s.slots, s'.slots, s.slots[list[0]].pbRemain, rest);
  }

  lemma {:induction false} PopKeeps(s: Slabs, free: map<dword, seq<dword>>, r: dword, fill: Slot)
    requires ValidSlabs(s, free) && r in s.regions && r in s.pFree && s.pFree[r] != NULL
    ensures r in free && free[r] != [] && s.pFree[r] == free[r][0] && s.pFree[r] in s.slots
    ensures ValidSlabs(Pop(s, r, fill), free[r := free[r][1..]])
  {
    PopRegion(s, r, free[r], fill);
    hide ValidRegion, NoDuplicates;
    var t, free', s' := free[r][0], free[r := free[r][1..]], Pop(s, r, fill);
    PopFields(s, free, r, fill);
    forall q | q in s'.regions ensures ValidRegion(s', q, free'[q]) {
      if q != r {
        ElsewhereFree(s, free, q, t);
        RegionFrame(s, s', q, free[q]);
      }
    }
  }

  lemma {:induction false} PopFields(s: Slabs, free: map<dword, seq<dword>>, r: dword, fill: Slot)
    requires r in s.regions && r in free && ValidRegion(s, r, free[r]) && s.pFree[r] != NULL
    ensures var t, s' := s.pFree[r], Pop(s, r, fill);
            && t in s.slots && RegionOf(t) == r && IsSlot(t)
            && s'.regions == s.regions && s'.slots == s.slots[t := fill]
            && s'.pFree.Keys == s.pFree.Keys && (forall q :: q in s.pFree && q != r ==> s'.pFree[q] == s.pFree[q])
  {
  }

  /** A slot on, or belonging to, one region's list is on no other region's. */
  lemma {:induction false} ElsewhereFree(s: Slabs, free: map<dword, seq<dword>>, q: dword, t: dword)
    requires q in s.regions && q in free && ValidRegion(s, q, free[q]) && RegionOf(t) != q
    ensures t !in free[q] && q in s.pFree
  {
  }

  lemma {:induction false} PopLive(s: Slabs, free: map<dword, seq<dword>>, r: dword, fill: Slot)
    requires ValidSlabs(s, free) && r in s.regions && r in s.pFree && s.pFree[r] != NULL
    ensures var t := s.pFree[r];
            && r in free && free[r] != [] && t in s.slots && IsSlot(t) && t != NULL && t !in LiveSlots(s, free)
            && LiveSlots(Pop(s, r, fill), free[r := free[r][1..]]) == LiveSlots(s, free) + {t}
  {
    PopRegion(s, r, free[r], fill);
    hide ValidRegion;
    var t := s.pFree[r];
    PopFields(s, free, r, fill);
    assert forall a :: a in free[r] <==> a == t || a in free[r][1..];
  }

  function Push(s: Slabs, t: dword): Slabs
    requires RegionOf(t) in s.pFree
  {
    var r := RegionOf(t);
    s.(pFree := s.pFree[r := t], slots := s.slots[t := Slot(0, s.pFree[r], 0)])
  }

  lemma {:induction false} PushRegion(s: Slabs, t: dword, list: seq<dword>)
    requires ValidRegion(s, RegionOf(t), list) && t !in list && IsSlot(t)
    ensures ValidRegion(Push(s, t), RegionOf(t), [t] + list)
  {
    var s' := Push(s, t);
    assert ([t] + list)[1..] == list;
    ChainFrame(s.slots, s'.slots, s.pFree[RegionOf(t)], list);
  }

  lemma {:induction false} PushKeeps(s: Slabs, free: map<dword, seq<dword>>, t: dword)
    requires ValidSlabs(s, free) && t in LiveSlots(s, free)
    ensures RegionOf(t) in s.pFree
    ensures ValidSlabs(Push(s, t), free[RegionOf(t) := [t] + free[RegionOf(t)]])
    ensures LiveSlots(Push(s, t), free[RegionOf(t) := [t] + free[RegionOf(t)]]) == LiveSlots(s, free) - {t}
  {
    hide ValidRegion, NoDuplicates, RegionOf, IsSlot;
    var r := RegionOf(t);
    assert ValidRegion(s, r, free[r]);
    PushFields(s, free, t);
    var free', s' := free[r := [t] + free[r]], Push(s, t);
    PushRegion(s, t, free[r]);
    forall q | q in s'.regions ensures ValidRegion(s', q, free'[q]) {
      if q != r {
        ElsewhereFree(s, free, q, t);
        RegionFrame(s, s', q, free[q]);
      }
    }
  }

  lemma {:induction false} PushFields(s: Slabs, free: map<dword, seq<dword>>, t: dword)
    requires RegionOf(t) in free && ValidRegion(s, RegionOf(t), free[RegionOf(t)])
    ensures RegionOf(t) in s.pFree
  {
  }

  lemma {:induction false} ChainFollows(slots: map<dword, Slot>, slots': map<dword, Slot>, head: dword,
                                        list: seq<dword>, list': seq<dword>, i: nat)
    requires Chain(slots, head, list) && Chain(slots', head, list') && i < |list| && list[i] != NULL
    requires forall a :: a in slots && a != list[i] ==> a in slots' && slots'[a] == slots[a]
    requires forall j :: 0 <= j < i ==> list[j] != list[i] && list[j] != NULL
    ensures i < |list'| && list'[i] == list[i]
    decreases i
  {
    if i > 0 {
      assert list[0] != list[i];
      ChainFollows(slots, slots', slots[head].pbRemain, list[1..], list'[1..], i - 1);
    }
  }

  /** Pushing a slot that is already on its region's list makes the list run in a circle. */
  lemma {:induction false} DoubleFreeCycles(s: Slabs, r: dword, list: seq<dword>, list': seq<dword>, i: nat)
    requires ValidRegion(s, r, list) && i < |list| && RegionOf(list[i]) == r
    ensures !ValidRegion(Push(s, list[i]), r, list')
  {
    var t := list[i];
    var s' := Push(s, t);
    if ValidRegion(s', r, list') {
      assert forall a :: a in s.slots && a != t ==> a in s'.slots && s'.slots[a] == s.slots[a];
      assert forall j :: 0 <= j < i ==> list[j] != t && list[j] in list;
      ChainFollows(s.slots, s'.slots, s.pFree[r], list, list'[1..], i);
    }
  }

  /** Freeing a slot leaves well-formed free lists if and only if the slot was live. */
  lemma {:induction false} FreeOnlyLive(s: Slabs, free: map<dword, seq<dword>>, t: dword)
    requires ValidSlabs(s, free) && IsSlot(t) && RegionOf(t) in s.regions
    ensures RegionOf(t) in s.pFree
    ensures t in LiveSlots(s, free) <==> exists free' :: ValidSlabs(Push(s, t), free')
  {
    var r := RegionOf(t);
    assert ValidRegion(s, r, free[r]);
    assert r in s.pFree;
    if t in LiveSlots(s, free) {
      PushKeeps(s, free, t);
    } else {
      var list := free[r];
      assert t in list;
      var i :| 0 <= i < |list| && list[i] == t;
      hide ValidRegion, LiveSlots;
      forall free' ensures !ValidSlabs(Push(s, t), free') {
        if r in free' {
          DoubleFreeCycles(s, r, list, free'[r], i);
        }
      }
    }
  }

  // ------------------------------------------------------------- a new region

  /** The slots from index `from` of region `base` on, lowest first. */
  ghost function SlotsFrom(base: dword, from: nat): (list: seq<dword>)
    requires base % 0x1_0000 == 0 && 3 <= from <= 2048
    decreases 2048 - from
  {
    if from == 2048 then [] else [base + 32 * from] + SlotsFrom(base, from + 1)
  }

  ghost predicate SlotAbove(a: dword, base: dword, from: nat) {
    RegionOf(a) == base && IsSlot(a) && a >= base + 32 * from
  }

  /** They are exactly the region's slots from that index on, each once. */
  lemma {:induction false} SlotsFromFacts(base: dword, from: nat)
    requires base % 0x1_0000 == 0 && 3 <= from <= 2048
    ensures var list := SlotsFrom(base, from);
            NoDuplicates(list) && forall a: dword :: a in list <==> SlotAbove(a, base, from)
    decreases 2048 - from
  {
    hide SlotAbove, NoDuplicates, IsSlot, RegionOf;
    if from < 2048 {
      SlotsFromFacts(base, from + 1);
      SlotAddress(base, from);
      var t, rest := base + 32 * from, SlotsFrom(base, from + 1);
      forall a: dword ensures SlotAbove(a, base, from) <==> a == t || SlotAbove(a, base, from + 1) {
        SlotAboveStep(a, base, from);
      }
      PrependDistinct(rest, t);
    } else {
      forall a: dword ensures !SlotAbove(a, base, from) {
        SlotAboveStep(a, base, from);
      }
      NoneListed();
    }
  }

  lemma {:induction false} NoneListed()
    ensures NoDuplicates([])
  {
  }

  lemma {:induction false} SlotAboveStep(a: dword, base: dword, from: nat)
    requires base % 0x1_0000 == 0 && 3 <= from <= 2048
    ensures from == 2048 ==> !SlotAbove(a, base, from)
    ensures from < 2048 ==>
              (SlotAbove(a, base, from) <==> a == base + 32 * from || SlotAbove(a, base, from + 1))
  {
    hide RegionOf;
    if IsSlot(a) && RegionOf(a) == base {
      var k := SlotIndex(a);
    }
    if from < 2048 {
      SlotAddress(base, from);
    }
  }

  /** Where a slot stands in its region. */
  lemma {:induction false} SlotIndex(a: dword) returns (k: nat)
    requires a % 32 == 0
    ensures a == RegionOf(a) + 32 * k && k < 2048
  {
    var q := a / 32;
    k := q % 2048;
    assert q == 2048 * (q / 2048) + k;
    assert a == 0x1_0000 * (q / 2048) + 32 * k;
  }

  /** The slots a partly initialized region `base` adds to `slots`. */
  ghost predicate Initialized(slots: map<dword, Slot>, slots': map<dword, Slot>, base: dword, from: nat) {
    && (forall a: dword :: a in slots' <==> a in slots || SlotAbove(a, base, from))
    && (forall a :: a in slots && RegionOf(a) != base ==> slots'[a] == slots[a])
  }

  ghost predicate Grown(s: Slabs, base: dword, s': Slabs) {
    && base % 0x1_0000 == 0 && base != NULL && base !in s.regions
    && s'.regions == [base] + s.regions && s'.pFree == s.pFree[base := base + 3 * 32]
    && Initialized(s.slots, s'.slots, base, 3) && Chain(s'.slots, base + 3 * 32, SlotsFrom(base, 3))
  }

  lemma {:induction false} GrownRegion(s: Slabs, base: dword, s': Slabs)
    requires Grown(s, base, s')
    ensures ValidRegion(s', base, SlotsFrom(base, 3))
  {
    SlotsFromFacts(base, 3);
  }

  lemma {:induction false} GrowKeeps(s: Slabs, free: map<dword, seq<dword>>, base: dword, s': Slabs)
    requires ValidSlabs(s, free) && Grown(s, base, s')
    ensures ValidSlabs(s', free[base := SlotsFrom(base, 3)])
  {
    hide ValidRegion, Chain, NoDuplicates, SlotsFrom;
    var free' := free[base := SlotsFrom(base, 3)];
    GrownRegion(s, base, s');
    forall q | q in s'.regions ensures ValidRegion(s', q, free'[q]) {
      if q != base {
        OtherSlots(s, free, q);
        RegionFrame(s, s', q, free[q]);
      }
    }
    PrependDistinct(s.regions, base);
  }

  lemma {:induction false} GrowLive(s: Slabs, free: map<dword, seq<dword>>, base: dword, s': Slabs)
    requires ValidSlabs(s, free) && Grown(s, base, s')
    ensures LiveSlots(s', free[base := SlotsFrom(base, 3)]) == LiveSlots(s, free)
  {
    hide ValidRegion, Chain, NoDuplicates;
    SlotsFromFacts(base, 3);
  }

  lemma {:induction false} OtherSlots(s: Slabs, free: map<dword, seq<dword>>, q: dword)
    requires q in s.regions && q in free && ValidRegion(s, q, free[q])
    ensures q in s.pFree && forall a :: a in free[q] ==> RegionOf(a) == q
  {
  }

  lemma {:induction false} PrependDistinct(list: seq<dword>, a: dword)
    requires NoDuplicates(list) && a !in list
    ensures NoDuplicates([a] + list)
  {
  }

  /** One step of the loop that links a new region's slots. */
  lemma {:induction false} LinkSlot(slots: map<dword, Slot>, linked: map<dword, Slot>, base: dword, k: nat, head: dword)
    requires base % 0x1_0000 == 0 && 3 <= k < 2048
    requires Initialized(slots, linked, base, k + 1) && Chain(linked, head, SlotsFrom(base, k + 1))
    ensures base + 32 * k < ADDRESS_SPACE
    ensures var t: dword := base + 32 * k;
            var linked' := linked[t := Slot(0, head, 0)];
            Initialized(slots, linked', base, k) && Chain(linked', t, SlotsFrom(base, k)) && RegionOf(t) == base
  {
    hide SlotAbove, NoDuplicates, RegionOf, SlotsFrom, Chain, Initialized;
    SlotAddress(base, k);
    var t: dword := base + 32 * k;
    SlotsFromFacts(base, k + 1);
    LinkInitialized(slots, linked, base, k, t, head);
    LinkChain(linked, base, k, t, head);
  }

  lemma {:induction false} SlotAddress(base: dword, k: nat)
    requires base % 0x1_0000 == 0 && 3 <= k < 2048
    ensures base + 32 * k < ADDRESS_SPACE
    ensures RegionOf(base + 32 * k) == base && IsSlot(base + 32 * k) && !SlotAbove(base + 32 * k, base, k + 1)
  {
    var b := base / 0x1_0000;
    assert base == 0x1_0000 * b && b < 0x1_0000;
    InRegion(b, 32 * k);
    Multiple32(2048 * b + k);
  }

  lemma {:induction false} InRegion(b: nat, offset: nat)
    requires offset < 0x1_0000
    ensures (0x1_0000 * b + offset) % 0x1_0000 == offset
  {
  }

  lemma {:induction false} Multiple32(n: nat)
    ensures (32 * n) % 32 == 0
  {
  }

  lemma {:induction false} LinkInitialized(slots: map<dword, Slot>, linked: map<dword, Slot>, base: dword, k: nat,
                                           t: dword, head: dword)
    requires base % 0x1_0000 == 0 && 3 <= k < 2048 && t == base + 32 * k && RegionOf(t) == base
    requires Initialized(slots, linked, base, k + 1)
    ensures Initialized(slots, linked[t := Slot(0, head, 0)], base, k)
  {
    forall a: dword ensures SlotAbove(a, base, k) <==> a == t || SlotAbove(a, base, k + 1) {
      SlotAboveStep(a, base, k);
    }
    hide SlotAbove, RegionOf;
  }

  lemma {:induction false} LinkChain(linked: map<dword, Slot>, base: dword, k: nat, t: dword, head: dword)
    requires base % 0x1_0000 == 0 && 3 <= k < 2048 && t == base + 32 * k
    requires Chain(linked, head, SlotsFrom(base, k + 1)) && t !in SlotsFrom(base, k + 1)
    ensures Chain(linked[t := Slot(0, head, 0)], t, SlotsFrom(base, k))
  {
    var rest := SlotsFrom(base, k + 1);
    ChainFrame(linked, linked[t := Slot(0, head, 0)], head, rest);
    assert SlotsFrom(base, k) == [t] + rest;
    assert ([t] + rest)[1..] == rest;
  }

  lemma {:induction false} NoSlotAbove(base: dword, slots: map<dword, Slot>, from: nat)
    requires base % 0x1_0000 == 0 && from == 2048
    ensures Initialized(slots, slots, base, from) && SlotsFrom(base, from) == []
  {
    forall a: dword ensures !SlotAbove(a, base, from) {
      SlotAboveStep(a, base, from);
    }
  }

  // ------------------------------------------------------------ the allocator

  /** The lowest and highest slot address a 32-bit jump of `pbTarget` may be given. */
  function LowBound(pbTarget: dword): dword {
    if pbTarget > 0x7ff8_0000 then pbTarget - 0x7ff8_0000 else REGION_SIZE
  }

  function HighBound(pbTarget: dword): dword {
    if pbTarget < 0x8000_0000 then pbTarget + 0x7ff8_0000 else 0xfff8_0000
  }

  /** Whether the head of region `r`'s free list can serve a target with these bounds. */
  predicate Usable(s: Slabs, r: dword, lo: dword, hi: dword) {
    r in s.pFree && s.pFree[r] != NULL && lo <= s.pFree[r] <= hi
  }

  /** A slot within the bounds is near enough for exact signed 32-bit displacements in both directions. */
  lemma {:induction false} BoundsAreNear(pbTarget: dword, t: dword, cb: nat)
    requires LowBound(pbTarget) <= t <= HighBound(pbTarget) && cb <= CODE_SIZE
    ensures Wrap32((pbTarget + cb) - (t + cb + SIZE_OF_JMP)) == (pbTarget + cb) - (t + cb + SIZE_OF_JMP)
    ensures Wrap32(t - (pbTarget + SIZE_OF_JMP)) == t - (pbTarget + SIZE_OF_JMP)
  {
  }

  /** Between the first 64K and the last half megabyte the bounds are all that is at most 0x7ff80000 bytes away. */
  lemma {:induction false} BoundsReach(pbTarget: dword, t: dword)
    requires 0x1_0000 <= t <= 0xfff8_0000
    ensures LowBound(pbTarget) <= t <= HighBound(pbTarget)
            <==> t - 0x7ff8_0000 <= pbTarget <= t + 0x7ff8_0000
  {
  }

  const FRESH := Slot(INT3, 0xCCCC_CCCC, 0xCCCC_CCCC)

  /** Slot `t` of memory was overwritten with `value`. */
  ghost predicate Filled(was: seq<byte>, now: seq<byte>, t: dword, value: byte) {
    t + SLOT_SIZE <= |was| && now == Blit(was, t, seq(SLOT_SIZE, _ => value))
  }

  method Memset(mem: array<byte>, pTrampoline: dword, value: byte)
    requires pTrampoline + SLOT_SIZE <= mem.Length
    modifies mem
    ensures Filled(old(mem[..]), mem[..], pTrampoline, value)
  {
    ghost var was := mem[..];
    forall k | 0 <= k < SLOT_SIZE {
      mem[pTrampoline + k] := value;
    }
    assert mem[..] == Blit(was, pTrampoline, seq(SLOT_SIZE, _ => value));
  }

  /** The loop that puts a new region's slots 2047 down to 3 on its free list. */
  method LinkRegion(slots: map<dword, Slot>, base: dword) returns (linked: map<dword, Slot>, head: dword)
    requires base % 0x1_0000 == 0 && base != NULL && forall a :: a in slots ==> RegionOf(a) != base
    ensures Initialized(slots, linked, base, 3) && Chain(linked, head, SlotsFrom(base, 3)) && head == base + 3 * 32
    ensures forall a :: a in slots ==> a in linked && linked[a] == slots[a]
  {
    hide SlotAbove, RegionOf;
    var i := TRAMPOLINES_PER_REGION - 1;
    linked, head := slots, NULL;
    NoSlotAbove(base, linked, i + 2);
    while i > 1
      invariant 1 <= i < TRAMPOLINES_PER_REGION
      invariant Initialized(slots, linked, base, i + 2) && Chain(linked, head, SlotsFrom(base, i + 2))
      invariant forall a :: a in slots ==> a in linked && linked[a] == slots[a]
    {
      LinkSlot(slots, linked, base, i + 1, head);
      var pSlot: dword := base + 32 * (i + 1);
      linked, head := linked[pSlot := Slot(0, head, 0)], pSlot;
      i := i - 1;
    }
  }

  class CTrampolineHeap {
    const mem: array<byte>
    var s_pRegions: seq<dword>
    var s_pRegion: dword
    var pFree: map<dword, dword>
    var slots: map<dword, Slot>
    ghost var free: map<dword, seq<dword>>

    function Model(): Slabs
      reads this
    {
      Slabs(s_pRegions, pFree, slots)
    }

    ghost predicate Valid()
      reads this
    {
      && mem.Length == ADDRESS_SPACE
      && ValidSlabs(Model(), free)
      && (s_pRegion == NULL || s_pRegion in s_pRegions)
    }

    ghost function Live(): set<dword>
      reads this
    {
      LiveSlots(Model(), free)
    }

    constructor (mem: array<byte>)
      requires mem.Length == ADDRESS_SPACE
      ensures Valid() && Live() == {} && this.mem == mem && s_pRegions == []
    {
      this.mem := mem;
      s_pRegions, s_pRegion, pFree, slots, free := [], NULL, map[], map[], map[];
    }

    /** Take the head of the default region's free list and fill it with INT3. */
    method TakeFree() returns (pTrampoline: dword)
      requires Valid() && s_pRegion != NULL && s_pRegion in pFree && pFree[s_pRegion] != NULL
      modifies this, mem
      ensures Valid() && pTrampoline == old(pFree[s_pRegion]) && IsSlot(pTrampoline) && pTrampoline != NULL
      ensures pTrampoline !in old(Live()) && Live() == old(Live()) + {pTrampoline}
      ensures s_pRegions == old(s_pRegions) && s_pRegion == old(s_pRegion)
      ensures pTrampoline in slots && slots == old(slots)[pTrampoline := FRESH]
      ensures Filled(old(mem[..]), mem[..], pTrampoline, INT3)
    {
      hide ValidSlabs, LiveSlots, RegionOf, Filled, IsSlot;
      ghost var was := Model();
      PopKeeps(was, free, s_pRegion, FRESH);
      PopLive(was, free, s_pRegion, FRESH);
      ghost var list := free[s_pRegion];
      pTrampoline := pFree[s_pRegion];
      SlotInMemory(pTrampoline);
      pFree := pFree[s_pRegion := slots[pTrampoline].pbRemain];
      slots := slots[pTrampoline := FRESH];
      free := free[s_pRegion := list[1..]];
      assert Model() == Pop(was, s_pRegion, FRESH);
      hide Pop;
      Memset(mem, pTrampoline, INT3);
    }

    /** Link a newly allocated region in and put its slots 2047 down to 3 on its free list. */
    method AddRegion(base: dword)
      requires Valid() && base % 0x1_0000 == 0 && base != NULL && base !in s_pRegions
      modifies this
      ensures Valid() && Live() == old(Live()) && s_pRegions == [base] + old(s_pRegions) && s_pRegion == base
      ensures base in pFree && pFree[base] == base + 3 * 32
      ensures forall a :: a in old(slots) ==> a in slots && slots[a] == old(slots)[a]
    {
      ghost var was := Model();
      var linked, head := LinkRegion(slots, base);
      s_pRegions, s_pRegion := [base] + s_pRegions, base;
      pFree, slots := pFree[base := head], linked;
      GrowKeeps(was, free, base, Model());
      GrowLive(was, free, base, Model());
      hide SlotsFrom, ValidSlabs, LiveSlots;
      free := free[base := SlotsFrom(base, 3)];
    }

    /** Make the default region one whose free list can serve these bounds, preferring the one it already is. */
    method ChooseRegion(lo: dword, hi: dword) returns (found: bool)
      requires Valid()
      modifies `s_pRegion
      ensures Valid() && Live() == old(Live())
      ensures found <==> exists r :: r in s_pRegions && Usable(Model(), r, lo, hi)
      ensures found ==> s_pRegion != NULL && Usable(Model(), s_pRegion, lo, hi)
      ensures old(s_pRegion) in s_pRegions && Usable(Model(), old(s_pRegion), lo, hi) ==> s_pRegion == old(s_pRegion)
    {
      hide ValidSlabs, LiveSlots, Usable;
      RegionsNotNull(Model(), free);
      if s_pRegion == NULL && s_pRegions != [] {
        s_pRegion := s_pRegions[0];
      }
      if s_pRegion != NULL && Usable(Model(), s_pRegion, lo, hi) {
        return true;
      }
      var n := 0;
      while n < |s_pRegions| && !Usable(Model(), s_pRegions[n], lo, hi)
        invariant 0 <= n <= |s_pRegions| && forall k :: 0 <= k < n ==> !Usable(Model(), s_pRegions[k], lo, hi)
      {
        n := n + 1;
      }
      found := n < |s_pRegions|;
      s_pRegion := if found then s_pRegions[n] else NULL;
    }

    /**
     * detour_alloc_trampoline.  `unused` is what the search for unused address space would come up with: a 64K
     * region, or nothing.
     */
    method Alloc(pbTarget: dword, unused: Option<dword>) returns (pTrampoline: dword)
      requires Valid()
      requires unused.Some? ==> unused.value % 0x1_0000 == 0 && unused.value != NULL && unused.value !in s_pRegions
      modifies this, mem
      ensures Valid()
      ensures pTrampoline == NULL ==> Live() == old(Live()) && mem[..] == old(mem[..])
      ensures pTrampoline != NULL ==>
                && IsSlot(pTrampoline) && LowBound(pbTarget) <= pTrampoline <= HighBound(pbTarget)
                && pTrampoline !in old(Live()) && Live() == old(Live()) + {pTrampoline}
                && pTrampoline in slots && slots[pTrampoline] == FRESH
                && Filled(old(mem[..]), mem[..], pTrampoline, INT3)
      ensures forall a :: a in old(slots) && a != pTrampoline ==> a in slots && slots[a] == old(slots)[a]
      ensures var lo, hi := LowBound(pbTarget), HighBound(pbTarget);
              var served := exists r :: r in old(s_pRegions) && Usable(old(Model()), r, lo, hi);
              && s_pRegions == (if served || unused.None? then old(s_pRegions) else [unused.value] + old(s_pRegions))
              && (pTrampoline == NULL <==> !served && (unused.None? || !(lo <= unused.value + 3 * 32 <= hi)))
    {
      hide ValidSlabs, LiveSlots, RegionOf, IsSlot, LowBound, HighBound, Filled;
      var lo, hi := LowBound(pbTarget), HighBound(pbTarget);
      var found := ChooseRegion(lo, hi);
      if !found {
        if unused.None? {
          return NULL;
        }
        AddRegion(unused.value);
        if !(lo <= pFree[s_pRegion] <= hi) {
          return NULL;
        }
      }
      pTrampoline := TakeFree();
    }

    /** Set the fields of a trampoline that was handed out. */
    method Fill(pTrampoline: dword, slot: Slot)
      requires Valid() && pTrampoline in Live()
      modifies `slots
      ensures Valid() && Live() == old(Live()) && slots == old(slots)[pTrampoline := slot]
    {
      hide ValidSlabs, LiveSlots;
      FillKeeps(Model(), free, pTrampoline, slot);
      slots := slots[pTrampoline := slot];
    }

    /** detour_free_trampoline. */
    method Free(pTrampoline: dword)
      requires Valid() && pTrampoline in Live()
      modifies this, mem
      ensures Valid() && Live() == old(Live()) - {pTrampoline}
      ensures s_pRegions == old(s_pRegions) && slots == old(slots)[pTrampoline := slots[pTrampoline]]
      ensures pTrampoline in slots && slots[pTrampoline].cbTarget == 0
      ensures Filled(old(mem[..]), mem[..], pTrampoline, 0)
    {
      PushKeeps(Model(), free, pTrampoline);
      hide ValidSlabs, LiveSlots;
      var pRegion := RegionOf(pTrampoline);
      SlotInMemory(pTrampoline);
      Memset(mem, pTrampoline, 0);
      slots := slots[pTrampoline := Slot(0, pFree[pRegion], 0)];
      pFree := pFree[pRegion := pTrampoline];
      free := free[pRegion := [pTrampoline] + free[pRegion]];
    }
  }

  lemma {:induction false} RegionsNotNull(s: Slabs, free: map<dword, seq<dword>>)
    requires ValidSlabs(s, free)
    ensures NULL !in s.regions
  {
  }

  /** Every slot handed out stands in one of the regions. */
  lemma {:induction false} LiveInRegions(s: Slabs, free: map<dword, seq<dword>>, t: dword)
    requires ValidSlabs(s, free) && t in LiveSlots(s, free)
    ensures RegionOf(t) in s.regions
  {
  }

  lemma {:induction false} SlotInMemory(t: dword)
    requires IsSlot(t)
    ensures t + SLOT_SIZE <= ADDRESS_SPACE && RegionOf(t) + REGION_SIZE <= ADDRESS_SPACE
    ensures RegionOf(t) + 3 * 32 <= t && t + SLOT_SIZE <= RegionOf(t) + REGION_SIZE
  {
    var q, p := t / 32, t / 0x1_0000;
    assert t == 32 * q && t % 0x1_0000 == 32 * (q - 2048 * p);
    assert q - 2048 * p < 2048 && p < 0x1_0000;
  }
}
