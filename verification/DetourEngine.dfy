/** The static state of detours.cpp as one object, with the transaction API as its methods. */
module DetourEngine {
  import opened Bytes
  import opened Relocation
  import opened TrampolineRun
  import opened TrampolineHeap
  import opened Transaction
  import opened Restoration
  import opened CodeWriter

  /** What committing operation `o` takes: its code can be reached and copied without leaving slot or window. */
  predicate OpReady(s: State, o: Op) {
    && o.pTrampoline in s.live && o.ppbPointer in s.cells
    && o.pbTarget + SLOT_SIZE <= |s.mem| && o.pTrampoline + SLOT_SIZE <= |s.mem|
    && WindowsApart(o.pbTarget, o.pTrampoline)
    && SIZE_OF_JMP <= s.live[o.pTrampoline].cbTarget <= CODE_SIZE - SIZE_OF_JMP
    && s.live[o.pTrampoline].pbRemain == o.pbTarget + s.live[o.pTrampoline].cbTarget
    && (o.isRemove ==> MoveBack(s.mem, o, s.live[o.pTrampoline].cbTarget).Some?)
  }

  predicate CommitReady(s: State, ops: seq<Op>)
    decreases |ops|
  {
    ops == [] || (OpReady(s, ops[0]) && CommitReady(CommitOp(s, ops[0]), ops[1..]))
  }

  /** Every state the invariant describes can be committed. */
  lemma {:induction false} InvReady(w: World, s: State, done: set<dword>, hooked: set<dword>, ops: seq<Op>)
    requires Inv(w, s, done, hooked, ops)
    ensures CommitReady(s, ops)
    decreases |ops|
  {
    hide Inv, OpReady, CommitOp;
    if ops != [] {
      InvOpReady(w, s, done, hooked, ops);
      CommitOpKeeps(w, s, done, hooked, ops);
      InvReady(w, CommitOp(s, ops[0]), DoneAfter(done, ops[0]), hooked + {ops[0].ppbPointer}, ops[1..]);
    }
  }

  lemma {:induction false} InvOpReady(w: World, s: State, done: set<dword>, hooked: set<dword>, ops: seq<Op>)
    requires Inv(w, s, done, hooked, ops) && ops != []
    ensures OpReady(s, ops[0])
  {
    hide CodeOk, CellsOk, HookOk, TargetOf, MoveBack, Apart, IsSlot, RegionOf;
    var o := ops[0];
    assert o in ops;
    CodeFacts(w, s.mem, s.live, done, o.pTrampoline);
    MemSize(w, s.mem, s.live, done);
    var slot := s.live[o.pTrampoline];
    HookFacts(w, s.mem, o.pTrampoline, slot, o.pTrampoline in done);
    HookRemain(w, s.mem, o.pTrampoline, slot, o.pTrampoline in done);
    ApartFromSlot(w, o.pbTarget, o.pTrampoline);
    if o.isRemove {
      MovesBack(w, s.mem, o.pTrampoline, slot, o);
    }
  }

  lemma {:induction false} HookRemain(w: World, mem: seq<byte>, t: dword, slot: Slot, patched: bool)
    requires HookOk(w, mem, t, slot, patched)
    ensures slot.pbRemain == TargetOf(slot) + slot.cbTarget
  {
    hide TargetOf, Tiled, NoInvalid, HoldsCopies, JumpBytes;
  }

  lemma {:induction false} ApartFromSlot(w: World, at: dword, t: dword)
    requires Apart(w, at, SLOT_SIZE) && IsSlot(t) && RegionOf(t) in w.arena
    ensures WindowsApart(at, t)
  {
    hide IsSlot, RegionOf, InArena;
    SlotInArena(w, t);
    assert !Outside(w, t) && !Outside(w, t + SLOT_SIZE - 1);
  }

  /** The fields of the slots in `live`. */
  function LiveMap(slots: map<dword, Slot>, live: set<dword>): map<dword, Slot> {
    map t | t in live && t in slots :: slots[t]
  }

  lemma {:induction false} LiveMapSame(slots: map<dword, Slot>, slots': map<dword, Slot>, live: set<dword>)
    requires live <= slots.Keys && forall a :: a in live ==> a in slots' && slots'[a] == slots[a]
    ensures LiveMap(slots', live) == LiveMap(slots, live)
  {
  }

  lemma {:induction false} LiveMapAdd(slots: map<dword, Slot>, slots': map<dword, Slot>, live: set<dword>, t: dword)
    requires live <= slots.Keys && t in slots'
    requires forall a :: a in live && a != t ==> a in slots' && slots'[a] == slots[a]
    ensures LiveMap(slots', live + {t}) == LiveMap(slots, live)[t := slots'[t]]
  {
  }

  lemma {:induction false} LiveMapDrop(slots: map<dword, Slot>, slots': map<dword, Slot>, live: set<dword>, t: dword)
    requires live <= slots.Keys && forall a :: a in live && a != t ==> a in slots' && slots'[a] == slots[a]
    ensures LiveMap(slots', live - {t}) == LiveMap(slots, live) - {t}
  {
  }

  /** The slot and the window seen through the writes of a finished attach. */
  lemma {:induction false} FinishedSlot(mem: seq<byte>, c: AttachCall)
    requires |mem| == ADDRESS_SPACE && c.slot + SLOT_SIZE <= |mem| && MoveInto(mem, c.pbTarget, c.slot).Some?
    requires c.pbTarget + SLOT_SIZE <= |mem|
    requires SIZE_OF_JMP <= MoveInto(mem, c.pbTarget, c.slot).value.cb <= CODE_SIZE - SIZE_OF_JMP
    ensures var m := MoveInto(mem, c.pbTarget, c.slot).value;
            var t, n := c.slot, m.cb;
            Blit(Blit(Blit(mem, t, m.buf), t + n, JumpBytes(t + n, c.pbTarget + n)),
                 t + n + SIZE_OF_JMP, seq(CODE_SIZE - n - SIZE_OF_JMP, _ => INT3))
            == Blit(mem, t, SlotBytes(m.buf, n, c.pbTarget, t))
  {
    hide MoveFrom, JumpBytes, Blit;
    var m := MoveInto(mem, c.pbTarget, c.slot).value;
    var t, n, jump := c.slot, m.cb, JumpBytes(c.slot + m.cb, c.pbTarget + m.cb);
    MoveTail(Blank(), Window(mem, c.pbTarget), c.slot - c.pbTarget, 0);
    var brk := seq(CODE_SIZE - n - SIZE_OF_JMP, _ => INT3);
    BlitInside(mem, t, m.buf, n, jump);
    BlitInside(mem, t, Blit(m.buf, n, jump), n + SIZE_OF_JMP, brk);
    TailBytes(m.buf, n, jump, brk);
  }

  lemma {:induction false} TailBytes(buf: seq<byte>, n: nat, jump: seq<byte>, brk: seq<byte>)
    requires |buf| == SLOT_SIZE && n <= CODE_SIZE - SIZE_OF_JMP && |jump| == SIZE_OF_JMP
    requires brk == seq(CODE_SIZE - n - SIZE_OF_JMP, _ => INT3) && buf[n..] == Blank()[n..]
    ensures Blit(Blit(buf, n, jump), n + SIZE_OF_JMP, brk)
         == buf[..n] + jump + seq(SLOT_SIZE - SIZE_OF_JMP - n, _ => INT3)
  {
    forall k | n <= k < SLOT_SIZE ensures buf[k] == INT3 {
      assert buf[k] == buf[n..][k - n] == Blank()[n..][k - n];
    }
  }

  /** Four words make up the stamp. */
  lemma {:induction false} StampWords(mem: seq<byte>, at: nat)
    requires at + 8 <= |mem|
    ensures Blit(Blit(Blit(Blit(mem, at, LE16(STAMP_WORD)), at + 2, LE16(0x6F74)), at + 4, LE16(0x7275)),
                 at + 6, LE16(0x2173))
         == Blit(mem, at, STAMP)
  {
    hide Blit, LE16;
    assert LE16(STAMP_WORD) == [68, 101] && LE16(0x6F74) == [116, 111];
    assert LE16(0x7275) == [117, 114] && LE16(0x2173) == [115, 33];
    BlitTwice(mem, at, [68, 101], [116, 111], [68, 101, 116, 111]);
    BlitTwice(mem, at, [68, 101, 116, 111], [117, 114], [68, 101, 116, 111, 117, 114]);
    BlitTwice(mem, at, [68, 101, 116, 111, 117, 114], [115, 33], STAMP);
  }

  class CDetours {
    const mem: array<byte>
    const heap: CTrampolineHeap
    var cells: map<dword, dword>
    var perms: seq<Perm>
    var suspended: map<Handle, int>
    var eips: map<Handle, dword>
    var s_fIgnoreTooSmall: bool
    var s_nPendingThreadId: ThreadId
    var s_nPendingError: Error
    var s_ppPendingError: dword
    var s_pPendingThreads: seq<Handle>
    var s_pPendingOperations: seq<Op>

    ghost predicate Valid()
      reads this, heap
    {
      heap.mem == mem && heap.Valid()
    }

    /** The trampolines handed out, with their fields. */
    ghost function Live(): (live: map<dword, Slot>)
      reads heap
    {
      LiveMap(heap.slots, heap.Live())
    }

    ghost function Model(): State
      reads this, mem, heap
    {
      State(mem[..], Live(), cells, perms, suspended, eips, s_nPendingThreadId, s_fIgnoreTooSmall, s_nPendingError,
            s_ppPendingError, s_pPendingOperations, s_pPendingThreads)
    }

    constructor (mem: array<byte>, cells: map<dword, dword>, perms: seq<Perm>, suspended: map<Handle, int>,
                 eips: map<Handle, dword>)
      requires mem.Length == ADDRESS_SPACE
      ensures Valid() && fresh(this) && fresh(heap) && this.mem == mem
      ensures Model() == State(mem[..], map[], cells, perms, suspended, eips, NOBODY, false, NoError, NULL, [], [])
    {
      this.mem := mem;
      this.heap := new CTrampolineHeap(mem);
      this.cells, this.perms, this.suspended, this.eips := cells, perms, suspended, eips;
      s_fIgnoreTooSmall, s_nPendingThreadId, s_nPendingError, s_ppPendingError := false, NOBODY, NoError, NULL;
      s_pPendingThreads, s_pPendingOperations := [], [];
    }

    /** DetourTransactionBegin, uninterrupted. */
    method TransactionBegin(me: ThreadId) returns (error: Error)
      requires Valid()
      modifies this
      ensures Valid() && (Model(), error) == Begin(old(Model()), me)
    {
      if s_nPendingThreadId != NOBODY {
        return InvalidOperation;
      }
      s_nPendingThreadId := me;
      s_fIgnoreTooSmall := false;
      s_pPendingOperations := [];
      s_pPendingThreads := [];
      s_nPendingError := NoError;
      s_ppPendingError := NULL;
      return NoError;
    }

    /** DetourUpdateThread. */
    method UpdateThread(c: UpdateCall) returns (error: Error)
      requires Valid()
      modifies this
      ensures Valid() && (Model(), error) == Transaction.UpdateThread(old(Model()), c)
    {
      if s_nPendingError != NoError {
        return s_nPendingError;
      }
      if c.isSelf {
        return NoError;
      }
      if !c.haveThread || c.suspend != NoError {
        error := if !c.haveThread then NotEnoughMemory else c.suspend;
        s_nPendingError := error;
        s_ppPendingError := NULL;
        return;
      }
      suspended := Bump(suspended, c.hThread, 1);
      s_pPendingThreads := [c.hThread] + s_pPendingThreads;
      return NoError;
    }

    /** DetourSetIgnoreTooSmall, which any thread may call at any time. */
    method SetIgnoreTooSmall(fIgnore: bool)
      requires Valid()
      modifies `s_fIgnoreTooSmall
      ensures Valid() && Model() == old(Model()).(ignoreTooSmall := fIgnore)
    {
      s_fIgnoreTooSmall := fIgnore;
    }

    /** Whether the 32 bytes at `t` reach into a region, whose headers and fields are not kept as bytes. */
    predicate InRegion(t: dword)
      requires t + SLOT_SIZE <= ADDRESS_SPACE
      reads heap
    {
      RegionOf(t) in heap.s_pRegions || RegionOf(t + SLOT_SIZE - 1) in heap.s_pRegions
    }

    /**
     * The fields Detach finds at `t`: those of a slot, or of whatever else stands there; `astray` is what it reads
     * where a region, but no slot of it, starts or ends.
     */
    ghost function FoundAt(t: dword, astray: Slot): Slot
      requires t in heap.slots || t + SLOT_SIZE <= ADDRESS_SPACE
      reads mem, heap
    {
      if t in heap.slots then heap.slots[t] else if InRegion(t) then astray else FieldsAt(mem[..], t)
    }

    /** The pointer, when it is not null, holds the address of 32 readable bytes. */
    ghost predicate DetachReady(ppPointer: dword)
      reads this, heap
    {
      ppPointer in cells && cells[ppPointer] != NULL ==>
        cells[ppPointer] in heap.slots || cells[ppPointer] + SLOT_SIZE <= ADDRESS_SPACE
    }

    /** DetourDetach, with the jumps behind pDetour resolved. */
    method Detach(me: ThreadId, ppPointer: dword, pDetour: dword, haveOp: bool, protect: Error, astray: Slot)
      returns (error: Error)
      requires Valid() && DetachReady(ppPointer)
      modifies this
      ensures Valid()
      ensures var found := if ppPointer in old(cells) && old(cells)[ppPointer] != NULL
                           then old(FoundAt(cells[ppPointer], astray)) else Slot(0, 0, 0);
              (Model(), error)
              == Transaction.Detach(old(Model()), me, DetachCall(ppPointer, pDetour, haveOp, protect, found))
    {
      hide ValidSlabs, LiveSlots, LiveMap, Protect, OldPerm, InRegion, FoundAt;
      if s_nPendingThreadId != me {
        return InvalidOperation;
      }
      if s_nPendingError != NoError {
        return s_nPendingError;
      }
      if ppPointer == NULL || ppPointer !in cells {
        return InvalidHandle;
      }
      if cells[ppPointer] == NULL {
        s_nPendingError, s_ppPendingError := InvalidHandle, ppPointer;
        return InvalidHandle;
      }
      if !haveOp {
        s_nPendingError, s_ppPendingError := NotEnoughMemory, ppPointer;
        return NotEnoughMemory;
      }
      var pTrampoline := cells[ppPointer];
      var slot := ReadFields(pTrampoline, astray);
      if slot.cbTarget == 0 || slot.cbTarget > CODE_SIZE || slot.pbDetour != pDetour {
        if !s_fIgnoreTooSmall {
          s_nPendingError := InvalidBlock;
        }
        s_ppPendingError := ppPointer;
        return InvalidBlock;
      }
      if protect != NoError {
        s_nPendingError, s_ppPendingError := protect, ppPointer;
        return protect;
      }
      var pbTarget := WrapAddr(slot.pbRemain - slot.cbTarget);
      var dwOld := OldPerm(perms, pbTarget);
      perms := Protect(perms, pbTarget, slot.cbTarget, PAGE_EXECUTE_READWRITE);
      s_pPendingOperations := [Op(true, ppPointer, pbTarget, pTrampoline, dwOld)] + s_pPendingOperations;
      return NoError;
    }

    /** Read a trampoline's fields where one is supposed to be. */
    method ReadFields(t: dword, astray: Slot) returns (slot: Slot)
      requires Valid() && (t in heap.slots || t + SLOT_SIZE <= ADDRESS_SPACE)
      ensures slot == if t in Live() then Live()[t] else FoundAt(t, astray)
    {
      hide ValidSlabs, LiveSlots;
      FieldsRead(t);
      if t in heap.slots {
        return heap.slots[t];
      }
      if InRegion(t) {
        return astray;
      }
      var bytes := mem[t..t + SLOT_SIZE];
      slot := Slot(bytes[CODE_SIZE], U32At(bytes, 24), U32At(bytes, 28));
    }

    /** Nothing but a slot is live, and the fields of a live trampoline are those of its slot. */
    lemma {:induction false} FieldsRead(t: dword)
      ensures t in Live() ==> t in heap.slots && heap.slots[t] == Live()[t]
    {
      hide LiveSlots;
      LiveInSlots(heap.Model(), heap.free);
    }

    /** The 64K blocks Attach may take a trampoline from: the regions there are, and the one it may add. */
    ghost predicate MayServe(r: dword, unused: Option<dword>)
      reads heap
    {
      r in heap.s_pRegions || unused == Some(r)
    }

    /**
     * The target is code outside the trampoline regions, whose first instructions fit a slot; `unused` is what the
     * search for unused address space would come up with.
     */
    ghost predicate AttachReady(pbTarget: dword, unused: Option<dword>)
      reads this, mem, heap
    {
      && pbTarget + SLOT_SIZE <= mem.Length
      && (unused.Some? ==> unused.value % 0x1_0000 == 0 && unused.value != NULL && unused.value !in heap.s_pRegions)
      && forall t: dword :: IsSlot(t) && MayServe(RegionOf(t), unused) ==>
           WindowsApart(pbTarget, t) && MoveInto(mem[..], pbTarget, t).Some?
    }

    /** Every function outside the regions whose instructions have at most three prefixes each can be attached to. */
    lemma {:induction false} ReadyTarget(w: World, pbTarget: dword, unused: Option<dword>)
      requires Valid() && pbTarget + SLOT_SIZE <= mem.Length && Apart(w, pbTarget, SLOT_SIZE)
      requires unused.Some? ==> unused.value % 0x1_0000 == 0 && unused.value != NULL && unused.value !in heap.s_pRegions
      requires forall r :: MayServe(r, unused) ==> r in w.arena
      requires FewPrefixes(Window(mem[..], pbTarget))
      ensures AttachReady(pbTarget, unused)
    {
      hide FewPrefixes, Apart, MoveFrom, IsSlot, RegionOf, WindowsApart;
      forall t: dword | IsSlot(t) && MayServe(RegionOf(t), unused)
        ensures WindowsApart(pbTarget, t) && MoveInto(mem[..], pbTarget, t).Some?
      {
        ApartFromSlot(w, pbTarget, t);
        MoveBound(Blank(), Window(mem[..], pbTarget), t - pbTarget, 0);
      }
    }

    /**
     * DetourAttachEx, with the jumps behind both pointers resolved.  `slot` is the trampoline it allocated, or NULL.
     */
    method AttachEx(me: ThreadId, ppPointer: dword, pbTarget: dword, pDetour: dword, haveOp: bool,
                    unused: Option<dword>, protect: Error, header: Option<dword>, headerProtect: Error)
      returns (error: Error, slot: dword)
      requires Valid() && AttachReady(pbTarget, unused)
      modifies this, mem, heap
      ensures Valid()
      ensures (Model(), error)
           == Attach(old(Model()), me, AttachCall(ppPointer, pbTarget, pDetour, haveOp, slot, protect, header,
                                                  headerProtect))
      ensures slot != NULL ==>
                IsSlot(slot) && slot !in old(heap.Live()) && LowBound(pbTarget) <= slot <= HighBound(pbTarget)
    {
      hide ValidSlabs, LiveSlots, LiveMap, MoveInto, IsSlot, AttachWithSlot, LowBound, HighBound, Blit, RegionOf;
      slot := NULL;
      if s_nPendingThreadId != me {
        return InvalidOperation, NULL;
      }
      if s_nPendingError != NoError {
        return s_nPendingError, NULL;
      }
      if ppPointer == NULL || ppPointer !in cells {
        return InvalidHandle, NULL;
      }
      if cells[ppPointer] == NULL {
        s_nPendingError, s_ppPendingError := InvalidHandle, ppPointer;
        return InvalidHandle, NULL;
      }
      if pDetour == pbTarget {
        // Both the fail and the stop exit leave the error at NO_ERROR here.
        s_ppPendingError := ppPointer;
        return NoError, NULL;
      }
      if !haveOp {
        s_nPendingError, s_ppPendingError := NotEnoughMemory, ppPointer;
        return NotEnoughMemory, NULL;
      }
      var c := AttachCall(ppPointer, pbTarget, pDetour, haveOp, NULL, protect, header, headerProtect);
      error, slot := TakeAndQueue(c, unused);
    }

    /** Attach once everything but the slot is at hand. */
    method TakeAndQueue(c: AttachCall, unused: Option<dword>) returns (error: Error, slot: dword)
      requires Valid() && AttachReady(c.pbTarget, unused)
      modifies this, mem, heap
      ensures Valid()
      ensures slot == NULL ==>
                && error == NotEnoughMemory
                && Model() == old(Model()).(error := NotEnoughMemory, errorPointer := c.ppPointer)
      ensures slot != NULL ==>
                && (Model(), error) == AttachWithSlot(old(Model()), c.(slot := slot))
                && IsSlot(slot) && slot !in old(heap.Live()) && LowBound(c.pbTarget) <= slot <= HighBound(c.pbTarget)
    {
      hide ValidSlabs, LiveSlots, LiveMap, MoveInto, IsSlot, AttachWithSlot, LowBound, HighBound, Blit, RegionOf;
      ghost var was := Model();
      slot := TakeSlot(c.pbTarget, unused);
      if slot == NULL {
        s_nPendingError, s_ppPendingError := NotEnoughMemory, c.ppPointer;
        return NotEnoughMemory, NULL;
      }
      error := MoveAndQueue(c.(slot := slot), was);
    }

    /** Allocate a slot, which comes filled with INT3. */
    method TakeSlot(pbTarget: dword, unused: Option<dword>) returns (slot: dword)
      requires Valid()
      requires unused.Some? ==> unused.value % 0x1_0000 == 0 && unused.value != NULL && unused.value !in heap.s_pRegions
      modifies mem, heap
      ensures Valid()
      ensures slot == NULL ==> mem[..] == old(mem[..]) && Live() == old(Live())
      ensures slot != NULL ==>
                && IsSlot(slot) && slot in heap.Live() && slot !in old(heap.Live()) && slot !in old(Live())
                && LowBound(pbTarget) <= slot <= HighBound(pbTarget) && slot + SLOT_SIZE <= |old(mem[..])|
                && old(MayServe(RegionOf(slot), unused))
                && mem[..] == Blit(old(mem[..]), slot, Blank()) && Live() == old(Live())[slot := FRESH]
    {
      hide ValidSlabs, LiveSlots, LiveMap, IsSlot, LowBound, HighBound, Blit, RegionOf;
      ghost var slots0, live0 := heap.slots, heap.Live();
      LiveInSlots(heap.Model(), heap.free);
      LiveNotNull(heap.Model(), heap.free);
      LiveKeys(slots0, live0);
      slot := heap.Alloc(pbTarget, unused);
      if slot == NULL {
        LiveMapSame(slots0, heap.slots, live0);
      } else {
        LiveMapAdd(slots0, heap.slots, live0, slot);
        LiveInRegions(heap.Model(), heap.free, slot);
      }
    }

    /** The rest of Attach, once the slot is allocated and filled with INT3. */
    method MoveAndQueue(c: AttachCall, ghost was: State) returns (error: Error)
      requires Valid() && c.slot in heap.Live() && c.slot !in was.live
               && c.slot + SLOT_SIZE <= |was.mem| == ADDRESS_SPACE
      requires Model() == was.(mem := Blit(was.mem, c.slot, Blank()), live := was.live[c.slot := FRESH])
      requires c.pbTarget + SLOT_SIZE <= |was.mem| && WindowsApart(c.pbTarget, c.slot)
      requires MoveInto(was.mem, c.pbTarget, c.slot).Some? && c.slot != NULL
      modifies this, mem, heap
      ensures Valid() && (Model(), error) == AttachWithSlot(was, c)
    {
      hide ValidSlabs, LiveSlots, MoveFrom, Blit, SlotBytes, Queued, LiveMap, GiveUp;
      ghost var m := MoveInto(was.mem, c.pbTarget, c.slot).value;
      BlankWindow(was.mem, c.pbTarget, c.slot);
      var cbTarget := MoveCode(mem, c.pbTarget, c.slot);
      BlitOver(was.mem, c.slot, Blank(), m.buf);
      if cbTarget < SIZE_OF_JMP {
        Fail(c, was, m.buf, InvalidBlock, !s_fIgnoreTooSmall);
        return InvalidBlock;
      }
      if cbTarget > CODE_SIZE - SIZE_OF_JMP {
        Fail(c, was, m.buf, InvalidHandle, true);
        return InvalidHandle;
      }
      FinishSlot(c, was, cbTarget);
      error := QueueAttach(c, was, SlotBytes(m.buf, cbTarget, c.pbTarget, c.slot), cbTarget);
    }

    /** Fill in the slot's fields, the jump to the rest of the function, and INT3 up to the end of rbCode. */
    method FinishSlot(c: AttachCall, ghost was: State, cbTarget: nat)
      requires Valid() && c.slot in heap.Live() && c.slot + SLOT_SIZE <= |was.mem| == ADDRESS_SPACE
      requires c.pbTarget + SLOT_SIZE <= |was.mem| && MoveInto(was.mem, c.pbTarget, c.slot).Some?
      requires MoveInto(was.mem, c.pbTarget, c.slot).value.cb == cbTarget
      requires SIZE_OF_JMP <= cbTarget <= CODE_SIZE - SIZE_OF_JMP
      requires mem[..] == Blit(was.mem, c.slot, MoveInto(was.mem, c.pbTarget, c.slot).value.buf)
      modifies mem, heap
      ensures Valid() && heap.Live() == old(heap.Live())
      ensures Live() == old(Live())[c.slot := Slot(cbTarget, WrapAddr(c.pbTarget + cbTarget), c.pDetour)]
      ensures mem[..] == Blit(was.mem, c.slot,
                              SlotBytes(MoveInto(was.mem, c.pbTarget, c.slot).value.buf, cbTarget, c.pbTarget, c.slot))
    {
      hide ValidSlabs, LiveSlots, MoveInto, Blit, JumpBytes, LiveMap, SlotBytes;
      ghost var slots0, live0 := heap.slots, heap.Live();
      LiveInSlots(heap.Model(), heap.free);
      var pbRemain: dword := c.pbTarget + cbTarget;
      heap.Fill(c.slot, Slot(cbTarget, pbRemain, c.pDetour));
      LiveMapSet(slots0, heap.slots, live0, c.slot);
      var pbSrc := GenJmpImmediate(mem, c.slot + cbTarget, pbRemain);
      pbSrc := GenBrk(mem, pbSrc, c.slot + CODE_SIZE);
      FinishedSlot(was.mem, c);
    }

    /** Make the target's page writable, mark the image's header and queue the operation. */
    method QueueAttach(c: AttachCall, ghost was: State, ghost bytes: seq<byte>, cbTarget: byte) returns (error: Error)
      requires Valid() && c.slot in heap.Live() && c.slot !in was.live && c.slot + SLOT_SIZE <= |was.mem|
      requires |bytes| == SLOT_SIZE && c.slot != NULL
      requires Model() == was.(mem := Blit(was.mem, c.slot, bytes),
                               live := was.live[c.slot := Slot(cbTarget, WrapAddr(c.pbTarget + cbTarget), c.pDetour)])
      modifies this, mem, heap
      ensures Valid() && (Model(), error) == Queued(was, c, cbTarget, bytes)
    {
      hide ValidSlabs, LiveSlots, Blit, Protect, OldPerm, LiveMap, WrapAddr, GiveUp, ToMark, Stamped;
      if c.protect != NoError {
        Fail(c, was, bytes, c.protect, true);
        return c.protect;
      }
      var dwOld := OldPerm(perms, c.pbTarget);
      perms := Protect(perms, c.pbTarget, cbTarget, PAGE_EXECUTE_READWRITE);
      var mark := NeedsMark(c);
      if mark && c.headerProtect != NoError {
        Fail(c, was.(perms := perms), bytes, c.headerProtect, true);
        return c.headerProtect;
      }
      if mark {
        perms := Protect(perms, c.header.value, DOS_HEADER_SIZE, PAGE_EXECUTE_READWRITE);
        MarkHeader(c.header.value);
      }
      s_pPendingOperations := [Op(false, c.ppPointer, c.pbTarget, c.slot, dwOld)] + s_pPendingOperations;
      return NoError;
    }

    /** Whether a header was found that is not marked yet. */
    method NeedsMark(c: AttachCall) returns (mark: bool)
      ensures mark == ToMark(mem[..], c).Some? && (mark ==> c.header == ToMark(mem[..], c))
    {
      mark := false;
      if c.header.Some? && c.header.value + DOS_HEADER_SIZE <= mem.Length {
        var low: int, high: int := mem[c.header.value + E_RES], mem[c.header.value + E_RES + 1];
        mark := low + 0x100 * high != STAMP_WORD;
      }
    }

    /** Write "Detours!" into e_res, a word at a time. */
    method MarkHeader(h: dword)
      requires h + DOS_HEADER_SIZE <= mem.Length
      modifies mem
      ensures mem[..] == Stamped(old(mem[..]), h)
    {
      ghost var was := mem[..];
      var k := h + E_RES;
      StoreWord(k, STAMP_WORD);
      StoreWord(k + 2, 0x6F74);
      StoreWord(k + 4, 0x7275);
      StoreWord(k + 6, 0x2173);
      StampWords(was, k);
    }

    method StoreWord(at: nat, w: word)
      requires at + 2 <= mem.Length
      modifies mem
      ensures mem[..] == Blit(old(mem[..]), at, LE16(w))
    {
      mem[at], mem[at + 1] := w % 0x100, w / 0x100;
    }

    /** The fail and stop exits of Attach: free the slot, and record the error unless it is to be ignored. */
    method Fail(c: AttachCall, ghost was: State, ghost buf: seq<byte>, error: Error, record: bool)
      requires Valid() && c.slot in heap.Live() && c.slot !in was.live && c.slot + SLOT_SIZE <= |was.mem|
      requires |buf| == SLOT_SIZE && c.slot != NULL && Live() - {c.slot} == was.live
      requires Model() == was.(mem := Blit(was.mem, c.slot, buf), live := Live())
      modifies this, mem, heap
      ensures Valid() && (Model(), error) == GiveUp(was, c, error, record)
    {
      hide ValidSlabs, LiveSlots, Blit, LiveMap, Zeroed;
      GiveSlotBack(c, was, buf);
      if record {
        s_nPendingError := error;
      }
      s_ppPendingError := c.ppPointer;
    }

    /** Free the slot of an attach that failed. */
    method GiveSlotBack(c: AttachCall, ghost was: State, ghost buf: seq<byte>)
      requires Valid() && c.slot in heap.Live() && c.slot !in was.live && c.slot + SLOT_SIZE <= |was.mem|
      requires |buf| == SLOT_SIZE && mem[..] == Blit(was.mem, c.slot, buf) && Live() - {c.slot} == was.live
      modifies mem, heap
      ensures Valid() && mem[..] == Zeroed(was.mem, c.slot) && Live() == was.live
    {
      hide ValidSlabs, LiveSlots, Blit, LiveMap;
      LiveInSlots(heap.Model(), heap.free);
      ghost var slots0, live0 := heap.slots, heap.Live();
      heap.Free(c.slot);
      LiveMapDrop(slots0, heap.slots, live0, c.slot);
      BlitOver(was.mem, c.slot, buf, seq(SLOT_SIZE, _ => 0));
    }

    // ---------------------------------------------------------- commit and abort

    /** Insert or remove one detour. */
    method CommitOne(o: Op)
      requires Valid() && OpReady(Model(), o)
      modifies this, mem
      ensures Valid() && Model() == CommitOp(old(Model()), o)
    {
      hide ValidSlabs, LiveSlots, MoveBack, Blit, JumpBytes, LiveMap;
      FieldsRead(o.pTrampoline);
      var slot := heap.slots[o.pTrampoline];
      if o.isRemove {
        var cbCopy := MoveCodeBack(mem, o, slot.cbTarget);
        if cbCopy != slot.cbTarget {
          s_nPendingError, s_ppPendingError := InvalidData, o.ppbPointer;
        }
        cells := cells[o.ppbPointer := o.pbTarget];
      } else {
        ghost var was := mem[..];
        var pbCode := GenJmpImmediate(mem, o.pbTarget, slot.pbDetour);
        pbCode := GenBrk(mem, pbCode, slot.pbRemain);
        BlitTwice(was, o.pbTarget, JumpBytes(o.pbTarget, slot.pbDetour),
                  seq(slot.pbRemain - o.pbTarget - SIZE_OF_JMP, _ => INT3), PatchBytes(o.pbTarget, slot));
        cells := cells[o.ppbPointer := o.pTrampoline];
      }
    }

    /** Move one suspended thread along with the code it stands in. */
    method FixOne(eip: dword) returns (fixed: dword)
      requires Valid() && forall o :: o in s_pPendingOperations ==> o.pTrampoline in Live()
      ensures fixed == FixEips(eip, Live(), s_pPendingOperations)
    {
      hide ValidSlabs, LiveSlots, LiveMap;
      fixed := eip;
      var n := 0;
      while n < |s_pPendingOperations|
        invariant n <= |s_pPendingOperations|
        invariant FixEips(fixed, Live(), s_pPendingOperations[n..]) == FixEips(eip, Live(), s_pPendingOperations)
      {
        var o := s_pPendingOperations[n];
        FieldsRead(o.pTrampoline);
        if o.isRemove {
          if o.pTrampoline <= fixed < o.pTrampoline + 4 {
            fixed := WrapAddr(fixed - o.pTrampoline + o.pbTarget);
          }
        } else {
          if o.pbTarget <= fixed < o.pbTarget + heap.slots[o.pTrampoline].cbTarget {
            fixed := WrapAddr(fixed - o.pbTarget + o.pTrampoline);
          }
        }
        n := n + 1;
      }
    }

    /** The loop that inserts or removes each of the detours. */
    method InsertOrRemove()
      requires Valid() && CommitReady(Model(), s_pPendingOperations)
      modifies this, mem
      ensures Valid() && Model() == CommitOps(old(Model()), old(s_pPendingOperations))
    {
      hide ValidSlabs, LiveSlots, Live, CommitOp, OpReady;
      ghost var was := Model();
      var ops, n := s_pPendingOperations, 0;
      while n < |ops|
        invariant n <= |ops| && Valid() && CommitReady(Model(), ops[n..])
        invariant CommitOps(Model(), ops[n..]) == CommitOps(was, ops)
      {
        CommitOne(ops[n]);
        assert ops[n..][1..] == ops[n + 1..];
        n := n + 1;
      }
    }

    /** The loop over the suspended threads. */
    method UpdateThreads(readable: set<Handle>)
      requires Valid() && Releasable(Live().Keys, s_pPendingOperations)
      modifies `eips
      ensures Valid() && Model() == old(Model()).(eips := FixThreads(old(eips), Live(), s_pPendingOperations,
                                                                     s_pPendingThreads, readable))
    {
      hide ValidSlabs, LiveSlots, Live, FixEips;
      ghost var was := eips;
      var n := 0;
      while n < |s_pPendingThreads|
        invariant n <= |s_pPendingThreads| && Valid()
        invariant FixThreads(eips, Live(), s_pPendingOperations, s_pPendingThreads[n..], readable)
               == FixThreads(was, Live(), s_pPendingOperations, s_pPendingThreads, readable)
      {
        var h := s_pPendingThreads[n];
        if h in readable && h in eips {
          var eip := FixOne(eips[h]);
          eips := eips[h := eip];
        }
        assert s_pPendingThreads[n..][1..] == s_pPendingThreads[n + 1..];
        n := n + 1;
      }
    }

    /** Restore one page protection and free the trampoline that is no longer needed. */
    method ReleaseOne(o: Op, aborting: bool)
      requires Valid() && o.pTrampoline in Live()
      modifies this, mem, heap
      ensures Valid() && Model() == ReleaseOp(old(Model()), o, aborting)
    {
      hide ValidSlabs, LiveSlots, Protect, LiveMap, Blit;
      LiveInSlots(heap.Model(), heap.free);
      LiveKeys(heap.slots, heap.Live());
      perms := Protect(perms, o.pbTarget, heap.slots[o.pTrampoline].cbTarget, o.dwPerm);
      if o.isRemove != aborting {
        ghost var slots0, live0 := heap.slots, heap.Live();
        heap.Free(o.pTrampoline);
        LiveMapDrop(slots0, heap.slots, live0, o.pTrampoline);
      }
    }

    /** The loop both Commit and Abort end with, over the pending operations. */
    method ReleaseAll(aborting: bool)
      requires Valid() && Releasable(Live().Keys, s_pPendingOperations)
      modifies this, mem, heap
      ensures Valid() && Model() == ReleaseOps(old(Model()), old(s_pPendingOperations), aborting).(ops := [])
    {
      hide ValidSlabs, LiveSlots, Live, ReleaseOp;
      ghost var was := Model();
      var ops, n := s_pPendingOperations, 0;
      while n < |ops|
        invariant n <= |ops| && Valid() && Releasable(Live().Keys, ops[n..])
        invariant ReleaseOps(Model(), ops[n..], aborting) == ReleaseOps(was, ops, aborting)
      {
        ghost var before := Model();
        ReleasableStep(before, ops[n..], aborting);
        ReleaseOne(ops[n], aborting);
        assert ops[n..][1..] == ops[n + 1..];
        n := n + 1;
      }
      s_pPendingOperations := [];
    }

    /** Resume the suspended threads and let the transaction go. */
    method ResumeAll()
      requires Valid()
      modifies this
      ensures Valid() && Model() == old(Finish(Model())).(ops := old(s_pPendingOperations))
    {
      ghost var was := suspended;
      var n := 0;
      while n < |s_pPendingThreads|
        invariant n <= |s_pPendingThreads|
        invariant Resume(suspended, s_pPendingThreads[n..]) == Resume(was, s_pPendingThreads)
        invariant Valid() && Model() == old(Model()).(suspended := suspended)
      {
        suspended := Bump(suspended, s_pPendingThreads[n], -1);
        n := n + 1;
      }
      s_pPendingThreads := [];
      s_nPendingThreadId := NOBODY;
    }

    /** DetourTransactionAbort. */
    method TransactionAbort(me: ThreadId) returns (error: Error)
      requires Valid() && Releasable(Live().Keys, s_pPendingOperations)
      modifies this, mem, heap
      ensures Valid() && (Model(), error) == Abort(old(Model()), me)
    {
      hide ValidSlabs, LiveSlots, Live, Resume;
      if s_nPendingThreadId != me {
        return InvalidOperation;
      }
      ReleaseAll(true);
      ResumeAll();
      return NoError;
    }

    /** What a commit without a recorded error does. */
    method CommitAll(readable: set<Handle>)
      requires Valid() && Releasable(Live().Keys, s_pPendingOperations) && CommitReady(Model(), s_pPendingOperations)
      modifies this, mem, heap
      ensures Valid() && Model() == Committed(old(Model()), readable)
    {
      hide ValidSlabs, LiveSlots, Live, Resume, ReleaseOps, CommitOps, FixThreads, Releasable, CommitReady;
      CommitOpsSame(Model(), s_pPendingOperations);
      InsertOrRemove();
      UpdateThreads(readable);
      ReleaseAll(false);
      ResumeAll();
    }

    /** DetourTransactionCommitEx, nobody beginning a transaction between the release and the return. */
    method TransactionCommitEx(me: ThreadId, readable: set<Handle>) returns (error: Error, pFailedPointer: dword)
      requires Valid() && Releasable(Live().Keys, s_pPendingOperations) && CommitReady(Model(), s_pPendingOperations)
      modifies this, mem, heap
      ensures Valid() && (Model(), error) == Commit(old(Model()), me, readable)
              && pFailedPointer == Model().errorPointer
    {
      hide ValidSlabs, LiveSlots, Live, Aborted, Committed, CommitReady, Releasable;
      pFailedPointer := s_ppPendingError;
      if s_nPendingThreadId != me {
        return InvalidOperation, pFailedPointer;
      }
      if s_nPendingError != NoError {
        AbortError(Model());
        var _ := TransactionAbort(me);
        return s_nPendingError, pFailedPointer;
      }
      CommitAll(readable);
      pFailedPointer := s_ppPendingError;
      return s_nPendingError, pFailedPointer;
    }

    // ----------------------------------------------------------------- conservation

    /**
     * No slot is lost or handed out twice: at every moment of a run, following the links of a region's free list
     * ends, and comes past each of the region's slots exactly once if the slot is neither the trampoline of a
     * committed hook nor that of a pending attach, and not at all if it is.
     */
    lemma {:induction false} SlotsConserved(w: World, done: set<dword>, hooked: set<dword>, a: dword)
      requires Valid() && Good(w, Model(), done, hooked) && IsSlot(a) && RegionOf(a) in heap.s_pRegions
      ensures RegionOf(a) in heap.pFree
      ensures exists list: seq<dword> :: Chain(heap.slots, heap.pFree[RegionOf(a)], list)
      ensures forall list: seq<dword> :: Chain(heap.slots, heap.pFree[RegionOf(a)], list) ==>
                multiset(list)[a] == if a in done || a in OpTramps(s_pPendingOperations, false) then 0 else 1
    {
      hide ValidSlabs, LiveSlots, IsSlot, RegionOf, Inv, OpTramps, Chain, LiveMap;
      LiveInSlots(heap.Model(), heap.free);
      LiveKeys(heap.slots, heap.Live());
      RegionChained(heap.Model(), heap.free, RegionOf(a));
      forall list: seq<dword> | Chain(heap.slots, heap.pFree[RegionOf(a)], list)
        ensures multiset(list)[a] == if a in done || a in OpTramps(s_pPendingOperations, false) then 0 else 1
      {
        ListedOnce(heap.Model(), heap.free, a, list);
      }
    }
  }

  /** Every pending operation holds a trampoline of its own. */
  ghost predicate Releasable(live: set<dword>, ops: seq<Op>) {
    DistinctTramps(ops) && forall o :: o in ops ==> o.pTrampoline in live
  }

  lemma {:induction false} ReleasableStep(s: State, ops: seq<Op>, aborting: bool)
    requires Releasable(s.live.Keys, ops) && ops != []
    ensures Releasable(ReleaseOp(s, ops[0], aborting).live.Keys, ops[1..])
  {
    hide Protect;
  }

  lemma {:induction false} ReleaseError(s: State, ops: seq<Op>, aborting: bool)
    ensures var s' := ReleaseOps(s, ops, aborting);
            s'.error == s.error && s'.errorPointer == s.errorPointer && s'.suspended == s.suspended
            && s'.threads == s.threads
    decreases |ops|
  {
    if ops != [] {
      ReleaseError(ReleaseOp(s, ops[0], aborting), ops[1..], aborting);
    }
  }

  lemma {:induction false} AbortError(s: State)
    ensures Aborted(s).error == s.error && Aborted(s).errorPointer == s.errorPointer
  {
    ReleaseError(s, s.ops, true);
  }

  lemma {:induction false} InvReleasable(w: World, s: State, done: set<dword>, hooked: set<dword>, ops: seq<Op>)
    requires Inv(w, s, done, hooked, ops)
    ensures Releasable(s.live.Keys, ops)
  {
    hide CodeOk, CellsOk, TargetOf;
  }

  /** In every state a run of calls can reach, Commit and Abort may be called on the engine. */
  lemma {:induction false} GoodReady(w: World, s: State, done: set<dword>, hooked: set<dword>)
    requires Good(w, s, done, hooked)
    ensures Releasable(s.live.Keys, s.ops) && CommitReady(s, s.ops)
  {
    hide Inv, CommitReady, Releasable;
    InvReleasable(w, s, done, hooked, s.ops);
    InvReady(w, s, done, hooked, s.ops);
  }

  lemma {:induction false} LiveNotNull(s: Slabs, free: map<dword, seq<dword>>)
    requires ValidSlabs(s, free)
    ensures NULL !in LiveSlots(s, free)
  {
  }

  lemma {:induction false} LiveKeys(slots: map<dword, Slot>, live: set<dword>)
    requires live <= slots.Keys
    ensures LiveMap(slots, live).Keys == live && forall t :: t in live ==> LiveMap(slots, live)[t] == slots[t]
  {
  }

  lemma {:induction false} LiveMapSet(slots: map<dword, Slot>, slots': map<dword, Slot>, live: set<dword>, t: dword)
    requires live <= slots.Keys && t in live && t in slots' && slots' == slots[t := slots'[t]]
    ensures LiveMap(slots', live) == LiveMap(slots, live)[t := slots'[t]]
  {
  }

  lemma {:induction false} LiveInSlots(s: Slabs, free: map<dword, seq<dword>>)
    ensures LiveSlots(s, free) <= s.slots.Keys
  {
  }

  lemma {:induction false} BlitOver(mem: seq<byte>, t: nat, a: seq<byte>, b: seq<byte>)
    requires |a| == |b| && t + |a| <= |mem|
    ensures Blit(Blit(mem, t, a), t, b) == Blit(mem, t, b)
  {
  }

  lemma {:induction false} BlankWindow(mem: seq<byte>, pbTarget: dword, t: dword)
    requires t + SLOT_SIZE <= |mem| && pbTarget + SLOT_SIZE <= |mem| && WindowsApart(pbTarget, t)
    ensures var mem' := Blit(mem, t, Blank());
            Window(mem', t) == Blank() && Window(mem', pbTarget) == Window(mem, pbTarget)
  {
    BlitReads(mem, t, Blank());
    BlitFrame(mem, t, Blank(), pbTarget, pbTarget + SLOT_SIZE);
  }
}
