/** The mark that Attach leaves in the header of a module it hooks: who writes it, and that nothing else does. */
module Stamps {
  import opened Bytes
  import opened Relocation
  import opened TrampolineHeap
  import opened Transaction
  import opened Restoration
  import opened Protection

  /** Whether a call marks the header at `h`. */
  ghost predicate MarksHeader(s: State, call: Call, h: dword) {
    && call.CallAttach? && Unlocks(s, call.me, call.attach) && Marking(s, call.attach) == Some(h)
    && !FailsOnHeader(s, call.attach)
  }

  // -------------------------------------------------------------------- attach

  /** Writing a slot misses every stamp. */
  lemma {:induction false} SlotMissesStamp(w: World, mem: seq<byte>, t: dword, bs: seq<byte>, h: dword)
    requires |mem| == ADDRESS_SPACE && IsSlot(t) && RegionOf(t) in w.arena && |bs| == SLOT_SIZE
    requires h % 0x1_0000 == 0 && h !in w.arena
    ensures h + DOS_HEADER_SIZE <= |mem| && StampAt(SlotWritten(mem, t, bs), h) == StampAt(mem, h)
    ensures t + SLOT_SIZE <= |mem| && StampAt(Blit(mem, t, bs), h) == StampAt(mem, h)
  {
    hide IsSlot, RegionOf;
    HeaderFits(h);
    SlotInArena(w, t);
    forall i | 0 <= i < |mem| && InStamp(h, i) ensures Blit(mem, t, bs)[i] == mem[i] {
      StampApart(w, h, i);
    }
    SameStamp(mem, Blit(mem, t, bs), h);
  }

  /** A marked header is not marked again. */
  lemma {:induction false} MarkedIsMarked(mem: seq<byte>, h: dword)
    requires HasStamp(mem, h)
    ensures !Unmarked(mem, h)
  {
    assert mem[h + E_RES] == StampAt(mem, h)[0] && mem[h + E_RES + 1] == StampAt(mem, h)[1];
  }

  /** What Attach leaves in memory. */
  lemma {:induction false} AttachMemory(s: State, me: ThreadId, c: AttachCall)
    ensures var s' := Attach(s, me, c).0;
            if !Unlocks(s, me, c) || FailsOnHeader(s, c)
            then
              || s'.mem == s.mem
              || (s.owner == me && s.error == NoError && c.slot != NULL && s'.mem == Zeroed(s.mem, c.slot))
            else
              var m := MoveInto(s.mem, c.pbTarget, c.slot).value;
              var mem := SlotWritten(s.mem, c.slot, SlotBytes(m.buf, m.cb, c.pbTarget, c.slot));
              s'.mem == if Marking(s, c).Some? then Stamped(mem, Marking(s, c).value) else mem
  {
    hide MoveInto, Protect, OldPerm, SlotBytes, Stamped, SlotWritten, Zeroed, Unmarked;
  }

  lemma {:induction false} AttachStamps(w: World, s: State, done: set<dword>, hooked: set<dword>, me: ThreadId,
                                        c: AttachCall, h: dword)
    requires Good(w, s, done, hooked) && h in w.headers
    requires s.owner == me && s.error == NoError ==> AttachOk(w, s, c)
    ensures var s' := Attach(s, me, c).0;
            && h + DOS_HEADER_SIZE <= |s.mem| == |s'.mem|
            && StampAt(s'.mem, h) == (if MarksHeader(s, CallAttach(me, c), h) then STAMP else StampAt(s.mem, h))
            && (MarksHeader(s, CallAttach(me, c), h) ==> !HasStamp(s.mem, h))
  {
    hide AttachOk, Attach, MoveInto, SlotBytes, Stamped, IsSlot, RegionOf, StampAt, InArena, Unmarked, SlotWritten,
         CodeOk, CellsOk, OpsOk, OpTramps;
    HeaderFacts(w, s.mem, s.live, done, h);
    AttachMemory(s, me, c);
    var s' := Attach(s, me, c).0;
    if s.owner == me && s.error == NoError {
      AttachFacts(w, s, c);
      if c.slot != NULL {
        SlotMissesStamp(w, s.mem, c.slot, seq(SLOT_SIZE, _ => 0), h);
        if Unlocks(s, me, c) && !FailsOnHeader(s, c) {
          QueuedStamps(w, s, done, c, h);
        }
      }
    }
  }

  lemma {:induction false} HeaderFacts(w: World, mem: seq<byte>, live: map<dword, Slot>, done: set<dword>, h: dword)
    requires CodeOk(w, mem, live, done) && h in w.headers
    ensures |mem| == ADDRESS_SPACE && h % 0x1_0000 == 0 && h !in w.arena && h + DOS_HEADER_SIZE <= |mem|
  {
    hide HookOk, StampOk;
    HeaderFits(h);
  }

  lemma {:induction false} QueuedStamps(w: World, s: State, done: set<dword>, c: AttachCall, h: dword)
    requires CodeOk(w, s.mem, s.live, done) && h in w.headers && (c.header.Some? ==> c.header.value in w.headers)
    requires IsSlot(c.slot) && RegionOf(c.slot) in w.arena && MoveInto(s.mem, c.pbTarget, c.slot).Some?
    requires MovedBytes(s, c) <= CODE_SIZE - SIZE_OF_JMP
    ensures var m := MoveInto(s.mem, c.pbTarget, c.slot).value;
            var mem := SlotWritten(s.mem, c.slot, SlotBytes(m.buf, m.cb, c.pbTarget, c.slot));
            && h + DOS_HEADER_SIZE <= |s.mem| == |mem| && StampAt(mem, h) == StampAt(s.mem, h)
            && (Marking(s, c) == Some(h) ==> !HasStamp(s.mem, h))
            && (Marking(s, c).Some? ==>
                  StampAt(Stamped(mem, Marking(s, c).value), h)
                  == (if Marking(s, c) == Some(h) then STAMP else StampAt(mem, h)))
  {
    hide CodeOk, MoveInto, SlotBytes, Stamped, IsSlot, RegionOf, InArena, Unmarked;
    HeaderFacts(w, s.mem, s.live, done, h);
    var m := MoveInto(s.mem, c.pbTarget, c.slot).value;
    var bytes := SlotBytes(m.buf, m.cb, c.pbTarget, c.slot);
    var mem := SlotWritten(s.mem, c.slot, bytes);
    SlotMissesStamp(w, s.mem, c.slot, bytes, h);
    if Marking(s, c).Some? {
      HeaderFacts(w, s.mem, s.live, done, Marking(s, c).value);
      StampMissesOthers(mem, Marking(s, c).value, h);
    }
    if HasStamp(s.mem, h) {
      MarkedIsMarked(mem, h);
    }
  }

  // -------------------------------------------------------------------- commit

  /** Committing an operation writes within a slot's length of its target. */
  lemma {:induction false} CommitOpWrites(s: State, o: Op, i: nat)
    requires i < |s.mem| && o.pTrampoline in s.live && s.live[o.pTrampoline].cbTarget <= SLOT_SIZE
    requires !(o.pbTarget <= i < o.pbTarget + SLOT_SIZE)
    ensures |CommitOp(s, o).mem| == |s.mem| && CommitOp(s, o).mem[i] == s.mem[i] && CommitOp(s, o).live == s.live
  {
    hide MoveBack;
    MoveBackLength(s.mem, o, s.live[o.pTrampoline].cbTarget);
  }

  lemma {:induction false} MoveBackLength(mem: seq<byte>, o: Op, cb: nat)
    ensures MoveBack(mem, o, cb).Some? && o.pbTarget + SLOT_SIZE <= |mem|
            ==> |MoveBack(mem, o, cb).value.buf| == SLOT_SIZE
  {
    hide UnmoveFrom;
  }

  lemma {:induction false} CommitOpsWrite(s: State, ops: seq<Op>, i: nat)
    requires i < |s.mem|
    requires forall o :: o in ops ==>
               o.pTrampoline in s.live && s.live[o.pTrampoline].cbTarget <= SLOT_SIZE
               && !(o.pbTarget <= i < o.pbTarget + SLOT_SIZE)
    ensures |CommitOps(s, ops).mem| == |s.mem| && CommitOps(s, ops).mem[i] == s.mem[i]
    decreases |ops|
  {
    hide CommitOp;
    if ops != [] {
      CommitOpWrites(s, ops[0], i);
      assert forall o :: o in ops[1..] ==> o in ops;
      CommitOpsWrite(CommitOp(s, ops[0]), ops[1..], i);
    }
  }

  lemma {:induction false} OpsMissStamps(w: World, s: State, done: set<dword>, hooked: set<dword>, h: dword, i: nat)
    requires Inv(w, s, done, hooked, s.ops) && h in w.headers && InStamp(h, i)
    ensures forall o :: o in s.ops ==>
              o.pTrampoline in s.live && s.live[o.pTrampoline].cbTarget <= SLOT_SIZE
              && !(o.pbTarget <= i < o.pbTarget + SLOT_SIZE)
  {
    hide HookOk, TargetOf, Covers, CellsOk, HeadersOk, InArena;
    forall o | o in s.ops
      ensures o.pTrampoline in s.live && s.live[o.pTrampoline].cbTarget <= SLOT_SIZE
              && !(o.pbTarget <= i < o.pbTarget + SLOT_SIZE)
    {
      HookFacts(w, s.mem, o.pTrampoline, s.live[o.pTrampoline], o.pTrampoline in done);
      assert o.pbTarget <= i < o.pbTarget + SLOT_SIZE ==> Outside(w, i);
    }
  }

  lemma {:induction false} EndStamps(w: World, s: State, done: set<dword>, hooked: set<dword>, readable: set<Handle>,
                                     h: dword)
    requires Good(w, s, done, hooked) && h in w.headers
    ensures h + DOS_HEADER_SIZE <= |s.mem|
    ensures |Committed(s, readable).mem| == |s.mem| && StampAt(Committed(s, readable).mem, h) == StampAt(s.mem, h)
    ensures |Aborted(s).mem| == |s.mem| && StampAt(Aborted(s).mem, h) == StampAt(s.mem, h)
  {
    hide CodeOk, CellsOk, OpsOk, CommitOps, ReleaseOps, FixThreads, Resume, OpTramps, StampAt, InArena;
    HeaderFacts(w, s.mem, s.live, done, h);
    OpSlots(w, s, done, hooked);
    forall i | 0 <= i < |s.mem| && InStamp(h, i)
      ensures |Committed(s, readable).mem| == |s.mem| && Committed(s, readable).mem[i] == s.mem[i]
      ensures |Aborted(s).mem| == |s.mem| && Aborted(s).mem[i] == s.mem[i]
    {
      EndByte(w, s, done, hooked, readable, h, i);
    }
    assert InStamp(h, h + E_RES);
    SameStamp(s.mem, Committed(s, readable).mem, h);
    SameStamp(s.mem, Aborted(s).mem, h);
  }

  lemma {:induction false} EndByte(w: World, s: State, done: set<dword>, hooked: set<dword>, readable: set<Handle>,
                                   h: dword, i: nat)
    requires Good(w, s, done, hooked) && h in w.headers && InStamp(h, i) && i < |s.mem|
    ensures |Committed(s, readable).mem| == |s.mem| && Committed(s, readable).mem[i] == s.mem[i]
    ensures |Aborted(s).mem| == |s.mem| && Aborted(s).mem[i] == s.mem[i]
  {
    hide CodeOk, CellsOk, OpsOk, CommitOps, ReleaseOps, FixThreads, Resume, OpTramps, InArena, IsSlot, RegionOf;
    HeaderFacts(w, s.mem, s.live, done, h);
    StampApart(w, h, i);
    OpSlots(w, s, done, hooked);
    OpsMissStamps(w, s, done, hooked, h, i);
    CommitOpsWrite(s, s.ops, i);
    var s1 := CommitOps(s, s.ops);
    CommitOpsSame(s, s.ops);
    var s2 := s1.(eips := FixThreads(s1.eips, s1.live, s.ops, s.threads, readable));
    ReleaseOutside(w, s2, s.ops, false);
    ReleaseOutside(w, s, s.ops, true);
  }

  // ---------------------------------------------------------------------- runs

  /** A call writes the stamp of a module if it marks it, and its module was not marked, and leaves it alone if not. */
  lemma {:induction false} ApplyStamps(w: World, s: State, done: set<dword>, hooked: set<dword>, call: Call, h: dword)
    requires Good(w, s, done, hooked) && CallOk(w, s, call) && h in w.headers
    ensures var s' := Apply(s, call);
            && h + DOS_HEADER_SIZE <= |s.mem| == |s'.mem|
            && StampAt(s'.mem, h) == (if MarksHeader(s, call, h) then STAMP else StampAt(s.mem, h))
            && (MarksHeader(s, call, h) ==> !HasStamp(s.mem, h))
  {
    hide Inv, AttachOk, DetachOk, Attach, Detach, Committed, Aborted, OpTramps, Unlocks, FailsOnHeader, Marking,
         StampAt, HasStamp;
    InvHeader(w, s, done, hooked, h);
    match call {
      case CallBegin(me) =>
      case CallUpdateThread(c) =>
      case CallAttach(me, c) => AttachStamps(w, s, done, hooked, me, c, h);
      case CallDetach(me, c) => DetachMemory(s, me, c);
      case CallCommit(me, readable) => EndStamps(w, s, done, hooked, readable, h);
      case CallAbort(me) => EndStamps(w, s, done, hooked, {}, h);
      case CallIgnoreTooSmall(fIgnore) =>
    }
  }

  lemma {:induction false} InvHeader(w: World, s: State, done: set<dword>, hooked: set<dword>, h: dword)
    requires Good(w, s, done, hooked) && h in w.headers
    ensures h + DOS_HEADER_SIZE <= |s.mem|
  {
    hide CodeOk, CellsOk, OpsOk, OpTramps;
    HeaderFacts(w, s.mem, s.live, done, h);
  }

  lemma {:induction false} DetachMemory(s: State, me: ThreadId, c: DetachCall)
    ensures Detach(s, me, c).0.mem == s.mem
  {
    hide Protect, OldPerm, TargetOf, LooksHooked;
  }

  /** How often a run marks a module. */
  ghost function TimesMarked(s: State, calls: seq<Call>, h: dword): nat
    decreases |calls|
  {
    if calls == [] then 0
    else (if MarksHeader(s, calls[0], h) then 1 else 0) + TimesMarked(Apply(s, calls[0]), calls[1..], h)
  }

  /**
   * Over any run a module is marked at most once, however many of its functions are attached, detached or given up
   * again; its stamp reads "Detours!" if it did before or was marked, for good, and is untouched otherwise.
   */
  lemma {:induction false} StampedOnce(w: World, s: State, done: set<dword>, hooked: set<dword>, calls: seq<Call>,
                                       h: dword)
    requires Good(w, s, done, hooked) && RunOk(w, s, calls) && h in w.headers
    ensures var s' := Run(s, calls);
            && h + DOS_HEADER_SIZE <= |s.mem| == |s'.mem|
            && TimesMarked(s, calls, h) <= (if HasStamp(s.mem, h) then 0 else 1)
            && StampAt(s'.mem, h) == if TimesMarked(s, calls, h) == 1 then STAMP else StampAt(s.mem, h)
    decreases |calls|
  {
    hide Inv, CallOk, Apply, DoneNext, HookedNext, OpTramps, MarksHeader;
    InvHeader(w, s, done, hooked, h);
    if calls != [] {
      var call := calls[0];
      ApplyStamps(w, s, done, hooked, call, h);
      ApplyKeeps(w, s, done, hooked, call);
      StampedOnce(w, Apply(s, call), DoneNext(s, done, call), HookedNext(s, hooked, call), calls[1..], h);
    }
  }
}
