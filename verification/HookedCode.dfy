/** A committed hook sends every caller of the function to the detour that was attached to it. */
module HookedCode {
  import opened Bytes
  import opened Disasm
  import opened Relocation
  import opened TrampolineRun
  import opened TrampolineHeap
  import opened Transaction
  import opened Restoration

  /** The call that queued each trampoline, kept along a run. */
  function AttachedBy(s: State, calls: seq<Call>, from: map<dword, AttachCall>): map<dword, AttachCall>
    decreases |calls|
  {
    if calls == [] then from else AttachedBy(Apply(s, calls[0]), calls[1..], AttachedNext(s, calls[0], from))
  }

  function AttachedNext(s: State, call: Call, from: map<dword, AttachCall>): map<dword, AttachCall> {
    if call.CallAttach? && |Apply(s, call).ops| > |s.ops| then from[call.attach.slot := call.attach] else from
  }

  /** Trampolines, pending attaches and hooked pointers are those of the calls that queued them. */
  ghost predicate Linked(s: State, done: set<dword>, from: map<dword, AttachCall>) {
    && (forall t :: t in s.live ==>
          t in from && from[t].slot == t && from[t].pDetour == s.live[t].pbDetour
          && from[t].pbTarget == TargetOf(s.live[t]))
    && (forall o :: o in s.ops && !o.isRemove ==>
          o.pTrampoline in from && from[o.pTrampoline].ppPointer == o.ppbPointer)
    && (forall t :: t in done ==> t in from && from[t].ppPointer in s.cells && s.cells[from[t].ppPointer] == t)
  }

  lemma {:induction false} SameLinks(s: State, s': State, done: set<dword>, from: map<dword, AttachCall>)
    requires Linked(s, done, from) && s'.live == s.live && s'.cells == s.cells && s'.ops == s.ops
    ensures Linked(s', done, from)
  {
    hide TargetOf;
  }

  /** `s'` has the operation and the trampoline of `c` in front of those of `s`. */
  predicate Adds(s: State, s': State, c: AttachCall) {
    && c.slot in s'.live && s'.live == s.live[c.slot := s'.live[c.slot]]
    && s'.live[c.slot].pbDetour == c.pDetour && TargetOf(s'.live[c.slot]) == c.pbTarget
    && s'.ops != [] && s'.ops == [s'.ops[0]] + s.ops && !s'.ops[0].isRemove
    && s'.ops[0].ppbPointer == c.ppPointer && s'.ops[0].pTrampoline == c.slot
  }

  lemma {:induction false} QueuedAdds(s: State, c: AttachCall, n: byte, bytes: seq<byte>)
    requires |bytes| == SLOT_SIZE
    ensures var s' := Queued(s, c, n, bytes).0;
            Adds(s, s', c) || (s'.ops == s.ops && s'.live == s.live)
  {
    hide Protect, OldPerm, GiveUp, ToMark, Stamped, SlotWritten, TargetOf, WrapAddr, Adds;
    GivesUp(s, c, c.protect);
    GivesUp(s.(perms := Protect(s.perms, c.pbTarget, n, PAGE_EXECUTE_READWRITE)), c, c.headerProtect);
    var s', slot := Queued(s, c, n, bytes).0, Slot(n, WrapAddr(c.pbTarget + n), c.pDetour);
    var o := Op(false, c.ppPointer, c.pbTarget, c.slot, OldPerm(s.perms, c.pbTarget));
    if s'.ops == [o] + s.ops && s'.live == s.live[c.slot := slot] {
      IsAdded(s, s', c, slot, o);
    }
  }

  lemma {:induction false} GivesUp(s: State, c: AttachCall, error: Error)
    ensures GiveUp(s, c, error, true).0.ops == s.ops && GiveUp(s, c, error, true).0.live == s.live
  {
    hide Zeroed;
  }

  lemma {:induction false} IsAdded(s: State, s': State, c: AttachCall, slot: Slot, o: Op)
    requires s'.ops == [o] + s.ops && s'.live == s.live[c.slot := slot]
    requires slot == Slot(slot.cbTarget, WrapAddr(c.pbTarget + slot.cbTarget), c.pDetour)
    requires o == Op(false, c.ppPointer, c.pbTarget, c.slot, o.dwPerm)
    ensures Adds(s, s', c)
  {
  }

  lemma {:induction false} WithSlotAdds(s: State, c: AttachCall)
    ensures var s' := AttachWithSlot(s, c).0;
            Adds(s, s', c) || (s'.ops == s.ops && s'.live == s.live)
  {
    hide MoveInto, SlotBytes, Queued, Zeroed, Adds;
    var r := MoveInto(s.mem, c.pbTarget, c.slot);
    if r.Some? && SIZE_OF_JMP <= r.value.cb <= CODE_SIZE - SIZE_OF_JMP {
      QueuedAdds(s, c, r.value.cb, SlotBytes(r.value.buf, r.value.cb, c.pbTarget, c.slot));
    }
  }

  /** Attach queues its own operation and trampoline, or leaves operations and trampolines alone. */
  lemma {:induction false} AttachAdds(s: State, me: ThreadId, c: AttachCall)
    ensures var s' := Attach(s, me, c).0;
            && s'.cells == s.cells
            && if |s'.ops| > |s.ops| then
                 s.owner == me && s.error == NoError && c.ppPointer in s.cells && c.slot != NULL && Adds(s, s', c)
               else s'.ops == s.ops && s'.live == s.live
  {
    hide AttachWithSlot, TargetOf;
    AttachWithSlotSame(s, c);
    WithSlotAdds(s, c);
  }

  lemma {:induction false} AttachLinks(w: World, s: State, done: set<dword>, hooked: set<dword>,
                                       from: map<dword, AttachCall>, me: ThreadId, c: AttachCall)
    requires Good(w, s, done, hooked) && Linked(s, done, from)
    requires s.owner == me && s.error == NoError ==> AttachOk(w, s, c)
    ensures Linked(Attach(s, me, c).0, done, AttachedNext(s, CallAttach(me, c), from))
  {
    hide Attach, TargetOf, AttachOk, Good;
    AttachAdds(s, me, c);
    var s' := Attach(s, me, c).0;
    if |s'.ops| > |s.ops| {
      AttachFacts(w, s, c);
      LiveTramps(w, s, done, hooked);
      assert forall o :: o in s'.ops <==> o == s'.ops[0] || o in s.ops;
    } else {
      SameLinks(s, s', done, from);
    }
  }

  lemma {:induction false} LiveTramps(w: World, s: State, done: set<dword>, hooked: set<dword>)
    requires Good(w, s, done, hooked)
    ensures done <= s.live.Keys && forall o :: o in s.ops ==> o.pTrampoline in s.live
  {
    hide HookOk, TargetOf, CellsOk, Covers, TargetsDisjoint, InArena;
  }

  lemma {:induction false} DetachLinks(s: State, done: set<dword>, from: map<dword, AttachCall>, me: ThreadId,
                                       c: DetachCall)
    requires Linked(s, done, from)
    requires s.owner == me && s.error == NoError ==> DetachOk(s, c)
    ensures Linked(Detach(s, me, c).0, done, from)
  {
    hide Detach, TargetOf, DetachOk;
    DetachQueues(s, me, c);
    var s' := Detach(s, me, c).0;
    if s'.ops != s.ops {
      assert forall o :: o in s'.ops ==> o == s'.ops[0] || o in s.ops;
    }
  }

  /** What the pointers hold once `ops` are committed: each what its operation is for, the others what they held. */
  predicate CellsAre(was: map<dword, dword>, ops: seq<Op>, now: map<dword, dword>) {
    && now.Keys == was.Keys
    && (forall o :: o in ops && o.ppbPointer in now ==>
          now[o.ppbPointer] == if o.isRemove then o.pbTarget else o.pTrampoline)
    && (forall p :: p in now && (forall o :: o in ops ==> o.ppbPointer != p) ==> now[p] == was[p])
  }

  lemma {:induction false} CommitOpsCells(s: State, ops: seq<Op>)
    requires forall i, j :: 0 <= i < j < |ops| ==> ops[i].ppbPointer != ops[j].ppbPointer
    requires forall o :: o in ops ==> o.ppbPointer in s.cells
    ensures CellsAre(s.cells, ops, CommitOps(s, ops).cells)
    decreases |ops|
  {
    hide CommitOp, CellsAre;
    if ops == [] {
      NothingCommitted(s.cells);
    } else {
      var rest, s' := ops[1..], CommitOp(s, ops[0]);
      assert forall i :: 0 <= i < |rest| ==> rest[i] == ops[i + 1];
      assert forall o :: o in ops <==> o == ops[0] || o in rest;
      CommitOpCell(s, ops[0]);
      CommitOpsCells(s', rest);
      OneMore(s.cells, s'.cells, ops, CommitOps(s', rest).cells);
    }
  }

  lemma {:induction false} NothingCommitted(cells: map<dword, dword>)
    ensures CellsAre(cells, [], cells)
  {
  }

  lemma {:induction false} CommitOpCell(s: State, o: Op)
    ensures CommitOp(s, o).cells == s.cells[o.ppbPointer := if o.isRemove then o.pbTarget else o.pTrampoline]
  {
    hide MoveBack, PatchBytes, Blit;
  }

  lemma {:induction false} OneMore(was: map<dword, dword>, mid: map<dword, dword>, ops: seq<Op>,
                                   now: map<dword, dword>)
    requires ops != [] && ops[0].ppbPointer in was && CellsAre(mid, ops[1..], now)
    requires mid == was[ops[0].ppbPointer := if ops[0].isRemove then ops[0].pbTarget else ops[0].pTrampoline]
    requires forall i, j :: 0 <= i < j < |ops| ==> ops[i].ppbPointer != ops[j].ppbPointer
    ensures CellsAre(was, ops, now)
  {
    var rest := ops[1..];
    assert forall i :: 0 <= i < |rest| ==> rest[i] == ops[i + 1];
    assert forall o :: o in ops <==> o == ops[0] || o in rest;
    assert now.Keys == was.Keys;
  }

  /** A commit hooks what is pending; the pointers of the hooks that stay are not touched. */
  lemma {:induction false} CommitLinks(w: World, s: State, done: set<dword>, hooked: set<dword>,
                                       from: map<dword, AttachCall>, readable: set<Handle>)
    requires Good(w, s, done, hooked) && Linked(s, done, from)
    ensures Linked(Committed(s, readable), done - OpTramps(s.ops, true) + OpTramps(s.ops, false), from)
  {
    hide CodeOk, CellsOk, Committed, OpTramps, TargetOf, CellsAre, IsSlot, RegionOf;
    var s' := Committed(s, readable);
    CommittedIs(w, s, done, hooked, readable);
    OpSlots(w, s, done, hooked);
    CommitOpsCells(s, s.ops);
    OpTrampsOf(s.ops, true);
    OpTrampsOf(s.ops, false);
    CommittedPointers(w, s, done, hooked, from, s'.cells);
  }

  lemma {:induction false} CommittedIs(w: World, s: State, done: set<dword>, hooked: set<dword>, readable: set<Handle>)
    requires Good(w, s, done, hooked)
    ensures var s' := Committed(s, readable);
            && s'.cells == CommitOps(s, s.ops).cells && s'.ops == [] && s'.live == s.live - OpTramps(s.ops, true)
  {
    hide CodeOk, CellsOk, CommitOps, ReleaseOps, FixThreads, Resume, IsSlot, RegionOf, OpTramps;
    OpSlots(w, s, done, hooked);
    CommitOpsKeeps(w, s, done, hooked, s.ops);
    DoneAfterAllIs(done, s.ops);
    OpTrampsOf(s.ops, true);
    var s1 := CommitOps(s, s.ops);
    var s2 := s1.(eips := FixThreads(s1.eips, s1.live, s.ops, s.threads, readable));
    ReleaseKeeps(w, s2, DoneAfterAll(done, s.ops), hooked + OpPointers(s.ops), s.ops, false);
  }

  lemma {:induction false} CommittedPointers(w: World, s: State, done: set<dword>, hooked: set<dword>,
                                             from: map<dword, AttachCall>, now: map<dword, dword>)
    requires Good(w, s, done, hooked) && Linked(s, done, from) && CellsAre(s.cells, s.ops, now)
    ensures forall t :: t in done - OpTramps(s.ops, true) + OpTramps(s.ops, false) ==>
              t in from && from[t].ppPointer in now && now[from[t].ppPointer] == t
  {
    hide CodeOk, CellsOk, OpTramps, TargetOf;
    OpTrampsOf(s.ops, true);
    OpTrampsOf(s.ops, false);
    forall t | t in done - OpTramps(s.ops, true) + OpTramps(s.ops, false)
      ensures t in from && from[t].ppPointer in now && now[from[t].ppPointer] == t
    {
      if t !in OpTramps(s.ops, false) {
        assert t in done;
        assert forall o :: o in s.ops ==> o.ppbPointer != from[t].ppPointer;
      }
    }
  }

  lemma {:induction false} AbortLinks(w: World, s: State, done: set<dword>, hooked: set<dword>,
                                      from: map<dword, AttachCall>)
    requires Good(w, s, done, hooked) && Linked(s, done, from)
    ensures Linked(Aborted(s), done, from)
  {
    hide CodeOk, CellsOk, ReleaseOps, Resume, IsSlot, RegionOf, OpTramps, TargetOf;
    OpSlots(w, s, done, hooked);
    ReleaseKeeps(w, s, done, hooked, s.ops, true);
  }

  lemma {:induction false} BeginLinks(w: World, s: State, done: set<dword>, hooked: set<dword>,
                                      from: map<dword, AttachCall>, me: ThreadId)
    requires Good(w, s, done, hooked) && Linked(s, done, from)
    ensures Linked(Begin(s, me).0, done, from)
  {
    hide Good, Linked;
    GoodOwner(w, s, done, hooked);
    SameLinks(s, Begin(s, me).0, done, from);
  }

  lemma {:induction false} UpdateLinks(s: State, done: set<dword>, from: map<dword, AttachCall>, c: UpdateCall)
    requires Linked(s, done, from)
    ensures Linked(UpdateThread(s, c).0, done, from)
  {
    hide Linked;
    SameLinks(s, UpdateThread(s, c).0, done, from);
  }

  lemma {:induction false} ApplyLinks(w: World, s: State, done: set<dword>, hooked: set<dword>,
                                      from: map<dword, AttachCall>, call: Call)
    requires Good(w, s, done, hooked) && CallOk(w, s, call) && Linked(s, done, from)
    ensures Linked(Apply(s, call), DoneNext(s, done, call), AttachedNext(s, call, from))
  {
    hide Good, Committed, Aborted, Attach, Detach, Begin, UpdateThread, Linked, AttachOk, DetachOk, OpTramps,
         OpPointers;
    match call {
      case CallBegin(me) => BeginLinks(w, s, done, hooked, from, me);
      case CallUpdateThread(c) => UpdateLinks(s, done, from, c);
      case CallAttach(me, c) => AttachLinks(w, s, done, hooked, from, me, c);
      case CallDetach(me, c) => DetachLinks(s, done, from, me, c);
      case CallCommit(me, readable) =>
        CommitLinks(w, s, done, hooked, from, readable);
        AbortLinks(w, s, done, hooked, from);
      case CallAbort(me) => AbortLinks(w, s, done, hooked, from);
      case CallIgnoreTooSmall(fIgnore) => SameLinks(s, s.(ignoreTooSmall := fIgnore), done, from);
    }
  }

  lemma {:induction false} RunLinks(w: World, s: State, done: set<dword>, hooked: set<dword>,
                                    from: map<dword, AttachCall>, calls: seq<Call>)
    requires Good(w, s, done, hooked) && RunOk(w, s, calls) && Linked(s, done, from)
    ensures Linked(Run(s, calls), DoneAtEnd(s, done, calls), AttachedBy(s, calls, from))
    decreases |calls|
  {
    hide Good, CallOk, Apply, DoneNext, HookedNext, Linked, AttachedNext;
    if calls != [] {
      var call := calls[0];
      ApplyKeeps(w, s, done, hooked, call);
      ApplyLinks(w, s, done, hooked, from, call);
      RunLinks(w, Apply(s, call), DoneNext(s, done, call), HookedNext(s, hooked, call), AttachedNext(s, call, from),
               calls[1..]);
    }
  }

  /** The calls remembered are calls of the run. */
  lemma {:induction false} AttachedIsCall(s: State, calls: seq<Call>, from: map<dword, AttachCall>, t: dword)
    requires t in AttachedBy(s, calls, from)
    ensures (t in from && AttachedBy(s, calls, from)[t] == from[t])
            || exists me :: CallAttach(me, AttachedBy(s, calls, from)[t]) in calls
    decreases |calls|
  {
    hide Apply;
    if calls != [] {
      AttachedIsCall(Apply(s, calls[0]), calls[1..], AttachedNext(s, calls[0], from), t);
      if calls[0].CallAttach? {
        assert calls[0] == CallAttach(calls[0].me, calls[0].attach);
      }
    }
  }

  /** The target of a committed hook holds a jump to its detour and INT3 up to where the moved code ended. */
  lemma {:induction false} PatchJumps<M(!new)>(w: World, mem: seq<byte>, t: dword, slot: Slot, sem: Semantics<M>, m: M)
    requires HookOk(w, mem, t, slot, true) && |mem| == ADDRESS_SPACE && sem([0xE9], m) == (m, Taken)
    ensures Step(mem, sem, Cpu(TargetOf(slot), m)) == Some(Cpu(slot.pbDetour, m))
  {
    hide Rebuilds, TargetOf, JumpBytes, Decode, Apart, BranchTarget;
    HookFacts(w, mem, t, slot, true);
    var at := TargetOf(slot);
    var code := mem[at..];
    SliceOfSlice(mem, at, at + slot.cbTarget, 0, 5);
    assert code[..5] == mem[at..at + 5] == PatchBytes(at, slot)[..5] == JumpBytes(at, slot.pbDetour);
    JumpDecodes(code, at, slot.pbDetour);
    assert code[..1] == [0xE9];
  }

  lemma {:induction false} PatchFilled(w: World, mem: seq<byte>, t: dword, slot: Slot)
    requires HookOk(w, mem, t, slot, true) && |mem| == ADDRESS_SPACE
    ensures 5 <= slot.cbTarget <= 18 && TargetOf(slot) + slot.cbTarget == slot.pbRemain < ADDRESS_SPACE
    ensures forall i :: TargetOf(slot) + 5 <= i < TargetOf(slot) + slot.cbTarget ==> mem[i] == 0xCC
  {
    hide Tiled, NoInvalid, HoldsCopies, TargetOf, JumpBytes, Apart;
    HookFacts(w, mem, t, slot, true);
    var at := TargetOf(slot);
    forall i | at + 5 <= i < at + slot.cbTarget ensures mem[i] == 0xCC {
      assert mem[i] == mem[at..at + slot.cbTarget][i - at] == PatchBytes(at, slot)[i - at];
    }
  }

  /**
   * At every moment of a run of any threads' calls, each committed hook is that of a successful Attach call: its
   * pointer holds the trampoline, a processor that comes to the function is at the detour of that call one step
   * later, its state untouched, and the moved bytes behind the jump are INT3.
   */
  lemma {:induction false} HooksReachDetours<M(!new)>(w: World, s: State, calls: seq<Call>, sem: Semantics<M>, t: dword)
    requires Pristine(w, s) && RunOk(w, s, calls) && t in DoneAtEnd(s, {}, calls)
    requires forall m :: sem([0xE9], m) == (m, Taken)
    ensures var s' := Run(s, calls);
            && t in AttachedBy(s, calls, map[]) && t in s'.live
            && var c := AttachedBy(s, calls, map[])[t];
            && (exists me :: CallAttach(me, c) in calls)
            && c.slot == t && c.ppPointer in s'.cells && s'.cells[c.ppPointer] == t
            && (forall m :: Step(s'.mem, sem, Cpu(c.pbTarget, m)) == Some(Cpu(c.pDetour, m)))
            && |s'.mem| == ADDRESS_SPACE && c.pbTarget + 5 <= s'.live[t].pbRemain <= c.pbTarget + 18
            && (forall i :: c.pbTarget + 5 <= i < s'.live[t].pbRemain ==> s'.mem[i] == 0xCC)
  {
    hide Run, RunOk, HookedAtEnd, DoneAtEnd, HookOk, Step, TargetOf, AttachedBy, CellsOk;
    PristineGood(w, s);
    RunKeeps(w, s, {}, {}, calls);
    RunLinks(w, s, {}, {}, map[], calls);
    AttachedIsCall(s, calls, map[], t);
    var s' := Run(s, calls);
    assert HookOk(w, s'.mem, t, s'.live[t], true);
    PatchFilled(w, s'.mem, t, s'.live[t]);
    forall m {
      PatchJumps(w, s'.mem, t, s'.live[t], sem, m);
    }
  }
}
