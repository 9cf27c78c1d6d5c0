/** Suspended threads across a transaction: their counts, and where they stand afterwards (detours.cpp). */
module Threads {
  import opened Bytes
  import opened Disasm
  import opened Relocation
  import opened TrampolineRun
  import opened TrampolineHeap
  import opened Transaction
  import opened Restoration

  // ---------------------------------------------------------- suspend counts

  function Occurrences(threads: seq<Handle>, h: Handle): nat {
    if threads == [] then 0 else (if threads[0] == h then 1 else 0) + Occurrences(threads[1..], h)
  }

  lemma {:induction false} ResumeCounts(suspended: map<Handle, int>, threads: seq<Handle>, h: Handle)
    requires h in suspended
    ensures h in Resume(suspended, threads)
    ensures Resume(suspended, threads)[h] == suspended[h] - Occurrences(threads, h)
    decreases |threads|
  {
    if threads != [] {
      ResumeCounts(Bump(suspended, threads[0], -1), threads[1..], h);
    }
  }

  /** The suspend count `h` has apart from what the pending transaction will undo. */
  function OwnCount(s: State, h: Handle): int
    requires h in s.suspended
  {
    s.suspended[h] - if s.owner == NOBODY then 0 else Occurrences(s.threads, h)
  }

  /** Whether a call suspends `h` with no transaction open, which DetourUpdateThread itself does not check. */
  predicate SuspendsOutside(s: State, call: Call, h: Handle) {
    && call.CallUpdateThread? && s.owner == NOBODY && s.error == NoError
    && !call.thread.isSelf && call.thread.haveThread && call.thread.suspend == NoError && call.thread.hThread == h
  }

  /** How often a run suspends `h` with no transaction open. */
  function SuspendedOutside(s: State, calls: seq<Call>, h: Handle): nat
    decreases |calls|
  {
    if calls == [] then 0
    else (if SuspendsOutside(s, calls[0], h) then 1 else 0) + SuspendedOutside(Apply(s, calls[0]), calls[1..], h)
  }

  lemma {:induction false} ReleaseOpsSame(s: State, ops: seq<Op>, aborting: bool)
    ensures var s' := ReleaseOps(s, ops, aborting);
            s'.eips == s.eips && s'.suspended == s.suspended && s'.threads == s.threads && s'.owner == s.owner
    decreases |ops|
  {
    hide Protect, Zeroed;
    if ops != [] {
      ReleaseOpsSame(ReleaseOp(s, ops[0], aborting), ops[1..], aborting);
    }
  }

  lemma {:induction false} FinishCounts(s: State, h: Handle)
    requires h in s.suspended && s.owner != NOBODY
    ensures h in Finish(s).suspended && OwnCount(Finish(s), h) == OwnCount(s, h)
  {
    ResumeCounts(s.suspended, s.threads, h);
  }

  /** A call is made by some thread. */
  predicate ByThread(call: Call) {
    match call
    case CallBegin(me) => me != NOBODY
    case CallUpdateThread(_) => true
    case CallAttach(me, _) => me != NOBODY
    case CallDetach(me, _) => me != NOBODY
    case CallCommit(me, _) => me != NOBODY
    case CallAbort(me) => me != NOBODY
    case CallIgnoreTooSmall(_) => true
  }

  lemma {:induction false} ApplyCounts(s: State, call: Call, h: Handle)
    requires h in s.suspended && ByThread(call)
    ensures h in Apply(s, call).suspended
    ensures OwnCount(Apply(s, call), h) == OwnCount(s, h) + if SuspendsOutside(s, call, h) then 1 else 0
  {
    hide Committed, Aborted, Attach, Detach, Occurrences;
    match call {
      case CallUpdateThread(c) => PushCounts(s, c, h);
      case CallCommit(me, readable) =>
        if s.owner == me {
          EndCounts(s, readable, h);
        }
      case CallAbort(me) =>
        if s.owner == me {
          EndCounts(s, {}, h);
        }
      case CallBegin(me) => NoOccurrences(h);
      case CallAttach(me, c) => QueueingSame(s, me, c);
      case CallDetach(me, c) => RemovalSame(s, me, c);
      case CallIgnoreTooSmall(fIgnore) =>
    }
  }

  lemma {:induction false} QueueingSame(s: State, me: ThreadId, c: AttachCall)
    ensures var s' := Attach(s, me, c).0;
            s'.suspended == s.suspended && s'.threads == s.threads && s'.owner == s.owner
  {
    hide AttachWithSlot;
    AttachWithSlotSame(s, c);
  }

  lemma {:induction false} RemovalSame(s: State, me: ThreadId, c: DetachCall)
    ensures var s' := Detach(s, me, c).0;
            s'.suspended == s.suspended && s'.threads == s.threads && s'.owner == s.owner
  {
    hide Protect, OldPerm, TargetOf, LooksHooked, FieldsAt;
    if s.owner != me || s.error != NoError || c.ppPointer == NULL || c.ppPointer !in s.cells {
    } else if s.cells[c.ppPointer] == NULL || !c.haveOp {
    } else {
    }
  }

  lemma {:induction false} EndCounts(s: State, readable: set<Handle>, h: Handle)
    requires h in s.suspended && s.owner != NOBODY
    ensures h in Committed(s, readable).suspended && OwnCount(Committed(s, readable), h) == OwnCount(s, h)
    ensures h in Aborted(s).suspended && OwnCount(Aborted(s), h) == OwnCount(s, h)
  {
    hide CommitOps, ReleaseOps, FixThreads, Finish, Occurrences;
    var s1 := CommitOps(s, s.ops);
    CommitOpsSame(s, s.ops);
    var s2 := s1.(eips := FixThreads(s1.eips, s1.live, s.ops, s.threads, readable));
    ReleaseOpsSame(s2, s.ops, false);
    FinishCounts(ReleaseOps(s2, s.ops, false), h);
    ReleaseOpsSame(s, s.ops, true);
    FinishCounts(ReleaseOps(s, s.ops, true), h);
  }

  lemma {:induction false} NoOccurrences(h: Handle)
    ensures Occurrences([], h) == 0
  {
  }

  lemma {:induction false} PushCounts(s: State, c: UpdateCall, h: Handle)
    requires h in s.suspended
    ensures var s', call := UpdateThread(s, c).0, CallUpdateThread(c);
            && h in s'.suspended
            && OwnCount(s', h) == OwnCount(s, h) + if SuspendsOutside(s, call, h) then 1 else 0
  {
    assert ([c.hThread] + s.threads)[1..] == s.threads;
  }

  /**
   * Over any run, a thread's suspend count changes by what is pending for it and by the number of times it was
   * suspended with no transaction open; so whenever no transaction is pending it is back at its first value if and
   * only if it was never suspended outside one.
   */
  lemma {:induction false} RunRestoresCounts(s: State, calls: seq<Call>, h: Handle)
    requires (forall k :: 0 <= k < |calls| ==> ByThread(calls[k])) && h in s.suspended
    ensures var s' := Run(s, calls);
            && h in s'.suspended && OwnCount(s', h) == OwnCount(s, h) + SuspendedOutside(s, calls, h)
            && (s.owner == NOBODY && s'.owner == NOBODY ==>
                  (s'.suspended[h] == s.suspended[h] <==> SuspendedOutside(s, calls, h) == 0))
    decreases |calls|
  {
    hide Apply, ByThread, SuspendsOutside;
    if calls != [] {
      ApplyCounts(s, calls[0], h);
      RunRestoresCounts(Apply(s, calls[0]), calls[1..], h);
    }
  }

  /** For one: a thread suspended before Begin is still suspended once the transaction has been aborted. */
  lemma {:induction false} OutsideForgotten(s: State, c: UpdateCall, me: ThreadId)
    requires s.owner == NOBODY && s.error == NoError && !c.isSelf && c.haveThread && c.suspend == NoError
    requires c.hThread in s.suspended && s.ops == [] && me != NOBODY
    ensures var s' := Run(s, [CallUpdateThread(c), CallBegin(me), CallAbort(me)]);
            s'.owner == NOBODY && c.hThread in s'.suspended && s'.suspended[c.hThread] == s.suspended[c.hThread] + 1
  {
    var calls := [CallUpdateThread(c), CallBegin(me), CallAbort(me)];
    var suspended := Apply(s, calls[0]);
    var begun := Apply(suspended, calls[1]);
    assert calls[1..][1..] == [CallAbort(me)] && Run(begun, [CallAbort(me)]) == Apply(begun, CallAbort(me));
    assert Run(suspended, calls[1..]) == Run(begun, calls[1..][1..]);
  }

  // ------------------------------------------------------------------ fix-ups

  /** Where one operation moves an EIP, and whether it does. */
  predicate Matches(eip: dword, live: map<dword, Slot>, o: Op) {
    if o.isRemove then o.pTrampoline <= eip < o.pTrampoline + 4
    else o.pTrampoline in live && o.pbTarget <= eip < o.pbTarget + live[o.pTrampoline].cbTarget
  }

  lemma {:induction false} NoMatch(eip: dword, live: map<dword, Slot>, ops: seq<Op>)
    requires forall o :: o in ops ==> !Matches(eip, live, o)
    ensures FixEips(eip, live, ops) == eip
    decreases |ops|
  {
    if ops != [] {
      assert ops[0] in ops && !Matches(eip, live, ops[0]);
      assert forall o :: o in ops[1..] ==> o in ops;
      NoMatch(eip, live, ops[1..]);
    }
  }

  /** The pass over the operations moves an EIP by the first one that matches it, if later ones leave it there. */
  lemma {:induction false} FirstMatch(eip: dword, live: map<dword, Slot>, ops: seq<Op>, o: Op)
    requires o in ops && Matches(eip, live, o)
    requires forall p :: p in ops && p != o ==> !Matches(eip, live, p)
    requires forall p :: p in ops ==> !Matches(FixEip(eip, live, o), live, p)
    ensures FixEips(eip, live, ops) == FixEip(eip, live, o)
    decreases |ops|
  {
    assert forall p :: p in ops[1..] ==> p in ops;
    if ops[0] == o {
      NoMatch(FixEip(eip, live, o), live, ops[1..]);
    } else {
      assert ops[0] in ops && !Matches(eip, live, ops[0]);
      FirstMatch(eip, live, ops[1..], o);
    }
  }

  /** Two pending operations never match the same EIP, and none matches where another one moved it. */
  lemma {:induction false} MatchesApart(w: World, s: State, done: set<dword>, hooked: set<dword>, eip: dword, o: Op)
    requires Inv(w, s, done, hooked, s.ops) && o in s.ops && Matches(eip, s.live, o)
    ensures forall p :: p in s.ops && p != o ==> !Matches(eip, s.live, p)
    ensures forall p :: p in s.ops ==> !Matches(FixEip(eip, s.live, o), s.live, p)
    ensures FixEip(eip, s.live, o)
         == (if o.isRemove then o.pbTarget + (eip - o.pTrampoline) else o.pTrampoline + (eip - o.pbTarget))
  {
    hide CodeOk, CellsOk, FixEip, Matches;
    var eip' := FixEip(eip, s.live, o);
    OpPlaces(w, s, done, hooked, o);
    FixPlaces(w, s.live, o, eip);
    forall p | p in s.ops ensures (p != o ==> !Matches(eip, s.live, p)) && !Matches(eip', s.live, p) {
      OpPlaces(w, s, done, hooked, p);
      if p != o {
        OpsApart(w, s, done, hooked, o, p);
      }
      PlaceMatch(w, s.live, o, p, eip);
    }
  }

  /** A pending operation's target lies outside the trampoline regions and its slot inside them. */
  ghost predicate Placed(w: World, live: map<dword, Slot>, o: Op) {
    && o.pTrampoline in live && IsSlot(o.pTrampoline) && RegionOf(o.pTrampoline) in w.arena
    && SIZE_OF_JMP <= live[o.pTrampoline].cbTarget <= CODE_SIZE - SIZE_OF_JMP
    && Apart(w, o.pbTarget, SLOT_SIZE) && o.pbTarget + SLOT_SIZE <= ADDRESS_SPACE
  }

  lemma {:induction false} OpPlaces(w: World, s: State, done: set<dword>, hooked: set<dword>, o: Op)
    requires Inv(w, s, done, hooked, s.ops) && o in s.ops
    ensures Placed(w, s.live, o)
  {
    hide CodeOk, CellsOk, HookOk, TargetOf, Apart, IsSlot, RegionOf;
    CodeFacts(w, s.mem, s.live, done, o.pTrampoline);
    MemSize(w, s.mem, s.live, done);
    HookFacts(w, s.mem, o.pTrampoline, s.live[o.pTrampoline], o.pTrampoline in done);
  }

  /** Two different operations have different slots and disjoint targets. */
  ghost predicate PlacedApart(live: map<dword, Slot>, o: Op, p: Op)
    requires o.pTrampoline in live && p.pTrampoline in live
  {
    && o.pTrampoline != p.pTrampoline
    && (o.pbTarget + live[o.pTrampoline].cbTarget <= p.pbTarget
        || p.pbTarget + live[p.pTrampoline].cbTarget <= o.pbTarget)
  }

  lemma {:induction false} OpsApart(w: World, s: State, done: set<dword>, hooked: set<dword>, o: Op, p: Op)
    requires Inv(w, s, done, hooked, s.ops) && o in s.ops && p in s.ops && o != p
    ensures o.pTrampoline in s.live && p.pTrampoline in s.live && PlacedApart(s.live, o, p)
  {
    hide CellsOk, HookOk, TargetOf, Covers;
    var i :| 0 <= i < |s.ops| && s.ops[i] == o;
    var j :| 0 <= j < |s.ops| && s.ops[j] == p;
    assert i < j || j < i;
    assert TargetsDisjoint(s.live[o.pTrampoline], s.live[p.pTrampoline]);
  }

  lemma {:induction false} FixPlaces(w: World, live: map<dword, Slot>, o: Op, eip: dword)
    requires Placed(w, live, o) && Matches(eip, live, o)
    ensures FixEip(eip, live, o)
         == (if o.isRemove then o.pbTarget + (eip - o.pTrampoline) else o.pTrampoline + (eip - o.pbTarget))
  {
    hide Apart;
    SlotInMemory(o.pTrampoline);
  }

  lemma {:induction false} PlaceMatch(w: World, live: map<dword, Slot>, o: Op, p: Op, eip: dword)
    requires Placed(w, live, o) && Placed(w, live, p) && Matches(eip, live, o)
    requires o != p ==> PlacedApart(live, o, p)
    ensures o != p ==> !Matches(eip, live, p)
    ensures !Matches(FixEip(eip, live, o), live, p)
  {
    hide FixEip, IsSlot, RegionOf, Placed, InArena;
    FixPlaces(w, live, o, eip);
    var eip' := FixEip(eip, live, o);
    MatchSide(w, live, o, eip);
    FixSide(w, live, o, eip);
    if Matches(eip', live, p) {
      MatchSide(w, live, p, eip');
    }
    if o != p {
      ApartRanges(w, live, o, p);
      if Matches(eip, live, p) {
        MatchSide(w, live, p, eip);
      }
    }
  }

  /** Attaches match EIPs outside the trampoline regions, detaches inside them. */
  lemma {:induction false} MatchSide(w: World, live: map<dword, Slot>, p: Op, eip: dword)
    requires Placed(w, live, p) && Matches(eip, live, p)
    ensures p.isRemove <==> InArena(w, eip)
  {
    SlotInArena(w, p.pTrampoline);
    assert !p.isRemove ==> Outside(w, eip);
  }

  lemma {:induction false} FixSide(w: World, live: map<dword, Slot>, o: Op, eip: dword)
    requires Placed(w, live, o) && Matches(eip, live, o)
    ensures o.isRemove <==> !InArena(w, FixEip(eip, live, o))
    ensures var eip' := FixEip(eip, live, o);
            if o.isRemove then o.pbTarget <= eip' < o.pbTarget + 4
            else o.pTrampoline <= eip' < o.pTrampoline + live[o.pTrampoline].cbTarget
  {
    hide FixEip;
    FixPlaces(w, live, o, eip);
    SlotInArena(w, o.pTrampoline);
    assert o.isRemove ==> Outside(w, FixEip(eip, live, o));
  }

  lemma {:induction false} ApartRanges(w: World, live: map<dword, Slot>, o: Op, p: Op)
    requires Placed(w, live, o) && Placed(w, live, p) && PlacedApart(live, o, p)
    ensures o.pTrampoline + SLOT_SIZE <= p.pTrampoline || p.pTrampoline + SLOT_SIZE <= o.pTrampoline
    ensures live[o.pTrampoline].cbTarget >= SIZE_OF_JMP && live[o.pTrampoline].cbTarget <= SLOT_SIZE
  {
    hide Apart;
    SlotsDisjoint(o.pTrampoline, p.pTrampoline);
  }

  lemma {:induction false} FixThreadsAt(eips: map<Handle, dword>, live: map<dword, Slot>, ops: seq<Op>,
                                        threads: seq<Handle>, readable: set<Handle>, h: Handle)
    requires h in eips && FixEips(FixEips(eips[h], live, ops), live, ops) == FixEips(eips[h], live, ops)
    ensures var r := FixThreads(eips, live, ops, threads, readable);
            h in r && r[h] == if h in threads && h in readable then FixEips(eips[h], live, ops) else eips[h]
    decreases |threads|
  {
    hide FixEips;
    if threads != [] {
      var g := threads[0];
      var eips' := if g in readable && g in eips then eips[g := FixEips(eips[g], live, ops)] else eips;
      FixThreadsAt(eips', live, ops, threads[1..], readable, h);
      assert h in threads <==> h == g || h in threads[1..];
    }
  }

  /** The fix-up of one EIP against the pending operations. */
  lemma {:induction false} FixedEip(w: World, s: State, done: set<dword>, hooked: set<dword>, eip: dword)
    requires Inv(w, s, done, hooked, s.ops)
    ensures FixEips(FixEips(eip, s.live, s.ops), s.live, s.ops) == FixEips(eip, s.live, s.ops)
    ensures forall o :: o in s.ops && Matches(eip, s.live, o) ==>
              FixEips(eip, s.live, s.ops)
              == (if o.isRemove then o.pbTarget + (eip - o.pTrampoline) else o.pTrampoline + (eip - o.pbTarget))
    ensures (forall o :: o in s.ops ==> !Matches(eip, s.live, o)) ==> FixEips(eip, s.live, s.ops) == eip
  {
    hide Inv, Matches, FixEip, FixEips;
    forall o | o in s.ops && Matches(eip, s.live, o)
      ensures FixEips(eip, s.live, s.ops)
              == (if o.isRemove then o.pbTarget + (eip - o.pTrampoline) else o.pTrampoline + (eip - o.pbTarget))
      ensures FixEips(FixEips(eip, s.live, s.ops), s.live, s.ops) == FixEips(eip, s.live, s.ops)
    {
      MatchesApart(w, s, done, hooked, eip, o);
      FirstMatch(eip, s.live, s.ops, o);
      NoMatch(FixEip(eip, s.live, o), s.live, s.ops);
    }
    if forall o :: o in s.ops ==> !Matches(eip, s.live, o) {
      NoMatch(eip, s.live, s.ops);
    }
  }

  /**
   * A committed transaction moves every suspended thread that stood at offset `k` of a newly patched target to
   * offset `k` of its trampoline, leaves threads outside all pending targets and trampolines where they were,
   * and moves a thread out of a removed trampoline exactly when it stood in the trampoline's first four bytes.
   */
  lemma {:induction false} CommitMovesThreads(w: World, s: State, done: set<dword>, hooked: set<dword>,
                                              readable: set<Handle>, h: Handle)
    requires Good(w, s, done, hooked) && h in s.eips && h in s.threads && h in readable
    ensures var eip, r := s.eips[h], Committed(s, readable).eips;
            && h in r
            && (forall o :: o in s.ops && !o.isRemove && Covers(s.live[o.pTrampoline], eip) ==>
                  r[h] == o.pTrampoline + (eip - o.pbTarget))
            && (forall o :: o in s.ops && o.isRemove && o.pTrampoline <= eip < o.pTrampoline + SLOT_SIZE ==>
                  r[h] == if eip < o.pTrampoline + 4 then o.pbTarget + (eip - o.pTrampoline) else eip)
            && ((forall o :: o in s.ops ==> !Matches(eip, s.live, o)) ==> r[h] == eip)
  {
    hide CodeOk, CellsOk, FixEips, CommitOps, ReleaseOps, FixThreads, Resume, OpTramps, TargetOf;
    var eip := s.eips[h];
    FixedEip(w, s, done, hooked, eip);
    FixThreadsAt(s.eips, s.live, s.ops, s.threads, readable, h);
    CommitOpsSame(s, s.ops);
    var s1 := CommitOps(s, s.ops);
    ReleaseOpsSame(s1.(eips := FixThreads(s1.eips, s1.live, s.ops, s.threads, readable)), s.ops, false);
    forall o | o in s.ops && o.isRemove && o.pTrampoline <= eip < o.pTrampoline + SLOT_SIZE
      ensures eip >= o.pTrampoline + 4 ==> FixEips(eip, s.live, s.ops) == eip
    {
      if eip >= o.pTrampoline + 4 {
        InsideRemoved(w, s, done, hooked, o, eip);
      }
    }
  }

  /** No operation matches a thread further inside a removed trampoline. */
  lemma {:induction false} InsideRemoved(w: World, s: State, done: set<dword>, hooked: set<dword>, o: Op, eip: dword)
    requires Inv(w, s, done, hooked, s.ops) && o in s.ops && o.isRemove
    requires o.pTrampoline + 4 <= eip < o.pTrampoline + SLOT_SIZE
    ensures forall p :: p in s.ops ==> !Matches(eip, s.live, p)
  {
    hide CodeOk, CellsOk, OpsOk, Matches;
    OpPlaces(w, s, done, hooked, o);
    forall p | p in s.ops ensures !Matches(eip, s.live, p) {
      OpPlaces(w, s, done, hooked, p);
      if p != o {
        OpsApart(w, s, done, hooked, o, p);
      }
      NotInside(w, s.live, o, p, eip);
    }
  }

  lemma {:induction false} NotInside(w: World, live: map<dword, Slot>, o: Op, p: Op, eip: dword)
    requires Placed(w, live, o) && Placed(w, live, p) && o.isRemove && (o != p ==> PlacedApart(live, o, p))
    requires o.pTrampoline + 4 <= eip < o.pTrampoline + SLOT_SIZE
    ensures !Matches(eip, live, p)
  {
    hide InArena;
    SlotInArena(w, o.pTrampoline);
    assert InArena(w, eip);
    if o != p {
      ApartRanges(w, live, o, p);
    }
    if Matches(eip, live, p) {
      MatchSide(w, live, p, eip);
    }
  }

  // ------------------------------------------------------- what they then run

  /** A hook, seen as moved code: the original memory on one side, the trampoline on the other. */
  function HookBlock(w: World, mem: seq<byte>, t: dword, slot: Slot): Block {
    Block(w.mem0, mem, TargetOf(slot), t, slot.cbTarget)
  }

  lemma {:induction false} UncutCode(code: seq<byte>, buf: seq<byte>, buf': seq<byte>, delta: int, cb: nat, n: nat)
    requires cb <= n <= |code| && n <= |buf| <= |buf'| && buf == buf'[..|buf|]
    requires Tiled(code[..n], delta, cb, n) && NoInvalid(code[..n], cb, n) && HoldsCopies(buf, code[..n], delta, cb, n)
    ensures Tiled(code, delta, cb, n) && NoInvalid(code, cb, n) && HoldsCopies(buf', code, delta, cb, n)
    decreases n - cb
  {
    hide Decode, Relocated, Extra;
    if cb < n {
      var a, b := code[cb..], code[..n][cb..];
      TiledStep(code[..n], delta, cb, n);
      var ins := Decode(b, false, false).value;
      assert b == a[..|b|];
      DecodeSameShape(b, a, false, false);
      CutInstr(a, b, ins, delta);
      UncutCode(code, buf, buf', delta, cb + ins.len, n);
      var copy := Relocated(a, ins, delta);
      assert buf'[cb..cb + |copy|] == buf[cb..cb + |copy|];
    }
  }

  lemma {:induction false} HookIsBlock(w: World, mem: seq<byte>, t: dword, slot: Slot, patched: bool)
    requires HookOk(w, mem, t, slot, patched) && |mem| == ADDRESS_SPACE
    ensures var b := HookBlock(w, mem, t, slot); Trampolined(b) && Boundary(b, 0) && b.n > 0
  {
    hide Tiled, NoInvalid, HoldsCopies, JumpBytes, TargetOf, Apart, PatchBytes;
    SlotInMemory(t);
    var at, n := TargetOf(slot), slot.cbTarget as nat;
    var bytes, code := mem[t..t + SLOT_SIZE], w.mem0[at..];
    assert code[..n] == w.mem0[at..at + n];
    assert bytes == mem[t..][..SLOT_SIZE];
    UncutCode(code, bytes, mem[t..], t - at, 0, n);
    HookEnds(w, mem, t, slot, patched);
  }

  lemma {:induction false} HookEnds(w: World, mem: seq<byte>, t: dword, slot: Slot, patched: bool)
    requires HookOk(w, mem, t, slot, patched)
    ensures var n := slot.cbTarget as nat;
            mem[t + n..t + n + SIZE_OF_JMP] == JumpBytes(t + n, TargetOf(slot) + n)
  {
    hide Tiled, NoInvalid, HoldsCopies, JumpBytes, TargetOf, Apart, PatchBytes;
    var n := slot.cbTarget as nat;
    var bytes := mem[t..t + SLOT_SIZE];
    assert forall k :: n <= k < n + SIZE_OF_JMP ==> mem[t + k] == bytes[k];
    assert mem[t + n..t + n + SIZE_OF_JMP] == bytes[n..n + SIZE_OF_JMP];
  }

  /**
   * Every live trampoline, at every moment of every run, does what the function's first bytes did before anything
   * was hooked: from the copy of any instruction of the original code it reaches the same machine state and the same
   * address outside.
   */
  lemma {:induction false} HooksRefine<M(!new)>(w: World, s: State, calls: seq<Call>, t: dword, k: nat,
                                                sem: Semantics<M>, m: M)
    requires Pristine(w, s) && RunOk(w, s, calls) && t in Run(s, calls).live && k < Run(s, calls).live[t].cbTarget
    requires var b := HookBlock(w, Run(s, calls).mem, t, Run(s, calls).live[t]);
             && Starts(w.mem0[b.target..], 0, k) && BranchesLeave(b, k) && JumpsLeave(b, sem)
             && var out := RunUntilOut(w.mem0, sem, b.target, b.target + b.n, Cpu(WrapAddr(b.target + k), m), b.n);
                out.Some? ==> !(b.tramp <= out.value.eip < b.tramp + b.n + SIZE_OF_JMP)
    ensures var b := HookBlock(w, Run(s, calls).mem, t, Run(s, calls).live[t]);
            RunUntilOut(Run(s, calls).mem, sem, b.tramp, b.tramp + b.n + SIZE_OF_JMP, Cpu(WrapAddr(b.tramp + k), m),
                        b.n + 1)
            == RunUntilOut(w.mem0, sem, b.target, b.target + b.n, Cpu(WrapAddr(b.target + k), m), b.n)
  {
    hide Run, RunOk, HookedAtEnd, DoneAtEnd, HookOk, RunUntilOut, BranchesLeave, JumpsLeave, CellsOk, OpsOk, Boundary,
      Starts, JumpBytes, Covers, TargetsDisjoint;
    PristineGood(w, s);
    RunKeeps(w, s, {}, {}, calls);
    var s', done := Run(s, calls), DoneAtEnd(s, {}, calls);
    CodeFacts(w, s'.mem, s'.live, done, t);
    HookIsBlock(w, s'.mem, t, s'.live[t], t in done);
    StartsAreBoundaries(HookBlock(w, s'.mem, t, s'.live[t]), 0, k);
    TrampolineRefines(HookBlock(w, s'.mem, t, s'.live[t]), sem, k, m, s'.live[t].cbTarget);
  }
}
