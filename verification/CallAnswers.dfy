/** What each API call answers, and what it leaves of a request it refuses. */
module CallAnswers {
  import opened Bytes
  import opened Disasm
  import opened Relocation
  import opened TrampolineRun
  import opened TrampolineHeap
  import opened Transaction
  import opened FunctionEnds

  /** The pointer of an Attach or Detach holds something. */
  predicate Points(s: State, ppPointer: dword) {
    ppPointer != NULL && ppPointer in s.cells && s.cells[ppPointer] != NULL
  }

  /** Attach comes to moving instructions. */
  predicate Tries(s: State, c: AttachCall) {
    Points(s, c.ppPointer) && c.pDetour != c.pbTarget && c.haveOp && c.slot != NULL
  }

  /** Nothing is queued and nothing but the bytes of the slot and page protections has changed. */
  predicate Refused(s: State, s': State, c: AttachCall) {
    && s'.ops == s.ops && s'.live == s.live && s'.cells == s.cells && |s'.mem| == |s.mem|
    && (forall i :: 0 <= i < |s.mem| && (c.slot == NULL || !(c.slot <= i < c.slot + 32)) ==> s'.mem[i] == s.mem[i])
  }

  /** What Attach answers a request it tries, `n` bytes having been moved. */
  predicate Answer(c: AttachCall, n: nat, error: Error) {
    && (n < 5 ==> error == InvalidBlock)
    && (n > 18 ==> error == InvalidHandle)
    && (5 <= n <= 18 && c.protect != NoError ==> error == c.protect)
    && (5 <= n <= 18 && c.protect == NoError ==> error == NoError || (c.header.Some? && error == c.headerProtect))
  }

  lemma {:induction false} GivenUp(s: State, c: AttachCall, error: Error, record: bool)
    requires s.error == NoError
    ensures Refused(s, GiveUp(s, c, error, record).0, c) && GiveUp(s, c, error, record).1 == error
    ensures GiveUp(s, c, error, record).0.error == if record then error else NoError
    ensures GiveUp(s, c, error, record).0.errorPointer == c.ppPointer
  {
  }

  lemma {:induction false} QueuedAnswers(s: State, c: AttachCall, n: nat, bytes: seq<byte>)
    requires s.error == NoError && |bytes| == SLOT_SIZE && 5 <= n <= 18
    ensures var (s', error) := Queued(s, c, n, bytes);
            && Answer(c, n, error) && s'.error == error
            && (error != NoError ==> Refused(s, s', c) && s'.errorPointer == c.ppPointer)
  {
    hide Protect, OldPerm, Stamped, SlotWritten, GiveUp, Refused, Unmarked;
    GivenUp(s, c, c.protect, true);
    var s1 := s.(perms := Protect(s.perms, c.pbTarget, n, PAGE_EXECUTE_READWRITE));
    GivenUp(s1, c, c.headerProtect, true);
    RefusedToo(s, s1, GiveUp(s1, c, c.headerProtect, true).0, c);
  }

  lemma {:induction false} RefusedToo(s: State, s1: State, s': State, c: AttachCall)
    requires Refused(s1, s', c) && s1 == s.(perms := s1.perms)
    ensures Refused(s, s', c)
  {
  }

  lemma {:induction false} TriedAnswers(s: State, c: AttachCall) returns (n: nat)
    requires s.error == NoError && c.pbTarget + 32 <= |s.mem| && MoveInto(s.mem, c.pbTarget, c.slot).Some?
    ensures StopsAt(s.mem[c.pbTarget..c.pbTarget + 32], c.slot - c.pbTarget, 0, n)
    ensures var (s', error) := AttachWithSlot(s, c);
            && Answer(c, n, error) && (error != NoError ==> Refused(s, s', c) && s'.errorPointer == c.ppPointer)
            && s'.error == if n < 5 && s.ignoreTooSmall then NoError else error
  {
    hide MoveFrom, Queued, SlotBytes, GiveUp, StopsAt, Refused;
    MoveStops(Blank(), Window(s.mem, c.pbTarget), c.slot - c.pbTarget, 0);
    var m := MoveInto(s.mem, c.pbTarget, c.slot).value;
    n := m.cb;
    GivenUp(s, c, InvalidBlock, !s.ignoreTooSmall);
    GivenUp(s, c, InvalidHandle, true);
    if 5 <= n <= 18 {
      QueuedAnswers(s, c, n, SlotBytes(m.buf, n, c.pbTarget, c.slot));
    }
  }

  /**
   * Every answer of Attach in a pending transaction without an error: which error for which cause, that a refused
   * request queues nothing and leaves all code but its own slot alone, and which errors Commit will find.
   */
  lemma {:induction false} AttachAnswers(s: State, me: ThreadId, c: AttachCall) returns (n: nat)
    requires s.owner == me && s.error == NoError && c.pbTarget + 32 <= |s.mem|
    requires c.slot != NULL ==> MoveInto(s.mem, c.pbTarget, c.slot).Some?
    ensures c.slot != NULL ==> StopsAt(s.mem[c.pbTarget..c.pbTarget + 32], c.slot - c.pbTarget, 0, n)
    ensures var (s', error) := Attach(s, me, c);
            && (if Tries(s, c) then Answer(c, n, error)
                else error == (if !Points(s, c.ppPointer) then InvalidHandle
                               else if c.pDetour == c.pbTarget then NoError else NotEnoughMemory))
            && (error != NoError ==> Refused(s, s', c))
            && (error != NoError ==>
                  s'.errorPointer == if c.ppPointer != 0 && c.ppPointer in s.cells then c.ppPointer else s.errorPointer)
            && s'.error == (if c.ppPointer == NULL || c.ppPointer !in s.cells
                            || (Tries(s, c) && n < 5 && s.ignoreTooSmall)
                            then NoError else error)
  {
    hide MoveInto, AttachWithSlot, StopsAt, Answer;
    if c.slot == NULL {
      n := 0;
    } else {
      n := TriedAnswers(s, c);
    }
  }

  /**
   * A function that ends before its fifth byte is refused: the bytes behind it belong to another one.  Commit is told
   * of it unless small functions are to be ignored.
   */
  lemma {:induction false} ShortFunctionRefused(s: State, me: ThreadId, c: AttachCall, k: nat)
    requires s.owner == me && s.error == NoError && c.pbTarget + 32 <= |s.mem| && Tries(s, c)
    requires var code := s.mem[c.pbTarget..c.pbTarget + 32];
             Starts(code, 0, k) && LastAt(code, k) && Whole(code, k) && k + Length(code, k) < 5
    ensures var (s', error) := Attach(s, me, c);
            error == InvalidBlock && Refused(s, s', c) && s'.error == if s.ignoreTooSmall then NoError else InvalidBlock
  {
    hide Decode, Attach, Refused, MoveFrom, LastAt;
    var code := s.mem[c.pbTarget..c.pbTarget + 32];
    MovesToLast(Blank(), code, c.slot - c.pbTarget, 0, k);
    var n := AttachAnswers(s, me, c);
    assert n < 5;
  }

  // ------------------------------------------------------------------- detach

  /** The fields behind the pointer are those of a trampoline made for this detour. */
  predicate MadeFor(slot: Slot, pDetour: dword) { 1 <= slot.cbTarget <= 23 && slot.pbDetour == pDetour }

  /**
   * Every answer of Detach in a pending transaction without an error.  One that is accepted queues the removal of the
   * trampoline behind the pointer, for the function whose moved bytes end at its pbRemain; one that is refused
   * changes nothing but the recorded error.
   */
  lemma {:induction false} DetachAnswers(s: State, me: ThreadId, c: DetachCall)
    requires s.owner == me && s.error == NoError
    ensures var (s', error) := Detach(s, me, c);
            var t := if c.ppPointer in s.cells then s.cells[c.ppPointer] else 0;
            var slot := if t in s.live then s.live[t] else c.found;
            && error == (if !Points(s, c.ppPointer) then InvalidHandle
                         else if !c.haveOp then NotEnoughMemory
                         else if !MadeFor(slot, c.pDetour) then InvalidBlock
                         else c.protect)
            && s'.error == (if error == NoError || c.ppPointer == NULL || c.ppPointer !in s.cells
                               || (Points(s, c.ppPointer) && c.haveOp && !MadeFor(slot, c.pDetour) && s.ignoreTooSmall)
                            then NoError else error)
            && if error != NoError then s' == s.(error := s'.error, errorPointer := s'.errorPointer)
               else
                 && s'.mem == s.mem && s'.live == s.live && s'.cells == s.cells && s'.error == NoError
                 && |s'.ops| == |s.ops| + 1 && s'.ops[1..] == s.ops
                 && s'.ops[0].isRemove && s'.ops[0].ppbPointer == c.ppPointer && s'.ops[0].pTrampoline == t
                 && (s'.ops[0].pbTarget + slot.cbTarget - slot.pbRemain) % 0x1_0000_0000 == 0
  {
    hide Protect, OldPerm;
  }

  /** Detach of a live trampoline takes it down if and only if it was attached with this detour. */
  lemma {:induction false} DetachNeedsDetour(s: State, me: ThreadId, c: DetachCall)
    requires s.owner == me && s.error == NoError && Points(s, c.ppPointer) && c.haveOp && c.protect == NoError
    requires s.cells[c.ppPointer] in s.live && 5 <= s.live[s.cells[c.ppPointer]].cbTarget <= 18
    ensures Detach(s, me, c).1 == NoError <==> s.live[s.cells[c.ppPointer]].pbDetour == c.pDetour
    ensures |Detach(s, me, c).0.ops| == |s.ops| + 1 <==> s.live[s.cells[c.ppPointer]].pbDetour == c.pDetour
  {
    hide Protect, OldPerm;
  }

  // ------------------------------------------------------------- other calls

  /** A transaction begins afresh, whatever an earlier one has left behind. */
  lemma {:induction false} BeginsAfresh(s: State, left: State, me: ThreadId)
    requires s.owner == left.owner
    requires s == left.(ignoreTooSmall := s.ignoreTooSmall, error := s.error, errorPointer := s.errorPointer,
                        ops := s.ops, threads := s.threads)
    ensures if s.owner != 0 then Begin(s, me) == (s, InvalidOperation)
            else
              && Begin(s, me) == Begin(left, me) && Begin(s, me).1 == NoError
              && var s' := Begin(s, me).0;
              && s'.owner == me && s'.ops == [] && s'.threads == [] && s'.error == NoError && !s'.ignoreTooSmall
              && s'.mem == s.mem && s'.live == s.live && s'.cells == s.cells && s'.perms == s.perms
              && s'.suspended == s.suspended && s'.eips == s.eips
  {
  }

  /** What UpdateThread answers; the thread is suspended once for every entry. */
  lemma {:induction false} UpdateAnswers(s: State, c: UpdateCall)
    ensures var (s', error) := UpdateThread(s, c);
            && error == (if s.error != NoError then s.error else if c.isSelf then NoError
                         else if !c.haveThread then NotEnoughMemory else c.suspend)
            && s'.error == error
            && (error != NoError || c.isSelf ==> s' == s.(error := error, errorPointer := s'.errorPointer))
            && (error == NoError && !c.isSelf ==>
                  && |s'.threads| == |s.threads| + 1 && s'.threads[0] == c.hThread && s'.threads[1..] == s.threads
                  && (c.hThread in s.suspended ==> s'.suspended == s.suspended[c.hThread := s.suspended[c.hThread] + 1])
                  && s'.ops == s.ops && s'.eips == s.eips && s'.mem == s.mem)
  {
  }

  /** Only the owner ends a transaction, and one with an error ends as if it were aborted, the error returned. */
  lemma {:induction false} EndAnswers(s: State, me: ThreadId, readable: set<Handle>)
    ensures s.owner != me ==> Commit(s, me, readable) == (s, InvalidOperation) && Abort(s, me) == (s, InvalidOperation)
    ensures s.owner == me && s.error != NoError ==> Commit(s, me, readable) == (Abort(s, me).0, s.error)
    ensures s.owner == me ==>
              && Abort(s, me).1 == NoError && Abort(s, me).0.owner == 0
              && Abort(s, me).0.ops == [] && Abort(s, me).0.threads == [] && Abort(s, me).0.cells == s.cells
  {
    hide Protect, Zeroed, Resume;
    ReleaseKeepsCells(s, s.ops, true);
  }

  lemma {:induction false} ReleaseKeepsCells(s: State, ops: seq<Op>, aborting: bool)
    ensures ReleaseOps(s, ops, aborting).cells == s.cells
    decreases |ops|
  {
    hide Protect, Zeroed, SlotAt;
    if ops != [] {
      ReleaseKeepsCells(ReleaseOp(s, ops[0], aborting), ops[1..], aborting);
    }
  }

  /** A removal whose code does not come back in as many bytes is reported as invalid data of that pointer. */
  lemma {:induction false} RemovalFails(s: State, o: Op)
    requires o.isRemove && o.pbTarget + 32 <= |s.mem|
    requires MoveBack(s.mem, o, SlotAt(s, o.pTrampoline).cbTarget).Some?
    ensures var s', r := CommitOp(s, o), MoveBack(s.mem, o, SlotAt(s, o.pTrampoline).cbTarget).value;
            && s'.error == (if r.cb != SlotAt(s, o.pTrampoline).cbTarget then InvalidData else s.error)
            && (r.cb != SlotAt(s, o.pTrampoline).cbTarget ==> s'.errorPointer == o.ppbPointer)
            && s'.cells == s.cells[o.ppbPointer := o.pbTarget] && s'.mem == Blit(s.mem, o.pbTarget, r.buf)
  {
    hide MoveBack, SlotAt, Blit;
  }

  /** What a successful Attach opens: the pages of the bytes it moved, and those of a header it marks. */
  predicate Opened(perms: seq<Perm>, perms': seq<Perm>, at: dword, n: nat) {
    && |perms'| == |perms|
    && forall p :: 0 <= p < |perms| && at / 4096 <= p <= (at + n - 1) / 4096 ==> perms'[p] == 0x40
  }

  /** "Detours!" from offset 28 of the header on. */
  predicate Marked(mem: seq<byte>, h: dword) {
    h + 64 <= |mem| && mem[h + 28..h + 36] == [68, 101, 116, 111, 117, 114, 115, 33]
  }

  lemma {:induction false} StampedIsMarked(mem: seq<byte>, h: dword)
    requires h + 64 <= |mem|
    ensures Marked(Stamped(mem, h), h) && U16At(Stamped(mem, h), h + 28) == 0x6544
  {
    var m := Stamped(mem, h);
    BlitReads(mem, h + 28, [68, 101, 116, 111, 117, 114, 115, 33]);
    assert m[h + 28] == 68 && m[h + 29] == 101;
  }

  /** `s'` has the pages and the mark that attaching `n` bytes takes. */
  predicate OpensFor(s: State, s': State, c: AttachCall, n: nat) {
    && Opened(s.perms, s'.perms, c.pbTarget, n)
    && (c.header.Some? && c.header.value + 64 <= |s.mem| ==>
          && var h := c.header.value;
          && h + 64 <= |s'.mem| && U16At(s'.mem, h + 28) == 0x6544
          && ((h + 64 <= c.slot || c.slot + 32 <= h) && U16At(s.mem, h + 28) != 0x6544 ==>
                Marked(s'.mem, h) && Opened(s.perms, s'.perms, h, 64)))
  }

  /**
   * Where Attach queues an operation the target's pages are writable code, and the first word of e_res in the
   * module's header reads "De"; if it did not before, the whole mark is there and the header's pages are open too.
   */
  lemma {:induction false} AttachOpens(s: State, me: ThreadId, c: AttachCall)
    requires |Attach(s, me, c).0.ops| > |s.ops| && c.slot + 32 <= |s.mem|
    ensures MoveInto(s.mem, c.pbTarget, c.slot).Some?
    ensures OpensFor(s, Attach(s, me, c).0, c, MoveInto(s.mem, c.pbTarget, c.slot).value.cb)
  {
    hide AttachWithSlot, MoveInto, OpensFor;
    WithSlotOpens(s, c);
  }

  lemma {:induction false} WithSlotOpens(s: State, c: AttachCall)
    requires |AttachWithSlot(s, c).0.ops| > |s.ops| && c.slot + 32 <= |s.mem|
    ensures MoveInto(s.mem, c.pbTarget, c.slot).Some?
    ensures OpensFor(s, AttachWithSlot(s, c).0, c, MoveInto(s.mem, c.pbTarget, c.slot).value.cb)
  {
    hide MoveInto, SlotBytes, Queued, OpensFor;
    WithSlotQueues(s, c);
    var m := MoveInto(s.mem, c.pbTarget, c.slot).value;
    QueuedOpens(s, c, m.cb, SlotBytes(m.buf, m.cb, c.pbTarget, c.slot));
  }

  lemma {:induction false} QueuedOpens(s: State, c: AttachCall, n: byte, bytes: seq<byte>)
    requires |bytes| == SLOT_SIZE && c.slot + 32 <= |s.mem| && 5 <= n <= 18
    requires |Queued(s, c, n, bytes).0.ops| > |s.ops|
    ensures OpensFor(s, Queued(s, c, n, bytes).0, c, n)
  {
    hide SlotWritten, Stamped, Marked, Protect, Opened, Zeroed, OldPerm;
    var mem, perms := SlotWritten(s.mem, c.slot, bytes), Protect(s.perms, c.pbTarget, n, PAGE_EXECUTE_READWRITE);
    ProtectOpens(s.perms, c.pbTarget, n);
    if c.header.Some? {
      var h := c.header.value;
      ProtectOpens(perms, h, 64);
      StillOpened(s.perms, perms, Protect(perms, h, 64, PAGE_EXECUTE_READWRITE), c.pbTarget, n, h);
      if h + 64 <= |s.mem| {
        StampedIsMarked(mem, h);
        SlotMissesWord(s.mem, c.slot, bytes, h);
      }
    }
  }

  lemma {:induction false} ProtectOpens(perms: seq<Perm>, at: dword, n: nat)
    ensures Opened(perms, Protect(perms, at, n, PAGE_EXECUTE_READWRITE), at, n)
  {
  }

  /** Opening the header's pages closes none, and opens them from what they were at first too. */
  lemma {:induction false} StillOpened(perms: seq<Perm>, mid: seq<Perm>, perms': seq<Perm>, at: dword, n: nat, h: dword)
    requires Opened(perms, mid, at, n) && perms' == Protect(mid, h, 64, PAGE_EXECUTE_READWRITE)
    ensures Opened(perms, perms', at, n) && Opened(perms, perms', h, 64)
  {
  }

  lemma {:induction false} SlotMissesWord(mem: seq<byte>, t: dword, bytes: seq<byte>, h: dword)
    requires |bytes| == SLOT_SIZE && h + 64 <= |mem|
    ensures h + 64 <= t || t + 32 <= h ==> U16At(SlotWritten(mem, t, bytes), h + 28) == U16At(mem, h + 28)
  {
  }

  lemma {:induction false} WithSlotQueues(s: State, c: AttachCall)
    requires |AttachWithSlot(s, c).0.ops| > |s.ops|
    ensures var r := MoveInto(s.mem, c.pbTarget, c.slot);
            && r.Some? && 5 <= r.value.cb <= 18 && c.protect == NoError
  {
    hide MoveInto, SlotBytes, Zeroed, Stamped, Protect, OldPerm, SlotWritten, ToMark;
  }
}
