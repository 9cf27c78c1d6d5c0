/**
 * The transaction of detours.cpp as functions on a state value: what each API call does, in the order the code
 * does it.  The engine class is proved against these functions, and the invariants are proved about them.
 */
module Transaction {
  import opened Bytes
  import opened Disasm
  import opened Relocation
  import opened TrampolineRun
  import opened TrampolineHeap

  datatype Error =
    | NoError | InvalidOperation | InvalidHandle | NotEnoughMemory | InvalidBlock | InvalidData | Os(code: nat)

  type ThreadId = nat
  type Handle = nat
  type Perm = nat
  const PAGE_EXECUTE_READWRITE: Perm := 0x40
  /** s_nPendingThreadId when no transaction is pending. */
  const NOBODY: ThreadId := 0

  /** A DetourOperation: an attach, or a detach when `isRemove`. */
  datatype Op = Op(isRemove: bool, ppbPointer: dword, pbTarget: dword, pTrampoline: dword, dwPerm: Perm)

  /** The process as the transaction sees it, and the transaction's own variables. */
  datatype State = State(
    mem: seq<byte>,               // code bytes: targets and trampolines
    live: map<dword, Slot>,       // the trampolines handed out
    cells: map<dword, dword>,     // the callers' function pointers
    perms: seq<Perm>,             // page protections
    suspended: map<Handle, int>,  // suspend counts
    eips: map<Handle, dword>,     // where the other threads stand
    owner: ThreadId,
    ignoreTooSmall: bool,
    error: Error,
    errorPointer: dword,
    ops: seq<Op>,                 // s_pPendingOperations, head first
    threads: seq<Handle>)         // s_pPendingThreads, head first

  // ------------------------------------------------------------ page protection

  /** Whether page `p` holds one of the `cb` bytes from `at` on. */
  predicate Touches(p: nat, at: dword, cb: nat) { at / 4096 <= p <= (at + cb - 1) / 4096 }

  /** VirtualProtect: every page of the range gets the new protection. */
  function Protect(perms: seq<Perm>, at: dword, cb: nat, perm: Perm): (r: seq<Perm>)
    ensures |r| == |perms|
  {
    seq(|perms|, p requires 0 <= p < |perms| => if Touches(p, at, cb) then perm else perms[p])
  }

  /** What VirtualProtect reports as the old protection: that of the first page of the range. */
  function OldPerm(perms: seq<Perm>, at: dword): Perm {
    if at / 4096 < |perms| then perms[at / 4096] else 0
  }

  // ------------------------------------------------------------------- begin

  /** What Begin does after its compare-exchange won. */
  function Begun(s: State, me: ThreadId): State {
    s.(owner := me, ignoreTooSmall := false, ops := [], threads := [], error := NoError, errorPointer := NULL)
  }

  function Begin(s: State, me: ThreadId): (State, Error) {
    if s.owner != NOBODY then (s, InvalidOperation) else (Begun(s, me), NoError)
  }

  // ------------------------------------------------------------------ attach

  /** "Detours!", which Attach leaves in e_res; its first word is the multi-character constant that is compared. */
  const STAMP: seq<byte> := [68, 101, 116, 111, 117, 114, 115, 33]
  const STAMP_WORD: word := 0x6544

  /** Whether the module whose header is at `h` is not yet marked as detoured. */
  predicate Unmarked(mem: seq<byte>, h: dword) {
    h + DOS_HEADER_SIZE <= |mem| && U16At(mem, h + E_RES) != STAMP_WORD
  }

  function Stamped(mem: seq<byte>, h: dword): (r: seq<byte>)
    ensures |r| == |mem|
  {
    if h + DOS_HEADER_SIZE <= |mem| then Blit(mem, h + E_RES, STAMP) else mem
  }

  /**
   * The arguments of DetourAttachEx with the jumps behind both pointers already resolved, and what the system
   * answers: `slot` is the allocated slot or NULL, `haveOp` whether the operation record could be allocated,
   * `header` what detour_find_header found, and the errors those of the target's and the header's VirtualProtect.
   */
  datatype AttachCall = AttachCall(ppPointer: dword, pbTarget: dword, pDetour: dword, haveOp: bool, slot: dword,
                                   protect: Error, header: Option<dword>, headerProtect: Error)

  /** The bytes of a function the mover may look at, a slot's worth. */
  function Window(mem: seq<byte>, at: dword): (w: seq<byte>)
    ensures at + SLOT_SIZE <= |mem| ==> w == mem[at..at + SLOT_SIZE] && |w| == SLOT_SIZE
  {
    if at + SLOT_SIZE <= |mem| then mem[at..at + SLOT_SIZE] else []
  }

  function Blank(): (b: seq<byte>)
    ensures |b| == SLOT_SIZE
  {
    seq(SLOT_SIZE, _ => INT3)
  }

  /** The moving loop run on the function at `pbTarget` for a trampoline at `t`. */
  function MoveInto(mem: seq<byte>, pbTarget: dword, t: dword): (r: Option<Progress>)
    ensures r.Some? ==> r.value.cb <= |r.value.buf| == SLOT_SIZE
  {
    MoveFrom(Blank(), Window(mem, pbTarget), t - pbTarget, 0)
  }

  /** A finished slot: `n` moved bytes, the jump to the rest of the function, and INT3 behind it. */
  function SlotBytes(buf: seq<byte>, n: nat, pbTarget: dword, t: dword): (bs: seq<byte>)
    requires n <= |buf| && n <= CODE_SIZE - SIZE_OF_JMP
    ensures |bs| == SLOT_SIZE
  {
    buf[..n] + JumpBytes(t + n, pbTarget + n) + seq(SLOT_SIZE - SIZE_OF_JMP - n, _ => INT3)
  }

  function Zeroed(mem: seq<byte>, t: dword): seq<byte> {
    if t + SLOT_SIZE <= |mem| then Blit(mem, t, seq(SLOT_SIZE, _ => 0)) else mem
  }

  /** The `fail` and `stop` exits of Attach: the slot goes back, and `record` keeps the error for Commit. */
  function GiveUp(s: State, c: AttachCall, error: Error, record: bool): (State, Error) {
    var s' := if c.slot == NULL then s else s.(mem := Zeroed(s.mem, c.slot));
    (s'.(error := if record then error else s.error, errorPointer := c.ppPointer), error)
  }

  /** Memory with the finished slot in it. */
  function SlotWritten(mem: seq<byte>, t: dword, bytes: seq<byte>): (r: seq<byte>)
    requires |bytes| == SLOT_SIZE
    ensures |r| == |mem|
  {
    if t + SLOT_SIZE <= |mem| then Blit(mem, t, bytes) else mem
  }

  /** The header that Attach marks, if any. */
  function ToMark(mem: seq<byte>, c: AttachCall): (h: Option<dword>)
    ensures h.Some? ==> c.header == h && Unmarked(mem, h.value)
  {
    if c.header.Some? && Unmarked(mem, c.header.value) then c.header else None
  }

  /**
   * The end of Attach, with the finished slot's bytes: protect the target's pages, mark the header once its page is
   * writable, which nothing undoes, and queue the operation.
   */
  function Queued(s: State, c: AttachCall, n: byte, bytes: seq<byte>): (State, Error)
    requires |bytes| == SLOT_SIZE
  {
    if c.protect != NoError then GiveUp(s, c, c.protect, true)
    else
      var perms, mem := Protect(s.perms, c.pbTarget, n, PAGE_EXECUTE_READWRITE), SlotWritten(s.mem, c.slot, bytes);
      var h := ToMark(mem, c);
      if h.Some? && c.headerProtect != NoError then GiveUp(s.(perms := perms), c, c.headerProtect, true)
      else
        (s.(mem := if h.Some? then Stamped(mem, h.value) else mem,
            live := s.live[c.slot := Slot(n, WrapAddr(c.pbTarget + n), c.pDetour)],
            perms := if h.Some? then Protect(perms, h.value, DOS_HEADER_SIZE, PAGE_EXECUTE_READWRITE) else perms,
            ops := [Op(false, c.ppPointer, c.pbTarget, c.slot, OldPerm(s.perms, c.pbTarget))] + s.ops), NoError)
  }

  /** Attach once a slot is at hand: move instructions, and queue the operation if enough but not too many moved. */
  function AttachWithSlot(s: State, c: AttachCall): (State, Error) {
    var r := MoveInto(s.mem, c.pbTarget, c.slot);
    if r.None? then (s, NoError)  // excluded by every caller: the code cannot be read or moved into one slot
    else
      var n := r.value.cb;
      if n < SIZE_OF_JMP then GiveUp(s, c, InvalidBlock, !s.ignoreTooSmall)
      else if n > CODE_SIZE - SIZE_OF_JMP then GiveUp(s, c, InvalidHandle, true)
      else Queued(s, c, n, SlotBytes(r.value.buf, n, c.pbTarget, c.slot))
  }

  /** The two states differ in code, trampolines, protections, operations and errors at most. */
  predicate SameElsewhere(s: State, s': State) {
    && s'.cells == s.cells && s'.suspended == s.suspended && s'.eips == s.eips && s'.owner == s.owner
    && s'.ignoreTooSmall == s.ignoreTooSmall && s'.threads == s.threads
  }

  /** Attaching touches neither pointers nor threads nor the owner. */
  lemma {:induction false} AttachWithSlotSame(s: State, c: AttachCall)
    ensures SameElsewhere(s, AttachWithSlot(s, c).0)
  {
    hide MoveInto, SlotBytes, GiveUp, Queued;
    var r := MoveInto(s.mem, c.pbTarget, c.slot);
    GiveUpSame(s, c, InvalidBlock, !s.ignoreTooSmall);
    GiveUpSame(s, c, InvalidHandle, true);
    if r.Some? && SIZE_OF_JMP <= r.value.cb <= CODE_SIZE - SIZE_OF_JMP {
      QueuedSame(s, c, r.value.cb, SlotBytes(r.value.buf, r.value.cb, c.pbTarget, c.slot));
    }
  }

  lemma {:induction false} GiveUpSame(s: State, c: AttachCall, error: Error, record: bool)
    ensures SameElsewhere(s, GiveUp(s, c, error, record).0)
  {
    hide Zeroed;
  }

  lemma {:induction false} QueuedSame(s: State, c: AttachCall, n: byte, bytes: seq<byte>)
    requires |bytes| == SLOT_SIZE
    ensures SameElsewhere(s, Queued(s, c, n, bytes).0)
  {
    hide Protect, OldPerm, GiveUp, ToMark, Stamped, SlotWritten;
    GiveUpSame(s, c, c.protect, true);
    GiveUpSame(s.(perms := Protect(s.perms, c.pbTarget, n, PAGE_EXECUTE_READWRITE)), c, c.headerProtect, true);
  }

  function Attach(s: State, me: ThreadId, c: AttachCall): (State, Error) {
    if s.owner != me then (s, InvalidOperation)
    else if s.error != NoError then (s, s.error)
    else if c.ppPointer == NULL || c.ppPointer !in s.cells then (s, InvalidHandle)
    else if s.cells[c.ppPointer] == NULL then
      (s.(error := InvalidHandle, errorPointer := c.ppPointer), InvalidHandle)
    else if c.pDetour == c.pbTarget then (s.(errorPointer := c.ppPointer), NoError)
    else if !c.haveOp then (s.(error := NotEnoughMemory, errorPointer := c.ppPointer), NotEnoughMemory)
    else if c.slot == NULL then (s.(error := NotEnoughMemory, errorPointer := c.ppPointer), NotEnoughMemory)
    else AttachWithSlot(s, c)
  }

  /**
   * Attach reports success without queueing anything if and only if the pointer resolves to the detour itself; any
   * other success queues exactly one operation, the attach of this pointer.
   */
  lemma {:induction false} SucceedsWithoutHooking(s: State, me: ThreadId, c: AttachCall)
    requires c.slot != NULL ==> MoveInto(s.mem, c.pbTarget, c.slot).Some?
    ensures var (s', error) := Attach(s, me, c);
            && (error == NoError && s'.ops == s.ops
                <==> s.owner == me && s.error == NoError && c.ppPointer != NULL && c.ppPointer in s.cells
                     && s.cells[c.ppPointer] != NULL && c.pDetour == c.pbTarget)
            && (error == NoError && c.pDetour != c.pbTarget ==>
                  && |s'.ops| == |s.ops| + 1 && s'.ops[1..] == s.ops
                  && s'.ops[0] == Op(false, c.ppPointer, c.pbTarget, c.slot, OldPerm(s.perms, c.pbTarget)))
  {
    hide MoveInto, Protect, OldPerm, Blit, SlotBytes, Zeroed, ToMark, Stamped, SlotWritten;
    var s' := Attach(s, me, c).0;
    assert |s'.ops| == |s.ops| + 1 ==> s'.ops != s.ops;
  }

  /** For one: thread 1 attaches the function at 0x401000 to itself, and its Commit then reports success too. */
  lemma {:induction false} SelfDetour(mem: seq<byte>, live: map<dword, Slot>, perms: seq<Perm>)
    ensures var s := State(mem, live, map[8 := 0x40_1000], perms, map[], map[], 1, false, NoError, NULL, [], []);
            var c := AttachCall(8, 0x40_1000, 0x40_1000, true, 0x7_0060, NoError, None, NoError);
            && Attach(s, 1, c) == (s.(errorPointer := 8), NoError)
            && Commit(Attach(s, 1, c).0, 1, {}) == (s.(errorPointer := 8, owner := NOBODY), NoError)
  {
  }

  // ------------------------------------------------------------------ detach

  /**
   * The arguments of DetourDetach, with the jumps behind pDetour resolved, and what the system answers.  `found`
   * are the fields that stand behind the pointer when it does not hold a trampoline that was handed out.
   */
  datatype DetachCall = DetachCall(ppPointer: dword, pDetour: dword, haveOp: bool, protect: Error, found: Slot)

  /** The fields of a trampoline, read from whatever bytes stand at `t`. */
  function FieldsAt(mem: seq<byte>, t: dword): (slot: Slot) {
    if t + SLOT_SIZE <= |mem| then Slot(mem[t + CODE_SIZE], U32At(mem, t + 24), U32At(mem, t + 28)) else Slot(0, 0, 0)
  }

  /** The fields of a trampoline that was handed out, or of whatever else stands there. */
  function SlotAt(s: State, t: dword): Slot {
    if t in s.live then s.live[t] else FieldsAt(s.mem, t)
  }

  /** What Detach makes sure of before it takes the bytes behind the pointer for a trampoline of this detour. */
  predicate LooksHooked(slot: Slot, pDetour: dword) {
    0 < slot.cbTarget <= CODE_SIZE && slot.pbDetour == pDetour
  }

  /** pbRemain - cbTarget. */
  function TargetOf(slot: Slot): dword { WrapAddr(slot.pbRemain - slot.cbTarget) }

  function Detach(s: State, me: ThreadId, c: DetachCall): (State, Error) {
    if s.owner != me then (s, InvalidOperation)
    else if s.error != NoError then (s, s.error)
    else if c.ppPointer == NULL || c.ppPointer !in s.cells then (s, InvalidHandle)
    else if s.cells[c.ppPointer] == NULL then
      (s.(error := InvalidHandle, errorPointer := c.ppPointer), InvalidHandle)
    else if !c.haveOp then (s.(error := NotEnoughMemory, errorPointer := c.ppPointer), NotEnoughMemory)
    else
      var t := s.cells[c.ppPointer];
      var slot := if t in s.live then s.live[t] else c.found;
      if !LooksHooked(slot, c.pDetour) then
        (s.(error := if s.ignoreTooSmall then NoError else InvalidBlock, errorPointer := c.ppPointer), InvalidBlock)
      else if c.protect != NoError then (s.(error := c.protect, errorPointer := c.ppPointer), c.protect)
      else
        var pbTarget := TargetOf(slot);
        var op := Op(true, c.ppPointer, pbTarget, t, OldPerm(s.perms, pbTarget));
        (s.(perms := Protect(s.perms, pbTarget, slot.cbTarget, PAGE_EXECUTE_READWRITE), ops := [op] + s.ops), NoError)
  }

  // ----------------------------------------------------------- update thread

  /** `isSelf` for the caller's own pseudo handle; `haveThread` and `suspend` are the system's answers. */
  datatype UpdateCall = UpdateCall(hThread: Handle, isSelf: bool, haveThread: bool, suspend: Error)

  /** A thread's suspend count goes up or down. */
  function Bump(suspended: map<Handle, int>, h: Handle, d: int): map<Handle, int> {
    if h in suspended then suspended[h := suspended[h] + d] else suspended
  }

  function UpdateThread(s: State, c: UpdateCall): (State, Error) {
    if s.error != NoError then (s, s.error)
    else if c.isSelf then (s, NoError)
    else if !c.haveThread then (s.(error := NotEnoughMemory, errorPointer := NULL), NotEnoughMemory)
    else if c.suspend != NoError then (s.(error := c.suspend, errorPointer := NULL), c.suspend)
    else (s.(suspended := Bump(s.suspended, c.hThread, 1), threads := [c.hThread] + s.threads), NoError)
  }

  // ---------------------------------------------------------- commit and abort

  /** jmp to the detour over the target's first bytes, INT3 up to pbRemain. */
  function PatchBytes(pbTarget: dword, slot: Slot): (bs: seq<byte>)
    ensures |bs| == if slot.cbTarget >= SIZE_OF_JMP then slot.cbTarget else SIZE_OF_JMP
  {
    JumpBytes(pbTarget, slot.pbDetour) + (if slot.cbTarget > SIZE_OF_JMP
                                          then seq(slot.cbTarget - SIZE_OF_JMP, _ => INT3) else [])
  }

  /** The copying-back loop run for one detach. */
  function MoveBack(mem: seq<byte>, o: Op, cbTarget: nat): Option<Progress> {
    UnmoveFrom(Window(mem, o.pbTarget), Window(mem, o.pTrampoline), o.pbTarget - o.pTrampoline, cbTarget, 0)
  }

  /** One operation of the insert-or-remove loop. */
  function CommitOp(s: State, o: Op): State {
    var slot := SlotAt(s, o.pTrampoline);
    if o.isRemove then
      var r := MoveBack(s.mem, o, slot.cbTarget);
      var s' := s.(cells := s.cells[o.ppbPointer := o.pbTarget]);
      if r.None? || o.pbTarget + SLOT_SIZE > |s.mem| then s'
      else
        var s'' := s'.(mem := Blit(s.mem, o.pbTarget, r.value.buf));
        if r.value.cb != slot.cbTarget then s''.(error := InvalidData, errorPointer := o.ppbPointer) else s''
    else
      var bytes := PatchBytes(o.pbTarget, slot);
      s.(mem := if o.pbTarget + |bytes| <= |s.mem| then Blit(s.mem, o.pbTarget, bytes) else s.mem,
         cells := s.cells[o.ppbPointer := o.pTrampoline])
  }

  function CommitOps(s: State, ops: seq<Op>): State
    decreases |ops|
  {
    if ops == [] then s else CommitOps(CommitOp(s, ops[0]), ops[1..])
  }

  /** Inserting and removing touches nothing but code, pointers and the error. */
  lemma {:induction false} CommitOpSame(s: State, o: Op)
    ensures var s' := CommitOp(s, o);
            s' == s.(mem := s'.mem, cells := s'.cells, error := s'.error, errorPointer := s'.errorPointer)
  {
    hide MoveBack, PatchBytes, Blit;
  }

  lemma {:induction false} CommitOpsSame(s: State, ops: seq<Op>)
    ensures var s' := CommitOps(s, ops);
            s' == s.(mem := s'.mem, cells := s'.cells, error := s'.error, errorPointer := s'.errorPointer)
    decreases |ops|
  {
    hide CommitOp;
    if ops != [] {
      CommitOpSame(s, ops[0]);
      CommitOpsSame(CommitOp(s, ops[0]), ops[1..]);
    }
  }

  /** How one operation moves a suspended thread; the size tested on removal is that of a pointer. */
  function FixEip(eip: dword, live: map<dword, Slot>, o: Op): dword {
    if o.isRemove then
      if o.pTrampoline <= eip < o.pTrampoline + 4 then WrapAddr(eip - o.pTrampoline + o.pbTarget) else eip
    else
      var cb := if o.pTrampoline in live then live[o.pTrampoline].cbTarget else 0;
      if o.pbTarget <= eip < o.pbTarget + cb then WrapAddr(eip - o.pbTarget + o.pTrampoline) else eip
  }

  function FixEips(eip: dword, live: map<dword, Slot>, ops: seq<Op>): dword
    decreases |ops|
  {
    if ops == [] then eip else FixEips(FixEip(eip, live, ops[0]), live, ops[1..])
  }

  /** The pass over the suspended threads; `readable` are those whose context can be read. */
  function FixThreads(eips: map<Handle, dword>, live: map<dword, Slot>, ops: seq<Op>, threads: seq<Handle>,
                      readable: set<Handle>): map<Handle, dword>
    decreases |threads|
  {
    if threads == [] then eips
    else
      var h := threads[0];
      var eips' := if h in readable && h in eips then eips[h := FixEips(eips[h], live, ops)] else eips;
      FixThreads(eips', live, ops, threads[1..], readable)
  }

  /** Restore one page protection, and free the trampoline of a removal or, when aborting, of an insertion. */
  function ReleaseOp(s: State, o: Op, aborting: bool): State {
    var s' := s.(perms := Protect(s.perms, o.pbTarget, SlotAt(s, o.pTrampoline).cbTarget, o.dwPerm));
    if o.isRemove != aborting then s'.(live := s'.live - {o.pTrampoline}, mem := Zeroed(s'.mem, o.pTrampoline)) else s'
  }

  function ReleaseOps(s: State, ops: seq<Op>, aborting: bool): State
    decreases |ops|
  {
    if ops == [] then s else ReleaseOps(ReleaseOp(s, ops[0], aborting), ops[1..], aborting)
  }

  function Resume(suspended: map<Handle, int>, threads: seq<Handle>): map<Handle, int>
    decreases |threads|
  {
    if threads == [] then suspended else Resume(Bump(suspended, threads[0], -1), threads[1..])
  }

  /** The common end of Commit and Abort: nothing pending, nobody suspended, nobody owning. */
  function Finish(s: State): State {
    s.(suspended := Resume(s.suspended, s.threads), ops := [], threads := [], owner := NOBODY)
  }

  function Aborted(s: State): State { Finish(ReleaseOps(s, s.ops, true)) }

  function Abort(s: State, me: ThreadId): (State, Error) {
    if s.owner != me then (s, InvalidOperation) else (Aborted(s), NoError)
  }

  function Committed(s: State, readable: set<Handle>): State {
    var s' := CommitOps(s, s.ops);
    var s'' := s'.(eips := FixThreads(s'.eips, s'.live, s.ops, s.threads, readable));
    Finish(ReleaseOps(s'', s.ops, false))
  }

  /** Commit up to and including the release of the transaction; the error it returns is read after that. */
  function Commit(s: State, me: ThreadId, readable: set<Handle>): (State, Error) {
    if s.owner != me then (s, InvalidOperation)
    else if s.error != NoError then (Aborted(s), s.error)
    else
      var s' := Committed(s, readable);
      (s', s'.error)
  }
}
