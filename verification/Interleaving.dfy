/**
 * The transaction under every interleaving of threads.  Begin is three steps around its compare-exchange, Commit
 * reads the error it returns only after it has released the transaction, and every other call is one step: a call
 * by a thread that does not own the transaction only reads the owner, but for DetourSetIgnoreTooSmall and
 * DetourUpdateThread, which do not look at it.
 */
module Interleaving {
  import opened Bytes
  import opened TrampolineHeap
  import opened Transaction
  import opened Restoration
  import Threads

  /** Where a thread is inside DetourTransactionBegin or DetourTransactionCommitEx. */
  datatype Pc = Idle | BeginChecked | BeginWon | CommitReleased

  /** The shared state, each thread's place, and the threads whose Begin succeeded and has not been ended. */
  datatype System = System(s: State, pc: map<ThreadId, Pc>, inside: set<ThreadId>)

  function PcOf(sys: System, t: ThreadId): Pc { if t in sys.pc then sys.pc[t] else Idle }

  datatype Step =
    | BeginCheck(t: ThreadId)
    | BeginSwap(t: ThreadId)
    | BeginInit(t: ThreadId)
    | Api(t: ThreadId, call: Call)
    | CommitReturn(t: ThreadId)

  /** The thread a call is made by, where the call looks at it. */
  predicate CalledBy(t: ThreadId, call: Call) {
    match call
    case CallBegin(_) => false
    case CallUpdateThread(_) => true
    case CallAttach(me, _) => me == t
    case CallDetach(me, _) => me == t
    case CallCommit(me, _) => me == t
    case CallAbort(me) => me == t
    case CallIgnoreTooSmall(_) => true
  }

  predicate Enabled(sys: System, step: Step) {
    step.t != NOBODY &&
    match step
    case BeginCheck(t) => PcOf(sys, t) == Idle
    case BeginSwap(t) => PcOf(sys, t) == BeginChecked
    case BeginInit(t) => PcOf(sys, t) == BeginWon
    case Api(t, call) => PcOf(sys, t) == Idle && CalledBy(t, call)
    case CommitReturn(t) => PcOf(sys, t) == CommitReleased
  }

  function Next(sys: System, step: Step): System {
    match step
    case BeginCheck(t) =>
      if sys.s.owner != NOBODY then sys else sys.(pc := sys.pc[t := BeginChecked])
    case BeginSwap(t) =>
      if sys.s.owner != NOBODY then sys.(pc := sys.pc[t := Idle])
      else System(sys.s.(owner := t), sys.pc[t := BeginWon], sys.inside + {t})
    case BeginInit(t) => System(Begun(sys.s, t), sys.pc[t := Idle], sys.inside)
    case Api(t, call) =>
      var s' := Apply(sys.s, call);
      var ended := (call.CallCommit? || call.CallAbort?) && sys.s.owner == t;
      System(s', if ended && call.CallCommit? then sys.pc[t := CommitReleased] else sys.pc,
             if ended then sys.inside - {t} else sys.inside)
    case CommitReturn(t) => sys.(pc := sys.pc[t := Idle])
  }

  /** What a returning Commit reports. */
  function Returned(sys: System): Error { sys.s.error }

  // ---------------------------------------------------------------- ownership

  /** The threads inside a transaction are exactly the owner, and only the owner is about to initialize one. */
  ghost predicate Exclusive(sys: System) {
    && sys.inside == (if sys.s.owner == NOBODY then {} else {sys.s.owner})
    && forall t :: PcOf(sys, t) == BeginWon ==> sys.s.owner == t && t != NOBODY
  }

  lemma {:induction false} ApplyOwner(s: State, t: ThreadId, call: Call)
    requires CalledBy(t, call) && t != NOBODY
    ensures Apply(s, call).owner
         == if (call.CallCommit? || call.CallAbort?) && s.owner == t then NOBODY else s.owner
    ensures s.owner != t ==>
              Apply(s, call)
              == match call
                 case CallIgnoreTooSmall(fIgnore) => s.(ignoreTooSmall := fIgnore)
                 case CallUpdateThread(c) => UpdateThread(s, c).0
                 case _ => s
  {
    hide AttachWithSlot, Committed, Aborted, Protect, OldPerm, TargetOf;
    match call {
      case CallAttach(me, c) => AttachWithSlotSame(s, c);
      case CallCommit(me, readable) => CommitOwner(s, readable);
      case CallAbort(me) => CommitOwner(s, {});
      case CallDetach(me, c) =>
      case CallUpdateThread(c) =>
      case CallIgnoreTooSmall(fIgnore) =>
    }
  }

  lemma {:induction false} CommitOwner(s: State, readable: set<Handle>)
    ensures Committed(s, readable).owner == NOBODY && Aborted(s).owner == NOBODY
  {
    hide CommitOps, ReleaseOps, FixThreads, Resume;
  }

  lemma {:induction false} NextExclusive(sys: System, step: Step)
    requires Exclusive(sys) && Enabled(sys, step)
    ensures Exclusive(Next(sys, step))
  {
    hide Apply;
    var sys' := Next(sys, step);
    if step.Api? {
      ApplyOwner(sys.s, step.t, step.call);
    }
    assert sys'.inside == (if sys'.s.owner == NOBODY then {} else {sys'.s.owner});
    forall t | PcOf(sys', t) == BeginWon ensures sys'.s.owner == t && t != NOBODY {
      assert t != step.t ==> PcOf(sys, t) == BeginWon;
    }
  }

  /**
   * A thread that does not own the transaction can take a free one, set s_fIgnoreTooSmall, and do what
   * DetourUpdateThread does, and nothing else.
   */
  lemma {:induction false} OthersChangeNothing(sys: System, step: Step)
    requires Exclusive(sys) && Enabled(sys, step) && step.t != sys.s.owner
    ensures Next(sys, step).s
         == if step.Api? && step.call.CallIgnoreTooSmall? then sys.s.(ignoreTooSmall := step.call.fIgnore)
            else if step.Api? && step.call.CallUpdateThread? then UpdateThread(sys.s, step.call.thread).0
            else if step.BeginSwap? && sys.s.owner == NOBODY then sys.s.(owner := step.t) else sys.s
  {
    hide Apply;
    if step.Api? {
      ApplyOwner(sys.s, step.t, step.call);
    }
  }

  // --------------------------------------------------------------------- runs

  ghost predicate StepOk(w: World, sys: System, step: Step) {
    Enabled(sys, step) && (step.Api? ==> CallOk(w, sys.s, step.call))
  }

  ghost predicate StepsOk(w: World, sys: System, steps: seq<Step>)
    decreases |steps|
  {
    steps == [] || (StepOk(w, sys, steps[0]) && StepsOk(w, Next(sys, steps[0]), steps[1..]))
  }

  function RunSteps(sys: System, steps: seq<Step>): System
    decreases |steps|
  {
    if steps == [] then sys else RunSteps(Next(sys, steps[0]), steps[1..])
  }

  function StepDone(sys: System, done: set<dword>, step: Step): set<dword> {
    if step.Api? then DoneNext(sys.s, done, step.call) else done
  }

  function StepHooked(sys: System, hooked: set<dword>, step: Step): set<dword> {
    if step.Api? then HookedNext(sys.s, hooked, step.call) else hooked
  }

  function StepsDone(sys: System, done: set<dword>, steps: seq<Step>): set<dword>
    decreases |steps|
  {
    if steps == [] then done else StepsDone(Next(sys, steps[0]), StepDone(sys, done, steps[0]), steps[1..])
  }

  function StepsHooked(sys: System, hooked: set<dword>, steps: seq<Step>): set<dword>
    decreases |steps|
  {
    if steps == [] then hooked else StepsHooked(Next(sys, steps[0]), StepHooked(sys, hooked, steps[0]), steps[1..])
  }

  /** A thread that has taken the transaction but not yet initialized it finds nothing pending. */
  ghost predicate FreshlyWon(sys: System) {
    forall t :: PcOf(sys, t) == BeginWon ==> sys.s.ops == []
  }

  ghost predicate Sound(w: World, sys: System, done: set<dword>, hooked: set<dword>) {
    Good(w, sys.s, done, hooked) && Exclusive(sys) && FreshlyWon(sys)
  }

  lemma {:induction false} WonStaysFresh(sys: System, step: Step)
    requires Exclusive(sys) && FreshlyWon(sys) && Enabled(sys, step) && (sys.s.owner == NOBODY ==> sys.s.ops == [])
    ensures FreshlyWon(Next(sys, step))
  {
    hide Apply;
    if step.Api? {
      ApplyOwner(sys.s, step.t, step.call);
    }
    var sys' := Next(sys, step);
    forall t | PcOf(sys', t) == BeginWon ensures sys'.s.ops == [] {
      assert t != step.t ==> PcOf(sys, t) == BeginWon;
    }
  }

  lemma {:induction false} NextSound(w: World, sys: System, done: set<dword>, hooked: set<dword>, step: Step)
    requires Sound(w, sys, done, hooked) && StepOk(w, sys, step)
    ensures Sound(w, Next(sys, step), StepDone(sys, done, step), StepHooked(sys, hooked, step))
  {
    hide Good, CallOk, Apply, DoneNext, HookedNext, Exclusive, FreshlyWon;
    NextExclusive(sys, step);
    GoodOwner(w, sys.s, done, hooked);
    WonStaysFresh(sys, step);
    if step.Api? {
      ApplyKeeps(w, sys.s, done, hooked, step.call);
    } else {
      BeginFields(w, sys, done, hooked, step);
    }
  }

  lemma {:induction false} BeginFields(w: World, sys: System, done: set<dword>, hooked: set<dword>, step: Step)
    requires Sound(w, sys, done, hooked) && Enabled(sys, step) && !step.Api?
    ensures Good(w, Next(sys, step).s, done, hooked)
  {
    hide Good, Exclusive;
    GoodOwner(w, sys.s, done, hooked);
    SameHooks(w, sys.s, Next(sys, step).s, done, hooked);
  }

  /** Under every interleaving at most one thread is inside a transaction, and the process stays in order. */
  lemma {:induction false} InterleavingSound(w: World, sys: System, done: set<dword>, hooked: set<dword>,
                                             steps: seq<Step>)
    requires Sound(w, sys, done, hooked) && StepsOk(w, sys, steps)
    ensures var sys' := RunSteps(sys, steps);
            && Sound(w, sys', StepsDone(sys, done, steps), StepsHooked(sys, hooked, steps))
            && |sys'.inside| <= 1
    decreases |steps|
  {
    hide Good, StepOk, Next, StepDone, StepHooked, FreshlyWon;
    if steps != [] {
      NextSound(w, sys, done, hooked, steps[0]);
      InterleavingSound(w, Next(sys, steps[0]), StepDone(sys, done, steps[0]), StepHooked(sys, hooked, steps[0]),
                        steps[1..]);
    }
  }

  // ------------------------------------------------------- all or nothing

  /** The one kind of step that may change targets and pointers: the owner's Commit without a recorded error. */
  predicate Commits(sys: System, step: Step) {
    step.Api? && step.call.CallCommit? && step.t == sys.s.owner && sys.s.error == NoError
  }

  /** The code outside the trampoline regions and the stamps, and the pointers, are the same in both states. */
  ghost predicate SameProgram(w: World, s: State, s': State) {
    && s'.cells == s.cells && |s'.mem| == |s.mem|
    && forall i :: 0 <= i < |s.mem| && Outside(w, i) ==> s'.mem[i] == s.mem[i]
  }

  lemma {:induction false} SlotWriteProgram(w: World, s: State, s': State, t: dword, bs: seq<byte>)
    requires |s.mem| == ADDRESS_SPACE && IsSlot(t) && RegionOf(t) in w.arena && |bs| == Relocation.SLOT_SIZE
    requires t + |bs| <= |s.mem| && s'.cells == s.cells && s'.mem == Blit(s.mem, t, bs)
    ensures SameProgram(w, s, s')
  {
    hide InArena, IsSlot, RegionOf;
    SlotInArena(w, t);
  }

  lemma {:induction false} AttachSameProgram(w: World, s: State, me: ThreadId, c: AttachCall)
    requires |s.mem| == ADDRESS_SPACE
    requires s.owner == me && s.error == NoError ==> AttachOk(w, s, c)
    ensures SameProgram(w, s, Attach(s, me, c).0)
  {
    hide AttachOk, AttachWithSlot, IsSlot, RegionOf, SameProgram;
    var s' := Attach(s, me, c).0;
    AttachWithSlotSame(s, c);
    if s'.mem == s.mem {
      Unchanged(w, s, s');
    } else {
      AttachFacts(w, s, c);
      AttachWrites(w, s, c);
    }
  }

  /** Whatever Attach writes, it writes into its own slot or a stamp. */
  lemma {:induction false} AttachWrites(w: World, s: State, c: AttachCall)
    requires |s.mem| == ADDRESS_SPACE && c.slot != NULL && IsSlot(c.slot) && RegionOf(c.slot) in w.arena
    requires c.header.Some? ==> c.header.value in w.headers
    ensures SameProgram(w, s, AttachWithSlot(s, c).0)
  {
    hide MoveInto, GiveUp, Queued, SameProgram, IsSlot, RegionOf, SlotBytes;
    var r := MoveInto(s.mem, c.pbTarget, c.slot);
    GiveUpWrites(w, s, c, InvalidBlock, !s.ignoreTooSmall);
    GiveUpWrites(w, s, c, InvalidHandle, true);
    if r.None? {
      Unchanged(w, s, s);
    } else if Relocation.SIZE_OF_JMP <= r.value.cb <= Relocation.CODE_SIZE - Relocation.SIZE_OF_JMP {
      QueuedWrites(w, s, c, r.value.cb, SlotBytes(r.value.buf, r.value.cb, c.pbTarget, c.slot));
    }
  }

  lemma {:induction false} GiveUpWrites(w: World, s: State, c: AttachCall, error: Error, record: bool)
    requires |s.mem| == ADDRESS_SPACE && c.slot != NULL && IsSlot(c.slot) && RegionOf(c.slot) in w.arena
    ensures SameProgram(w, s, GiveUp(s, c, error, record).0)
  {
    hide IsSlot, RegionOf, SameProgram;
    SlotInArena(w, c.slot);
    SlotWriteProgram(w, s, GiveUp(s, c, error, record).0, c.slot, seq(Relocation.SLOT_SIZE, _ => 0));
  }

  lemma {:induction false} QueuedWrites(w: World, s: State, c: AttachCall, n: byte, bytes: seq<byte>)
    requires |s.mem| == ADDRESS_SPACE && c.slot != NULL && IsSlot(c.slot) && RegionOf(c.slot) in w.arena
    requires (c.header.Some? ==> c.header.value in w.headers) && |bytes| == Relocation.SLOT_SIZE
    ensures SameProgram(w, s, Queued(s, c, n, bytes).0)
  {
    hide IsSlot, RegionOf, Protect, OldPerm, GiveUp, Stamped, Unmarked;
    SlotInArena(w, c.slot);
    var perms, mem := Protect(s.perms, c.pbTarget, n, PAGE_EXECUTE_READWRITE), SlotWritten(s.mem, c.slot, bytes);
    GiveUpWrites(w, s, c, c.protect, true);
    GiveUpWrites(w, s.(perms := perms), c, c.headerProtect, true);
    SlotWriteProgram(w, s, s.(mem := mem), c.slot, bytes);
    if c.header.Some? {
      StampMisses(w, mem, c.header.value);
    }
  }

  lemma {:induction false} StampMisses(w: World, mem: seq<byte>, h: dword)
    requires |mem| == ADDRESS_SPACE && h in w.headers
    ensures forall i :: 0 <= i < |mem| && Outside(w, i) ==> Stamped(mem, h)[i] == mem[i]
  {
  }

  lemma {:induction false} Unchanged(w: World, s: State, s': State)
    requires s'.mem == s.mem && s'.cells == s.cells
    ensures SameProgram(w, s, s')
  {
  }

  /** Every other step, by any thread, leaves targets and pointers alone. */
  lemma {:induction false} OnlyCommitChanges(w: World, sys: System, done: set<dword>, hooked: set<dword>, step: Step)
    requires Sound(w, sys, done, hooked) && StepOk(w, sys, step) && !Commits(sys, step)
    ensures SameProgram(w, sys.s, Next(sys, step).s)
  {
    hide Good, CallOk, AttachOk, Exclusive, FreshlyWon, Attach, Detach, Committed, Aborted, SameProgram, Begin,
         UpdateThread;
    GoodSize(w, sys.s, done, hooked);
    var s' := Next(sys, step).s;
    if step.Api? && step.call.CallAttach? {
      CallAttachOk(w, sys.s, step.call);
      AttachSameProgram(w, sys.s, step.call.me, step.call.attach);
    } else if step.Api? && step.call.CallDetach? {
      DetachSame(sys.s, step.call.me, step.call.detach);
      Unchanged(w, sys.s, s');
    } else if s' == Aborted(sys.s) {
      AbortKeeps(w, sys.s, done, hooked);
      GoodSize(w, s', done, hooked);
      AbortSame(w, sys.s, s');
    } else {
      if step.Api? {
        OthersSame(sys.s, step.call);
      }
      Unchanged(w, sys.s, s');
    }
  }

  lemma {:induction false} OthersSame(s: State, call: Call)
    requires !call.CallAttach? && !call.CallDetach? && Apply(s, call) != Aborted(s)
    requires !(call.CallCommit? && call.me == s.owner && s.error == NoError)
    ensures Apply(s, call).mem == s.mem && Apply(s, call).cells == s.cells
  {
    hide Committed, Aborted;
    match call {
      case CallBegin(me) =>
      case CallUpdateThread(c) =>
      case CallCommit(me, readable) =>
      case CallAbort(me) =>
      case CallIgnoreTooSmall(fIgnore) =>
    }
  }

  lemma {:induction false} AbortSame(w: World, s: State, s': State)
    requires s'.cells == s.cells && |s'.mem| == |s.mem| == ADDRESS_SPACE
    requires forall i :: 0 <= i < |s.mem| && !InArena(w, i) ==> s'.mem[i] == s.mem[i]
    ensures SameProgram(w, s, s')
  {
  }

  lemma {:induction false} GoodSize(w: World, s: State, done: set<dword>, hooked: set<dword>)
    requires Good(w, s, done, hooked)
    ensures |s.mem| == ADDRESS_SPACE
  {
    hide CellsOk, OpsOk, HookOk;
  }

  lemma {:induction false} CallAttachOk(w: World, s: State, call: Call)
    requires CallOk(w, s, call) && call.CallAttach?
    ensures s.owner == call.me && s.error == NoError ==> AttachOk(w, s, call.attach)
  {
    hide AttachOk;
  }

  lemma {:induction false} DetachSame(s: State, me: ThreadId, c: DetachCall)
    ensures Detach(s, me, c).0.mem == s.mem && Detach(s, me, c).0.cells == s.cells
  {
    hide Protect, OldPerm, TargetOf;
  }

  /** Whether a run of steps contains no Commit that takes effect. */
  ghost predicate NoCommit(sys: System, steps: seq<Step>)
    decreases |steps|
  {
    steps == [] || (!Commits(sys, steps[0]) && NoCommit(Next(sys, steps[0]), steps[1..]))
  }

  /**
   * A transaction is all or nothing: however many threads run, until some owner commits without a recorded error
   * no target and no pointer changes, and whenever nobody owns the transaction exactly the trampolines of the
   * committed hooks are handed out, so an aborted transaction has returned all it took.
   */
  lemma {:induction false} AllOrNothing(w: World, sys: System, done: set<dword>, hooked: set<dword>, steps: seq<Step>)
    requires Sound(w, sys, done, hooked) && StepsOk(w, sys, steps) && NoCommit(sys, steps)
    ensures var s' := RunSteps(sys, steps).s;
            && SameProgram(w, sys.s, s')
            && StepsDone(sys, done, steps) == done
            && (s'.owner == NOBODY ==> s'.live.Keys == done)
    decreases |steps|
  {
    hide StepOk, Next, InArena, Inv, Exclusive, FreshlyWon;
    if steps != [] {
      var step := steps[0];
      OnlyCommitChanges(w, sys, done, hooked, step);
      NextSound(w, sys, done, hooked, step);
      NotDone(w, sys, done, hooked, step);
      AllOrNothing(w, Next(sys, step), done, hooked, steps[1..]);
    }
  }

  lemma {:induction false} NotDone(w: World, sys: System, done: set<dword>, hooked: set<dword>, step: Step)
    requires !Commits(sys, step) && StepOk(w, sys, step)
    ensures StepDone(sys, done, step) == done && StepHooked(sys, hooked, step) == hooked
  {
    hide OpTramps, OpPointers, CallOk;
  }

  // ----------------------------------------------------------- pending errors

  /** Every step is one its thread can take. */
  predicate EnabledSteps(sys: System, steps: seq<Step>)
    decreases |steps|
  {
    steps == [] || (Enabled(sys, steps[0]) && EnabledSteps(Next(sys, steps[0]), steps[1..]))
  }

  /** Whether the owner ends its transaction during a run of steps. */
  predicate NeverEnds(sys: System, steps: seq<Step>)
    decreases |steps|
  {
    steps == [] ||
      (!(steps[0].Api? && (steps[0].call.CallCommit? || steps[0].call.CallAbort?) && steps[0].t == sys.s.owner)
       && NeverEnds(Next(sys, steps[0]), steps[1..]))
  }

  /**
   * Once an error is recorded, the rest of the transaction does nothing: whatever its owner and the other threads
   * call until its end, only s_fIgnoreTooSmall may change, and its Commit aborts and returns that error.
   */
  lemma {:induction false} ErrorSticks(sys: System, steps: seq<Step>, readable: set<Handle>)
    requires Exclusive(sys) && EnabledSteps(sys, steps) && NeverEnds(sys, steps)
    requires sys.s.owner != NOBODY && PcOf(sys, sys.s.owner) != BeginWon && sys.s.error != NoError
    ensures var s' := RunSteps(sys, steps).s;
            && s' == sys.s.(ignoreTooSmall := s'.ignoreTooSmall)
            && Commit(s', s'.owner, readable) == (Aborted(s'), sys.s.error)
    decreases |steps|
  {
    hide Aborted, Exclusive, Next, Enabled;
    if steps != [] {
      NextExclusive(sys, steps[0]);
      ErrorKept(sys, steps[0]);
      ErrorSticks(Next(sys, steps[0]), steps[1..], readable);
    }
  }

  lemma {:induction false} ErrorKept(sys: System, step: Step)
    requires Exclusive(sys) && Enabled(sys, step)
    requires sys.s.owner != NOBODY && PcOf(sys, sys.s.owner) != BeginWon && sys.s.error != NoError
    requires !(step.Api? && (step.call.CallCommit? || step.call.CallAbort?) && step.t == sys.s.owner)
    ensures Next(sys, step).s == sys.s.(ignoreTooSmall := Next(sys, step).s.ignoreTooSmall)
    ensures PcOf(Next(sys, step), sys.s.owner) != BeginWon
  {
    hide Aborted, Committed;
    if step.t != sys.s.owner {
      OthersChangeNothing(sys, step);
    }
  }

  // ------------------------------------------------------ what Commit returns

  /** No transaction is under way: nobody owns one, or its owner has yet to initialize it. */
  predicate NoneUnderWay(sys: System) {
    sys.s.owner == NOBODY || PcOf(sys, sys.s.owner) == BeginWon
  }

  /** A DetourUpdateThread that fails, and records it unless another error is recorded already. */
  predicate FailsUpdate(step: Step) {
    && step.Api? && step.call.CallUpdateThread? && !step.call.thread.isSelf
    && (!step.call.thread.haveThread || step.call.thread.suspend != NoError)
  }

  lemma {:induction false} NoneStarts(sys: System, step: Step)
    requires Exclusive(sys) && NoneUnderWay(sys) && Enabled(sys, step) && !step.BeginInit?
    ensures NoneUnderWay(Next(sys, step))
    ensures var error := Next(sys, step).s.error;
            if FailsUpdate(step) && sys.s.error == NoError then error != NoError else error == sys.s.error
  {
    hide Apply;
    if step.Api? {
      ApplyOwner(sys.s, step.t, step.call);
    }
  }

  /** The same system with another outcome of the transaction that was last released. */
  function WithOutcome(sys: System, error: Error, errorPointer: dword): System {
    sys.(s := sys.s.(error := error, errorPointer := errorPointer))
  }

  /**
   * Commit returns the outcome of its own transaction, whatever that is, if and only if since it released its own
   * no thread has initialized another one or failed in DetourUpdateThread; all else the other threads call makes no
   * difference.
   */
  lemma {:induction false} ReturnIsOwn(sys: System, steps: seq<Step>)
    requires Exclusive(sys) && NoneUnderWay(sys) && EnabledSteps(sys, steps)
    ensures (forall error, p :: Returned(RunSteps(WithOutcome(sys, error, p), steps)) == error)
            <==> forall i :: 0 <= i < |steps| ==> !steps[i].BeginInit? && !FailsUpdate(steps[i])
  {
    hide Exclusive, NoneUnderWay, EnabledSteps, RunSteps, FailsUpdate;
    if exists i :: 0 <= i < |steps| && steps[i].BeginInit? {
      ReturnForgetsOwn(sys, steps, NoError, NULL);
      ReturnForgetsOwn(sys, steps, InvalidHandle, NULL);
      assert Returned(RunSteps(WithOutcome(sys, NoError, NULL), steps)) != NoError
          || Returned(RunSteps(WithOutcome(sys, InvalidHandle, NULL), steps)) != InvalidHandle;
    } else {
      forall error, p
        ensures Returned(RunSteps(WithOutcome(sys, error, p), steps)) == error
                <==> error != NoError || forall i :: 0 <= i < |steps| ==> !FailsUpdate(steps[i])
      {
        SameOwner(sys, error, p);
        EnabledAlike(sys, WithOutcome(sys, error, p), steps);
        ReturnsOutcome(WithOutcome(sys, error, p), steps);
      }
      assert Returned(RunSteps(WithOutcome(sys, NoError, NULL), steps)) == NoError
        <==> forall i :: 0 <= i < |steps| ==> !FailsUpdate(steps[i]);
    }
  }

  lemma {:induction false} SameOwner(sys: System, error: Error, errorPointer: dword)
    ensures var other := WithOutcome(sys, error, errorPointer);
            && other.pc == sys.pc && other.inside == sys.inside && other.s.owner == sys.s.owner
            && other.s.error == error && (NoneUnderWay(sys) ==> NoneUnderWay(other))
            && (Exclusive(sys) ==> Exclusive(other))
  {
    var other := WithOutcome(sys, error, errorPointer);
    assert forall t :: PcOf(other, t) == PcOf(sys, t);
  }

  /** Which steps can be taken depends on the owner and on where the threads are. */
  lemma {:induction false} EnabledAlike(a: System, b: System, steps: seq<Step>)
    requires a.pc == b.pc && a.s.owner == b.s.owner && EnabledSteps(a, steps)
    ensures EnabledSteps(b, steps)
    decreases |steps|
  {
    hide Apply;
    if steps != [] {
      NextAlike(a, b, steps[0]);
      EnabledAlike(Next(a, steps[0]), Next(b, steps[0]), steps[1..]);
    }
  }

  lemma {:induction false} NextAlike(a: System, b: System, step: Step)
    requires a.pc == b.pc && a.s.owner == b.s.owner && Enabled(a, step)
    ensures Enabled(b, step) && Next(a, step).pc == Next(b, step).pc && Next(a, step).s.owner == Next(b, step).s.owner
  {
    hide Apply;
    if step.Api? {
      ApplyOwner(a.s, step.t, step.call);
      ApplyOwner(b.s, step.t, step.call);
    }
  }

  lemma {:induction false} ReturnsOutcome(sys: System, steps: seq<Step>)
    requires Exclusive(sys) && NoneUnderWay(sys) && EnabledSteps(sys, steps)
    requires forall i :: 0 <= i < |steps| ==> !steps[i].BeginInit?
    ensures Returned(RunSteps(sys, steps)) == sys.s.error
            <==> sys.s.error != NoError || forall i :: 0 <= i < |steps| ==> !FailsUpdate(steps[i])
    decreases |steps|
  {
    hide Exclusive, NoneUnderWay, Enabled, Next, FailsUpdate;
    if steps != [] {
      NextExclusive(sys, steps[0]);
      NoneStarts(sys, steps[0]);
      ReturnsOutcome(Next(sys, steps[0]), steps[1..]);
      assert forall i :: 1 <= i < |steps| ==> steps[i] == steps[1..][i - 1];
    }
  }

  // Before a transaction is initialized two systems may differ in what the last one left behind, afterwards only in
  // the suspend counts, on which nothing that is returned depends.

  datatype Leftover = Leftover(error: Error, errorPointer: dword, suspended: map<Handle, int>, threads: seq<Handle>)

  function WithLeft(s: State, o: Leftover): State {
    s.(error := o.error, errorPointer := o.errorPointer, suspended := o.suspended, threads := o.threads)
  }

  function WithLeftover(sys: System, o: Leftover): System { sys.(s := WithLeft(sys.s, o)) }

  function WithCounts(s: State, counts: map<Handle, int>): State { s.(suspended := counts) }

  /**
   * Once a thread has initialized another transaction, Commit returns what has become of that one: its own outcome
   * makes no difference any more.
   */
  lemma {:induction false} ReturnForgetsOwn(sys: System, steps: seq<Step>, error: Error, errorPointer: dword)
    requires Exclusive(sys) && NoneUnderWay(sys) && EnabledSteps(sys, steps)
    requires exists i :: 0 <= i < |steps| && steps[i].BeginInit?
    ensures Returned(RunSteps(WithOutcome(sys, error, errorPointer), steps)) == Returned(RunSteps(sys, steps))
  {
    hide Exclusive, NoneUnderWay, EnabledSteps, RunSteps;
    var o := Leftover(error, errorPointer, sys.s.suspended, sys.s.threads);
    assert WithOutcome(sys, error, errorPointer) == WithLeftover(sys, o);
    LeftoverForgotten(sys, o, steps);
  }

  lemma {:induction false} LeftoverForgotten(sys: System, o: Leftover, steps: seq<Step>)
    requires Exclusive(sys) && NoneUnderWay(sys) && EnabledSteps(sys, steps)
    requires exists i :: 0 <= i < |steps| && steps[i].BeginInit?
    ensures Returned(RunSteps(WithLeftover(sys, o), steps)) == Returned(RunSteps(sys, steps))
    decreases |steps|
  {
    hide Exclusive, NoneUnderWay, WithLeftover, WithCounts, Enabled, Next;
    var step := steps[0];
    if step.BeginInit? {
      BeginForgets(sys, o, step);
      CountsForgotten(Next(sys, step), o.suspended, steps[1..]);
    } else {
      var i :| 0 <= i < |steps| && steps[i].BeginInit?;
      assert steps[1..][i - 1] == steps[i];
      NextExclusive(sys, step);
      NoneStarts(sys, step);
      var o' := LeftoverNext(sys, o, step);
      LeftoverForgotten(Next(sys, step), o', steps[1..]);
    }
  }

  lemma {:induction false} LeftoverNext(sys: System, o: Leftover, step: Step) returns (o': Leftover)
    requires Exclusive(sys) && NoneUnderWay(sys) && Enabled(sys, step) && !step.BeginInit?
    ensures Next(WithLeftover(sys, o), step) == WithLeftover(Next(sys, step), o')
  {
    hide Apply;
    o' := o;
    match step {
      case BeginCheck(t) =>
      case BeginSwap(t) =>
      case Api(t, call) =>
        o' := LeftoverCall(sys.s, o, t, call);
      case CommitReturn(t) =>
    }
  }

  lemma {:induction false} LeftoverCall(s: State, o: Leftover, t: ThreadId, call: Call) returns (o': Leftover)
    requires CalledBy(t, call) && t != NOBODY && s.owner != t
    ensures Apply(WithLeft(s, o), call) == WithLeft(Apply(s, call), o')
  {
    hide Apply, UpdateThread;
    o' := o;
    ApplyOwner(s, t, call);
    ApplyOwner(WithLeft(s, o), t, call);
    if call.CallUpdateThread? {
      o' := LeftoverUpdate(s, o, call.thread);
    }
  }

  lemma {:induction false} LeftoverUpdate(s: State, o: Leftover, c: UpdateCall) returns (o': Leftover)
    ensures UpdateThread(WithLeft(s, o), c).0 == WithLeft(UpdateThread(s, c).0, o')
  {
    o' := if o.error != NoError || c.isSelf then o
    else if !c.haveThread then o.(error := NotEnoughMemory, errorPointer := NULL)
    else if c.suspend != NoError then o.(error := c.suspend, errorPointer := NULL)
    else o.(suspended := Bump(o.suspended, c.hThread, 1), threads := [c.hThread] + o.threads);
  }

  lemma {:induction false} BeginForgets(sys: System, o: Leftover, step: Step)
    requires step.BeginInit?
    ensures var begun := Next(sys, step);
            Next(WithLeftover(sys, o), step) == begun.(s := WithCounts(begun.s, o.suspended))
  {
  }

  lemma {:induction false} CountsForgotten(sys: System, counts: map<Handle, int>, steps: seq<Step>)
    ensures Returned(RunSteps(sys.(s := WithCounts(sys.s, counts)), steps)) == Returned(RunSteps(sys, steps))
    decreases |steps|
  {
    hide Next;
    if steps != [] {
      var counts' := CountsNext(sys, counts, steps[0]);
      CountsForgotten(Next(sys, steps[0]), counts', steps[1..]);
    }
  }

  lemma {:induction false} CountsNext(sys: System, counts: map<Handle, int>, step: Step)
    returns (counts': map<Handle, int>)
    ensures var sys' := Next(sys, step);
            Next(sys.(s := WithCounts(sys.s, counts)), step) == sys'.(s := WithCounts(sys'.s, counts'))
  {
    hide Apply;
    counts' := counts;
    if step.Api? {
      counts' := CountsDoNotMatter(sys.s, counts, step.call);
    }
  }

  /** No call's effect on anything else depends on the suspend counts. */
  lemma {:induction false} CountsDoNotMatter(s: State, counts: map<Handle, int>, call: Call)
    returns (counts': map<Handle, int>)
    ensures Apply(WithCounts(s, counts), call) == WithCounts(Apply(s, call), counts')
  {
    hide Attach, Detach, Commit, Abort, UpdateThread;
    counts' := counts;
    match call {
      case CallBegin(me) =>
      case CallUpdateThread(c) => counts' := UpdateAlike(s, counts, c);
      case CallAttach(me, c) => AttachAlike(s, counts, me, c);
      case CallDetach(me, c) => DetachAlike(s, counts, me, c);
      case CallCommit(me, readable) => counts' := EndAlike(s, counts, me, readable);
      case CallAbort(me) => counts' := AbortAlike(s, counts, me);
      case CallIgnoreTooSmall(fIgnore) =>
    }
  }

  lemma {:induction false} UpdateAlike(s: State, counts: map<Handle, int>, c: UpdateCall)
    returns (counts': map<Handle, int>)
    ensures UpdateThread(WithCounts(s, counts), c).0 == WithCounts(UpdateThread(s, c).0, counts')
  {
    counts' := if s.error == NoError && !c.isSelf && c.haveThread && c.suspend == NoError
      then Bump(counts, c.hThread, 1) else counts;
  }

  lemma {:induction false} EndAlike(s: State, counts: map<Handle, int>, me: ThreadId, readable: set<Handle>)
    returns (counts': map<Handle, int>)
    ensures Commit(WithCounts(s, counts), me, readable).0 == WithCounts(Commit(s, me, readable).0, counts')
  {
    hide Committed, Aborted;
    EndsAlike(s, counts, readable);
    counts' := if s.owner == me then Resume(counts, s.threads) else counts;
  }

  lemma {:induction false} AbortAlike(s: State, counts: map<Handle, int>, me: ThreadId)
    returns (counts': map<Handle, int>)
    ensures Abort(WithCounts(s, counts), me).0 == WithCounts(Abort(s, me).0, counts')
  {
    hide Committed, Aborted;
    EndsAlike(s, counts, {});
    counts' := if s.owner == me then Resume(counts, s.threads) else counts;
  }

  lemma {:induction false} AttachAlike(s: State, counts: map<Handle, int>, me: ThreadId, c: AttachCall)
    ensures Attach(WithCounts(s, counts), me, c).0 == WithCounts(Attach(s, me, c).0, counts)
  {
    hide AttachWithSlot;
    AttachSlotAlike(s, counts, c);
    if s.owner != me || s.error != NoError || c.ppPointer == NULL || c.ppPointer !in s.cells {
    } else if s.cells[c.ppPointer] == NULL || c.pDetour == c.pbTarget {
    } else if !c.haveOp || c.slot == NULL {
    } else {
    }
  }

  lemma {:induction false} AttachSlotAlike(s: State, counts: map<Handle, int>, c: AttachCall)
    ensures AttachWithSlot(WithCounts(s, counts), c).0 == WithCounts(AttachWithSlot(s, c).0, counts)
  {
    hide MoveInto, SlotBytes, GiveUp, Queued;
    var r := MoveInto(s.mem, c.pbTarget, c.slot);
    GiveUpAlike(s, counts, c, InvalidBlock, !s.ignoreTooSmall);
    GiveUpAlike(s, counts, c, InvalidHandle, true);
    if r.Some? && Relocation.SIZE_OF_JMP <= r.value.cb <= Relocation.CODE_SIZE - Relocation.SIZE_OF_JMP {
      QueuedAlike(s, counts, c, r.value.cb, SlotBytes(r.value.buf, r.value.cb, c.pbTarget, c.slot));
    }
  }

  lemma {:induction false} GiveUpAlike(s: State, counts: map<Handle, int>, c: AttachCall, error: Error, record: bool)
    ensures GiveUp(WithCounts(s, counts), c, error, record).0 == WithCounts(GiveUp(s, c, error, record).0, counts)
  {
    hide Zeroed;
  }

  lemma {:induction false} QueuedAlike(s: State, counts: map<Handle, int>, c: AttachCall, n: byte, bytes: seq<byte>)
    requires |bytes| == Relocation.SLOT_SIZE
    ensures Queued(WithCounts(s, counts), c, n, bytes).0 == WithCounts(Queued(s, c, n, bytes).0, counts)
  {
    hide Protect, Stamped, SlotWritten, ToMark, OldPerm, GiveUp;
    if c.protect != NoError {
      GiveUpAlike(s, counts, c, c.protect, true);
    } else if ToMark(SlotWritten(s.mem, c.slot, bytes), c).Some? && c.headerProtect != NoError {
      GiveUpAlike(s.(perms := Protect(s.perms, c.pbTarget, n, PAGE_EXECUTE_READWRITE)), counts, c, c.headerProtect,
                  true);
    } else {
    }
  }

  lemma {:induction false} DetachAlike(s: State, counts: map<Handle, int>, me: ThreadId, c: DetachCall)
    ensures Detach(WithCounts(s, counts), me, c).0 == WithCounts(Detach(s, me, c).0, counts)
  {
    hide Protect, OldPerm, TargetOf, LooksHooked;
    if s.owner != me || s.error != NoError || c.ppPointer == NULL || c.ppPointer !in s.cells {
    } else if s.cells[c.ppPointer] == NULL || !c.haveOp {
    } else if !LooksHooked(if s.cells[c.ppPointer] in s.live then s.live[s.cells[c.ppPointer]]
                           else c.found, c.pDetour) {
    } else if c.protect != NoError {
    } else {
    }
  }

  lemma {:induction false} EndsAlike(s: State, counts: map<Handle, int>, readable: set<Handle>)
    ensures Committed(WithCounts(s, counts), readable) == WithCounts(Committed(s, readable), Resume(counts, s.threads))
    ensures Aborted(WithCounts(s, counts)) == WithCounts(Aborted(s), Resume(counts, s.threads))
  {
    hide CommitOps, ReleaseOps, FixThreads, Resume;
    CommitsAlike(s, counts, s.ops);
    var c := CommitOps(s, s.ops);
    CommitOpsSame(s, s.ops);
    var fixed := c.(eips := FixThreads(c.eips, c.live, s.ops, s.threads, readable));
    ReleasesAlike(fixed, counts, s.ops, false);
    ReleasesAlike(s, counts, s.ops, true);
    ReleasesThreads(fixed, s.ops, false);
    ReleasesThreads(s, s.ops, true);
  }

  lemma {:induction false} ReleasesThreads(s: State, ops: seq<Op>, aborting: bool)
    ensures ReleaseOps(s, ops, aborting).threads == s.threads
    decreases |ops|
  {
    hide Protect, Zeroed;
    if ops != [] {
      ReleasesThreads(ReleaseOp(s, ops[0], aborting), ops[1..], aborting);
    }
  }

  lemma {:induction false} CommitsAlike(s: State, counts: map<Handle, int>, ops: seq<Op>)
    ensures CommitOps(WithCounts(s, counts), ops) == WithCounts(CommitOps(s, ops), counts)
    decreases |ops|
  {
    hide CommitOp, WithCounts;
    if ops != [] {
      CommitAlike(s, counts, ops[0]);
      CommitsAlike(CommitOp(s, ops[0]), counts, ops[1..]);
    }
  }

  lemma {:induction false} CommitAlike(s: State, counts: map<Handle, int>, o: Op)
    ensures CommitOp(WithCounts(s, counts), o) == WithCounts(CommitOp(s, o), counts)
  {
    hide MoveBack, PatchBytes, Blit, SlotAt;
    SlotAlike(s, counts, o.pTrampoline);
    var r := MoveBack(s.mem, o, SlotAt(s, o.pTrampoline).cbTarget);
    if o.isRemove {
      if r.None? || o.pbTarget + Relocation.SLOT_SIZE > |s.mem| {
      } else if r.value.cb != SlotAt(s, o.pTrampoline).cbTarget {
      } else {
      }
    } else {
    }
  }

  lemma {:induction false} SlotAlike(s: State, counts: map<Handle, int>, t: dword)
    ensures SlotAt(WithCounts(s, counts), t) == SlotAt(s, t)
  {
  }

  lemma {:induction false} ReleasesAlike(s: State, counts: map<Handle, int>, ops: seq<Op>, aborting: bool)
    ensures ReleaseOps(WithCounts(s, counts), ops, aborting) == WithCounts(ReleaseOps(s, ops, aborting), counts)
    decreases |ops|
  {
    hide Protect, Zeroed;
    if ops != [] {
      ReleasesAlike(ReleaseOp(s, ops[0], aborting), counts, ops[1..], aborting);
    }
  }

  /** The steps by which thread `u` begins a transaction. */
  function Begins(u: ThreadId): seq<Step> { [BeginCheck(u), BeginSwap(u), BeginInit(u)] }

  /**
   * So a failed Commit can report success: after thread `t` released a transaction it had to abort, a thread `u`
   * begins the next one before t returns.
   */
  lemma {:induction false} FailureLost(sys: System, t: ThreadId, u: ThreadId)
    requires t != NOBODY && u != NOBODY && t != u && sys.s.owner == t && sys.s.error != NoError
    requires PcOf(sys, t) == Idle && PcOf(sys, u) == Idle
    ensures var released := Next(sys, Api(t, CallCommit(t, {})));
            && Enabled(sys, Api(t, CallCommit(t, {}))) && EnabledSteps(released, Begins(u) + [CommitReturn(t)])
            && Returned(released) == sys.s.error && Returned(RunSteps(released, Begins(u))) == NoError
  {
    hide ReleaseOps, Resume;
    AbortedError(sys.s, sys.s.ops);
    var released := Next(sys, Api(t, CallCommit(t, {})));
    assert released.s == Aborted(sys.s) && PcOf(released, t) == CommitReleased && PcOf(released, u) == Idle;
    hide Apply;
    BeginsNext(released, u, [CommitReturn(t)]);
    BeginsNext(released, u, []);
    assert Begins(u) + [] == Begins(u);
  }

  /** And a Commit that succeeded can report the failure of another thread's Attach. */
  lemma {:induction false} SuccessLost(w: World, sys: System, done: set<dword>, hooked: set<dword>, t: ThreadId,
                                       u: ThreadId, c: AttachCall)
    requires Sound(w, sys, done, hooked) && t != NOBODY && u != NOBODY && t != u && sys.s.owner == t
    requires sys.s.error == NoError && PcOf(sys, t) == Idle && PcOf(sys, u) == Idle
    requires c.ppPointer != NULL && c.ppPointer in Committed(sys.s, {}).cells
             && Committed(sys.s, {}).cells[c.ppPointer] == NULL
    ensures var released, fails := Next(sys, Api(t, CallCommit(t, {}))), Api(u, CallAttach(u, c));
            && Enabled(sys, Api(t, CallCommit(t, {}))) && EnabledSteps(released, Begins(u) + [fails, CommitReturn(t)])
            && Returned(released) == NoError && Returned(RunSteps(released, Begins(u) + [fails])) == InvalidHandle
  {
    hide Good, Committed;
    CommitKeeps(w, sys.s, done, hooked, {});
    var released, fails := Next(sys, Api(t, CallCommit(t, {}))), Api(u, CallAttach(u, c));
    assert released.s == Committed(sys.s, {}) && PcOf(released, t) == CommitReleased && PcOf(released, u) == Idle;
    var begun := System(Begun(released.s, u), released.pc[u := BeginChecked][u := BeginWon][u := Idle],
                        released.inside + {u});
    assert Next(begun, fails).s == begun.s.(error := InvalidHandle, errorPointer := c.ppPointer);
    assert RunSteps(begun, [fails]) == Next(begun, fails);
    assert EnabledSteps(Next(begun, fails), [CommitReturn(t)]);
    assert [fails, CommitReturn(t)][1..] == [CommitReturn(t)];
    hide Apply, Next, Enabled;
    BeginsNext(released, u, [fails, CommitReturn(t)]);
    BeginsNext(released, u, [fails]);
  }

  lemma {:induction false} BeginsNext(sys: System, u: ThreadId, rest: seq<Step>)
    requires sys.s.owner == NOBODY && u != NOBODY && PcOf(sys, u) == Idle
    ensures var begun := System(Begun(sys.s, u), sys.pc[u := BeginChecked][u := BeginWon][u := Idle], sys.inside + {u});
            && RunSteps(sys, Begins(u) + rest) == RunSteps(begun, rest)
            && (EnabledSteps(sys, Begins(u) + rest) <==> EnabledSteps(begun, rest))
  {
    hide Apply;
    var steps := Begins(u) + rest;
    var checked := Next(sys, BeginCheck(u));
    var won := Next(checked, BeginSwap(u));
    assert steps[1..][1..][1..] == rest && steps[1..][0] == BeginSwap(u) && steps[1..][1..][0] == BeginInit(u);
    assert RunSteps(checked, steps[1..]) == RunSteps(won, steps[1..][1..]);
    assert EnabledSteps(checked, steps[1..]) <==> EnabledSteps(won, steps[1..][1..]);
  }

  lemma {:induction false} AbortedError(s: State, ops: seq<Op>)
    ensures ReleaseOps(s, ops, true).error == s.error
    decreases |ops|
  {
    hide Protect, Zeroed;
    if ops != [] {
      AbortedError(ReleaseOp(s, ops[0], true), ops[1..]);
    }
  }

  // ----------------------------------------------------------- suspend counts

  /** The suspend count `h` has apart from what the transaction under way will undo. */
  function OwnCount(sys: System, h: Handle): int
    requires h in sys.s.suspended
  {
    sys.s.suspended[h] - if NoneUnderWay(sys) then 0 else Threads.Occurrences(sys.s.threads, h)
  }

  /** A step that suspends `h` while no transaction is under way: also between the swap of Begin and the rest of it. */
  predicate SuspendsOutside(sys: System, step: Step, h: Handle) {
    && step.Api? && step.call.CallUpdateThread? && NoneUnderWay(sys) && sys.s.error == NoError
    && var c := step.call.thread; !c.isSelf && c.haveThread && c.suspend == NoError && c.hThread == h
  }

  function SuspendedOutside(sys: System, steps: seq<Step>, h: Handle): nat
    decreases |steps|
  {
    if steps == [] then 0
    else (if SuspendsOutside(sys, steps[0], h) then 1 else 0) + SuspendedOutside(Next(sys, steps[0]), steps[1..], h)
  }

  /**
   * Under every interleaving a thread's suspend count changes by what the transaction under way will undo and by
   * the number of times it was suspended while none was; so between transactions it is back at its first value if
   * and only if that never happened.
   */
  lemma {:induction false} StepsRestoreCounts(sys: System, steps: seq<Step>, h: Handle)
    requires Exclusive(sys) && EnabledSteps(sys, steps) && h in sys.s.suspended
    ensures var sys' := RunSteps(sys, steps);
            && h in sys'.s.suspended && OwnCount(sys', h) == OwnCount(sys, h) + SuspendedOutside(sys, steps, h)
            && (NoneUnderWay(sys) && NoneUnderWay(sys') ==>
                  (sys'.s.suspended[h] == sys.s.suspended[h] <==> SuspendedOutside(sys, steps, h) == 0))
    decreases |steps|
  {
    hide Exclusive, Enabled, Next, SuspendsOutside, NoneUnderWay;
    if steps != [] {
      NextExclusive(sys, steps[0]);
      StepCounts(sys, steps[0], h);
      StepsRestoreCounts(Next(sys, steps[0]), steps[1..], h);
    }
  }

  lemma {:induction false} StepCounts(sys: System, step: Step, h: Handle)
    requires Exclusive(sys) && Enabled(sys, step) && h in sys.s.suspended
    ensures var sys' := Next(sys, step);
            h in sys'.s.suspended && OwnCount(sys', h) == OwnCount(sys, h) + if SuspendsOutside(sys, step, h) then 1
              else 0
  {
    hide Apply;
    match step {
      case BeginCheck(t) =>
      case BeginSwap(t) =>
      case BeginInit(t) => Threads.NoOccurrences(h);
      case Api(t, call) => CallCounts(sys, t, call, h);
      case CommitReturn(t) =>
    }
  }

  lemma {:induction false} CallCounts(sys: System, t: ThreadId, call: Call, h: Handle)
    requires Exclusive(sys) && Enabled(sys, Api(t, call)) && h in sys.s.suspended
    ensures var sys' := Next(sys, Api(t, call));
            && h in sys'.s.suspended
            && OwnCount(sys', h) == OwnCount(sys, h) + if SuspendsOutside(sys, Api(t, call), h) then 1 else 0
  {
    hide Apply;
    ApplyOwner(sys.s, t, call);
    if sys.s.owner == t {
      Threads.ApplyCounts(sys.s, call, h);
    } else if call.CallUpdateThread? {
      UpdateCounts(sys.s, call.thread, h);
    }
  }

  lemma {:induction false} UpdateCounts(s: State, c: UpdateCall, h: Handle)
    requires h in s.suspended
    ensures var s', one := UpdateThread(s, c).0,
                           s.error == NoError && !c.isSelf && c.haveThread && c.suspend == NoError && c.hThread == h;
            && h in s'.suspended && s'.suspended[h] == s.suspended[h] + (if one then 1 else 0)
            && Threads.Occurrences(s'.threads, h) == Threads.Occurrences(s.threads, h) + (if one then 1 else 0)
  {
  }
}
