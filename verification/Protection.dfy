/** Page protections across transactions: operations are pushed at the head and undone head first (detours.cpp). */
module Protection {
  import opened Bytes
  import opened Disasm
  import opened Relocation
  import opened TrampolineHeap
  import opened Transaction
  import opened Restoration

  /** All pages of a range have the protection VirtualProtect reports for it. */
  ghost predicate Uniform(perms: seq<Perm>, at: dword, cb: nat) {
    forall p :: 0 <= p < |perms| && Touches(p, at, cb) ==> perms[p] == OldPerm(perms, at)
  }

  /** Protecting a range and restoring what was reported is exact if and only if the range was uniform. */
  lemma {:induction false} ProtectUndone(perms: seq<Perm>, at: dword, cb: nat, perm: Perm)
    ensures Protect(Protect(perms, at, cb, perm), at, cb, OldPerm(perms, at)) == perms <==> Uniform(perms, at, cb)
  {
    hide Touches;
    var back := Protect(Protect(perms, at, cb, perm), at, cb, OldPerm(perms, at));
    assert forall p :: 0 <= p < |perms| ==> back[p] == if Touches(p, at, cb) then OldPerm(perms, at) else perms[p];
  }

  /** A range within one page is uniform. */
  lemma {:induction false} OnePageUniform(perms: seq<Perm>, at: dword, cb: nat)
    requires cb > 0 && (at + cb - 1) / 4096 == at / 4096
    ensures Uniform(perms, at, cb)
  {
  }

  function CbOf(live: map<dword, Slot>, o: Op): nat {
    if o.pTrampoline in live then live[o.pTrampoline].cbTarget else 0
  }

  /** The protections once every pending operation has restored what it found, head first. */
  function Unwind(perms: seq<Perm>, live: map<dword, Slot>, ops: seq<Op>): (r: seq<Perm>)
    ensures |r| == |perms|
    decreases |ops|
  {
    if ops == [] then perms
    else Unwind(Protect(perms, ops[0].pbTarget, CbOf(live, ops[0]), ops[0].dwPerm), live, ops[1..])
  }

  /** Whether a pending operation will restore page `p`. */
  ghost predicate Covered(live: map<dword, Slot>, ops: seq<Op>, p: nat) {
    exists o :: o in ops && Touches(p, o.pbTarget, CbOf(live, o))
  }

  /** A page that some operation restores has that protection in the end, any other page the one it has now. */
  lemma {:induction false} UnwindPage(perms: seq<Perm>, perms': seq<Perm>, live: map<dword, Slot>, ops: seq<Op>, p: nat)
    requires p < |perms| == |perms'|
    ensures if Covered(live, ops, p) then Unwind(perms, live, ops)[p] == Unwind(perms', live, ops)[p]
            else Unwind(perms, live, ops)[p] == perms[p]
    decreases |ops|
  {
    hide CbOf, Touches;
    if ops != [] {
      var o, rest := ops[0], ops[1..];
      assert forall q :: q in ops <==> q == o || q in rest;
      var q := Protect(perms, o.pbTarget, CbOf(live, o), o.dwPerm);
      var q' := Protect(perms', o.pbTarget, CbOf(live, o), o.dwPerm);
      UnwindPage(q, q', live, rest, p);
      UnwindPage(q', q, live, rest, p);
    }
  }

  lemma {:induction false} UnwindFrame(perms: seq<Perm>, live: map<dword, Slot>, live': map<dword, Slot>, ops: seq<Op>)
    requires forall o :: o in ops ==> CbOf(live, o) == CbOf(live', o)
    ensures Unwind(perms, live, ops) == Unwind(perms, live', ops)
    decreases |ops|
  {
    hide Protect, CbOf;
    if ops != [] {
      assert forall o :: o in ops[1..] ==> o in ops;
      UnwindFrame(Protect(perms, ops[0].pbTarget, CbOf(live, ops[0]), ops[0].dwPerm), live, live', ops[1..]);
    }
  }

  /** The loops of Commit and Abort restore exactly that. */
  lemma {:induction false} ReleaseUnwinds(s: State, ops: seq<Op>, aborting: bool)
    requires DistinctTramps(ops) && forall i :: 0 <= i < |ops| ==> ops[i].pTrampoline in s.live
    ensures ReleaseOps(s, ops, aborting).perms == Unwind(s.perms, s.live, ops)
    decreases |ops|
  {
    hide Protect, Zeroed;
    if ops != [] {
      var rest, s' := ops[1..], ReleaseOp(s, ops[0], aborting);
      assert forall i :: 0 <= i < |rest| ==> rest[i] == ops[i + 1];
      forall o | o in rest ensures CbOf(s.live, o) == CbOf(s'.live, o) {
        var i :| 0 <= i < |rest| && rest[i] == o;
        assert ops[i + 1] == o;
      }
      ReleaseUnwinds(s', rest, aborting);
      UnwindFrame(s'.perms, s.live, s'.live, rest);
    }
  }

  /** The protection page `p` will have once everything pending is undone. */
  function Owed(s: State, p: nat): Perm
    requires p < |s.perms|
  {
    Unwind(s.perms, s.live, s.ops)[p]
  }

  // ------------------------------------------------------------ what a call does

  /** Whether Attach gets as far as making the pages of its target writable. */
  predicate Unlocks(s: State, me: ThreadId, c: AttachCall) {
    && s.owner == me && s.error == NoError && c.ppPointer != NULL && c.ppPointer in s.cells
    && s.cells[c.ppPointer] != NULL && c.pDetour != c.pbTarget && c.haveOp && c.slot != NULL
    && var r := MoveInto(s.mem, c.pbTarget, c.slot);
    r.Some? && SIZE_OF_JMP <= r.value.cb <= CODE_SIZE - SIZE_OF_JMP && c.protect == NoError
  }

  /** How many bytes of the target it moves, and the header it is to mark. */
  function MovedBytes(s: State, c: AttachCall): nat
    requires MoveInto(s.mem, c.pbTarget, c.slot).Some?
  {
    MoveInto(s.mem, c.pbTarget, c.slot).value.cb
  }

  function Marking(s: State, c: AttachCall): (h: Option<dword>)
    requires MoveInto(s.mem, c.pbTarget, c.slot).Some? && MovedBytes(s, c) <= CODE_SIZE - SIZE_OF_JMP
  {
    var m := MoveInto(s.mem, c.pbTarget, c.slot).value;
    ToMark(SlotWritten(s.mem, c.slot, SlotBytes(m.buf, m.cb, c.pbTarget, c.slot)), c)
  }

  /** Whether it fails on the header, with its target's pages already writable and no operation to remember them. */
  predicate FailsOnHeader(s: State, c: AttachCall)
    requires MoveInto(s.mem, c.pbTarget, c.slot).Some? && MovedBytes(s, c) <= CODE_SIZE - SIZE_OF_JMP
  {
    Marking(s, c).Some? && c.headerProtect != NoError
  }

  /** Attach by its effect on the pages: it fails before, it fails on the header, or it queues an operation. */
  lemma {:induction false} AttachPages(s: State, me: ThreadId, c: AttachCall)
    ensures var s' := Attach(s, me, c).0;
            if !Unlocks(s, me, c) then s'.perms == s.perms && s'.ops == s.ops && s'.live == s.live
            else
              var n, h := MovedBytes(s, c), Marking(s, c);
              var perms := Protect(s.perms, c.pbTarget, n, PAGE_EXECUTE_READWRITE);
              if FailsOnHeader(s, c) then s'.perms == perms && s'.ops == s.ops && s'.live == s.live
              else
                && s'.perms == (if h.Some? then Protect(perms, h.value, DOS_HEADER_SIZE, PAGE_EXECUTE_READWRITE)
                                else perms)
                && s'.ops == [Op(false, c.ppPointer, c.pbTarget, c.slot, OldPerm(s.perms, c.pbTarget))] + s.ops
                && s'.live == s.live[c.slot := Slot(n, WrapAddr(c.pbTarget + n), c.pDetour)]
  {
    hide MoveInto, Protect, OldPerm, SlotBytes, ToMark, Stamped, SlotWritten, Zeroed;
  }

  /** Whether Detach gets as far as queueing its operation. */
  predicate Removes(s: State, me: ThreadId, c: DetachCall) {
    && s.owner == me && s.error == NoError && c.ppPointer != NULL && c.ppPointer in s.cells
    && s.cells[c.ppPointer] != NULL && c.haveOp && s.cells[c.ppPointer] in s.live
    && LooksHooked(s.live[s.cells[c.ppPointer]], c.pDetour) && c.protect == NoError
  }

  /** What a call makes of a page that nothing pending will restore, beyond the transaction. */
  ghost function Given(s: State, call: Call, p: nat): Option<Perm> {
    if Covered(s.live, s.ops, p) then None
    else
      match call
      case CallAttach(me, c) =>
        if !Unlocks(s, me, c) then None
        else if Touches(p, c.pbTarget, MovedBytes(s, c)) then
          Some(if FailsOnHeader(s, c) then PAGE_EXECUTE_READWRITE else OldPerm(s.perms, c.pbTarget))
        else if Marking(s, c).Some? && !FailsOnHeader(s, c) && Touches(p, Marking(s, c).value, DOS_HEADER_SIZE) then
          Some(PAGE_EXECUTE_READWRITE)
        else None
      case CallDetach(me, c) =>
        if !Removes(s, me, c) then None
        else
          var slot := s.live[s.cells[c.ppPointer]];
          if Touches(p, TargetOf(slot), slot.cbTarget) then Some(OldPerm(s.perms, TargetOf(slot))) else None
      case _ => None
  }

  /** What was given last, if anything was. */
  function Latest(first: Perm, given: Option<Perm>): Perm { if given.Some? then given.value else first }

  /** A queued operation, on top of those that were pending. */
  lemma {:induction false} PushUnwinds(perms: seq<Perm>, perms': seq<Perm>, live: map<dword, Slot>,
                                       live': map<dword, Slot>, ops: seq<Op>, o: Op, p: nat)
    requires p < |perms| == |perms'| && forall q :: q in ops ==> CbOf(live, q) == CbOf(live', q)
    ensures Unwind(perms', live', [o] + ops)[p]
            == if Covered(live, ops, p) then Unwind(perms, live, ops)[p]
               else if Touches(p, o.pbTarget, CbOf(live', o)) then o.dwPerm else perms'[p]
  {
    hide CbOf, Unwind, Touches;
    var back := Protect(perms', o.pbTarget, CbOf(live', o), o.dwPerm);
    PushStep(perms', live', ops, o);
    UnwindFrame(back, live, live', ops);
    UnwindPage(perms, back, live, ops, p);
    UnwindPage(back, perms, live, ops, p);
  }

  lemma {:induction false} PushStep(perms: seq<Perm>, live: map<dword, Slot>, ops: seq<Op>, o: Op)
    ensures Unwind(perms, live, [o] + ops)
         == Unwind(Protect(perms, o.pbTarget, CbOf(live, o), o.dwPerm), live, ops)
  {
    hide CbOf, Protect;
    assert ([o] + ops)[1..] == ops;
  }

  lemma {:induction false} AttachUnwinds(w: World, s: State, done: set<dword>, hooked: set<dword>, me: ThreadId,
                                         c: AttachCall, p: nat)
    requires Good(w, s, done, hooked) && p < |s.perms|
    requires s.owner == me && s.error == NoError ==> AttachOk(w, s, c)
    ensures var s' := Attach(s, me, c).0;
            |s'.perms| == |s.perms| && Owed(s', p) == Latest(Owed(s, p), Given(s, CallAttach(me, c), p))
  {
    hide CodeOk, CellsOk, AttachOk, MoveInto, Uniform, OldPerm, TargetOf, Unwind, Attach, OpsOk, OpTramps, Touches,
         Marking, Covered;
    var s' := Attach(s, me, c).0;
    AttachPages(s, me, c);
    if Unlocks(s, me, c) {
      UnwindPage(s.perms, s'.perms, s.live, s.ops, p);
      UnwindPage(s'.perms, s.perms, s.live, s.ops, p);
      if !FailsOnHeader(s, c) {
        AttachFacts(w, s, c);
        OpsLive(w, s.cells, s.live, done, s.ops);
        PushUnwinds(s.perms, s'.perms, s.live, s'.live, s.ops, s'.ops[0], p);
      }
    }
  }

  lemma {:induction false} DetachPages(s: State, me: ThreadId, c: DetachCall)
    requires s.owner == me && s.error == NoError ==> DetachOk(s, c)
    ensures var s' := Detach(s, me, c).0;
            && s'.live == s.live
            && if !Removes(s, me, c) then s'.perms == s.perms && s'.ops == s.ops
               else
                 var t := s.cells[c.ppPointer];
                 var at, n := TargetOf(s.live[t]), s.live[t].cbTarget;
                 && s'.perms == Protect(s.perms, at, n, PAGE_EXECUTE_READWRITE)
                 && s'.ops == [Op(true, c.ppPointer, at, t, OldPerm(s.perms, at))] + s.ops
  {
    hide Protect, OldPerm, TargetOf, LooksHooked;
  }

  lemma {:induction false} DetachUnwinds(s: State, me: ThreadId, c: DetachCall, p: nat)
    requires p < |s.perms| && (s.owner == me && s.error == NoError ==> DetachOk(s, c))
    ensures var s' := Detach(s, me, c).0;
            |s'.perms| == |s.perms| && Owed(s', p) == Latest(Owed(s, p), Given(s, CallDetach(me, c), p))
  {
    hide Uniform, OldPerm, TargetOf, Unwind, Detach, Touches, Covered, DetachOk;
    var s' := Detach(s, me, c).0;
    DetachPages(s, me, c);
    if Removes(s, me, c) {
      UnwindPage(s.perms, s'.perms, s.live, s.ops, p);
      PushUnwinds(s.perms, s'.perms, s.live, s.live, s.ops, s'.ops[0], p);
    }
  }

  /** What a page is owed changes with a call as `Given` says, and with no other. */
  lemma {:induction false} ApplyUnwinds(w: World, s: State, done: set<dword>, hooked: set<dword>, call: Call, p: nat)
    requires Good(w, s, done, hooked) && CallOk(w, s, call) && p < |s.perms|
    ensures var s' := Apply(s, call);
            |s'.perms| == |s.perms| && Owed(s', p) == Latest(Owed(s, p), Given(s, call, p))
  {
    hide Inv, AttachOk, DetachOk, Attach, Detach, Committed, Aborted, OpTramps, Unlocks, Removes, MovedBytes,
         Marking, FailsOnHeader, Covered, TargetOf, Touches;
    match call {
      case CallBegin(me) =>
      case CallUpdateThread(c) =>
      case CallAttach(me, c) => AttachUnwinds(w, s, done, hooked, me, c, p);
      case CallDetach(me, c) => DetachUnwinds(s, me, c, p);
      case CallCommit(me, readable) => EndUnwinds(w, s, done, hooked, readable);
      case CallAbort(me) => EndUnwinds(w, s, done, hooked, {});
      case CallIgnoreTooSmall(fIgnore) =>
    }
  }

  /** Commit and Abort leave nothing pending, and have unwound all there was. */
  lemma {:induction false} EndUnwinds(w: World, s: State, done: set<dword>, hooked: set<dword>, readable: set<Handle>)
    requires Good(w, s, done, hooked)
    ensures Committed(s, readable).ops == [] && Committed(s, readable).perms == Unwind(s.perms, s.live, s.ops)
    ensures Aborted(s).ops == [] && Aborted(s).perms == Unwind(s.perms, s.live, s.ops)
  {
    hide Inv, ReleaseOps, CommitOps, FixThreads, Resume, OpTramps, Unwind, DistinctTramps;
    OpSlots(w, s, done, hooked);
    CommitOpsKeeps(w, s, done, hooked, s.ops);
    var s1 := CommitOps(s, s.ops);
    CommitOpsSame(s, s.ops);
    ReleaseUnwinds(s1.(eips := FixThreads(s1.eips, s1.live, s.ops, s.threads, readable)), s.ops, false);
    ReleaseUnwinds(s, s.ops, true);
  }

  // ------------------------------------------------------------------------ runs

  /** The last protection that a call of the run gave page `p`. */
  ghost function LastGiven(s: State, calls: seq<Call>, p: nat): Option<Perm>
    decreases |calls|
  {
    if calls == [] then None
    else
      var later := LastGiven(Apply(s, calls[0]), calls[1..], p);
      if later.Some? then later else Given(s, calls[0], p)
  }

  /**
   * Over any run, whatever ranges Attach and Detach protect and whether they can: once no transaction is pending, a
   * page has the protection the run gave it last, or its first one if the run gave it none.
   */
  lemma {:induction false} RunPages(w: World, s: State, done: set<dword>, hooked: set<dword>, calls: seq<Call>, p: nat)
    requires Good(w, s, done, hooked) && RunOk(w, s, calls) && p < |s.perms|
    ensures var s' := Run(s, calls);
            && |s'.perms| == |s.perms| && Owed(s', p) == Latest(Owed(s, p), LastGiven(s, calls, p))
            && (s.owner == NOBODY && s'.owner == NOBODY ==>
                  s'.perms[p] == Latest(s.perms[p], LastGiven(s, calls, p)))
    decreases |calls|
  {
    hide Inv, CallOk, Apply, DoneNext, HookedNext, OpTramps, Given;
    if calls != [] {
      var call := calls[0];
      ApplyUnwinds(w, s, done, hooked, call, p);
      ApplyKeeps(w, s, done, hooked, call);
      RunPages(w, Apply(s, call), DoneNext(s, done, call), HookedNext(s, hooked, call), calls[1..], p);
      RunKeeps(w, s, done, hooked, calls);
    }
  }

  /** The ranges of targets that a call protects are uniform. */
  ghost predicate PagesOk(s: State, call: Call) {
    match call
    case CallAttach(me, c) => Unlocks(s, me, c) ==> Uniform(s.perms, c.pbTarget, MovedBytes(s, c))
    case CallDetach(me, c) =>
      Removes(s, me, c) ==>
        Uniform(s.perms, TargetOf(s.live[s.cells[c.ppPointer]]), s.live[s.cells[c.ppPointer]].cbTarget)
    case _ => true
  }

  ghost predicate PagesRunOk(s: State, calls: seq<Call>)
    decreases |calls|
  {
    calls == [] || (PagesOk(s, calls[0]) && PagesRunOk(Apply(s, calls[0]), calls[1..]))
  }

  /**
   * Whether a call leaves page `p` open: it marks a header there, or fails to and has opened a target there, and no
   * operation, pending or its own, will restore the page.
   */
  ghost predicate Opens(s: State, call: Call, p: nat) {
    && call.CallAttach? && Unlocks(s, call.me, call.attach) && Marking(s, call.attach).Some?
    && !Covered(s.live, s.ops, p)
    && var c := call.attach;
    var target := Touches(p, c.pbTarget, MovedBytes(s, c));
    if FailsOnHeader(s, c) then target else Touches(p, Marking(s, c).value, DOS_HEADER_SIZE) && !target
  }

  ghost predicate LeftOpen(s: State, calls: seq<Call>, p: nat)
    decreases |calls|
  {
    calls != [] && (Opens(s, calls[0], p) || LeftOpen(Apply(s, calls[0]), calls[1..], p))
  }

  lemma {:induction false} OpensGives(s: State, call: Call, p: nat)
    requires PagesOk(s, call) && p < |s.perms|
    ensures Latest(Owed(s, p), Given(s, call, p)) == if Opens(s, call, p) then PAGE_EXECUTE_READWRITE else Owed(s, p)
  {
    hide Unlocks, Removes, Marking, MovedBytes, TargetOf, Touches, Covered, Unwind, OldPerm;
    UnwindPage(s.perms, s.perms, s.live, s.ops, p);
  }

  /**
   * Over any run of transactions, committed or aborted, however many operations share a page: whenever none is
   * pending, the pages that were left open are writable code, and all others have their first protection.  So every
   * page has its first one again if and only if those that were left open were writable code before.
   */
  lemma {:induction false} RunRestoresPages(w: World, s: State, done: set<dword>, hooked: set<dword>, calls: seq<Call>)
    requires Good(w, s, done, hooked) && RunOk(w, s, calls) && PagesRunOk(s, calls)
    requires s.owner == NOBODY && Run(s, calls).owner == NOBODY
    ensures var s' := Run(s, calls);
            && |s'.perms| == |s.perms|
            && (forall p :: 0 <= p < |s.perms| ==>
                  s'.perms[p] == if LeftOpen(s, calls, p) then PAGE_EXECUTE_READWRITE else s.perms[p])
            && (s'.perms == s.perms
                <==> forall p :: 0 <= p < |s.perms| && LeftOpen(s, calls, p) ==> s.perms[p] == PAGE_EXECUTE_READWRITE)
  {
    hide Inv, RunOk, PagesRunOk, Run, LeftOpen, Unwind, OpTramps;
    var s' := Run(s, calls);
    RunKeeps(w, s, done, hooked, calls);
    RunLength(w, s, done, hooked, calls);
    forall p | 0 <= p < |s.perms|
      ensures s'.perms[p] == if LeftOpen(s, calls, p) then PAGE_EXECUTE_READWRITE else s.perms[p]
    {
      RunLeavesOpen(w, s, done, hooked, calls, p);
      NothingPending(s, p);
      NothingPending(s', p);
    }
  }

  lemma {:induction false} NothingPending(s: State, p: nat)
    requires p < |s.perms| && s.ops == []
    ensures Owed(s, p) == s.perms[p]
  {
  }

  lemma {:induction false} RunLength(w: World, s: State, done: set<dword>, hooked: set<dword>, calls: seq<Call>)
    requires Good(w, s, done, hooked) && RunOk(w, s, calls)
    ensures |Run(s, calls).perms| == |s.perms|
    decreases |calls|
  {
    hide Inv, CallOk, Apply, DoneNext, HookedNext, OpTramps;
    if calls != [] {
      var call := calls[0];
      ApplyLength(w, s, done, hooked, call);
      ApplyKeeps(w, s, done, hooked, call);
      RunLength(w, Apply(s, call), DoneNext(s, done, call), HookedNext(s, hooked, call), calls[1..]);
    }
  }

  lemma {:induction false} ApplyLength(w: World, s: State, done: set<dword>, hooked: set<dword>, call: Call)
    requires Good(w, s, done, hooked) && CallOk(w, s, call)
    ensures |Apply(s, call).perms| == |s.perms|
  {
    hide Inv, AttachOk, DetachOk, Attach, Detach, Committed, Aborted, OpTramps, Unlocks, Removes, FailsOnHeader;
    match call {
      case CallBegin(me) =>
      case CallUpdateThread(c) =>
      case CallAttach(me, c) => AttachPages(s, me, c);
      case CallDetach(me, c) => DetachPages(s, me, c);
      case CallCommit(me, readable) => EndUnwinds(w, s, done, hooked, readable);
      case CallAbort(me) => EndUnwinds(w, s, done, hooked, {});
      case CallIgnoreTooSmall(fIgnore) =>
    }
  }

  lemma {:induction false} RunLeavesOpen(w: World, s: State, done: set<dword>, hooked: set<dword>, calls: seq<Call>,
                                         p: nat)
    requires Good(w, s, done, hooked) && RunOk(w, s, calls) && PagesRunOk(s, calls) && p < |s.perms|
    ensures var s' := Run(s, calls);
            && |s'.perms| == |s.perms|
            && Owed(s', p) == if LeftOpen(s, calls, p) then PAGE_EXECUTE_READWRITE else Owed(s, p)
    decreases |calls|
  {
    hide Inv, CallOk, PagesOk, Apply, DoneNext, HookedNext, OpTramps, Given, Opens, Owed;
    if calls != [] {
      var call := calls[0];
      OpensGives(s, call, p);
      ApplyUnwinds(w, s, done, hooked, call, p);
      ApplyKeeps(w, s, done, hooked, call);
      RunLeavesOpen(w, Apply(s, call), DoneNext(s, done, call), HookedNext(s, hooked, call), calls[1..], p);
    }
  }

  /** A page is left open if and only if some call of the run opens it. */
  lemma {:induction false} LeftOpenIff(s: State, calls: seq<Call>, p: nat)
    ensures LeftOpen(s, calls, p) <==> exists i :: 0 <= i < |calls| && Opens(Run(s, calls[..i]), calls[i], p)
    decreases |calls|
  {
    hide Opens, Apply;
    if calls != [] {
      var rest, next := calls[1..], Apply(s, calls[0]);
      LeftOpenIff(next, rest, p);
      forall i | 0 <= i < |rest| ensures Run(next, rest[..i]) == Run(s, calls[..i + 1]) && rest[i] == calls[i + 1] {
        assert calls[..i + 1][1..] == rest[..i];
      }
      assert Run(s, calls[..0]) == s;
      if i :| 0 <= i < |calls| && Opens(Run(s, calls[..i]), calls[i], p) {
        assert i == 0 || Opens(Run(next, rest[..i - 1]), rest[i - 1], p);
      }
      if i :| 0 <= i < |rest| && Opens(Run(next, rest[..i]), rest[i], p) {
        assert Opens(Run(s, calls[..i + 1]), calls[i + 1], p);
      }
    }
  }

  // ----------------------------------------------------------------- an instance

  lemma {:induction false} MovMoves(mem: seq<byte>, at: dword, t: dword)
    requires at + SLOT_SIZE <= |mem| && mem[at] == 0xB8
    ensures var r := MoveInto(mem, at, t); r.Some? && r.value.cb == 5
  {
    hide Decode, Relocated, Extra;
    var code := Window(mem, at);
    assert code[0] == mem[at] && code[0..] == code;
    MovIsPlain(code, t - at);
    assert MoveFrom(Blit(Blank(), 0, code[..5]), code, t - at, 5).Some?;
  }

  /** Thread 1 attaches the function at 0x401000, in the module at 0x400000, for the first time. */
  function FirstAttach(): AttachCall {
    AttachCall(8, 0x40_1000, 0x50_0000, true, 0x7_0060, NoError, Some(0x40_0000), NoError)
  }

  lemma {:induction false} FirstMarks(s: State)
    requires |s.mem| == ADDRESS_SPACE && s.mem[0x40_1000] == 0xB8 && Unmarked(s.mem, 0x40_0000)
    requires s.owner == 1 && s.error == NoError && s.cells == map[8 := 0x40_1000]
    ensures Unlocks(s, 1, FirstAttach()) && MovedBytes(s, FirstAttach()) == 5
    ensures Marking(s, FirstAttach()) == Some(0x40_0000) && !FailsOnHeader(s, FirstAttach())
  {
    hide MoveInto, SlotBytes;
    MovMoves(s.mem, 0x40_1000, 0x7_0060);
  }

  /**
   * After that transaction, committed or aborted, the page of the module's header is writable code, whatever it was
   * before, and no other page has changed.
   */
  lemma {:induction false} FirstAttachOpens(s: State, last: Call)
    requires |s.mem| == ADDRESS_SPACE && s.mem[0x40_1000] == 0xB8 && Unmarked(s.mem, 0x40_0000)
    requires s.owner == NOBODY && s.cells == map[8 := 0x40_1000] && s.live == map[] && |s.perms| > 0x401
    requires last in {CallCommit(1, {}), CallAbort(1)}
    ensures var s' := Run(s, [CallBegin(1), CallAttach(1, FirstAttach()), last]);
            s'.owner == NOBODY && s'.perms == s.perms[0x400 := 0x40]
  {
    hide MoveInto, Protect, OldPerm, SlotBytes, Attach, ToMark, Marking, Committed, Aborted;
    var s1 := Apply(s, CallBegin(1));
    FirstMarks(s1);
    AttachPages(s1, 1, FirstAttach());
    var s2 := Apply(s1, CallAttach(1, FirstAttach()));
    AttachSame(s1, 1, FirstAttach());
    OneAttach(s2, s2.ops[0]);
    FirstPages(s.perms, s2.perms);
    ThreeCalls(s, CallBegin(1), CallAttach(1, FirstAttach()), last);
  }

  lemma {:induction false} ThreeCalls(s: State, a: Call, b: Call, c: Call)
    ensures Run(s, [a, b, c]) == Apply(Apply(Apply(s, a), b), c)
  {
    hide Apply;
    assert [a, b, c][1..] == [b, c] && [b, c][1..] == [c];
    assert Run(Apply(Apply(s, a), b), [c]) == Apply(Apply(Apply(s, a), b), c);
    assert Run(Apply(s, a), [b, c]) == Run(Apply(Apply(s, a), b), [c]);
  }

  /** Attach leaves owner and error alone where it queues an operation. */
  lemma {:induction false} AttachSame(s: State, me: ThreadId, c: AttachCall)
    requires Unlocks(s, me, c) && !FailsOnHeader(s, c)
    ensures Attach(s, me, c).0.owner == s.owner && Attach(s, me, c).0.error == s.error
  {
    hide MoveInto, Protect, OldPerm, SlotBytes, ToMark, Stamped, SlotWritten;
  }

  /** A transaction with one pending attach, at its end. */
  lemma {:induction false} OneAttach(s: State, o: Op)
    requires s.ops == [o] && s.owner != NOBODY && s.error == NoError && o.pTrampoline in s.live
    ensures Commit(s, s.owner, {}).0.owner == NOBODY && Abort(s, s.owner).0.owner == NOBODY
    ensures Commit(s, s.owner, {}).0.perms == Protect(s.perms, o.pbTarget, s.live[o.pTrampoline].cbTarget, o.dwPerm)
    ensures Abort(s, s.owner).0.perms == Protect(s.perms, o.pbTarget, s.live[o.pTrampoline].cbTarget, o.dwPerm)
  {
    hide CommitOps, FixThreads, Resume, Protect, ReleaseOps;
    var s1 := CommitOps(s, s.ops);
    CommitOpsSame(s, s.ops);
    ReleaseUnwinds(s1.(eips := FixThreads(s1.eips, s1.live, s.ops, s.threads, {})), s.ops, false);
    ReleaseUnwinds(s, s.ops, true);
    UnwindOne(s.perms, s.live, o);
  }

  lemma {:induction false} UnwindOne(perms: seq<Perm>, live: map<dword, Slot>, o: Op)
    ensures Unwind(perms, live, [o]) == Protect(perms, o.pbTarget, CbOf(live, o), o.dwPerm)
  {
    hide Protect;
    var none := [o][1..];
    assert none == [];
  }

  lemma {:induction false} FirstPages(perms: seq<Perm>, perms': seq<Perm>)
    requires |perms| > 0x401
    requires perms' == Protect(Protect(perms, 0x40_1000, 5, PAGE_EXECUTE_READWRITE), 0x40_0000, DOS_HEADER_SIZE,
                               PAGE_EXECUTE_READWRITE)
    ensures Protect(perms', 0x40_1000, 5, OldPerm(perms, 0x40_1000)) == perms[0x400 := PAGE_EXECUTE_READWRITE]
  {
  }

  /**
   * When the header's protection fails after the target page was unlocked, the page stays unlocked, since no
   * operation remembers it.
   */
  lemma {:induction false} HeaderFailureLeaks(s: State, c: AttachCall)
    requires s.ops == [] && c.slot != NULL && MoveInto(s.mem, c.pbTarget, c.slot).Some?
    requires SIZE_OF_JMP <= MoveInto(s.mem, c.pbTarget, c.slot).value.cb <= CODE_SIZE - SIZE_OF_JMP
    requires c.protect == NoError && FailsOnHeader(s, c)
    ensures var s', n := AttachWithSlot(s, c).0, MoveInto(s.mem, c.pbTarget, c.slot).value.cb;
            && s'.ops == [] && s'.error == c.headerProtect
            && (Aborted(s').perms == s.perms
                <==> forall p :: 0 <= p < |s.perms| && Touches(p, c.pbTarget, n) ==>
                       s.perms[p] == PAGE_EXECUTE_READWRITE)
  {
    hide Touches, MoveInto, Zeroed, Resume, ToMark, SlotWritten, SlotBytes;
    var s', n := AttachWithSlot(s, c).0, MoveInto(s.mem, c.pbTarget, c.slot).value.cb;
    assert s'.perms == Protect(s.perms, c.pbTarget, n, PAGE_EXECUTE_READWRITE);
    assert Aborted(s').perms == s'.perms;
    assert forall p :: 0 <= p < |s.perms| ==>
        s'.perms[p] == if Touches(p, c.pbTarget, n) then PAGE_EXECUTE_READWRITE else s.perms[p];
  }
}
