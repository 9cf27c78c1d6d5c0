/**
 * What every run of transactions keeps: hooks are jumps over code whose originals can be rebuilt from the
 * trampolines, and nothing else in the process changes.
 */
module Restoration {
  import opened Bytes
  import opened Disasm
  import opened Relocation
  import opened TrampolineRun
  import opened TrampolineHeap
  import opened Transaction

  /**
   * The process before the first transaction: its memory, its function pointers, the function each pointer
   * resolves to, the 64K regions that will only ever hold trampolines, and the headers of its modules.
   */
  datatype World = World(mem0: seq<byte>, cells0: map<dword, dword>, home: map<dword, dword>, arena: set<dword>,
                         headers: set<dword>)

  ghost predicate InArena(w: World, i: int) {
    0 <= i < ADDRESS_SPACE && RegionOf(i) in w.arena
  }

  /** Whether byte `i` is among those that Attach stamps in the header at `h`. */
  predicate InStamp(h: dword, i: int) { h + E_RES <= i < h + E_RES + |STAMP| }

  /** Bytes that belong to no trampoline region and to no stamp. */
  ghost predicate Outside(w: World, i: int) { !InArena(w, i) && forall h :: h in w.headers ==> !InStamp(h, i) }

  /** So are all the `len` bytes from `at` on. */
  ghost predicate Apart(w: World, at: int, len: nat) {
    forall i :: at <= i < at + len ==> Outside(w, i)
  }

  function StampAt(mem: seq<byte>, h: dword): (r: seq<byte>)
    requires h + DOS_HEADER_SIZE <= |mem|
    ensures |r| == |STAMP|
  {
    mem[h + E_RES..h + E_RES + |STAMP|]
  }

  predicate HasStamp(mem: seq<byte>, h: dword) { h + DOS_HEADER_SIZE <= |mem| && StampAt(mem, h) == STAMP }

  /** A header's stamp is as it was at first, or there. */
  predicate StampOk(mem0: seq<byte>, mem: seq<byte>, h: dword)
    requires h + DOS_HEADER_SIZE <= |mem0| == |mem|
  {
    StampAt(mem, h) == StampAt(mem0, h) || HasStamp(mem, h)
  }

  /** Modules are allocated at multiples of 64K, apart from the trampoline regions. */
  ghost predicate HeadersOk(w: World, mem: seq<byte>)
    requires |mem| == |w.mem0| == ADDRESS_SPACE
  {
    forall h :: h in w.headers ==> h % 0x1_0000 == 0 && h !in w.arena && StampOk(w.mem0, mem, h)
  }

  /** Whether trampoline slot `slot` accounts for the target byte at `i`. */
  predicate Covers(slot: Slot, i: int) {
    TargetOf(slot) <= i < TargetOf(slot) + slot.cbTarget
  }

  /** The trampoline at `t` rebuilds the original bytes of its target, and jumps back behind them. */
  predicate Rebuilds(mem0: seq<byte>, bytes: seq<byte>, t: dword, slot: Slot) {
    var n, at := slot.cbTarget as nat, TargetOf(slot);
    && |bytes| == SLOT_SIZE && SIZE_OF_JMP <= n <= CODE_SIZE - SIZE_OF_JMP && at + n == slot.pbRemain
    && at + SLOT_SIZE <= |mem0|
    && var code := mem0[at..at + n];
    && Tiled(code, t - at, 0, n) && NoInvalid(code, 0, n) && HoldsCopies(bytes, code, t - at, 0, n)
    && bytes[n..n + SIZE_OF_JMP] == JumpBytes(t + n, at + n)
  }

  /** One live trampoline in memory `mem`; its target is patched once the attach is committed. */
  ghost predicate HookOk(w: World, mem: seq<byte>, t: dword, slot: Slot, patched: bool) {
    && IsSlot(t) && RegionOf(t) in w.arena && t + SLOT_SIZE <= |mem| == |w.mem0|
    && Rebuilds(w.mem0, mem[t..t + SLOT_SIZE], t, slot)
    && Apart(w, TargetOf(slot), SLOT_SIZE)
    && (patched ==> mem[TargetOf(slot)..TargetOf(slot) + slot.cbTarget] == PatchBytes(TargetOf(slot), slot))
  }

  ghost predicate TargetsDisjoint(a: Slot, b: Slot) {
    TargetOf(a) + a.cbTarget <= TargetOf(b) || TargetOf(b) + b.cbTarget <= TargetOf(a)
  }

  /** The code bytes: every hook in order, and every byte no committed hook covers as it was at first. */
  ghost predicate CodeOk(w: World, mem: seq<byte>, live: map<dword, Slot>, done: set<dword>) {
    && |mem| == |w.mem0| == ADDRESS_SPACE && done <= live.Keys && HeadersOk(w, mem)
    && (forall t :: t in live ==> HookOk(w, mem, t, live[t], t in done))
    && (forall t, u :: t in live && u in live && t != u ==> TargetsDisjoint(live[t], live[u]))
    && (forall i :: 0 <= i < |mem| && Outside(w, i) && (forall t :: t in done ==> !Covers(live[t], i))
            ==> mem[i] == w.mem0[i])
  }

  /** The pointers: hooked ones hold their trampoline or their function again, the others never changed. */
  ghost predicate CellsOk(w: World, cells: map<dword, dword>, live: map<dword, Slot>, done: set<dword>,
                          hooked: set<dword>) {
    && cells.Keys == w.cells0.Keys == w.home.Keys && done <= live.Keys && hooked <= cells.Keys
    && (forall p :: p in cells ==> !InArena(w, w.cells0[p]) && !InArena(w, w.home[p]))
    && (forall p :: p in cells ==>
          if cells[p] in done then p in hooked && TargetOf(live[cells[p]]) == w.home[p]
          else if p in hooked then cells[p] == w.home[p] else cells[p] == w.cells0[p])
    && (forall p, q :: p in cells && q in cells && cells[p] == cells[q] && cells[p] in done ==> p == q)
  }

  /** The pending operations: each on its own pointer and slot, detaches of committed hooks, attaches of new ones. */
  ghost predicate OpsOk(w: World, cells: map<dword, dword>, live: map<dword, Slot>, done: set<dword>, ops: seq<Op>) {
    && (forall o :: o in ops ==>
          && o.pTrampoline in live && o.pbTarget == TargetOf(live[o.pTrampoline]) && o.ppbPointer in cells
          && o.ppbPointer in w.home
          && if o.isRemove then o.pTrampoline in done && cells[o.ppbPointer] == o.pTrampoline
             else o.pTrampoline !in done && w.home[o.ppbPointer] == o.pbTarget && cells[o.ppbPointer] !in done)
    && (forall i, j :: 0 <= i < j < |ops| ==>
          ops[i].pTrampoline != ops[j].pTrampoline && ops[i].ppbPointer != ops[j].ppbPointer)
  }

  ghost predicate Inv(w: World, s: State, done: set<dword>, hooked: set<dword>, ops: seq<Op>) {
    && CodeOk(w, s.mem, s.live, done)
    && CellsOk(w, s.cells, s.live, done, hooked)
    && OpsOk(w, s.cells, s.live, done, ops)
  }

  // ------------------------------------------------------------------- frames

  /** The sizes a hook guarantees. */
  lemma {:induction false} HookFacts(w: World, mem: seq<byte>, t: dword, slot: Slot, patched: bool)
    requires HookOk(w, mem, t, slot, patched)
    ensures IsSlot(t) && RegionOf(t) in w.arena && |mem| == |w.mem0| && t + SLOT_SIZE <= |mem|
    ensures TargetOf(slot) + SLOT_SIZE <= |mem| && Apart(w, TargetOf(slot), SLOT_SIZE)
    ensures SIZE_OF_JMP <= slot.cbTarget <= CODE_SIZE - SIZE_OF_JMP
    ensures |PatchBytes(TargetOf(slot), slot)| == slot.cbTarget
    ensures HookOk(w, mem, t, slot, false)
  {
    hide Tiled, NoInvalid, HoldsCopies, JumpBytes, TargetOf;
  }

  /** A hook is untouched by writes that miss its slot and its target. */
  lemma {:induction false} HookFrame(w: World, mem: seq<byte>, mem': seq<byte>, t: dword, slot: Slot, patched: bool)
    requires HookOk(w, mem, t, slot, patched) && |mem'| == |mem|
    requires forall i :: t <= i < t + SLOT_SIZE || Covers(slot, i) ==> 0 <= i < |mem| && mem'[i] == mem[i]
    ensures HookOk(w, mem', t, slot, patched)
  {
    hide Rebuilds, PatchBytes, Apart, TargetOf;
    HookFacts(w, mem, t, slot, patched);
    assert mem'[t..t + SLOT_SIZE] == mem[t..t + SLOT_SIZE];
    if patched {
      var at := TargetOf(slot);
      assert mem'[at..at + slot.cbTarget] == mem[at..at + slot.cbTarget] by {
        assert forall i :: at <= i < at + slot.cbTarget ==> Covers(slot, i);
      }
    }
  }

  /** A slot lies wholly inside its region. */
  lemma {:induction false} SlotInArena(w: World, t: dword)
    requires IsSlot(t) && RegionOf(t) in w.arena
    ensures t + SLOT_SIZE <= ADDRESS_SPACE
    ensures forall i :: t <= i < t + SLOT_SIZE ==> InArena(w, i)
  {
    SlotInMemory(t);
  }

  /** Overwriting a slot that is not live leaves every hook and every byte outside the regions alone. */
  lemma {:induction false} SlotWrite(w: World, mem: seq<byte>, live: map<dword, Slot>, done: set<dword>, t: dword,
                                     bs: seq<byte>)
    requires CodeOk(w, mem, live, done) && t !in live && IsSlot(t) && RegionOf(t) in w.arena && |bs| == SLOT_SIZE
    ensures t + SLOT_SIZE <= |mem| && CodeOk(w, Blit(mem, t, bs), live, done)
  {
    hide Blit, HookOk;
    SlotInArena(w, t);
    var mem' := Blit(mem, t, bs);
    forall u | u in live ensures HookOk(w, mem', u, live[u], u in done) {
      SlotWriteHook(w, mem, live[u], u in done, t, u, bs);
    }
    forall i, h | 0 <= i < |mem| && h in w.headers && InStamp(h, i) ensures mem'[i] == mem[i] {
      StampApart(w, h, i);
    }
    StampsKept(w, mem, mem');
    assert forall i :: 0 <= i < |mem| && Outside(w, i) ==> mem'[i] == mem[i];
  }

  /** A write that misses all stamps. */
  lemma {:induction false} StampsKept(w: World, mem: seq<byte>, mem': seq<byte>)
    requires |mem| == |mem'| == |w.mem0| == ADDRESS_SPACE && HeadersOk(w, mem)
    requires forall i, h :: 0 <= i < |mem| && h in w.headers && InStamp(h, i) ==> mem'[i] == mem[i]
    ensures HeadersOk(w, mem')
  {
    hide StampAt;
    forall h | h in w.headers ensures h % 0x1_0000 == 0 && h !in w.arena && StampOk(w.mem0, mem', h) {
      assert StampOk(w.mem0, mem, h);
      SameStamp(mem, mem', h);
    }
  }

  lemma {:induction false} SameStamp(mem: seq<byte>, mem': seq<byte>, h: dword)
    requires h + DOS_HEADER_SIZE <= |mem| == |mem'|
    requires forall i :: 0 <= i < |mem| && InStamp(h, i) ==> mem'[i] == mem[i]
    ensures StampAt(mem', h) == StampAt(mem, h)
  {
    assert forall i :: h + E_RES <= i < h + E_RES + |STAMP| ==> InStamp(h, i);
  }

  lemma {:induction false} HeaderFits(h: dword)
    requires h % 0x1_0000 == 0
    ensures h + DOS_HEADER_SIZE <= ADDRESS_SPACE
  {
  }

  /** Marking one header misses the others. */
  lemma {:induction false} StampMissesOthers(mem: seq<byte>, g: dword, h: dword)
    requires |mem| == ADDRESS_SPACE && g % 0x1_0000 == 0 && h % 0x1_0000 == 0
    ensures h + DOS_HEADER_SIZE <= |mem|
    ensures StampAt(Stamped(mem, g), h) == if g == h then STAMP else StampAt(mem, h)
  {
    HeaderFits(g);
    HeaderFits(h);
    if g == h {
      BlitReads(mem, h + E_RES, STAMP);
    } else {
      SameStamp(mem, Stamped(mem, g), h);
    }
  }

  /** The stamp of a header is in no region. */
  lemma {:induction false} StampApart(w: World, h: dword, i: int)
    requires h % 0x1_0000 == 0 && h !in w.arena && InStamp(h, i)
    ensures !InArena(w, i)
  {
  }

  /** Marking a header changes nothing else. */
  lemma {:induction false} StampWrite(w: World, mem: seq<byte>, live: map<dword, Slot>, done: set<dword>, h: dword)
    requires CodeOk(w, mem, live, done) && h in w.headers
    ensures CodeOk(w, Stamped(mem, h), live, done)
    ensures forall i :: 0 <= i < |mem| && Outside(w, i) ==> Stamped(mem, h)[i] == mem[i]
  {
    hide HookOk, Blit, Covers, TargetsDisjoint, Outside;
    var mem' := Stamped(mem, h);
    StampBytes(w, mem, h);
    forall t | t in live ensures HookOk(w, mem', t, live[t], t in done) {
      StampWriteHook(w, mem, live[t], t in done, t, h);
    }
  }

  lemma {:induction false} StampBytes(w: World, mem: seq<byte>, h: dword)
    requires |mem| == |w.mem0| == ADDRESS_SPACE && HeadersOk(w, mem) && h in w.headers
    ensures h + DOS_HEADER_SIZE <= |mem| && HeadersOk(w, Stamped(mem, h))
    ensures forall i :: 0 <= i < |mem| && !InStamp(h, i) ==> Stamped(mem, h)[i] == mem[i]
    ensures forall i :: 0 <= i < |mem| && Outside(w, i) ==> Stamped(mem, h)[i] == mem[i]
  {
    hide StampAt, Stamped, InArena;
    StampedElsewhere(mem, h);
    forall g | g in w.headers ensures g % 0x1_0000 == 0 && g !in w.arena && StampOk(w.mem0, Stamped(mem, h), g) {
      assert StampOk(w.mem0, mem, g);
      StampMissesOthers(mem, h, g);
    }
  }

  lemma {:induction false} StampedElsewhere(mem: seq<byte>, h: dword)
    requires |mem| == ADDRESS_SPACE && h % 0x1_0000 == 0
    ensures h + DOS_HEADER_SIZE <= |mem|
    ensures forall i :: 0 <= i < |mem| && !InStamp(h, i) ==> Stamped(mem, h)[i] == mem[i]
  {
    HeaderFits(h);
  }

  lemma {:induction false} StampWriteHook(w: World, mem: seq<byte>, slot: Slot, patched: bool, t: dword, h: dword)
    requires |mem| == ADDRESS_SPACE && HookOk(w, mem, t, slot, patched)
    requires h in w.headers && HeadersOk(w, mem)
    ensures HookOk(w, Stamped(mem, h), t, slot, patched)
  {
    hide HookOk, TargetOf, Stamped, Outside;
    HookFacts(w, mem, t, slot, patched);
    StampBytes(w, mem, h);
    SlotInArena(w, t);
    var mem' := Stamped(mem, h);
    forall i | t <= i < t + SLOT_SIZE || Covers(slot, i) ensures 0 <= i < |mem| && mem'[i] == mem[i] {
      if t <= i < t + SLOT_SIZE && InStamp(h, i) {
        StampApart(w, h, i);
      }
    }
    HookFrame(w, mem, mem', t, slot, patched);
  }

  lemma {:induction false} SlotWriteHook(w: World, mem: seq<byte>, slot: Slot, patched: bool, t: dword, u: dword,
                                         bs: seq<byte>)
    requires |mem| == ADDRESS_SPACE && HookOk(w, mem, u, slot, patched) && t != u
    requires IsSlot(t) && RegionOf(t) in w.arena && |bs| == SLOT_SIZE && t + SLOT_SIZE <= |mem|
    ensures HookOk(w, Blit(mem, t, bs), u, slot, patched)
  {
    hide Blit, HookOk, TargetOf;
    HookFacts(w, mem, u, slot, patched);
    SlotsDisjoint(t, u);
    SlotInArena(w, t);
    var mem' := Blit(mem, t, bs);
    forall i | u <= i < u + SLOT_SIZE || Covers(slot, i) ensures 0 <= i < |mem| && mem'[i] == mem[i] {
      if Covers(slot, i) {
        assert Outside(w, i);
      }
    }
    HookFrame(w, mem, mem', u, slot, patched);
  }

  /** Writing inside one hook's target leaves the other hooks alone. */
  lemma {:induction false} TargetWriteHook(w: World, mem: seq<byte>, mine: Slot, bs: seq<byte>, u: dword, slot: Slot,
                                           patched: bool)
    requires |mem| == ADDRESS_SPACE && HookOk(w, mem, u, slot, patched) && TargetsDisjoint(mine, slot)
    requires |bs| == mine.cbTarget <= SLOT_SIZE && TargetOf(mine) + SLOT_SIZE <= |mem|
             && Apart(w, TargetOf(mine), SLOT_SIZE)
    ensures HookOk(w, Blit(mem, TargetOf(mine), bs), u, slot, patched)
  {
    hide Blit, HookOk, TargetOf;
    var at := TargetOf(mine);
    var mem' := Blit(mem, at, bs);
    HookFacts(w, mem, u, slot, patched);
    SlotInArena(w, u);
    forall i | u <= i < u + SLOT_SIZE || Covers(slot, i) ensures 0 <= i < |mem| && mem'[i] == mem[i] {
      if u <= i < u + SLOT_SIZE {
        assert InArena(w, i) && !Outside(w, i);
      }
    }
    HookFrame(w, mem, mem', u, slot, patched);
  }

  lemma {:induction false} TargetWriteHooks(w: World, mem: seq<byte>, live: map<dword, Slot>, done: set<dword>,
                                            t: dword, bs: seq<byte>)
    requires CodeOk(w, mem, live, done) && t in live && |bs| == live[t].cbTarget
    ensures TargetOf(live[t]) + SLOT_SIZE <= |mem| && |bs| <= SLOT_SIZE && HookOk(w, mem, t, live[t], t in done)
    ensures forall u :: u in live && u != t ==> HookOk(w, Blit(mem, TargetOf(live[t]), bs), u, live[u], u in done)
  {
    hide HookOk, Blit, TargetsDisjoint, TargetOf, Apart;
    var slot := live[t];
    HookFacts(w, mem, t, slot, t in done);
    forall u | u in live && u != t ensures HookOk(w, Blit(mem, TargetOf(slot), bs), u, live[u], u in done) {
      TargetWriteHook(w, mem, slot, bs, u, live[u], u in done);
    }
  }

  /** Committing an attach: the target becomes the jump and INT3, and counts as hooked from then on. */
  lemma {:induction false} PatchKeeps(w: World, mem: seq<byte>, live: map<dword, Slot>, done: set<dword>, t: dword)
    requires CodeOk(w, mem, live, done) && t in live && t !in done
    ensures var bs := PatchBytes(TargetOf(live[t]), live[t]);
            && |bs| == live[t].cbTarget && TargetOf(live[t]) + |bs| <= |mem|
            && CodeOk(w, Blit(mem, TargetOf(live[t]), bs), live, done + {t})
  {
    hide HookOk, Blit, TargetsDisjoint, PatchBytes, TargetOf;
    var slot := live[t];
    HookFacts(w, mem, t, slot, false);
    var at, bs := TargetOf(slot), PatchBytes(TargetOf(slot), slot);
    TargetWriteHooks(w, mem, live, done, t, bs);
    OwnTargetWrite(w, mem, t, slot, bs);
    var mem', done' := Blit(mem, at, bs), done + {t};
    NowPatched(w, mem', t, slot);
    assert forall u :: u in live ==> HookOk(w, mem', u, live[u], u in done');
    TargetMissesStamps(w, mem, slot, bs);
    forall i | 0 <= i < |mem| && Outside(w, i) && forall u :: u in done' ==> !Covers(live[u], i)
      ensures mem'[i] == w.mem0[i]
    {
      assert t in done' && !Covers(slot, i);
    }
  }

  lemma {:induction false} TargetMissesStamps(w: World, mem: seq<byte>, slot: Slot, bs: seq<byte>)
    requires |mem| == |w.mem0| == ADDRESS_SPACE && HeadersOk(w, mem) && |bs| == slot.cbTarget <= SLOT_SIZE
    requires Apart(w, TargetOf(slot), SLOT_SIZE) && TargetOf(slot) + SLOT_SIZE <= |mem|
    ensures HeadersOk(w, Blit(mem, TargetOf(slot), bs))
  {
    hide TargetOf, InArena, HeadersOk;
    var mem' := Blit(mem, TargetOf(slot), bs);
    forall i, h | 0 <= i < |mem| && h in w.headers && InStamp(h, i) ensures mem'[i] == mem[i] {
      assert TargetOf(slot) <= i < TargetOf(slot) + SLOT_SIZE ==> Outside(w, i);
    }
    StampsKept(w, mem, mem');
  }

  lemma {:induction false} NowPatched(w: World, mem: seq<byte>, t: dword, slot: Slot)
    requires HookOk(w, mem, t, slot, false)
    requires mem[TargetOf(slot)..TargetOf(slot) + slot.cbTarget] == PatchBytes(TargetOf(slot), slot)
    ensures HookOk(w, mem, t, slot, true)
  {
    hide Rebuilds, PatchBytes, TargetOf;
  }

  /** Writing a hook's own target does not disturb its trampoline. */
  lemma {:induction false} OwnTargetWrite(w: World, mem: seq<byte>, t: dword, slot: Slot, bs: seq<byte>)
    requires |mem| == ADDRESS_SPACE && HookOk(w, mem, t, slot, false) && |bs| == slot.cbTarget
    ensures HookOk(w, Blit(mem, TargetOf(slot), bs), t, slot, false)
    ensures TargetOf(slot) + |bs| <= |mem|
    ensures Blit(mem, TargetOf(slot), bs)[TargetOf(slot)..TargetOf(slot) + |bs|] == bs
  {
    hide Blit, HookOk, TargetOf;
    HookFacts(w, mem, t, slot, false);
    var at := TargetOf(slot);
    var mem' := Blit(mem, at, bs);
    BlitReads(mem, at, bs);
    SlotInArena(w, t);
    assert mem'[t..t + SLOT_SIZE] == mem[t..t + SLOT_SIZE] by {
      forall i | t <= i < t + SLOT_SIZE ensures mem'[i] == mem[i] {
        assert InArena(w, i) && !Outside(w, i);
      }
    }
    SameTrampoline(w, mem, mem', t, slot);
  }

  lemma {:induction false} SameTrampoline(w: World, mem: seq<byte>, mem': seq<byte>, t: dword, slot: Slot)
    requires HookOk(w, mem, t, slot, false) && |mem'| == |mem| && mem'[t..t + SLOT_SIZE] == mem[t..t + SLOT_SIZE]
    ensures HookOk(w, mem', t, slot, false)
  {
    hide Rebuilds, TargetOf;
  }

  /** The copying-back loop of a detach rebuilds exactly the original bytes of the target. */
  lemma {:induction false} MovesBack(w: World, mem: seq<byte>, t: dword, slot: Slot, o: Op)
    requires |mem| == ADDRESS_SPACE && HookOk(w, mem, t, slot, true) && o.pTrampoline == t
             && o.pbTarget == TargetOf(slot)
    ensures var r, n, at := MoveBack(mem, o, slot.cbTarget), slot.cbTarget, TargetOf(slot);
            && at + SLOT_SIZE <= |mem|
            && r == Some(Progress(n, Blit(Window(mem, at), 0, w.mem0[at..at + n])))
            && Blit(mem, at, r.value.buf) == Blit(mem, at, w.mem0[at..at + n])
  {
    hide Blit, UnmoveFrom, Tiled, NoInvalid, HoldsCopies, JumpBytes, TargetOf, PatchBytes, Apart;
    var n, at := slot.cbTarget as nat, TargetOf(slot);
    var code, rb, dst := w.mem0[at..at + n], Window(mem, t), Window(mem, at);
    UnmoveRestores(dst, rb, code, t - at, 0, n);
    assert code[0..n] == code;
    BlitWindow(mem, at, code);
  }

  lemma {:induction false} BlitWindow(mem: seq<byte>, at: nat, code: seq<byte>)
    requires at + SLOT_SIZE <= |mem| && |code| <= SLOT_SIZE
    ensures Blit(mem, at, Blit(mem[at..at + SLOT_SIZE], 0, code)) == Blit(mem, at, code)
  {
  }

  /** Committing a detach: the target is as it was before it was ever hooked. */
  lemma {:induction false} UnpatchKeeps(w: World, mem: seq<byte>, live: map<dword, Slot>, done: set<dword>, t: dword)
    requires CodeOk(w, mem, live, done) && t in done
    ensures var at, n := TargetOf(live[t]), live[t].cbTarget;
            && at + SLOT_SIZE <= |mem| && n <= SLOT_SIZE
            && CodeOk(w, Blit(mem, at, w.mem0[at..at + n]), live, done - {t})
  {
    hide HookOk, Blit, TargetsDisjoint, TargetOf;
    var slot := live[t];
    HookFacts(w, mem, t, slot, true);
    var at := TargetOf(slot);
    var bs := w.mem0[at..at + slot.cbTarget];
    TargetWriteHooks(w, mem, live, done, t, bs);
    OwnTargetWrite(w, mem, t, slot, bs);
    var mem', done' := Blit(mem, at, bs), done - {t};
    assert forall u :: u in live ==> HookOk(w, mem', u, live[u], u in done');
    TargetMissesStamps(w, mem, slot, bs);
    forall i | 0 <= i < |mem| && Outside(w, i) && forall u :: u in done' ==> !Covers(live[u], i)
      ensures mem'[i] == w.mem0[i]
    {
      if !Covers(slot, i) {
        assert forall u :: u in done ==> !Covers(live[u], i);
      }
    }
  }

  // --------------------------------------------------------------- committing

  /** The trampolines of the pending attaches, or of the pending detaches. */
  function OpTramps(ops: seq<Op>, remove: bool): set<dword> {
    if ops == [] then {}
    else (if ops[0].isRemove == remove then {ops[0].pTrampoline} else {}) + OpTramps(ops[1..], remove)
  }

  function OpPointers(ops: seq<Op>): set<dword> {
    if ops == [] then {} else {ops[0].ppbPointer} + OpPointers(ops[1..])
  }

  /** The committed hooks after an operation. */
  function DoneAfter(done: set<dword>, o: Op): set<dword> {
    if o.isRemove then done - {o.pTrampoline} else done + {o.pTrampoline}
  }

  lemma {:induction false} CommitOpCode(w: World, s: State, done: set<dword>, o: Op)
    requires CodeOk(w, s.mem, s.live, done) && o.pTrampoline in s.live
    requires o.pbTarget == TargetOf(s.live[o.pTrampoline]) && (o.isRemove <==> o.pTrampoline in done)
    ensures var s' := CommitOp(s, o);
            && CodeOk(w, s'.mem, s.live, DoneAfter(done, o))
            && s' == s.(mem := s'.mem, cells := s.cells[o.ppbPointer := if o.isRemove then o.pbTarget
                                                        else o.pTrampoline])
  {
    hide CodeOk, HookOk, TargetOf, PatchBytes, MoveBack, Blit;
    CodeFacts(w, s.mem, s.live, done, o.pTrampoline);
    if o.isRemove {
      MovesBack(w, s.mem, o.pTrampoline, s.live[o.pTrampoline], o);
      UnpatchKeeps(w, s.mem, s.live, done, o.pTrampoline);
    } else {
      PatchKeeps(w, s.mem, s.live, done, o.pTrampoline);
    }
  }

  lemma {:induction false} CodeFacts(w: World, mem: seq<byte>, live: map<dword, Slot>, done: set<dword>, t: dword)
    requires CodeOk(w, mem, live, done) && t in live
    ensures |mem| == ADDRESS_SPACE && HookOk(w, mem, t, live[t], t in done) && IsSlot(t) && RegionOf(t) in w.arena
  {
  }

  lemma {:induction false} CommitOpCells(w: World, cells: map<dword, dword>, live: map<dword, Slot>, done: set<dword>,
                                         hooked: set<dword>, o: Op)
    requires CellsOk(w, cells, live, done, hooked) && o.pTrampoline in live && o.ppbPointer in cells
    requires o.pbTarget == TargetOf(live[o.pTrampoline]) && InArena(w, o.pTrampoline)
    requires if o.isRemove then o.pTrampoline in done && cells[o.ppbPointer] == o.pTrampoline
             else o.pTrampoline !in done && w.home[o.ppbPointer] == o.pbTarget && cells[o.ppbPointer] !in done
    requires forall t :: t in done ==> InArena(w, t)
    ensures CellsOk(w, cells[o.ppbPointer := if o.isRemove then o.pbTarget else o.pTrampoline], live,
                    DoneAfter(done, o), hooked + {o.ppbPointer})
  {
    hide TargetOf, InArena;
  }

  lemma {:induction false} CommitOpRest(w: World, cells: map<dword, dword>, live: map<dword, Slot>, done: set<dword>,
                                        ops: seq<Op>)
    requires ops != [] && OpsOk(w, cells, live, done, ops)
    requires InArena(w, ops[0].pTrampoline) && forall p :: p in cells && cells[p] !in done ==> !InArena(w, cells[p])
    ensures var o := ops[0];
            OpsOk(w, cells[o.ppbPointer := if o.isRemove then o.pbTarget else o.pTrampoline], live,
                  DoneAfter(done, o), ops[1..])
  {
    hide TargetOf, InArena;
    var rest := ops[1..];
    assert forall i :: 0 <= i < |rest| ==> rest[i] == ops[i + 1];
    forall o | o in rest ensures o in ops && o.pTrampoline != ops[0].pTrampoline && o.ppbPointer != ops[0].ppbPointer {
      var i :| 0 <= i < |rest| && rest[i] == o;
      assert ops[i + 1] == o;
    }
  }

  lemma {:induction false} UnhookedCells(w: World, cells: map<dword, dword>, live: map<dword, Slot>, done: set<dword>,
                                         hooked: set<dword>)
    requires CellsOk(w, cells, live, done, hooked)
    ensures forall p :: p in cells && cells[p] !in done ==> !InArena(w, cells[p])
  {
  }

  /** One step of the insert-or-remove loop keeps everything, and never meets the error it checks for. */
  lemma {:induction false} CommitOpKeeps(w: World, s: State, done: set<dword>, hooked: set<dword>, ops: seq<Op>)
    requires ops != [] && Inv(w, s, done, hooked, ops)
    ensures var s' := CommitOp(s, ops[0]);
            && Inv(w, s', DoneAfter(done, ops[0]), hooked + {ops[0].ppbPointer}, ops[1..])
            && s' == s.(mem := s'.mem, cells := s'.cells)
  {
    hide CodeOk, CellsOk, HookOk, TargetOf, CommitOp;
    var o := ops[0];
    assert o in ops;
    CommitOpCode(w, s, done, o);
    CodeArena(w, s.mem, s.live, done, o.pTrampoline);
    CommitOpCells(w, s.cells, s.live, done, hooked, o);
    UnhookedCells(w, s.cells, s.live, done, hooked);
    CommitOpRest(w, s.cells, s.live, done, ops);
  }

  lemma {:induction false} CodeArena(w: World, mem: seq<byte>, live: map<dword, Slot>, done: set<dword>, t: dword)
    requires CodeOk(w, mem, live, done) && t in live
    ensures InArena(w, t) && !InArena(w, TargetOf(live[t])) && forall u :: u in done ==> InArena(w, u)
  {
    hide Rebuilds, TargetOf;
    assert HookOk(w, mem, t, live[t], t in done) && Outside(w, TargetOf(live[t]));
    forall u | u in done ensures InArena(w, u) {
      assert HookOk(w, mem, u, live[u], true);
    }
  }

  function DoneAfterAll(done: set<dword>, ops: seq<Op>): set<dword>
    decreases |ops|
  {
    if ops == [] then done else DoneAfterAll(DoneAfter(done, ops[0]), ops[1..])
  }

  lemma {:induction false} CommitOpsKeeps(w: World, s: State, done: set<dword>, hooked: set<dword>, ops: seq<Op>)
    requires Inv(w, s, done, hooked, ops)
    ensures var s' := CommitOps(s, ops);
            && Inv(w, s', DoneAfterAll(done, ops), hooked + OpPointers(ops), [])
            && s' == s.(mem := s'.mem, cells := s'.cells)
    decreases |ops|
  {
    hide CommitOp, Inv;
    if ops == [] {
      assert hooked + OpPointers(ops) == hooked;
    } else {
      CommitOpKeeps(w, s, done, hooked, ops);
      CommitOpsKeeps(w, CommitOp(s, ops[0]), DoneAfter(done, ops[0]), hooked + {ops[0].ppbPointer}, ops[1..]);
      assert hooked + OpPointers(ops) == hooked + {ops[0].ppbPointer} + OpPointers(ops[1..]);
    }
  }

  ghost predicate DistinctTramps(ops: seq<Op>) {
    forall i, j :: 0 <= i < j < |ops| ==> ops[i].pTrampoline != ops[j].pTrampoline
  }

  lemma {:induction false} OpTrampsOf(ops: seq<Op>, remove: bool)
    ensures forall t :: t in OpTramps(ops, remove) <==>
              exists o :: o in ops && o.isRemove == remove && o.pTrampoline == t
  {
    if ops != [] {
      OpTrampsOf(ops[1..], remove);
      assert forall o :: o in ops <==> o == ops[0] || o in ops[1..];
    }
  }

  lemma {:induction false} DoneAfterAllIs(done: set<dword>, ops: seq<Op>)
    requires DistinctTramps(ops)
    ensures DoneAfterAll(done, ops) == done - OpTramps(ops, true) + OpTramps(ops, false)
    ensures OpTramps(ops, true) !! OpTramps(ops, false)
    decreases |ops|
  {
    if ops != [] {
      var rest := ops[1..];
      assert forall i :: 0 <= i < |rest| ==> rest[i] == ops[i + 1];
      DoneAfterAllIs(DoneAfter(done, ops[0]), rest);
      OpTrampsOf(rest, true);
      OpTrampsOf(rest, false);
      forall o | o in rest ensures o.pTrampoline != ops[0].pTrampoline {
        var i :| 0 <= i < |rest| && rest[i] == o;
        assert ops[i + 1] == o;
      }
    }
  }

  // ---------------------------------------------------------------- releasing

  /** Forgetting a trampoline that is not behind any committed hook, and clearing its slot. */
  lemma {:induction false} FreeKeeps(w: World, mem: seq<byte>, cells: map<dword, dword>, live: map<dword, Slot>,
                                     done: set<dword>, hooked: set<dword>, t: dword)
    requires CodeOk(w, mem, live, done) && CellsOk(w, cells, live, done, hooked)
    requires t !in done && IsSlot(t) && RegionOf(t) in w.arena
    ensures CodeOk(w, Zeroed(mem, t), live - {t}, done) && CellsOk(w, cells, live - {t}, done, hooked)
  {
    hide CodeOk, CellsOk, Blit, IsSlot, RegionOf;
    DropLive(w, mem, cells, live, done, hooked, t);
    SlotInArena(w, t);
    SlotWrite(w, mem, live - {t}, done, t, seq(SLOT_SIZE, _ => 0));
  }

  lemma {:induction false} DropLive(w: World, mem: seq<byte>, cells: map<dword, dword>, live: map<dword, Slot>,
                                    done: set<dword>, hooked: set<dword>, t: dword)
    requires CodeOk(w, mem, live, done) && CellsOk(w, cells, live, done, hooked) && t !in done
    ensures CodeOk(w, mem, live - {t}, done) && CellsOk(w, cells, live - {t}, done, hooked) && |mem| == ADDRESS_SPACE
  {
    hide HookOk, Covers, TargetsDisjoint, InArena, TargetOf;
    var live' := live - {t};
    assert done <= live'.Keys;
    assert forall u :: u in live' ==> u in live && live'[u] == live[u];
  }

  lemma {:induction false} ReleaseOpKeeps(w: World, s: State, done: set<dword>, hooked: set<dword>, o: Op,
                                          aborting: bool)
    requires CodeOk(w, s.mem, s.live, done) && CellsOk(w, s.cells, s.live, done, hooked)
    requires IsSlot(o.pTrampoline) && RegionOf(o.pTrampoline) in w.arena
    requires o.isRemove != aborting ==> o.pTrampoline !in done
    ensures var s' := ReleaseOp(s, o, aborting);
            && CodeOk(w, s'.mem, s'.live, done) && CellsOk(w, s'.cells, s'.live, done, hooked)
            && s'.live == (if o.isRemove != aborting then s.live - {o.pTrampoline} else s.live)
            && s' == s.(mem := s'.mem, live := s'.live, perms := s'.perms)
  {
    hide CodeOk, CellsOk, Protect, Zeroed, IsSlot, RegionOf;
    if o.isRemove != aborting {
      FreeKeeps(w, s.mem, s.cells, s.live, done, hooked, o.pTrampoline);
    }
  }

  lemma {:induction false} ReleaseKeeps(w: World, s: State, done: set<dword>, hooked: set<dword>, ops: seq<Op>,
                                        aborting: bool)
    requires CodeOk(w, s.mem, s.live, done) && CellsOk(w, s.cells, s.live, done, hooked)
    requires forall o :: o in ops ==> IsSlot(o.pTrampoline) && RegionOf(o.pTrampoline) in w.arena
    requires forall o :: o in ops && o.isRemove != aborting ==> o.pTrampoline !in done
    ensures var s' := ReleaseOps(s, ops, aborting);
            && CodeOk(w, s'.mem, s'.live, done) && CellsOk(w, s'.cells, s'.live, done, hooked)
            && s'.live == s.live - OpTramps(ops, !aborting)
            && s' == s.(mem := s'.mem, live := s'.live, perms := s'.perms)
    decreases |ops|
  {
    hide CodeOk, CellsOk, ReleaseOp, IsSlot, RegionOf;
    if ops == [] {
      assert s.live - {} == s.live;
    } else {
      var o, rest := ops[0], ops[1..];
      assert o in ops && forall o :: o in rest ==> o in ops;
      ReleaseOpKeeps(w, s, done, hooked, o, aborting);
      ReleaseKeeps(w, ReleaseOp(s, o, aborting), done, hooked, rest, aborting);
      assert ReleaseOp(s, o, aborting).live - OpTramps(rest, !aborting) == s.live - OpTramps(ops, !aborting);
    }
  }

  // -------------------------------------------------------------------- calls

  /** What holds between calls: every live trampoline is a committed hook or a pending attach. */
  ghost predicate Good(w: World, s: State, done: set<dword>, hooked: set<dword>) {
    && Inv(w, s, done, hooked, s.ops)
    && s.live.Keys == done + OpTramps(s.ops, false)
    && (s.owner == NOBODY ==> s.ops == [])
  }

  /** An operation of the program: an API call by some thread, with the system's answers. */
  datatype Call =
    | CallBegin(me: ThreadId)
    | CallUpdateThread(thread: UpdateCall)
    | CallAttach(me: ThreadId, attach: AttachCall)
    | CallDetach(me: ThreadId, detach: DetachCall)
    | CallCommit(me: ThreadId, readable: set<Handle>)
    | CallAbort(me: ThreadId)
    | CallIgnoreTooSmall(fIgnore: bool)

  function Apply(s: State, call: Call): State {
    match call
    case CallBegin(me) => Begin(s, me).0
    case CallUpdateThread(c) => UpdateThread(s, c).0
    case CallAttach(me, c) => Attach(s, me, c).0
    case CallDetach(me, c) => Detach(s, me, c).0
    case CallCommit(me, readable) => Commit(s, me, readable).0
    case CallAbort(me) => Abort(s, me).0
    case CallIgnoreTooSmall(fIgnore) => s.(ignoreTooSmall := fIgnore)
  }

  /**
   * What a caller of Attach has to see to: a pointer with no other pending operation, that resolves to a function
   * outside the trampoline regions whose moved bytes no other hook covers and hold no Invalid row.  A header that is
   * found is one of a module.
   */
  ghost predicate AttachOk(w: World, s: State, c: AttachCall) {
    && (c.header.Some? ==> c.header.value in w.headers)
    && (c.ppPointer in s.cells ==>
          && c.ppPointer in w.home && w.home[c.ppPointer] == c.pbTarget
          && s.cells[c.ppPointer] !in s.live && c.ppPointer !in OpPointers(s.ops))
    && Apart(w, c.pbTarget, SLOT_SIZE) && c.pbTarget + SLOT_SIZE <= |s.mem|
    && (c.slot != NULL ==>
          && IsSlot(c.slot) && RegionOf(c.slot) in w.arena && c.slot !in s.live
          && var r := MoveInto(s.mem, c.pbTarget, c.slot);
          && r.Some? && NoInvalid(Window(s.mem, c.pbTarget), 0, r.value.cb)
          && forall t :: t in s.live ==>
               TargetOf(s.live[t]) + s.live[t].cbTarget <= c.pbTarget || c.pbTarget + r.value.cb <= TargetOf(s.live[t]))
  }

  /**
   * What a caller of Detach has to see to: no other operation is pending on the pointer, and if the pointer holds no
   * trampoline, the bytes behind it do not look like one of this detour.
   */
  predicate DetachOk(s: State, c: DetachCall) {
    && c.ppPointer !in OpPointers(s.ops)
    && (c.ppPointer in s.cells && s.cells[c.ppPointer] !in s.live ==> !LooksHooked(c.found, c.pDetour))
  }

  ghost predicate CallOk(w: World, s: State, call: Call) {
    && w.cells0.Keys == w.home.Keys == s.cells.Keys
    && match call
       case CallBegin(me) => me != NOBODY
       case CallAttach(me, c) => me != NOBODY && (s.owner == me && s.error == NoError ==> AttachOk(w, s, c))
       case CallDetach(me, c) => me != NOBODY && (s.owner == me && s.error == NoError ==> DetachOk(s, c))
       case CallCommit(me, _) => me != NOBODY
       case CallAbort(me) => me != NOBODY
       case CallUpdateThread(_) => true
       case CallIgnoreTooSmall(_) => true
  }

  /** The committed hooks, and the pointers ever hooked, after a call. */
  function DoneNext(s: State, done: set<dword>, call: Call): set<dword> {
    if call.CallCommit? && call.me == s.owner && s.error == NoError
    then done - OpTramps(s.ops, true) + OpTramps(s.ops, false) else done
  }

  function HookedNext(s: State, hooked: set<dword>, call: Call): set<dword> {
    if call.CallCommit? && call.me == s.owner && s.error == NoError then hooked + OpPointers(s.ops) else hooked
  }

  /** A change of nothing but the transaction's own bookkeeping. */
  lemma {:induction false} SameHooks(w: World, s: State, s': State, done: set<dword>, hooked: set<dword>)
    requires Good(w, s, done, hooked)
    requires s'.mem == s.mem && s'.live == s.live && s'.cells == s.cells && s'.ops == s.ops
    requires s'.owner == NOBODY ==> s.ops == []
    ensures Good(w, s', done, hooked)
  {
    hide CodeOk, CellsOk, OpsOk;
  }

  lemma {:induction false} OpSlots(w: World, s: State, done: set<dword>, hooked: set<dword>)
    requires Inv(w, s, done, hooked, s.ops)
    ensures forall o :: o in s.ops ==> IsSlot(o.pTrampoline) && RegionOf(o.pTrampoline) in w.arena
    ensures DistinctTramps(s.ops) && forall o :: o in s.ops ==> o.pTrampoline in s.live
    ensures forall o :: o in s.ops ==> (o.pTrampoline in done <==> o.isRemove)
    ensures OpTramps(s.ops, true) <= done && OpTramps(s.ops, false) !! done
  {
    hide HookOk, TargetOf, Covers, TargetsDisjoint, IsSlot, RegionOf, CellsOk;
    forall o | o in s.ops ensures IsSlot(o.pTrampoline) && RegionOf(o.pTrampoline) in w.arena {
      CodeFacts(w, s.mem, s.live, done, o.pTrampoline);
    }
    OpTrampsOf(s.ops, true);
    OpTrampsOf(s.ops, false);
  }

  /** Commit without a pending error hooks every pending attach and unhooks every pending detach. */
  lemma {:induction false} CommitKeeps(w: World, s: State, done: set<dword>, hooked: set<dword>, readable: set<Handle>)
    requires Good(w, s, done, hooked)
    ensures var s' := Committed(s, readable);
            && Good(w, s', done - OpTramps(s.ops, true) + OpTramps(s.ops, false), hooked + OpPointers(s.ops))
            && s'.error == s.error && s'.owner == NOBODY
  {
    hide CodeOk, CellsOk, CommitOps, ReleaseOps, FixThreads, Resume, IsSlot, RegionOf, OpTramps;
    OpSlots(w, s, done, hooked);
    CommitOpsKeeps(w, s, done, hooked, s.ops);
    DoneAfterAllIs(done, s.ops);
    OpTrampsOf(s.ops, true);
    var done' := DoneAfterAll(done, s.ops);
    var s1 := CommitOps(s, s.ops);
    var s2 := s1.(eips := FixThreads(s1.eips, s1.live, s.ops, s.threads, readable));
    ReleaseKeeps(w, s2, done', hooked + OpPointers(s.ops), s.ops, false);
    NoOps(w, s1.cells, ReleaseOps(s2, s.ops, false).live, done');
  }

  lemma {:induction false} NoOps(w: World, cells: map<dword, dword>, live: map<dword, Slot>, done: set<dword>)
    ensures OpsOk(w, cells, live, done, []) && OpTramps([], false) == {}
  {
  }

  /** Abort gives the pending attaches' trampolines back and changes no target and no pointer. */
  lemma {:induction false} AbortKeeps(w: World, s: State, done: set<dword>, hooked: set<dword>)
    requires Good(w, s, done, hooked)
    ensures Good(w, Aborted(s), done, hooked) && Aborted(s).live.Keys == done && Aborted(s).cells == s.cells
    ensures forall i :: 0 <= i < |s.mem| && !InArena(w, i) ==> Aborted(s).mem[i] == s.mem[i]
  {
    hide CodeOk, CellsOk, ReleaseOps, Resume, IsSlot, RegionOf, OpTramps, InArena;
    OpSlots(w, s, done, hooked);
    ReleaseKeeps(w, s, done, hooked, s.ops, true);
    MemSize(w, s.mem, s.live, done);
    ReleaseOutside(w, s, s.ops, true);
    NoOps(w, s.cells, ReleaseOps(s, s.ops, true).live, done);
  }

  lemma {:induction false} MemSize(w: World, mem: seq<byte>, live: map<dword, Slot>, done: set<dword>)
    requires CodeOk(w, mem, live, done)
    ensures |mem| == |w.mem0| == ADDRESS_SPACE
  {
  }

  lemma {:induction false} ReleaseOutside(w: World, s: State, ops: seq<Op>, aborting: bool)
    requires |s.mem| == ADDRESS_SPACE
    requires forall o :: o in ops ==> IsSlot(o.pTrampoline) && RegionOf(o.pTrampoline) in w.arena
    ensures |ReleaseOps(s, ops, aborting).mem| == |s.mem|
    ensures forall i :: 0 <= i < |s.mem| && !InArena(w, i) ==> ReleaseOps(s, ops, aborting).mem[i] == s.mem[i]
    decreases |ops|
  {
    hide Protect, IsSlot, RegionOf, InArena, Blit;
    if ops != [] {
      var o := ops[0];
      assert o in ops && forall o :: o in ops[1..] ==> o in ops;
      SlotInArena(w, o.pTrampoline);
      ReleaseOutside(w, ReleaseOp(s, o, aborting), ops[1..], aborting);
    }
  }

  /** A finished trampoline rebuilds the code it was made from. */
  lemma {:induction false} SlotRebuilds(mem0: seq<byte>, window: seq<byte>, at: dword, t: dword, pDetour: dword)
    requires |window| == SLOT_SIZE && at + SLOT_SIZE <= |mem0| == ADDRESS_SPACE
    requires MoveFrom(Blank(), window, t - at, 0).Some?
    requires var m := MoveFrom(Blank(), window, t - at, 0).value;
             && SIZE_OF_JMP <= m.cb <= CODE_SIZE - SIZE_OF_JMP && NoInvalid(window, 0, m.cb)
             && window[..m.cb] == mem0[at..at + m.cb]
    ensures var m := MoveFrom(Blank(), window, t - at, 0).value;
            && TargetOf(Slot(m.cb, at + m.cb, pDetour)) == at
            && Rebuilds(mem0, SlotBytes(m.buf, m.cb, at, t), t, Slot(m.cb, at + m.cb, pDetour))
  {
    hide MoveFrom, Tiled, NoInvalid, HoldsCopies, JumpBytes;
    var m := MoveFrom(Blank(), window, t - at, 0).value;
    var bytes, n := SlotBytes(m.buf, m.cb, at, t), m.cb;
    MoveTiles(Blank(), window, t - at, 0);
    MoveCopies(Blank(), window, t - at, 0);
    HoldsCopiesFrame(m.buf, bytes, window, t - at, 0, n);
    CutCode(window, bytes, t - at, 0, n);
    assert bytes[n..n + SIZE_OF_JMP] == JumpBytes(t + n, at + n);
  }

  /** The new trampoline of an attach joins the others, not yet committed. */
  lemma {:induction false} NewSlotKeeps(w: World, mem: seq<byte>, live: map<dword, Slot>, done: set<dword>, t: dword,
                                        bytes: seq<byte>, slot: Slot)
    requires CodeOk(w, mem, live, done) && t !in live && IsSlot(t) && RegionOf(t) in w.arena && |bytes| == SLOT_SIZE
    requires Rebuilds(w.mem0, bytes, t, slot) && Apart(w, TargetOf(slot), SLOT_SIZE)
    requires forall u :: u in live ==> TargetsDisjoint(slot, live[u])
    ensures t + SLOT_SIZE <= |mem| && CodeOk(w, Blit(mem, t, bytes), live[t := slot], done)
  {
    hide Blit, Rebuilds, Apart, TargetOf, PatchBytes, IsSlot, RegionOf;
    SlotInArena(w, t);
    SlotWrite(w, mem, live, done, t, bytes);
    BlitReads(mem, t, bytes);
    var mem', live' := Blit(mem, t, bytes), live[t := slot];
    assert HookOk(w, mem', t, slot, false);
    hide HookOk, Covers;
    AddHook(w, mem', live, done, t, slot);
  }

  lemma {:induction false} AddHook(w: World, mem: seq<byte>, live: map<dword, Slot>, done: set<dword>, t: dword,
                                   slot: Slot)
    requires CodeOk(w, mem, live, done) && t !in live && HookOk(w, mem, t, slot, false)
    requires forall u :: u in live ==> TargetsDisjoint(slot, live[u])
    ensures CodeOk(w, mem, live[t := slot], done)
  {
    hide HookOk, Covers, TargetOf, InArena;
  }

  /** Bytes outside the regions that no live hook covers are the original ones. */
  lemma {:induction false} UncoveredBytes(w: World, mem: seq<byte>, live: map<dword, Slot>, done: set<dword>, at: dword,
                                          n: nat)
    requires CodeOk(w, mem, live, done) && at + n <= |mem| && Apart(w, at, n)
    requires forall t :: t in live ==>
               TargetOf(live[t]) + live[t].cbTarget <= at || at + n <= TargetOf(live[t])
    ensures mem[at..at + n] == w.mem0[at..at + n]
  {
    hide HookOk, TargetOf, InArena;
    forall i | at <= i < at + n ensures mem[i] == w.mem0[i] {
      assert forall t :: t in done ==> !Covers(live[t], i);
    }
  }

  lemma {:induction false} AttachCode(w: World, s: State, done: set<dword>, c: AttachCall)
    requires CodeOk(w, s.mem, s.live, done) && AttachOk(w, s, c) && c.slot != NULL
    requires var n := MoveInto(s.mem, c.pbTarget, c.slot).value.cb; SIZE_OF_JMP <= n <= CODE_SIZE - SIZE_OF_JMP
    ensures var m := MoveInto(s.mem, c.pbTarget, c.slot).value;
            var slot := Slot(m.cb, WrapAddr(c.pbTarget + m.cb), c.pDetour);
            && c.slot + SLOT_SIZE <= |s.mem| && TargetOf(slot) == c.pbTarget
            && CodeOk(w, Blit(s.mem, c.slot, SlotBytes(m.buf, m.cb, c.pbTarget, c.slot)), s.live[c.slot := slot], done)
  {
    hide CodeOk, NoInvalid, MoveFrom, SlotBytes, Blit, IsSlot, RegionOf, TargetOf, Rebuilds;
    MemSize(w, s.mem, s.live, done);
    var m := MoveInto(s.mem, c.pbTarget, c.slot).value;
    var slot := Slot(m.cb, c.pbTarget + m.cb, c.pDetour);
    UncoveredBytes(w, s.mem, s.live, done, c.pbTarget, m.cb);
    assert Window(s.mem, c.pbTarget)[..m.cb] == s.mem[c.pbTarget..c.pbTarget + m.cb];
    SlotRebuilds(w.mem0, Window(s.mem, c.pbTarget), c.pbTarget, c.slot, c.pDetour);
    NewSlotKeeps(w, s.mem, s.live, done, c.slot, SlotBytes(m.buf, m.cb, c.pbTarget, c.slot), slot);
  }

  /** Queueing one more operation, its trampoline already among the live ones. */
  lemma {:induction false} OpsAdd(w: World, cells: map<dword, dword>, live: map<dword, Slot>, done: set<dword>,
                                  ops: seq<Op>, o: Op)
    requires OpsOk(w, cells, live, done, ops) && o.pTrampoline in live && o.ppbPointer in cells
             && o.ppbPointer in w.home
    requires o.pbTarget == TargetOf(live[o.pTrampoline])
    requires if o.isRemove then o.pTrampoline in done && cells[o.ppbPointer] == o.pTrampoline
             else o.pTrampoline !in done && w.home[o.ppbPointer] == o.pbTarget && cells[o.ppbPointer] !in done
    requires forall p :: p in ops ==> p.pTrampoline != o.pTrampoline && p.ppbPointer != o.ppbPointer
    ensures OpsOk(w, cells, live, done, [o] + ops)
  {
    hide TargetOf;
    var more := [o] + ops;
    assert forall i :: 1 <= i < |more| ==> more[i] == ops[i - 1] && more[i] in ops;
  }

  lemma {:induction false} LiveAdd(w: World, cells: map<dword, dword>, live: map<dword, Slot>, done: set<dword>,
                                   hooked: set<dword>, ops: seq<Op>, t: dword, slot: Slot)
    requires CellsOk(w, cells, live, done, hooked) && OpsOk(w, cells, live, done, ops) && t !in live
    ensures CellsOk(w, cells, live[t := slot], done, hooked) && OpsOk(w, cells, live[t := slot], done, ops)
  {
    hide TargetOf, InArena;
    assert t !in done;
  }

  lemma {:induction false} PointersOf(ops: seq<Op>)
    ensures forall o :: o in ops ==> o.ppbPointer in OpPointers(ops)
  {
    if ops != [] {
      PointersOf(ops[1..]);
    }
  }

  /** Attach queues a pending hook or, on any failure, changes nothing but its own slot. */
  lemma {:induction false} AttachKeeps(w: World, s: State, done: set<dword>, hooked: set<dword>, me: ThreadId,
                                       c: AttachCall)
    requires Good(w, s, done, hooked) && me != NOBODY
    requires s.owner == me && s.error == NoError ==> AttachOk(w, s, c)
    ensures Good(w, Attach(s, me, c).0, done, hooked)
  {
    hide Good, AttachOk, AttachWithSlot;
    var s' := Attach(s, me, c).0;
    if s.owner == me && s.error == NoError && c.ppPointer != NULL && c.ppPointer in s.cells
       && s.cells[c.ppPointer] != NULL && c.pDetour != c.pbTarget && c.haveOp && c.slot != NULL {
      AttachWithSlotKeeps(w, s, done, hooked, c);
    } else {
      GoodOwner(w, s, done, hooked);
      SameHooks(w, s, s', done, hooked);
    }
  }

  lemma {:induction false} GoodOwner(w: World, s: State, done: set<dword>, hooked: set<dword>)
    requires Good(w, s, done, hooked)
    ensures s.owner == NOBODY ==> s.ops == []
  {
  }

  lemma {:induction false} AttachWithSlotKeeps(w: World, s: State, done: set<dword>, hooked: set<dword>, c: AttachCall)
    requires Good(w, s, done, hooked) && AttachOk(w, s, c) && c.slot != NULL && c.ppPointer in s.cells
             && s.owner != NOBODY
    ensures Good(w, AttachWithSlot(s, c).0, done, hooked)
  {
    hide CodeOk, CellsOk, OpsOk, AttachOk, MoveInto, SlotBytes, Protect, Blit, OpTramps, OldPerm, GiveUp, Queued;
    AttachFacts(w, s, c);
    var m := MoveInto(s.mem, c.pbTarget, c.slot).value;
    if SIZE_OF_JMP <= m.cb <= CODE_SIZE - SIZE_OF_JMP {
      QueuedKeeps(w, s, done, hooked, c);
    } else {
      GiveUpKeeps(w, s, done, hooked, c, InvalidBlock, !s.ignoreTooSmall);
      GiveUpKeeps(w, s, done, hooked, c, InvalidHandle, true);
    }
  }

  lemma {:induction false} QueuedKeeps(w: World, s: State, done: set<dword>, hooked: set<dword>, c: AttachCall)
    requires Good(w, s, done, hooked) && AttachOk(w, s, c) && c.slot != NULL && c.ppPointer in s.cells
             && s.owner != NOBODY
    requires var r := MoveInto(s.mem, c.pbTarget, c.slot);
             r.Some? && SIZE_OF_JMP <= r.value.cb <= CODE_SIZE - SIZE_OF_JMP
    ensures var m := MoveInto(s.mem, c.pbTarget, c.slot).value;
            Good(w, Queued(s, c, m.cb, SlotBytes(m.buf, m.cb, c.pbTarget, c.slot)).0, done, hooked)
  {
    hide Good, AttachOk, MoveInto, SlotBytes, Protect, OldPerm, GiveUp, ToMark, Stamped, SlotWritten;
    AttachFacts(w, s, c);
    var m := MoveInto(s.mem, c.pbTarget, c.slot).value;
    var h := ToMark(SlotWritten(s.mem, c.slot, SlotBytes(m.buf, m.cb, c.pbTarget, c.slot)), c);
    if c.protect != NoError {
      GiveUpKeeps(w, s, done, hooked, c, c.protect, true);
    } else if h.Some? && c.headerProtect != NoError {
      var s1 := s.(perms := Protect(s.perms, c.pbTarget, m.cb, PAGE_EXECUTE_READWRITE));
      SameButPerms(w, s, s1, done, hooked);
      GiveUpKeeps(w, s1, done, hooked, c, c.headerProtect, true);
    } else {
      AttachQueued(w, s, done, hooked, c);
    }
  }

  lemma {:induction false} AttachFacts(w: World, s: State, c: AttachCall)
    requires AttachOk(w, s, c)
    ensures c.slot != NULL ==> IsSlot(c.slot) && RegionOf(c.slot) in w.arena && c.slot !in s.live
                               && MoveInto(s.mem, c.pbTarget, c.slot).Some?
    ensures c.header.Some? ==> c.header.value in w.headers
    ensures c.ppPointer in s.cells ==>
              && c.ppPointer in w.home && w.home[c.ppPointer] == c.pbTarget
              && s.cells[c.ppPointer] !in s.live && c.ppPointer !in OpPointers(s.ops)
  {
    hide MoveInto, IsSlot, RegionOf, NoInvalid, TargetOf;
  }

  lemma {:induction false} GiveUpKeeps(w: World, s: State, done: set<dword>, hooked: set<dword>, c: AttachCall,
                                       error: Error, record: bool)
    requires Good(w, s, done, hooked) && IsSlot(c.slot) && RegionOf(c.slot) in w.arena && c.slot !in s.live
    ensures Good(w, GiveUp(s, c, error, record).0, done, hooked)
  {
    hide CodeOk, CellsOk, OpsOk, IsSlot, RegionOf, OpTramps, Blit;
    SlotWrite(w, s.mem, s.live, done, c.slot, seq(SLOT_SIZE, _ => 0));
  }

  lemma {:induction false} AttachQueued(w: World, s: State, done: set<dword>, hooked: set<dword>, c: AttachCall)
    requires Good(w, s, done, hooked) && AttachOk(w, s, c) && c.slot != NULL && c.ppPointer in s.cells
             && s.owner != NOBODY
    requires var r := MoveInto(s.mem, c.pbTarget, c.slot);
             r.Some? && SIZE_OF_JMP <= r.value.cb <= CODE_SIZE - SIZE_OF_JMP
    requires var m := MoveInto(s.mem, c.pbTarget, c.slot).value;
             var h := ToMark(SlotWritten(s.mem, c.slot, SlotBytes(m.buf, m.cb, c.pbTarget, c.slot)), c);
             c.protect == NoError && (h.None? || c.headerProtect == NoError)
    ensures var m := MoveInto(s.mem, c.pbTarget, c.slot).value;
            Good(w, Queued(s, c, m.cb, SlotBytes(m.buf, m.cb, c.pbTarget, c.slot)).0, done, hooked)
  {
    hide CodeOk, CellsOk, OpsOk, AttachOk, MoveInto, SlotBytes, Protect, Blit, OldPerm, TargetOf, IsSlot, RegionOf,
         GiveUp, Stamped;
    AttachFacts(w, s, c);
    var m := MoveInto(s.mem, c.pbTarget, c.slot).value;
    var slot := Slot(m.cb, WrapAddr(c.pbTarget + m.cb), c.pDetour);
    AttachCode(w, s, done, c);
    var mem := SlotWritten(s.mem, c.slot, SlotBytes(m.buf, m.cb, c.pbTarget, c.slot));
    if ToMark(mem, c).Some? {
      StampWrite(w, mem, s.live[c.slot := slot], done, c.header.value);
    }
    LiveAdd(w, s.cells, s.live, done, hooked, s.ops, c.slot, slot);
    var live' := s.live[c.slot := slot];
    var op := Op(false, c.ppPointer, c.pbTarget, c.slot, OldPerm(s.perms, c.pbTarget));
    PointersOf(s.ops);
    OpsLive(w, s.cells, s.live, done, s.ops);
    OpsAdd(w, s.cells, live', done, s.ops, op);
    assert ([op] + s.ops)[1..] == s.ops;
  }

  lemma {:induction false} OpsLive(w: World, cells: map<dword, dword>, live: map<dword, Slot>, done: set<dword>,
                                   ops: seq<Op>)
    requires OpsOk(w, cells, live, done, ops)
    ensures forall o :: o in ops ==> o.pTrampoline in live
  {
    hide TargetOf;
  }

  /** Detach queues one removal, of the trampoline behind the pointer, or changes nothing but the recorded error. */
  lemma {:induction false} DetachQueues(s: State, me: ThreadId, c: DetachCall)
    requires s.owner == me && s.error == NoError ==> DetachOk(s, c)
    ensures var s' := Detach(s, me, c).0;
            if s'.ops == s.ops then s' == s.(error := s'.error, errorPointer := s'.errorPointer)
            else
              && s.owner == me && s.error == NoError && c.ppPointer in s.cells && s.cells[c.ppPointer] in s.live
              && s'.ops != [] && s' == s.(perms := s'.perms, ops := [s'.ops[0]] + s.ops)
              && s'.ops[0].isRemove && s'.ops[0].ppbPointer == c.ppPointer
              && s'.ops[0].pTrampoline == s.cells[c.ppPointer]
              && s'.ops[0].pbTarget == TargetOf(s.live[s.cells[c.ppPointer]])
  {
    hide Protect, OldPerm, TargetOf, LooksHooked, OpPointers;
    assert forall o :: |[o] + s.ops| == |s.ops| + 1;
  }

  /** Detach of a hooked pointer queues the removal of exactly its hook. */
  lemma {:induction false} DetachKeeps(w: World, s: State, done: set<dword>, hooked: set<dword>, me: ThreadId,
                                       c: DetachCall)
    requires Good(w, s, done, hooked) && me != NOBODY
    requires s.owner == me && s.error == NoError ==> DetachOk(s, c)
    ensures Good(w, Detach(s, me, c).0, done, hooked)
  {
    hide Good, Detach, TargetOf;
    GoodOwner(w, s, done, hooked);
    var s' := Detach(s, me, c).0;
    DetachQueues(s, me, c);
    if s'.ops == s.ops {
      SameHooks(w, s, s', done, hooked);
    } else {
      DetachQueued(w, s, done, hooked, c, s'.ops[0]);
      SameButPerms(w, s.(ops := s'.ops), s', done, hooked);
    }
  }

  /**
   * On a pointer with no other pending operation, Detach keeps the process in order if and only if it does not take
   * the code of a function that was never hooked, or is no longer, for a trampoline.
   */
  lemma {:induction false} DetachKeepsIff(w: World, s: State, done: set<dword>, hooked: set<dword>, me: ThreadId,
                                          c: DetachCall)
    requires Good(w, s, done, hooked) && me != NOBODY && s.owner == me && s.error == NoError
    requires c.ppPointer !in OpPointers(s.ops) && c.haveOp && c.protect == NoError
    requires c.ppPointer != NULL && c.ppPointer in s.cells && s.cells[c.ppPointer] != NULL
    ensures Good(w, Detach(s, me, c).0, done, hooked)
            <==> s.cells[c.ppPointer] in s.live
                 || c.found.cbTarget == 0 || c.found.cbTarget > 23 || c.found.pbDetour != c.pDetour
  {
    hide Good, Protect, OldPerm, TargetOf;
    var s' := Detach(s, me, c).0;
    if s.cells[c.ppPointer] in s.live || !LooksHooked(c.found, c.pDetour) {
      DetachKeeps(w, s, done, hooked, me, c);
    } else {
      StrangeOp(w, s', done, hooked, s'.ops[0]);
    }
  }

  lemma {:induction false} StrangeOp(w: World, s: State, done: set<dword>, hooked: set<dword>, o: Op)
    requires o in s.ops && o.pTrampoline !in s.live
    ensures !Good(w, s, done, hooked)
  {
    hide CodeOk, CellsOk, OpTramps, TargetOf;
  }

  /**
   * mov eax, 0; 17 nops; add al, 5; mov eax, [ebp + 8]; push 0x00500000: code whose byte 23 is 5, whose word 24 is
   * 0x6808458B and whose word 28 is the detour's address.
   */
  function PushingCode(): (code: seq<byte>)
    ensures |code| == SLOT_SIZE
  {
    [0xB8, 0, 0, 0, 0] + seq(17, _ => 0x90) + [4, 5, 0x8B, 0x45, 8, 0x68, 0, 0, 0x50, 0]
  }

  lemma {:induction false} PushingFields(mem: seq<byte>, f: dword)
    requires f + SLOT_SIZE <= |mem| && mem[f..f + SLOT_SIZE] == PushingCode()
    ensures FieldsAt(mem, f) == Slot(5, 0x6808_458B, 0x50_0000)
  {
    var code := PushingCode();
    assert forall k :: 0 <= k < SLOT_SIZE ==> mem[f + k] == code[k];
    assert mem[f + 23] == code[23] && mem[f + 24] == code[24] && mem[f + 25] == code[25] && mem[f + 26] == code[26];
    assert mem[f + 27] == code[27] && mem[f + 28] == code[28] && mem[f + 29] == code[29] && mem[f + 30] == code[30];
    assert mem[f + 31] == code[31];
  }

  /**
   * An unhooked function that pushes the address of the detour: with nothing hooked at all, DetourDetach succeeds,
   * and so does Commit, which writes five bytes of it to 0x68084586, sets the pointer to that address, and clears the
   * function itself.
   */
  lemma {:induction false} DetachTakesCode(mem: seq<byte>, perms: seq<Perm>)
    requires |mem| == ADDRESS_SPACE && mem[0x40_1000..0x40_1000 + SLOT_SIZE] == PushingCode()
    ensures var s := State(mem, map[], map[8 := 0x40_1000], perms, map[], map[], 1, false, NoError, NULL, [], []);
            var c := DetachCall(8, 0x50_0000, true, NoError, FieldsAt(mem, 0x40_1000));
            var op := Op(true, 8, 0x6808_4586, 0x40_1000, OldPerm(perms, 0x6808_4586));
            var (s', error) := Detach(s, 1, c);
            && error == NoError && s'.ops == [op]
            && var (done, committed) := Commit(s', 1, {});
            && committed == NoError && done.owner == NOBODY && done.cells == map[8 := 0x6808_4586]
            && |done.mem| == ADDRESS_SPACE && done.mem[0x6808_4586..0x6808_458B] == [0xB8, 0, 0, 0, 0]
            && forall i :: 0x40_1000 <= i < 0x40_1000 + CODE_SIZE + 1 ==> done.mem[i] == 0
  {
    hide Protect, OldPerm, FieldsAt, PushingCode, MoveBack, Blit, Zeroed;
    PushingFields(mem, 0x40_1000);
    var s := State(mem, map[], map[8 := 0x40_1000], perms, map[], map[], 1, false, NoError, NULL, [], []);
    var op := Op(true, 8, 0x6808_4586, 0x40_1000, OldPerm(perms, 0x6808_4586));
    var s' := Detach(s, 1, DetachCall(8, 0x50_0000, true, NoError, FieldsAt(mem, 0x40_1000))).0;
    MovesBackCode(mem, op);
    var r := MoveBack(mem, op, 5).value;
    BlitReads(mem, 0x6808_4586, r.buf);
    SliceOfSlice(Blit(mem, 0x6808_4586, r.buf), 0x6808_4586, 0x6808_4586 + SLOT_SIZE, 0, 5);
    OneRemoved(s', op);
    ZeroedBytes(Blit(mem, 0x6808_4586, r.buf), 0x40_1000, 0x6808_4586, 5);
  }

  /** Committing one removal. */
  lemma {:induction false} OneRemoved(s: State, o: Op)
    requires s.ops == [o] && o.isRemove && s.error == NoError && s.owner != NOBODY && s.threads == []
    ensures var done, one := Committed(s, {}), CommitOp(s, o);
            && done.mem == Zeroed(one.mem, o.pTrampoline) && done.cells == one.cells && done.error == one.error
            && done.owner == NOBODY && Commit(s, s.owner, {}) == (done, done.error)
  {
    hide CommitOp, Zeroed, Protect;
    CommitOpSame(s, o);
    var one, none := CommitOp(s, o), s.ops[1..];
    assert none == [] && CommitOps(one, none) == one && CommitOps(s, s.ops) == one;
    var fixed := one.(eips := FixThreads(one.eips, one.live, s.ops, s.threads, {}));
    var released := ReleaseOp(fixed, o, false);
    assert ReleaseOps(released, none, false) == released && ReleaseOps(fixed, s.ops, false) == released;
  }

  lemma {:induction false} ZeroedBytes(mem: seq<byte>, t: dword, at: dword, n: nat)
    requires t + SLOT_SIZE <= |mem| && at + n <= |mem| && (at + n <= t || t + SLOT_SIZE <= at)
    ensures |Zeroed(mem, t)| == |mem| && Zeroed(mem, t)[at..at + n] == mem[at..at + n]
    ensures forall i :: t <= i < t + SLOT_SIZE ==> Zeroed(mem, t)[i] == 0
  {
  }

  lemma {:induction false} MovesBackCode(mem: seq<byte>, o: Op)
    requires o.pTrampoline + SLOT_SIZE <= |mem| && o.pbTarget + SLOT_SIZE <= |mem|
    requires mem[o.pTrampoline..o.pTrampoline + SLOT_SIZE] == PushingCode()
    ensures var r := MoveBack(mem, o, 5);
            r.Some? && |r.value.buf| == SLOT_SIZE && r.value.cb == 5 && r.value.buf[..5] == [0xB8, 0, 0, 0, 0]
  {
    hide Decode, Relocated, Extra;
    var code, dst := PushingCode(), Window(mem, o.pbTarget);
    MovIsPlain(code, o.pbTarget - o.pTrampoline);
    assert code[0..] == code && code[..5] == [0xB8, 0, 0, 0, 0];
    assert UnmoveFrom(Blit(dst, 0, code[..5]), code, o.pbTarget - o.pTrampoline, 5, 5).Some?;
  }

  lemma {:induction false} SameButPerms(w: World, s: State, s': State, done: set<dword>, hooked: set<dword>)
    requires Good(w, s, done, hooked) && s' == s.(perms := s'.perms)
    ensures Good(w, s', done, hooked)
  {
    hide CodeOk, CellsOk, OpsOk, OpTramps;
  }

  lemma {:induction false} DetachQueued(w: World, s: State, done: set<dword>, hooked: set<dword>, c: DetachCall, o: Op)
    requires Good(w, s, done, hooked) && s.owner != NOBODY && c.ppPointer in s.cells
             && c.ppPointer !in OpPointers(s.ops)
    requires s.cells[c.ppPointer] in s.live
    requires o.isRemove && o.ppbPointer == c.ppPointer && o.pTrampoline == s.cells[c.ppPointer]
    requires o.pbTarget == TargetOf(s.live[o.pTrampoline])
    ensures Good(w, s.(ops := [o] + s.ops), done, hooked)
  {
    hide CodeOk, OpsOk, TargetOf, OpPointers;
    var t := o.pTrampoline;
    CodeArena(w, s.mem, s.live, done, t);
    UnhookedCells(w, s.cells, s.live, done, hooked);
    assert t in done;
    PointersOf(s.ops);
    OtherTramps(w, s.cells, s.live, done, hooked, s.ops, c.ppPointer);
    OpsAdd(w, s.cells, s.live, done, s.ops, o);
    assert ([o] + s.ops)[1..] == s.ops;
  }

  lemma {:induction false} OtherTramps(w: World, cells: map<dword, dword>, live: map<dword, Slot>, done: set<dword>,
                                       hooked: set<dword>, ops: seq<Op>, p: dword)
    requires CellsOk(w, cells, live, done, hooked) && OpsOk(w, cells, live, done, ops)
    requires p in cells && cells[p] in done && forall o :: o in ops ==> o.ppbPointer != p
    ensures forall o :: o in ops ==> o.pTrampoline != cells[p] && o.ppbPointer in cells
  {
    hide TargetOf, InArena;
  }

  lemma {:induction false} BeginKeeps(w: World, s: State, done: set<dword>, hooked: set<dword>, me: ThreadId)
    requires Good(w, s, done, hooked) && me != NOBODY
    ensures Good(w, Begin(s, me).0, done, hooked)
  {
    hide CodeOk, CellsOk, OpTramps;
  }

  lemma {:induction false} UpdateKeeps(w: World, s: State, done: set<dword>, hooked: set<dword>, c: UpdateCall)
    requires Good(w, s, done, hooked)
    ensures Good(w, UpdateThread(s, c).0, done, hooked)
  {
    hide Good;
    GoodOwner(w, s, done, hooked);
    SameHooks(w, s, UpdateThread(s, c).0, done, hooked);
  }

  /** Every call by any thread keeps the process in order. */
  lemma {:induction false} ApplyKeeps(w: World, s: State, done: set<dword>, hooked: set<dword>, call: Call)
    requires Good(w, s, done, hooked) && CallOk(w, s, call)
    ensures Good(w, Apply(s, call), DoneNext(s, done, call), HookedNext(s, hooked, call))
  {
    hide Good, Committed, Aborted, Attach, Detach, Begin, UpdateThread, AttachOk, DetachOk, OpTramps, OpPointers;
    match call {
      case CallBegin(me) => BeginKeeps(w, s, done, hooked, me);
      case CallUpdateThread(c) => UpdateKeeps(w, s, done, hooked, c);
      case CallAttach(me, c) => AttachKeeps(w, s, done, hooked, me, c);
      case CallDetach(me, c) => DetachKeeps(w, s, done, hooked, me, c);
      case CallCommit(me, readable) =>
        CommitKeeps(w, s, done, hooked, readable);
        AbortKeeps(w, s, done, hooked);
      case CallAbort(me) => AbortKeeps(w, s, done, hooked);
      case CallIgnoreTooSmall(fIgnore) =>
        GoodOwner(w, s, done, hooked);
        SameHooks(w, s, s.(ignoreTooSmall := fIgnore), done, hooked);
    }
  }

  // --------------------------------------------------------------------- runs

  function Run(s: State, calls: seq<Call>): State
    decreases |calls|
  {
    if calls == [] then s else Run(Apply(s, calls[0]), calls[1..])
  }

  ghost predicate RunOk(w: World, s: State, calls: seq<Call>)
    decreases |calls|
  {
    calls == [] || (CallOk(w, s, calls[0]) && RunOk(w, Apply(s, calls[0]), calls[1..]))
  }

  /** The hooks in place, and the pointers ever hooked, at the end of a run. */
  function DoneAtEnd(s: State, done: set<dword>, calls: seq<Call>): set<dword>
    decreases |calls|
  {
    if calls == [] then done else DoneAtEnd(Apply(s, calls[0]), DoneNext(s, done, calls[0]), calls[1..])
  }

  function HookedAtEnd(s: State, hooked: set<dword>, calls: seq<Call>): set<dword>
    decreases |calls|
  {
    if calls == [] then hooked else HookedAtEnd(Apply(s, calls[0]), HookedNext(s, hooked, calls[0]), calls[1..])
  }

  lemma {:induction false} RunKeeps(w: World, s: State, done: set<dword>, hooked: set<dword>, calls: seq<Call>)
    requires Good(w, s, done, hooked) && RunOk(w, s, calls)
    ensures Good(w, Run(s, calls), DoneAtEnd(s, done, calls), HookedAtEnd(s, hooked, calls))
    decreases |calls|
  {
    hide Good, CallOk, Apply, DoneNext, HookedNext;
    if calls != [] {
      ApplyKeeps(w, s, done, hooked, calls[0]);
      RunKeeps(w, Apply(s, calls[0]), DoneNext(s, done, calls[0]), HookedNext(s, hooked, calls[0]), calls[1..]);
    }
  }

  /** A process in which nothing is hooked and nothing is pending. */
  ghost predicate Pristine(w: World, s: State) {
    && s.mem == w.mem0 && |w.mem0| == ADDRESS_SPACE && s.live == map[] && s.owner == NOBODY && s.ops == []
    && s.cells == w.cells0 && w.cells0.Keys == w.home.Keys
    && (forall h :: h in w.headers ==> h % 0x1_0000 == 0 && h !in w.arena)
    && forall p :: p in w.cells0 ==> !InArena(w, w.cells0[p]) && !InArena(w, w.home[p])
  }

  lemma {:induction false} PristineGood(w: World, s: State)
    requires Pristine(w, s)
    ensures Good(w, s, {}, {})
  {
    hide HookOk;
  }

  /**
   * Whole-run restoration.  Run any calls of any threads over pairwise disjoint targets.  Whenever every hook has
   * been detached again and no transaction is pending, every byte outside the trampoline regions is what it was
   * before the first call, but for the stamps in module headers, which are there or as they were; every pointer that
   * was ever hooked holds the function it resolves to, and every other pointer its first value.
   */
  lemma {:induction false} RunRestores(w: World, s: State, calls: seq<Call>)
    requires Pristine(w, s) && RunOk(w, s, calls)
    requires Run(s, calls).live == map[] && Run(s, calls).owner == NOBODY
    ensures var s', hooked := Run(s, calls), HookedAtEnd(s, {}, calls);
            && |s'.mem| == |s.mem| == ADDRESS_SPACE && s'.cells.Keys == s.cells.Keys
            && (forall i :: 0 <= i < |s.mem| && Outside(w, i) ==> s'.mem[i] == s.mem[i])
            && (forall h :: h in w.headers ==> h + DOS_HEADER_SIZE <= |s.mem| && StampOk(s.mem, s'.mem, h))
            && (forall p :: p in s.cells ==>
                  p in w.home && s'.cells[p] == if p in hooked then w.home[p] else s.cells[p])
  {
    hide Run, RunOk, HookedAtEnd, DoneAtEnd, HookOk, InArena, Covers, StampOk;
    PristineGood(w, s);
    RunKeeps(w, s, {}, {}, calls);
  }

  /**
   * In between, at every moment of such a run: a byte that differs from its first value lies in a trampoline
   * region, in the stamp of a module, which then reads "Detours!", or in a committed hook's target, which then holds
   * the jump to its detour and INT3.
   */
  lemma {:induction false} OnlyHooksDiffer(w: World, s: State, calls: seq<Call>, i: nat)
    requires Pristine(w, s) && RunOk(w, s, calls) && i < ADDRESS_SPACE && !InArena(w, i)
    ensures |Run(s, calls).mem| == |s.mem| == ADDRESS_SPACE
    ensures Run(s, calls).mem[i] != s.mem[i] ==>
              || (exists h :: h in w.headers && InStamp(h, i) && HasStamp(Run(s, calls).mem, h))
              || exists t :: t in DoneAtEnd(s, {}, calls) && t in Run(s, calls).live && Covers(Run(s, calls).live[t], i)
                          && HookOk(w, Run(s, calls).mem, t, Run(s, calls).live[t], true)
  {
    hide Run, RunOk, HookedAtEnd, DoneAtEnd, HookOk, InArena, Covers, StampOk;
    PristineGood(w, s);
    RunKeeps(w, s, {}, {}, calls);
    if h :| h in w.headers && InStamp(h, i) {
      StampDiffers(w, Run(s, calls).mem, h, i);
    }
  }

  lemma {:induction false} StampDiffers(w: World, mem: seq<byte>, h: dword, i: nat)
    requires |mem| == |w.mem0| == ADDRESS_SPACE && HeadersOk(w, mem) && h in w.headers && InStamp(h, i) && i < |mem|
    ensures mem[i] != w.mem0[i] ==> HasStamp(mem, h)
  {
    assert StampOk(w.mem0, mem, h);
    var k := i - h - E_RES;
    assert StampAt(mem, h)[k] == mem[i] && StampAt(w.mem0, h)[k] == w.mem0[i];
  }
}
