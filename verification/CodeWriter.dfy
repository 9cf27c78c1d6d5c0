/** The code generators and copying loops of detours.cpp, writing into memory in place. */
module CodeWriter {
  import opened Bytes
  import opened Disasm
  import opened Relocation
  import opened TrampolineRun
  import opened TrampolineHeap
  import opened Transaction
  import opened InstructionCopier

  /** detour_gen_jmp_immediate. */
  method GenJmpImmediate(mem: array<byte>, pbCode: nat, pbJmpVal: nat) returns (pbNext: nat)
    requires pbCode + SIZE_OF_JMP <= mem.Length
    modifies mem
    ensures mem[..] == Blit(old(mem[..]), pbCode, JumpBytes(pbCode, pbJmpVal)) && pbNext == pbCode + SIZE_OF_JMP
  {
    hide LE32;
    var disp := LE32(WrapAddr(pbJmpVal - (pbCode + 5)));
    ghost var was := mem[..];
    mem[pbCode] := 0xE9;
    mem[pbCode + 1], mem[pbCode + 2], mem[pbCode + 3], mem[pbCode + 4] := disp[0], disp[1], disp[2], disp[3];
    assert mem[..] == Blit(was, pbCode, [0xE9] + disp);
    pbNext := pbCode + 5;
  }

  /** detour_gen_brk. */
  method GenBrk(mem: array<byte>, pbCode: nat, pbLimit: nat) returns (pbNext: nat)
    requires pbCode <= pbLimit <= mem.Length
    modifies mem
    ensures mem[..] == Blit(old(mem[..]), pbCode, seq(pbLimit - pbCode, _ => INT3)) && pbNext == pbLimit
  {
    ghost var was := mem[..];
    pbNext := pbCode;
    while pbNext < pbLimit
      invariant pbCode <= pbNext <= pbLimit
      invariant forall k :: 0 <= k < mem.Length ==> mem[k] == if pbCode <= k < pbNext then INT3 else was[k]
    {
      mem[pbNext] := INT3;
      pbNext := pbNext + 1;
    }
    assert mem[..] == Blit(was, pbCode, seq(pbLimit - pbCode, _ => INT3));
  }

  /** detour_does_code_end_function, on the bytes at `pbOp`. */
  method CodeEndsFunction(mem: array<byte>, pbOp: nat, ghost rest: seq<byte>) returns (ends: bool)
    requires 3 <= |rest| && pbOp + |rest| <= mem.Length && mem[pbOp..pbOp + |rest|] == rest
    ensures ends == EndsFunction(rest)
  {
    var b0, b1, b2 := mem[pbOp], mem[pbOp + 1], mem[pbOp + 2];
    ghost var here := mem[pbOp..pbOp + |rest|];
    assert here[0] == b0 && here[1] == b1 && here[2] == b2;
    assert b0 == rest[0] && b1 == rest[1] && b2 == rest[2];
    if b0 == 0xE9 || b0 == 0xE0 || b0 == 0xC2 || b0 == 0xC3 || b0 == 0xCC {
      return true;
    } else if b0 == 0xFF && b1 == 0x25 {
      return true;
    } else if (b0 == 0x26 || b0 == 0x2E || b0 == 0x36 || b0 == 0xE3 || b0 == 0x64 || b0 == 0x65) && b1 == 0xFF
        && b2 == 0x25 {
      return true;
    }
    return false;
  }

  /** One instruction copied from `pbSrc` to `pbDst`, seen as a step of the copying loops. */
  method CopyStep(mem: array<byte>, pbDst: nat, pbSrc: nat, ghost rest: seq<byte>) returns (pbNext: nat, lExtra: int)
    requires Decode(rest, false, false).Some?
    requires var n := Decode(rest, false, false).value.len;
             && pbSrc + n <= mem.Length && pbDst + n <= mem.Length && (pbDst + n <= pbSrc || pbSrc + n <= pbDst)
             && forall k :: 0 <= k < n ==> mem[pbSrc + k] == rest[k]
    modifies mem
    ensures var ins := Decode(rest, false, false).value;
            && mem[..] == Blit(old(mem[..]), pbDst, Relocated(rest, ins, pbDst - pbSrc))
            && lExtra == Extra(rest, ins, pbDst - pbSrc) && pbNext == pbSrc + ins.len
  {
    hide Decode, Relocated, Extra, Blit;
    ghost var ins := Decode(rest, false, false).value;
    ghost var code := rest[..ins.len];
    CutInstr(rest, code, ins, pbDst - pbSrc);
    var oDetourDisasm := new CDetourDis();
    pbNext := oDetourDisasm.CopyInstruction(mem, pbDst, pbSrc, code);
    lExtra := oDetourDisasm.m_lExtra;
  }

  /** The window of a function and a slot keep off each other. */
  predicate WindowsApart(a: dword, b: dword) {
    a + SLOT_SIZE <= b || b + SLOT_SIZE <= a
  }

  /** DetourAttachEx's loop: move instructions at `pbTarget` into the slot at `t`. */
  method MoveCode(mem: array<byte>, pbTarget: dword, t: dword) returns (cbTarget: nat)
    requires pbTarget + SLOT_SIZE <= mem.Length && t + SLOT_SIZE <= mem.Length && WindowsApart(pbTarget, t)
    requires Window(mem[..], t) == Blank() && MoveInto(mem[..], pbTarget, t).Some?
    modifies mem
    ensures var m := MoveInto(old(mem[..]), pbTarget, t).value;
            cbTarget == m.cb && mem[..] == Blit(old(mem[..]), t, m.buf)
  {
    hide Decode, Relocated, Extra, EndsFunction, Blit, MoveFrom;
    ghost var was, code, delta := mem[..], Window(mem[..], pbTarget), t - pbTarget;
    ghost var buf, m := Blank(), MoveInto(mem[..], pbTarget, t).value;
    BlitSelf(was, t);
    cbTarget := 0;
    while cbTarget < SIZE_OF_JMP
      invariant cbTarget <= |code| && |buf| == SLOT_SIZE && mem[..] == Blit(was, t, buf)
      invariant MoveFrom(buf, code, delta, cbTarget) == Some(m)
      decreases |code| - cbTarget
    {
      ghost var rest := code[cbTarget..];
      MoveStep(buf, code, delta, cbTarget, m);
      ghost var ins := Decode(rest, false, false).value;
      WindowByte(was, mem[..], pbTarget, t, buf);
      var pbSrc, lExtra := CopyStep(mem, t + cbTarget, pbTarget + cbTarget, rest);
      BlitInside(was, t, buf, cbTarget, Relocated(rest, ins, delta));
      buf := Blit(buf, cbTarget, Relocated(rest, ins, delta));
      if lExtra != 0 {
        return;
      }
      WindowByte(was, mem[..], pbTarget, t, buf);
      assert mem[pbTarget + cbTarget..pbTarget + cbTarget + |rest|] == rest;
      var ends := CodeEndsFunction(mem, pbTarget + cbTarget, rest);
      cbTarget := pbSrc - pbTarget;
      if ends {
        return;
      }
    }
    MoveEnd(buf, code, delta, cbTarget, m);
  }

  /** What one turn of the moving loop does to the move still to come. */
  lemma {:induction false} MoveStep(buf: seq<byte>, code: seq<byte>, delta: int, cb: nat, m: Progress)
    requires cb <= |code| && cb < SIZE_OF_JMP && MoveFrom(buf, code, delta, cb) == Some(m)
    ensures Decode(code[cb..], false, false).Some?
    ensures var rest := code[cb..];
            var ins := Decode(rest, false, false).value;
            && cb + ins.len <= |buf| && cb + ins.len <= |code|
            && var buf' := Blit(buf, cb, Relocated(rest, ins, delta));
            && |buf'| == |buf|
            && if Extra(rest, ins, delta) != 0 then m == Progress(cb, buf')
               else if EndsFunction(rest) then m == Progress(cb + ins.len, buf')
               else MoveFrom(buf', code, delta, cb + ins.len) == Some(m)
  {
    hide Decode, Relocated, Extra, EndsFunction, Blit;
  }

  lemma {:induction false} MoveEnd(buf: seq<byte>, code: seq<byte>, delta: int, cb: nat, m: Progress)
    requires cb <= |code| && cb >= SIZE_OF_JMP && MoveFrom(buf, code, delta, cb) == Some(m)
    ensures m == Progress(cb, buf)
  {
  }

  lemma {:induction false} BlitSelf(mem: seq<byte>, t: nat)
    requires t + SLOT_SIZE <= |mem|
    ensures Blit(mem, t, mem[t..t + SLOT_SIZE]) == mem
  {
  }

  /** Writing into a block that was itself written. */
  lemma {:induction false} BlitInside(mem: seq<byte>, t: nat, buf: seq<byte>, at: nat, bs: seq<byte>)
    requires t + |buf| <= |mem| && at + |bs| <= |buf|
    ensures Blit(Blit(mem, t, buf), t + at, bs) == Blit(mem, t, Blit(buf, at, bs))
  {
  }

  /** A window apart from the slot still reads as before. */
  lemma {:induction false} WindowByte(was: seq<byte>, mem: seq<byte>, pbTarget: dword, t: dword, buf: seq<byte>)
    requires |buf| == SLOT_SIZE && t + SLOT_SIZE <= |was| && pbTarget + SLOT_SIZE <= |was| && WindowsApart(pbTarget, t)
    requires mem == Blit(was, t, buf)
    ensures Window(mem, pbTarget) == Window(was, pbTarget)
    ensures forall k :: 0 <= k < SLOT_SIZE ==> mem[pbTarget + k] == Window(was, pbTarget)[k]
  {
    BlitFrame(was, t, buf, pbTarget, pbTarget + SLOT_SIZE);
    forall k | 0 <= k < SLOT_SIZE ensures mem[pbTarget + k] == Window(was, pbTarget)[k] {
      assert mem[pbTarget..pbTarget + SLOT_SIZE][k] == mem[pbTarget + k];
    }
  }

  /** DetourTransactionCommitEx's loop: copy the moved instructions of a slot back over the target. */
  method MoveCodeBack(mem: array<byte>, o: Op, cbTarget: nat) returns (cbCopy: nat)
    requires o.pbTarget + SLOT_SIZE <= mem.Length && o.pTrampoline + SLOT_SIZE <= mem.Length
    requires WindowsApart(o.pbTarget, o.pTrampoline) && MoveBack(mem[..], o, cbTarget).Some?
    modifies mem
    ensures var m := MoveBack(old(mem[..]), o, cbTarget).value;
            cbCopy == m.cb && mem[..] == Blit(old(mem[..]), o.pbTarget, m.buf)
  {
    hide Decode, Relocated, Extra, Blit;
    ghost var was, code, delta := mem[..], Window(mem[..], o.pTrampoline), o.pbTarget - o.pTrampoline;
    ghost var buf, m := Window(mem[..], o.pbTarget), MoveBack(mem[..], o, cbTarget).value;
    BlitSelf(was, o.pbTarget);
    cbCopy := 0;
    while cbCopy < cbTarget
      invariant cbCopy <= |code| && |buf| == SLOT_SIZE && mem[..] == Blit(was, o.pbTarget, buf)
      invariant UnmoveFrom(buf, code, delta, cbTarget, cbCopy) == Some(m)
      decreases |code| - cbCopy
    {
      ghost var rest := code[cbCopy..];
      ghost var ins := Decode(rest, false, false).value;
      WindowByte(was, mem[..], o.pTrampoline, o.pbTarget, buf);
      var pbSrc, lExtra := CopyStep(mem, o.pbTarget + cbCopy, o.pTrampoline + cbCopy, rest);
      BlitInside(was, o.pbTarget, buf, cbCopy, Relocated(rest, ins, delta));
      buf := Blit(buf, cbCopy, Relocated(rest, ins, delta));
      if lExtra != 0 {
        break;
      }
      cbCopy := pbSrc - o.pTrampoline;
    }
  }
}
