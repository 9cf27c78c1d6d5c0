/** CDetourDis: the copier that writes a relocated instruction into memory in place (disasm.cpp). */
module InstructionCopier {
  import opened Bytes
  import opened OpcodeTables
  import opened Disasm

  /** `TargetFaults` when the slot of an indirect jump cannot be read. */
  datatype Reported = TargetNone | TargetDynamic | TargetAt(address: dword) | TargetFaults

  /** What the copier reports through ppbTarget for an instruction standing at `src`, in memory `mem`. */
  function ReportedTarget(code: seq<byte>, ins: Instr, src: int, mem: seq<byte>): Reported
    requires WellFormed(ins, code)
  {
    match ins.target
    case NoTarget => TargetNone
    case Dynamic => TargetDynamic
    case Relative => if ins.rel.Rel? then TargetAt(BranchTarget(src, code, ins)) else TargetNone
    case Via(a) => if a + 4 <= |mem| then TargetAt(U32At(mem, a)) else TargetFaults
  }

  /**
   * The whole effect of copying the instruction `ins` with bytes `code` from `src` to `dst`.  The slot of an indirect
   * jump is read when only the prefixes have been copied.
   */
  ghost predicate Copied(ins: Instr, code: seq<byte>, dst: nat, src: nat, was: seq<byte>, now: seq<byte>,
                         next: nat, extra: int, target: Reported)
    requires WellFormed(ins, code) && ins.len == |code| && dst + |code| <= |was|
  {
    && next == src + ins.len
    && now == Blit(was, dst, Relocated(code, ins, dst - src))
    && extra == Extra(code, ins, dst - src)
    && target == ReportedTarget(code, ins, src, Blit(was, dst, code[..Prefixes(code)]))
  }

  /** Copying the byte before an instruction and then the instruction copies the longer instruction. */
  lemma {:induction false} CopiedBehind(ins: Instr, code: seq<byte>, dst: nat, src: nat, was: seq<byte>, now: seq<byte>,
                                        next: nat, extra: int, target: Reported)
    requires code != [] && WellFormed(ins, code[1..]) && ins.len == |code| - 1 && dst + |code| <= |was|
    requires Copied(ins, code[1..], dst + 1, src + 1, Blit(was, dst, [code[0]]), now, next, extra, target)
    requires ins.target.Via? ==> IsPrefix(CopyTable(code[0]))
    ensures var longer := Behind(Some(ins)).value;
            WellFormed(longer, code) && Copied(longer, code, dst, src, was, now, next, extra, target)
  {
    hide Blit, Disp, EncodeDisp, Relocated, U32At, CopyTable;
    var longer := Behind(Some(ins)).value;
    var rest := Relocated(code[1..], ins, dst - src);
    BlitTwice(was, dst, [code[0]], rest, [code[0]] + rest);
    RelocatedBehind(code, ins, longer, dst - src);
    if ins.target.Via? {
      var n := Prefixes(code[1..]);
      assert code[..Prefixes(code)] == [code[0]] + code[1..][..n];
      BlitTwice(was, dst, [code[0]], code[1..][..n], code[..Prefixes(code)]);
    }
  }

  lemma {:induction false} RelocatedBehind(code: seq<byte>, ins: Instr, longer: Instr, delta: int)
    requires code != [] && WellFormed(ins, code[1..]) && ins.len == |code| - 1
    requires longer == Behind(Some(ins)).value && WellFormed(longer, code)
    ensures Relocated(code, longer, delta) == [code[0]] + Relocated(code[1..], ins, delta)
    ensures ins.rel.Rel? ==> Disp(code, longer.rel.at, longer.rel.size) == Disp(code[1..], ins.rel.at, ins.rel.size)
  {
    hide EncodeDisp;
    if ins.rel.Rel? {
      assert code[..longer.rel.at] == [code[0]] + code[1..][..ins.rel.at];
      assert Disp(code, longer.rel.at, longer.rel.size) == Disp(code[1..], ins.rel.at, ins.rel.size);
    }
  }

  class CDetourDis {
    var m_bOperandOverride: bool
    var m_bAddressOverride: bool
    var m_target: Reported
    var m_lExtra: int

    constructor ()
      ensures !m_bOperandOverride && !m_bAddressOverride && Fresh()
    {
      m_bOperandOverride, m_bAddressOverride := false, false;
      m_target, m_lExtra := TargetNone, 0;
    }

    ghost predicate Fresh()
      reads this
    {
      m_target == TargetNone && m_lExtra == 0
    }

    /** The bytes `code` stand at pbSrc, and a copy of that size at pbDst stays off them. */
    ghost predicate Ready(mem: array<byte>, pbDst: nat, pbSrc: nat, code: seq<byte>)
      reads mem
    {
      && pbSrc + |code| <= mem.Length && pbDst + |code| <= mem.Length
      && (forall k :: 0 <= k < |code| ==> mem[pbSrc + k] == code[k])
      && (pbDst + |code| <= pbSrc || pbSrc + |code| <= pbDst)
    }

    /** DetourCopyInstructionEx of the instruction `code` at pbSrc, both pointers non-null. */
    method CopyInstruction(mem: array<byte>, pbDst: nat, pbSrc: nat, ghost code: seq<byte>) returns (pbNext: nat)
      requires Ready(mem, pbDst, pbSrc, code) && !m_bOperandOverride && !m_bAddressOverride && Fresh()
      requires Decode(code, false, false).Some? && Decode(code, false, false).value.len == |code|
      modifies this, mem
      ensures Copied(Decode(code, false, false).value, code, pbDst, pbSrc, old(mem[..]), mem[..],
                     pbNext, m_lExtra, m_target)
    {
      pbNext := Dispatch(mem, pbDst, pbSrc, code);
    }

    /** Copy by the row of the opcode table that the first byte selects. */
    method Dispatch(mem: array<byte>, pbDst: nat, pbSrc: nat, ghost code: seq<byte>) returns (pbNext: nat)
      requires Ready(mem, pbDst, pbSrc, code) && Fresh()
      requires var r := Decode(code, m_bOperandOverride, m_bAddressOverride); r.Some? && r.value.len == |code|
      modifies this, mem
      ensures Copied(old(Decode(code, m_bOperandOverride, m_bAddressOverride)).value, code, pbDst, pbSrc,
                     old(mem[..]), mem[..], pbNext, m_lExtra, m_target)
      decreases |code|
    {
      hide CopyTable, Unprefixed, Blit, Copied;
      var row := CopyTable(mem[pbSrc]);
      assert mem[pbSrc] == code[0];
      if row.Copy66? {
        m_bOperandOverride := true;
      }
      if row.Copy67? {
        m_bAddressOverride := true;
      }
      if IsPrefix(row) {
        ghost var was := mem[..];
        mem[pbDst] := mem[pbSrc];
        ghost var rest := Decode(code[1..], m_bOperandOverride, m_bAddressOverride).value;
        assert mem[..] == Blit(was, pbDst, [code[0]]);
        pbNext := Dispatch(mem, pbDst + 1, pbSrc + 1, code[1..]);
        CopiedBehind(rest, code, pbDst, pbSrc, was, mem[..], pbNext, m_lExtra, m_target);
      } else {
        pbNext := CopyUnprefixed(mem, pbDst, pbSrc, code);
      }
    }

    method CopyUnprefixed(mem: array<byte>, pbDst: nat, pbSrc: nat, ghost code: seq<byte>) returns (pbNext: nat)
      requires Ready(mem, pbDst, pbSrc, code) && Fresh() && code != [] && !IsPrefix(CopyTable(code[0]))
      requires var r := Unprefixed(code, m_bOperandOverride, m_bAddressOverride); r.Some? && r.value.len == |code|
      modifies this, mem
      ensures Copied(old(Unprefixed(code, m_bOperandOverride, m_bAddressOverride)).value, code, pbDst, pbSrc,
                     old(mem[..]), mem[..], pbNext, m_lExtra, m_target)
    {
      hide CopyTable, CopyTable0F, Blit, Opcode, Copied;
      var row := CopyTable(mem[pbSrc]);
      assert mem[pbSrc] == code[0];
      if row.Copy0F? {
        ghost var was := mem[..];
        mem[pbDst] := mem[pbSrc];
        assert mem[..] == Blit(was, pbDst, [code[0]]);
        var row' := CopyTable0F(mem[pbSrc + 1]);
        ghost var rest := Opcode(row', code[1..], m_bOperandOverride, m_bAddressOverride).value;
        pbNext := CopyOpcode(row', mem, pbDst + 1, pbSrc + 1, code[1..]);
        CopiedBehind(rest, code, pbDst, pbSrc, was, mem[..], pbNext, m_lExtra, m_target);
      } else if row.CopyF6? || row.CopyF7? {
        pbNext := CopyOpcode(GroupRow(row, mem[pbSrc + 1]), mem, pbDst, pbSrc, code);
      } else if row.CopyFF? {
        pbNext := CopyGroupFF(mem, pbDst, pbSrc, code);
      } else {
        pbNext := CopyOpcode(row, mem, pbDst, pbSrc, code);
      }
    }

    /** CopyFF: the target of an indirect call or jump is read from its slot or dynamic; the copy is an ordinary one. */
    method CopyGroupFF(mem: array<byte>, pbDst: nat, pbSrc: nat, ghost code: seq<byte>) returns (pbNext: nat)
      requires Ready(mem, pbDst, pbSrc, code) && Fresh() && |code| >= 2 && !IsPrefix(CopyTable(code[0]))
      requires var r := Opcode(CopyBytes2Mod, code, m_bOperandOverride, m_bAddressOverride);
               r.Some? && r.value.len == |code|
      modifies this, mem
      ensures var ins := old(Opcode(CopyBytes2Mod, code, m_bOperandOverride, m_bAddressOverride)).value;
              Copied(ins.(target := IndirectTarget(code)), code, pbDst, pbSrc,
                     old(mem[..]), mem[..], pbNext, m_lExtra, m_target)
    {
      hide Opcode, Blit, IndirectTarget, Disp, EncodeDisp, U32At, CopyTable;
      ModRmImm32(code, m_bOperandOverride, m_bAddressOverride);
      NothingCopied(mem[..], pbDst, code);
      var found := FindIndirectTarget(mem, pbSrc, code);
      pbNext := CopyOpcode(CopyBytes2Mod, mem, pbDst, pbSrc, code);
      m_target := found;
    }

    method FindIndirectTarget(mem: array<byte>, pbSrc: nat, ghost code: seq<byte>) returns (found: Reported)
      requires pbSrc + |code| <= mem.Length && mem[pbSrc..pbSrc + |code|] == code
      requires |code| >= 2 && (code[1] == 0x15 || code[1] == 0x25 ==> |code| == 6)
      ensures match IndirectTarget(code)
              case NoTarget => found == TargetNone
              case Via(a) => found == if a + 4 <= mem.Length then TargetAt(U32At(mem[..], a)) else TargetFaults
              case _ => found == TargetDynamic
    {
      var modRm := mem[pbSrc + 1];
      assert modRm == mem[pbSrc..pbSrc + |code|][1];
      if modRm == 0x15 || modRm == 0x25 {
        var ppbTarget := U32At(mem[pbSrc..pbSrc + 6], 2);
        return if ppbTarget + 4 <= mem.Length then TargetAt(U32At(mem[..], ppbTarget)) else TargetFaults;
      } else if 2 <= modRm / 8 % 8 <= 5 {
        return TargetDynamic;
      }
      return TargetNone;
    }

    method CopyOpcode(row: Row, mem: array<byte>, pbDst: nat, pbSrc: nat, ghost code: seq<byte>) returns (pbNext: nat)
      requires Ready(mem, pbDst, pbSrc, code) && Fresh() && code != [] && (IsPlain(row) || row.Invalid?)
      requires var r := Opcode(row, code, m_bOperandOverride, m_bAddressOverride); r.Some? && r.value.len == |code|
      modifies `m_target, `m_lExtra, mem
      ensures Copied(old(Opcode(row, code, m_bOperandOverride, m_bAddressOverride)).value, code, pbDst, pbSrc,
                     old(mem[..]), mem[..], pbNext, m_lExtra, m_target)
    {
      if IsPlain(row) {
        pbNext := CopyBytes(row, mem, pbDst, pbSrc, code);
      } else {
        // Invalid: step over the byte without copying it.
        pbNext := pbSrc + 1;
      }
    }

    method CopyBytes(row: Row, mem: array<byte>, pbDst: nat, pbSrc: nat, ghost code: seq<byte>) returns (pbNext: nat)
      requires Ready(mem, pbDst, pbSrc, code) && Fresh() && IsPlain(row)
      requires var r := PlainInstr(row, code, m_bOperandOverride, m_bAddressOverride);
               r.Some? && r.value.len == |code|
      modifies `m_target, `m_lExtra, mem
      ensures Copied(old(PlainInstr(row, code, m_bOperandOverride, m_bAddressOverride)).value, code, pbDst, pbSrc,
                     old(mem[..]), mem[..], pbNext, m_lExtra, m_target)
    {
      hide PlainInstr, Blit, Relocated, Disp, EncodeDisp;
      ghost var ins := PlainInstr(row, code, m_bOperandOverride, m_bAddressOverride).value;
      var e := Entry(row);
      var nBytesFixed, nBytes, cbTarget := Measure(row, mem, pbSrc, code);
      ghost var was := mem[..];
      forall k | 0 <= k < nBytes {
        mem[pbDst + k] := mem[pbSrc + k];
      }
      assert mem[..] == Blit(was, pbDst, code);
      if e.nRelOffset > 0 {
        assert mem[pbDst..pbDst + |code|] == code;
        AdjustTarget(mem, pbDst, pbSrc, nBytesFixed, e.nRelOffset, cbTarget, code, ins);
        if e.noEnlarge {
          m_lExtra := -m_lExtra;
        }
        PatchedCopy(was, mem[..], pbDst, pbDst - pbSrc, code, ins);
      } else {
        PlainCopy(code, ins, pbDst - pbSrc);
      }
      if e.dynamic {
        m_target := TargetDynamic;
      }
      pbNext := pbSrc + nBytes;
    }

    /** The size of the instruction at pbSrc and of its displacement, from the entry and the ModR/M and SIB bytes. */
    method Measure(row: Row, mem: array<byte>, pbSrc: nat, ghost code: seq<byte>)
      returns (nBytesFixed: nat, nBytes: nat, cbTarget: nat)
      requires pbSrc + |code| <= mem.Length && (forall k :: 0 <= k < |code| ==> mem[pbSrc + k] == code[k])
      requires IsPlain(row)
      requires var r := PlainInstr(row, code, m_bOperandOverride, m_bAddressOverride);
               r.Some? && r.value.len == |code|
      ensures var ins, e := PlainInstr(row, code, m_bOperandOverride, m_bAddressOverride).value, Entry(row);
              && nBytes == |code| && ins.valid && ins.noEnlarge == e.noEnlarge
              && (if e.nRelOffset > 0 then ins.rel == Rel(e.nRelOffset, cbTarget) && nBytesFixed == nBytes
                  else ins.rel == NoRel)
              && ins.target == (if e.dynamic then Dynamic else if e.nRelOffset > 0 then Relative else NoTarget)
    {
      var e := Entry(row);
      nBytesFixed := if e.address
        then (if m_bAddressOverride then e.nFixedSize16 else e.nFixedSize)
        else (if m_bOperandOverride then e.nFixedSize16 else e.nFixedSize);
      nBytes := nBytesFixed;
      cbTarget := nBytes - e.nRelOffset;
      if e.nModOffset > 0 {
        var bModRm := mem[pbSrc + e.nModOffset];
        nBytes := nBytes + ModRmExtra(bModRm);
        if ModRmSib(bModRm) {
          nBytes := nBytes + SibExtra(bModRm, mem[pbSrc + e.nModOffset + 1]);
          cbTarget := nBytes - e.nRelOffset;
        }
      }
    }

    /** Rewrite the displacement of the copy at pbDst so that it keeps the target of the original at pbSrc. */
    method AdjustTarget(mem: array<byte>, pbDst: nat, pbSrc: nat, cbOp: nat, cbTargetOffset: nat, cbTargetSize: nat,
                        ghost code: seq<byte>, ghost ins: Instr)
      requires WellFormed(ins, code) && ins.rel == Rel(cbTargetOffset, cbTargetSize)
      requires cbOp == ins.len == |code| && pbDst + |code| <= mem.Length
      requires mem[pbDst..pbDst + |code|] == code && m_lExtra == 0
      modifies `m_target, `m_lExtra, mem
      ensures mem[..] == Blit(old(mem[..]), pbDst + cbTargetOffset,
                              EncodeDisp(Moved(code, ins.rel, pbDst - pbSrc), cbTargetSize))
      ensures m_target == TargetAt(BranchTarget(pbSrc, code, ins))
      ensures m_lExtra == Extra(code, ins.(noEnlarge := false), pbDst - pbSrc)
    {
      hide EncodeDisp, Disp, Blit, Fits;
      var field := mem[pbDst..pbDst + cbOp];
      var nOldOffset := Disp(field, cbTargetOffset, cbTargetSize);
      m_target := TargetAt(WrapAddr(pbSrc + cbOp + nOldOffset));
      var nNewOffset := Wrap32(nOldOffset - (pbDst - pbSrc));
      var bytes := EncodeDisp(nNewOffset, cbTargetSize);
      ghost var was := mem[..];
      forall k | 0 <= k < cbTargetSize {
        mem[pbDst + cbTargetOffset + k] := bytes[k];
      }
      Patched(was, mem[..], pbDst + cbTargetOffset, bytes);
      if !Fits(nNewOffset, cbTargetSize) {
        m_lExtra := 4 - cbTargetSize;
      }
    }
  }

  lemma {:induction false} NothingCopied(mem: seq<byte>, at: nat, code: seq<byte>)
    requires at <= |mem| && code != [] && !IsPrefix(CopyTable(code[0]))
    ensures Prefixes(code) == 0 && Blit(mem, at, code[..Prefixes(code)]) == mem
  {
    hide CopyTable;
  }

  lemma {:induction false} Patched(was: seq<byte>, now: seq<byte>, at: nat, bytes: seq<byte>)
    requires at + |bytes| <= |was| == |now|
    requires forall k :: 0 <= k < |now| ==> now[k] == if at <= k < at + |bytes| then bytes[k - at] else was[k]
    ensures now == Blit(was, at, bytes)
  {
  }

  lemma {:induction false} PlainCopy(code: seq<byte>, ins: Instr, delta: int)
    requires WellFormed(ins, code) && ins.rel.NoRel? && ins.valid && ins.len == |code|
    ensures Relocated(code, ins, delta) == code
  {
  }

  lemma {:induction false} PatchedCopy(was: seq<byte>, now: seq<byte>, dst: nat, delta: int, code: seq<byte>,
                                       ins: Instr)
    requires WellFormed(ins, code) && ins.rel.Rel? && ins.valid && ins.len == |code| && dst + |code| <= |was|
    requires now == Blit(Blit(was, dst, code), dst + ins.rel.at,
                         EncodeDisp(Moved(code, ins.rel, delta), ins.rel.size))
    ensures now == Blit(was, dst, Relocated(code, ins, delta))
  {
    hide EncodeDisp, Disp;
  }

  /** The ModR/M bytes 15 and 25 announce a 32-bit address. */
  lemma {:induction false} ModRmImm32(code: seq<byte>, operand16: bool, address16: bool)
    requires |code| >= 2 && Opcode(CopyBytes2Mod, code, operand16, address16).Some?
    ensures code[1] == 0x15 || code[1] == 0x25 ==> Opcode(CopyBytes2Mod, code, operand16, address16).value.len == 6
  {
  }
}
