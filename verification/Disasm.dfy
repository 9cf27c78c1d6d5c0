/** The x86 instruction copier (disasm.cpp): what an instruction is, and what its relocated copy holds. */
module Disasm {
  import opened Bytes
  import opened OpcodeTables

  /** Where an instruction keeps a displacement relative to its own end. */
  datatype Rel = NoRel | Rel(at: nat, size: nat)

  /** What CopyInstruction reports through ppbTarget, before the displacement is resolved. */
  datatype Target = NoTarget | Dynamic | Relative | Via(address: dword)

  /** One instruction as the tables delimit it. `valid` is false when an Invalid row ends it. */
  datatype Instr = Instr(len: nat, rel: Rel, valid: bool, noEnlarge: bool, target: Target)

  /** CopyBytes without the copying: the extent of an instruction whose opcode is code[0]. */
  function PlainInstr(row: Row, code: seq<byte>, operand16: bool, address16: bool): (r: Option<Instr>)
    requires Entry(row).nFixedSize16 > 0
    ensures r.Some? ==> WellFormed(r.value, code) && r.value.valid
  {
    var e := Entry(row);
    var nBytesFixed := if (if e.address then address16 else operand16) then e.nFixedSize16 else e.nFixedSize;
    if |code| <= e.nModOffset then None
    else
      var modRm := code[e.nModOffset];
      var sib := e.nModOffset > 0 && ModRmSib(modRm);
      if sib && |code| <= e.nModOffset + 1 then None
      else
        var extra := if e.nModOffset == 0 then 0
                     else ModRmExtra(modRm) + (if sib then SibExtra(modRm, code[e.nModOffset + 1]) else 0);
        var nBytes := nBytesFixed + extra;
        var cbTarget := (if sib then nBytes else nBytesFixed) - e.nRelOffset;
        if |code| < nBytes then None
        else
          var rel := if e.nRelOffset > 0 then Rel(e.nRelOffset, cbTarget) else NoRel;
          Some(Instr(nBytes, rel, true, e.noEnlarge,
                     if e.dynamic then Dynamic else if e.nRelOffset > 0 then Relative else NoTarget))
  }

  /** The displacement a SIB byte with base 5 adds. */
  function SibExtra(modRm: byte, sib: byte): nat {
    if sib % 8 != 5 then 0
    else if modRm / 64 == 0 then 4
    else if modRm / 64 == 1 then 1
    else if modRm / 64 == 2 then 4
    else 0
  }

  predicate WellFormed(ins: Instr, code: seq<byte>) {
    && 1 <= ins.len <= |code|
    && (ins.rel.Rel? ==> ins.rel.at >= 1 && ins.rel.size in {1, 2, 4} && ins.rel.at + ins.rel.size == ins.len)
    && (!ins.valid ==> ins.rel.NoRel?)
  }

  /** The instruction `ins` one byte further on, behind a prefix or an escape byte. */
  function Behind(r: Option<Instr>): Option<Instr> {
    match r
    case None => None
    case Some(ins) =>
      Some(ins.(len := ins.len + 1, rel := if ins.rel.NoRel? then NoRel else Rel(ins.rel.at + 1, ins.rel.size)))
  }

  predicate IsPrefix(row: Row) {
    row.CopyBytesPrefix? || row.Copy66? || row.Copy67?
  }

  /** The row CopyF6, CopyF7 and CopyFF choose by the reg bits of the ModR/M byte; every other row is its own. */
  function GroupRow(row: Row, modRm: byte): Row {
    var test := modRm / 8 % 8 == 0;
    match row
    case CopyF6 => if test then CopyBytes2Mod1 else CopyBytes2Mod
    case CopyF7 => if test then CopyBytes2ModOperand else CopyBytes2Mod
    case CopyFF => CopyBytes2Mod
    case _ => row
  }

  /** An instruction whose opcode, one or two bytes, stands at the front of `code`. */
  function Unprefixed(code: seq<byte>, operand16: bool, address16: bool): (r: Option<Instr>)
    requires code != []
    ensures r.Some? ==> WellFormed(r.value, code)
  {
    var row := CopyTable(code[0]);
    var second := if |code| > 1 then code[1] else 0;
    if row.Copy0F? then
      if |code| == 1 then None else Behind(Opcode(CopyTable0F(second), code[1..], operand16, address16))
    else if |code| == 1 && (row.CopyF6? || row.CopyF7? || row.CopyFF?) then None
    else
      var r := Opcode(GroupRow(row, second), code, operand16, address16);
      if row.CopyFF? && r.Some? then Some(r.value.(target := IndirectTarget(code[..r.value.len]))) else r
  }

  function Opcode(row: Row, code: seq<byte>, operand16: bool, address16: bool): (r: Option<Instr>)
    requires code != []
    ensures r.Some? ==>
              && WellFormed(r.value, code) && (r.value.valid <==> IsPlain(row))
              && (r.value.valid || r.value.len == 1) && !r.value.target.Via?
  {
    if IsPlain(row) then PlainInstr(row, code, operand16, address16)
    else Some(Instr(1, NoRel, false, false, NoTarget))
  }

  /**
   * The instruction at the front of `code` under the operand and address size overrides seen so far; None when
   * `code` ends inside it.
   */
  function Decode(code: seq<byte>, operand16: bool, address16: bool): (r: Option<Instr>)
    ensures r.Some? ==> WellFormed(r.value, code)
  {
    if code == [] then None
    else
      var row := CopyTable(code[0]);
      if IsPrefix(row) then Behind(Decode(code[1..], operand16 || row.Copy66?, address16 || row.Copy67?))
      else Unprefixed(code, operand16, address16)
  }

  /** CopyFF's report: CALL [imm32] and JMP [imm32] name a slot, /2 to /5 are dynamic. */
  function IndirectTarget(code: seq<byte>): (t: Target)
    requires |code| >= 2
    ensures !t.Relative?
  {
    if (code[1] == 0x15 || code[1] == 0x25) && |code| >= 6 then Via(U32At(code, 2))
    else if 2 <= code[1] / 8 % 8 <= 5 then Dynamic
    else NoTarget
  }

  /** Whether `a` and `b` hold the same bytes in an instruction of shape `ins`, its displacement aside. */
  predicate SameShape(ins: Instr, a: seq<byte>, b: seq<byte>) {
    && ins.len <= |a| && ins.len <= |b|
    && forall k :: 0 <= k < ins.len && (ins.rel.NoRel? || k < ins.rel.at) ==> a[k] == b[k]
  }

  lemma {:induction false} OpcodeSameShape(row: Row, a: seq<byte>, b: seq<byte>, operand16: bool, address16: bool)
    requires a != [] && b != [] && Opcode(row, a, operand16, address16).Some?
    requires SameShape(Opcode(row, a, operand16, address16).value, a, b)
    ensures Opcode(row, b, operand16, address16) == Opcode(row, a, operand16, address16)
  {
  }

  lemma {:induction false} UnprefixedSameShape(a: seq<byte>, b: seq<byte>, operand16: bool, address16: bool)
    requires a != [] && b != [] && Unprefixed(a, operand16, address16).Some?
    requires SameShape(Unprefixed(a, operand16, address16).value, a, b)
    ensures Unprefixed(b, operand16, address16) == Unprefixed(a, operand16, address16)
  {
    hide CopyTable, CopyTable0F, Opcode;
    var ins := Unprefixed(a, operand16, address16).value;
    var row := CopyTable(a[0]);
    assert a[0] == b[0];
    if row.Copy0F? {
      assert a[1] == b[1];
      OpcodeSameShape(CopyTable0F(a[1]), a[1..], b[1..], operand16, address16);
    } else if row.CopyF6? || row.CopyF7? || row.CopyFF? {
      GroupShape(row, a, operand16, address16);
      assert a[1] == b[1];
      OpcodeSameShape(GroupRow(row, a[1]), a, b, operand16, address16);
      if row.CopyFF? {
        assert a[..ins.len] == b[..ins.len];
      }
    } else {
      OpcodeSameShape(row, a, b, operand16, address16);
    }
  }

  /** The group opcodes carry a ModR/M byte and no relative displacement. */
  lemma {:induction false} GroupShape(row: Row, code: seq<byte>, operand16: bool, address16: bool)
    requires row.CopyF6? || row.CopyF7? || row.CopyFF?
    requires |code| > 1 && Opcode(GroupRow(row, code[1]), code, operand16, address16).Some?
    ensures var ins := Opcode(GroupRow(row, code[1]), code, operand16, address16).value;
            ins.len >= 2 && ins.rel.NoRel? && ins.valid
  {
  }

  /** No displacement byte takes part in deciding an instruction's shape, nor does any byte behind it. */
  lemma {:induction false} DecodeSameShape(a: seq<byte>, b: seq<byte>, operand16: bool, address16: bool)
    requires Decode(a, operand16, address16).Some?
    requires SameShape(Decode(a, operand16, address16).value, a, b)
    ensures Decode(b, operand16, address16) == Decode(a, operand16, address16)
    decreases |a|
  {
    hide CopyTable, Unprefixed;
    assert a[0] == b[0];
    var row := CopyTable(a[0]);
    if IsPrefix(row) {
      DecodeSameShape(a[1..], b[1..], operand16 || row.Copy66?, address16 || row.Copy67?);
    } else {
      UnprefixedSameShape(a, b, operand16, address16);
    }
  }

  /** How many prefix bytes stand before the opcode. */
  function Prefixes(code: seq<byte>): (n: nat)
    ensures n <= |code|
  {
    if code != [] && IsPrefix(CopyTable(code[0])) then 1 + Prefixes(code[1..]) else 0
  }

  lemma {:induction false} OpcodeLength(row: Row, code: seq<byte>, operand16: bool, address16: bool)
    requires code != [] && Opcode(row, code, operand16, address16).Some?
    ensures Opcode(row, code, operand16, address16).value.len <= Entry(row).nFixedSize + 5 <= 12
    ensures Entry(row).nModOffset == 0 ==> Opcode(row, code, operand16, address16).value.len <= 7
    ensures Entry(row).nModOffset > 0 ==> Opcode(row, code, operand16, address16).value.len <= 11
  {
  }

  lemma {:induction false} UnprefixedLength(code: seq<byte>, operand16: bool, address16: bool)
    requires code != [] && Unprefixed(code, operand16, address16).Some?
    ensures Unprefixed(code, operand16, address16).value.len <= 11
  {
    hide CopyTable, CopyTable0F, Opcode;
    var row := CopyTable(code[0]);
    if row.Copy0F? {
      OpcodeLength(CopyTable0F(code[1]), code[1..], operand16, address16);
    } else {
      OpcodeLength(GroupRow(row, if |code| > 1 then code[1] else 0), code, operand16, address16);
    }
  }

  /** Behind its prefixes no instruction of the tables is longer than 11 bytes. */
  lemma {:induction false} DecodeLength(code: seq<byte>, operand16: bool, address16: bool)
    requires Decode(code, operand16, address16).Some?
    ensures Prefixes(code) < Decode(code, operand16, address16).value.len <= Prefixes(code) + 11
    decreases |code|
  {
    hide Unprefixed, CopyTable;
    var row := CopyTable(code[0]);
    if IsPrefix(row) {
      DecodeLength(code[1..], operand16 || row.Copy66?, address16 || row.Copy67?);
    } else {
      UnprefixedLength(code, operand16, address16);
    }
  }

  lemma {:induction false} UnprefixedReads(code: seq<byte>, operand16: bool, address16: bool)
    requires |code| >= 12
    ensures Unprefixed(code, operand16, address16).Some?
  {
    hide CopyTable, CopyTable0F;
  }

  lemma {:induction false} DecodeReads(code: seq<byte>, operand16: bool, address16: bool)
    requires |code| >= Prefixes(code) + 12
    ensures Decode(code, operand16, address16).Some?
    decreases |code|
  {
    hide Unprefixed, CopyTable;
    var row := CopyTable(code[0]);
    if IsPrefix(row) {
      DecodeReads(code[1..], operand16 || row.Copy66?, address16 || row.Copy67?);
    } else {
      UnprefixedReads(code, operand16, address16);
    }
  }

  // ------------------------------------------------------------- relocation

  /** The signed displacement stored at `at`. */
  function Disp(code: seq<byte>, at: nat, size: nat): (v: int)
    requires size in {1, 2, 4} && at + size <= |code|
    ensures Fits(v, size)
  {
    if size == 1 then (if code[at] < 0x80 then code[at] else code[at] - 0x100)
    else if size == 2 then
      var w := U16At(code, at);
      if w < 0x8000 then w else w - 0x1_0000
    else
      var d := U32At(code, at);
      if d < 0x8000_0000 then d else d - 0x1_0000_0000
  }

  predicate Fits(v: int, size: nat) {
    if size == 1 then -0x80 <= v < 0x80
    else if size == 2 then -0x8000 <= v < 0x8000
    else -0x8000_0000 <= v < 0x8000_0000
  }

  /** The low `size` bytes of `v`. */
  function EncodeDisp(v: int, size: nat): (bs: seq<byte>)
    requires size in {1, 2, 4}
    ensures |bs| == size
  {
    if size == 1 then [v % 0x100]
    else if size == 2 then LE16(v % 0x1_0000)
    else LE32(v % 0x1_0000_0000)
  }

  /** A displacement survives being stored exactly when it fits its field. */
  lemma {:induction false} EncodeFits(v: int, size: nat)
    requires size in {1, 2, 4}
    ensures Disp(EncodeDisp(v, size), 0, size) == v <==> Fits(v, size)
  {
    hide U16At, U32At, LE16, LE32;
    var bs := EncodeDisp(v, size);
    if size == 2 {
      assert U16At(bs, 0) == v % 0x1_0000;
    } else if size == 4 {
      assert U32At(bs, 0) == v % 0x1_0000_0000;
    }
  }

  lemma {:induction false} EncodeOwnDisp(code: seq<byte>, at: nat, size: nat)
    requires size in {1, 2, 4} && at + size <= |code|
    ensures EncodeDisp(Disp(code, at, size), size) == code[at..at + size]
  {
    hide U16At, U32At, LE16, LE32;
    if size == 2 {
      LE16OfU16(code, at);
    } else if size == 4 {
      LE32OfU32(code, at);
    }
  }

  /** The displacement that keeps the target of an instruction moved up by `delta`. */
  function Moved(code: seq<byte>, rel: Rel, delta: int): int
    requires rel.Rel? && rel.size in {1, 2, 4} && rel.at + rel.size <= |code|
  {
    Wrap32(Disp(code, rel.at, rel.size) - delta)
  }

  /** The bytes CopyInstruction writes for `ins`; it skips the byte of an Invalid row. */
  function Relocated(code: seq<byte>, ins: Instr, delta: int): (bs: seq<byte>)
    requires WellFormed(ins, code)
    ensures |bs| == if ins.valid then ins.len else ins.len - 1
  {
    if !ins.valid then code[..ins.len - 1]
    else if ins.rel.NoRel? then code[..ins.len]
    else code[..ins.rel.at] + EncodeDisp(Moved(code, ins.rel, delta), ins.rel.size)
  }

  /** What the copy leaves in *plExtra: the bytes by which the displacement field is too short. */
  function Extra(code: seq<byte>, ins: Instr, delta: int): int
    requires WellFormed(ins, code)
  {
    if ins.rel.NoRel? || Fits(Moved(code, ins.rel, delta), ins.rel.size) then 0
    else if ins.noEnlarge then ins.rel.size - 4
    else 4 - ins.rel.size
  }

  /** The absolute address a relative instruction at `src` branches to. */
  function BranchTarget(src: int, code: seq<byte>, ins: Instr): dword
    requires WellFormed(ins, code) && ins.rel.Rel?
  {
    WrapAddr(src + ins.len + Disp(code, ins.rel.at, ins.rel.size))
  }

  /** lExtra is zero exactly when the copy branches where the original did. */
  lemma {:induction false} ExtraMeansTargetLost(src: int, dst: int, code: seq<byte>, ins: Instr)
    requires WellFormed(ins, code) && ins.rel.Rel?
    ensures Extra(code, ins, dst - src) == 0
            <==> BranchTarget(dst, Relocated(code, ins, dst - src), ins) == BranchTarget(src, code, ins)
  {
    var at, size := ins.rel.at, ins.rel.size;
    var v := Moved(code, ins.rel, dst - src);
    DispOfRelocated(code, ins, dst - src);
    EncodeFits(v, size);
    SameResidue(src + ins.len + Disp(code, at, size), dst + ins.len + v);
    DistinctResidue(dst + ins.len, v, Disp(EncodeDisp(v, size), 0, size));
  }

  lemma {:induction false} DispOfRelocated(code: seq<byte>, ins: Instr, delta: int)
    requires WellFormed(ins, code) && ins.rel.Rel?
    ensures var bs := Relocated(code, ins, delta);
            && WellFormed(ins, bs)
            && Disp(bs, ins.rel.at, ins.rel.size)
               == Disp(EncodeDisp(Moved(code, ins.rel, delta), ins.rel.size), 0, ins.rel.size)
  {
  }

  lemma {:induction false} SameResidue(a: int, b: int)
    requires (a - b) % 0x1_0000_0000 == 0
    ensures WrapAddr(a) == WrapAddr(b)
  {
  }

  lemma {:induction false} DistinctResidue(base: int, v: int, w: int)
    requires -0x8000_0000 <= v < 0x8000_0000 && -0x8000_0000 <= w < 0x8000_0000
    ensures WrapAddr(base + v) == WrapAddr(base + w) <==> v == w
  {
  }

  /**
   * Copying is undone exactly: when the copy of a valid instruction fits, the copy decodes alike wherever it
   * stands, and copying it back the opposite way fits and restores the original bytes.
   */
  lemma {:induction false} CopyUndone(code: seq<byte>, copy: seq<byte>, delta: int)
    requires Decode(code, false, false).Some?
    requires var ins := Decode(code, false, false).value;
             && ins.valid && Extra(code, ins, delta) == 0
             && ins.len <= |copy| && copy[..ins.len] == Relocated(code, ins, delta)
    ensures var ins := Decode(code, false, false).value;
            && Decode(copy, false, false) == Some(ins)
            && Extra(copy, ins, -delta) == 0
            && Relocated(copy, ins, -delta) == code[..ins.len]
  {
    hide Decode, Disp, EncodeDisp;
    var ins := Decode(code, false, false).value;
    assert forall k :: 0 <= k < ins.len ==> copy[k] == copy[..ins.len][k];
    assert SameShape(ins, code, copy);
    DecodeSameShape(code, copy, false, false);
    if ins.rel.Rel? {
      var at, size := ins.rel.at, ins.rel.size;
      DispOfRelocated(code, ins, delta);
      EncodeFits(Moved(code, ins.rel, delta), size);
      DispPrefix(copy, ins.len, at, size);
      EncodeOwnDisp(code, at, size);
      assert code[..ins.len] == code[..at] + code[at..at + size];
      assert copy[..at] == code[..at];
      WrapUndone(Disp(code, at, size), delta);
    } else {
      assert copy[..ins.len] == code[..ins.len];
    }
  }

  lemma {:induction false} DispPrefix(code: seq<byte>, len: nat, at: nat, size: nat)
    requires size in {1, 2, 4} && at + size <= len <= |code|
    ensures Disp(code[..len], at, size) == Disp(code, at, size)
  {
  }

  lemma {:induction false} WrapUndone(v: int, delta: int)
    requires -0x8000_0000 <= v < 0x8000_0000
    ensures Wrap32(Wrap32(v - delta) + delta) == v
  {
  }
}
