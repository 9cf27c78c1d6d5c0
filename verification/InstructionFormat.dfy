/**
 * The format of the instructions as the opcode bytes themselves give it, by ranges and bit fields and in numbers,
 * without the tables.  The tables are proved to describe exactly this.
 */
module InstructionFormat {
  import opened Bytes
  import opened OpcodeTables
  import opened Disasm

  /** The byte at `k`, and 0 behind the end. */
  function At(code: seq<byte>, k: nat): byte { if k < |code| then code[k] else 0 }

  predicate PrefixByte(op: byte) {
    op in {0x26, 0x2E, 0x36, 0x3E, 0x64, 0x65, 0x66, 0x67, 0xF0, 0xF2, 0xF3}
  }

  /** Whether a ModR/M byte follows a one-byte opcode. */
  predicate HasModRm(op: byte) {
    || (op < 0x40 && op % 8 < 4)
    || op in {0x62, 0x63, 0x69, 0x6B, 0x80, 0x81, 0xC0, 0xC1, 0xC4, 0xC5, 0xC6, 0xC7, 0xF6, 0xF7, 0xFE, 0xFF}
    || 0x83 <= op <= 0x8F || 0xD0 <= op <= 0xD3 || 0xD8 <= op <= 0xDF
  }

  /** A ModR/M byte, its SIB byte and its displacement: how many bytes they are, the first of them at `at`. */
  function ModRmLength(code: seq<byte>, at: nat): nat {
    var mod, rm := At(code, at) / 64, At(code, at) % 8;
    if mod == 3 then 1
    else
      var sib := if rm == 4 then 1 else 0;
      if mod == 1 then 1 + sib + 1
      else if mod == 2 then 1 + sib + 4
      else if rm == 5 || (rm == 4 && At(code, at + 1) % 8 == 5) then 1 + sib + 4
      else 1 + sib
  }

  /** The immediate, displacement or absolute address at the end of a one-byte opcode's instruction. */
  function OperandLength(op: byte, reg: nat, operand16: bool, address16: bool): nat {
    var full := if operand16 then 2 else 4;
    if op < 0x40 then (if op % 8 == 4 then 1 else if op % 8 == 5 then full else 0)
    else if op == 0x68 || op == 0x69 || op == 0x81 || op == 0xA9 || 0xB8 <= op <= 0xBF || op == 0xC7
            || op == 0xE8 || op == 0xE9 then full
    else if op == 0x6A || op == 0x6B || 0x70 <= op <= 0x7F || op == 0x80 || op == 0x82 || op == 0x83 || op == 0xA8
            || 0xB0 <= op <= 0xB7 || op == 0xC0 || op == 0xC1 || op == 0xC6 || op == 0xCD || op == 0xD4 || op == 0xD5
            || 0xE0 <= op <= 0xE7 || op == 0xEB then 1
    else if 0xA0 <= op <= 0xA3 then (if address16 then 2 else 4)
    else if op == 0x9A || op == 0xEA then full + 2
    else if op == 0xC2 || op == 0xCA then 2
    else if op == 0xC8 then 3
    else if op == 0xF6 && reg == 0 then 1
    else if op == 0xF7 && reg == 0 then full
    else 0
  }

  /** Whether that operand is a displacement relative to the end of the instruction. */
  predicate Branches(op: byte) {
    0x70 <= op <= 0x7F || 0xE0 <= op <= 0xE3 || op == 0xE8 || op == 0xE9 || op == 0xEB
  }

  /** Where a one-byte opcode passes control, as far as the copier tells. */
  function Goes(code: seq<byte>): Target {
    var op, reg := At(code, 0), At(code, 1) / 8 % 8;
    if Branches(op) then Relative
    else if op in {0x9A, 0xCA, 0xCB, 0xCC, 0xCD, 0xCE, 0xCF, 0xEA} then Dynamic
    else if op == 0xFF && At(code, 1) in {0x15, 0x25} then
      Via(At(code, 2) + 0x100 * At(code, 3) + 0x1_0000 * At(code, 4) + 0x100_0000 * At(code, 5))
    else if op == 0xFF && 2 <= reg <= 5 then Dynamic
    else NoTarget
  }

  /** The instruction of a one-byte opcode, if all its bytes are there. */
  function OneByteOpcode(code: seq<byte>, operand16: bool, address16: bool): Option<Instr> {
    var op := At(code, 0);
    if op == 0xD6 || op == 0xF1 then Some(Instr(1, NoRel, false, false, NoTarget))
    else
      var operand := OperandLength(op, At(code, 1) / 8 % 8, operand16, address16);
      var len := 1 + (if HasModRm(op) then ModRmLength(code, 1) else 0) + operand;
      if |code| < len then None
      else Some(Instr(len, if Branches(op) then Rel(1, operand) else NoRel, true, 0xE0 <= op <= 0xE2, Goes(code)))
  }

  /** Opcodes behind 0F that no row is kept for. */
  predicate Undefined0F(op: byte) {
    || op in {0x04, 0x05, 0x07, 0x0A, 0x0C, 0xA6, 0xA7, 0xB8, 0xB9, 0xD0, 0xF0, 0xFF}
    || 0x19 <= op <= 0x1F || 0x24 <= op <= 0x27 || 0x36 <= op <= 0x3F || 0x78 <= op <= 0x7D
  }

  /** Opcodes behind 0F that have no operand; the tables count one byte more for them. */
  predicate Alone0F(op: byte) {
    || op in {0x06, 0x08, 0x09, 0x0B, 0x0E, 0x77, 0xA0, 0xA1, 0xA2, 0xA8, 0xA9, 0xAA}
    || 0x30 <= op <= 0x35 || 0xC8 <= op <= 0xCF
  }

  function Immediate0F(op: byte): nat {
    if 0x70 <= op <= 0x73 || op in {0xA4, 0xAC, 0xBA, 0xC4, 0xC5, 0xC6} then 1 else 0
  }

  /** The instruction of an opcode behind 0F, if all its bytes are there. */
  function TwoByteOpcode(code: seq<byte>, operand16: bool): Option<Instr> {
    var op := At(code, 1);
    if |code| < 2 then None
    else if Undefined0F(op) then Some(Instr(2, NoRel, false, false, NoTarget))
    else if 0x80 <= op <= 0x8F then
      var operand := if operand16 then 2 else 4;
      if |code| < 2 + operand then None else Some(Instr(2 + operand, Rel(2, operand), true, false, Relative))
    else
      var len := if Alone0F(op) then 3 else if op == 0x0F then 3 + ModRmLength(code, 3)
                 else 2 + ModRmLength(code, 2) + Immediate0F(op);
      if |code| < len then None else Some(Instr(len, NoRel, true, false, NoTarget))
  }

  /** The instruction at the front of `code`, under the overrides 66 and 67 seen so far. */
  function Format(code: seq<byte>, operand16: bool, address16: bool): Option<Instr> {
    if code == [] then None
    else if PrefixByte(code[0]) then
      match Format(code[1..], operand16 || code[0] == 0x66, address16 || code[0] == 0x67)
      case None => None
      case Some(ins) =>
        Some(Instr(1 + ins.len, if ins.rel.Rel? then Rel(1 + ins.rel.at, ins.rel.size) else NoRel,
                   ins.valid, ins.noEnlarge, ins.target))
    else if code[0] == 0x0F then TwoByteOpcode(code, operand16)
    else OneByteOpcode(code, operand16, address16)
  }

  // -------------------------------------------------- the tables describe it

  /** What a row says about the bytes behind its opcode. */
  predicate RowIs(row: Row, modRm: nat, operand: nat, operand16: nat, address: bool, branches: bool, stays: bool,
                  dynamic: bool) {
    IsPlain(row) &&
    Entry(row) == CopyEntry(1 + modRm + operand, 1 + modRm + operand16, modRm, if branches then 1 else 0,
                            dynamic, address, stays)
  }

  predicate TableRow(op: byte, modRm: byte) {
    var reg := modRm / 8 % 8;
    var address := 0xA0 <= op <= 0xA3;
    RowIs(GroupRow(CopyTable(op), modRm), if HasModRm(op) then 1 else 0, OperandLength(op, reg, false, false),
          OperandLength(op, reg, !address, address), address, Branches(op), 0xE0 <= op <= 0xE2,
          op in {0x9A, 0xCA, 0xCB, 0xCC, 0xCD, 0xCE, 0xCF, 0xEA})
  }

  lemma {:induction false} RowsTo1F(op: byte, modRm: byte)
    requires op < 0x20 && op != 0x0F
    ensures TableRow(op, modRm)
  {
  }

  lemma {:induction false} RowsTo3F(op: byte, modRm: byte)
    requires 0x20 <= op < 0x40 && !PrefixByte(op)
    ensures TableRow(op, modRm)
  {
  }

  lemma {:induction false} RowsTo7F(op: byte, modRm: byte)
    requires 0x40 <= op < 0x80 && !PrefixByte(op)
    ensures TableRow(op, modRm)
  {
  }

  lemma {:induction false} RowsToBF(op: byte, modRm: byte)
    requires 0x80 <= op < 0xC0
    ensures TableRow(op, modRm)
  {
  }

  lemma {:induction false} RowsToFF(op: byte, modRm: byte)
    requires 0xC0 <= op && !PrefixByte(op) && op != 0xD6 && op != 0xF1
    ensures TableRow(op, modRm)
  {
  }

  predicate TableRow0F(op: byte) {
    if Undefined0F(op) then CopyTable0F(op).Invalid?
    else if Alone0F(op) then RowIs(CopyTable0F(op), 0, 1, 1, false, false, false, false)
    else if 0x80 <= op <= 0x8F then RowIs(CopyTable0F(op), 0, 4, 2, false, true, false, false)
    else if op == 0x0F then RowIs(CopyTable0F(op), 2, 0, 0, false, false, false, false)
    else
      RowIs(CopyTable0F(op), 1, Immediate0F(op), Immediate0F(op), false, false, false, false)
  }

  lemma {:induction false} Rows0FTo7F(op: byte)
    requires op < 0x80
    ensures TableRow0F(op)
  {
  }

  lemma {:induction false} Rows0FToFF(op: byte)
    requires op >= 0x80
    ensures TableRow0F(op)
  {
  }

  /** The rows that are no plain ones, each of its own opcodes. */
  predicate OtherRow(op: byte) {
    var row := CopyTable(op);
    && (PrefixByte(op) <==> IsPrefix(row)) && (row.Copy66? <==> op == 0x66) && (row.Copy67? <==> op == 0x67)
    && (row.Copy0F? <==> op == 0x0F) && (row.Invalid? <==> op == 0xD6 || op == 0xF1)
    && (row.CopyF6? <==> op == 0xF6) && (row.CopyF7? <==> op == 0xF7) && (row.CopyFF? <==> op == 0xFF)
  }

  lemma {:induction false} OtherRows(op: byte)
    ensures OtherRow(op)
  {
    hide OtherRow;
    if op < 0x80 {
      OtherRowsTo7F(op);
    } else {
      OtherRowsToFF(op);
    }
  }

  lemma {:induction false} OtherRowsTo7F(op: byte)
    requires op < 0x80
    ensures OtherRow(op)
  {
  }

  lemma {:induction false} OtherRowsToFF(op: byte)
    requires op >= 0x80
    ensures OtherRow(op)
  {
  }

  /** CopyBytes on a row delimits what the row says stands behind the opcode. */
  lemma {:induction false} RowLength(row: Row, code: seq<byte>, operand16: bool, address16: bool, modRm: nat,
                                     full: nat, half: nat, address: bool, branches: bool, stays: bool, dynamic: bool)
    requires code != [] && RowIs(row, modRm, full, half, address, branches, stays, dynamic)
    requires (branches ==> modRm == 0) && (modRm > 0 ==> !address)
    ensures var operand := if (if address then address16 else operand16) then half else full;
            var len := 1 + (if modRm == 0 then 0 else modRm - 1 + ModRmLength(code, modRm)) + operand;
            Opcode(row, code, operand16, address16) ==
            if |code| < len then None
            else Some(Instr(len, if branches then Rel(1, operand) else NoRel, true, stays,
                            if dynamic then Dynamic else if branches then Relative else NoTarget))
  {
  }

  lemma {:induction false} OneByteIs(code: seq<byte>, operand16: bool, address16: bool)
    requires code != [] && !PrefixByte(code[0]) && code[0] != 0x0F
    ensures Unprefixed(code, operand16, address16) == OneByteOpcode(code, operand16, address16)
  {
    hide CopyTable, CopyTable0F, GroupRow, PlainInstr, Entry, Opcode, ModRmLength, OperandLength, IndirectTarget;
    var op, modRm, address := code[0], At(code, 1), 0xA0 <= code[0] <= 0xA3;
    OtherRows(op);
    if op == 0xD6 || op == 0xF1 {
      InvalidRow(code, operand16, address16);
    } else {
      OneByteRow(op, modRm);
      OneByteOperands(op, modRm, operand16, address16);
      var row := GroupRow(CopyTable(op), modRm);
      RowLength(row, code, operand16, address16, if HasModRm(op) then 1 else 0,
                OperandLength(op, modRm / 8 % 8, false, false), OperandLength(op, modRm / 8 % 8, !address, address),
                address, Branches(op), 0xE0 <= op <= 0xE2,
                op in {0x9A, 0xCA, 0xCB, 0xCC, 0xCD, 0xCE, 0xCF, 0xEA});
      var len := 1 + (if HasModRm(op) then ModRmLength(code, 1) else 0)
                 + OperandLength(op, modRm / 8 % 8, operand16, address16);
      ModRmSize(code, 1);
      if op == 0xFF && len <= |code| {
        IndirectGoes(code, len);
      }
    }
  }

  lemma {:induction false} ModRmSize(code: seq<byte>, at: nat)
    ensures 1 <= ModRmLength(code, at) <= 6 && (At(code, at) in {0x15, 0x25} ==> ModRmLength(code, at) == 5)
  {
  }

  lemma {:induction false} IndirectGoes(code: seq<byte>, len: nat)
    requires 2 <= len <= |code| && code[0] == 0xFF && len == 1 + ModRmLength(code, 1)
    ensures IndirectTarget(code[..len]) == Goes(code)
  {
    ModRmSize(code, 1);
  }

  lemma {:induction false} InvalidRow(code: seq<byte>, operand16: bool, address16: bool)
    requires code != [] && CopyTable(code[0]).Invalid?
    ensures Unprefixed(code, operand16, address16) == Some(Instr(1, NoRel, false, false, NoTarget))
  {
  }

  lemma {:induction false} OneByteRow(op: byte, modRm: byte)
    requires !PrefixByte(op) && op != 0x0F && op != 0xD6 && op != 0xF1
    ensures TableRow(op, modRm)
  {
    hide TableRow;
    if op < 0x20 {
      RowsTo1F(op, modRm);
    } else if op < 0x40 {
      RowsTo3F(op, modRm);
    } else if op < 0x80 {
      RowsTo7F(op, modRm);
    } else if op < 0xC0 {
      RowsToBF(op, modRm);
    } else {
      RowsToFF(op, modRm);
    }
  }

  lemma {:induction false} OneByteOperands(op: byte, modRm: byte, operand16: bool, address16: bool)
    ensures var reg := modRm / 8 % 8;
            var address := 0xA0 <= op <= 0xA3;
            && OperandLength(op, reg, operand16, address16)
               == (if (if address then address16 else operand16) then OperandLength(op, reg, !address, address)
                   else OperandLength(op, reg, false, false))
            && (Branches(op) ==> !HasModRm(op)) && (HasModRm(op) ==> !address)
            && (op == 0xFF ==> HasModRm(op) && OperandLength(op, reg, operand16, address16) == 0)
  {
  }

  lemma {:induction false} TwoByteIs(code: seq<byte>, operand16: bool, address16: bool)
    requires code != [] && code[0] == 0x0F
    ensures Unprefixed(code, operand16, address16) == TwoByteOpcode(code, operand16)
  {
    hide CopyTable, CopyTable0F, PlainInstr, Entry, ModRmLength, IsPlain, Opcode, Undefined0F;
    OtherRows(0x0F);
    if |code| > 1 {
      var op, rest := code[1], code[1..];
      var row := CopyTable0F(op);
      Row0F(op);
      if Undefined0F(op) {
        InvalidOpcode(row, rest, operand16, address16);
      } else if Alone0F(op) {
        RowLength(row, rest, operand16, address16, 0, 1, 1, false, false, false, false);
      } else if 0x80 <= op <= 0x8F {
        RowLength(row, rest, operand16, address16, 0, 4, 2, false, true, false, false);
      } else {
        var modRm, n := if op == 0x0F then 2 else 1, Immediate0F(op);
        RowLength(row, rest, operand16, address16, modRm, n, n, false, false, false, false);
        ModRmBehind(code, modRm);
      }
    }
  }

  lemma {:induction false} Row0F(op: byte)
    ensures TableRow0F(op)
  {
    hide TableRow0F;
    if op < 0x80 {
      Rows0FTo7F(op);
    } else {
      Rows0FToFF(op);
    }
  }

  lemma {:induction false} InvalidOpcode(row: Row, code: seq<byte>, operand16: bool, address16: bool)
    requires code != [] && row.Invalid?
    ensures Opcode(row, code, operand16, address16) == Some(Instr(1, NoRel, false, false, NoTarget))
  {
  }

  lemma {:induction false} ModRmBehind(code: seq<byte>, at: nat)
    requires code != []
    ensures ModRmLength(code[1..], at) == ModRmLength(code, at + 1)
  {
  }

  /**
   * For all bytes and both overrides, the tables, their ModR/M and SIB rules and the dispatch on F6, F7, FF and 0F
   * delimit exactly the instruction of this format, and report its displacement and its target.
   */
  lemma {:induction false} DecodeIsFormat(code: seq<byte>, operand16: bool, address16: bool)
    ensures Decode(code, operand16, address16) == Format(code, operand16, address16)
    decreases |code|
  {
    hide CopyTable, Unprefixed, OneByteOpcode, TwoByteOpcode;
    if code != [] {
      OtherRows(code[0]);
      if PrefixByte(code[0]) {
        DecodeIsFormat(code[1..], operand16 || code[0] == 0x66, address16 || code[0] == 0x67);
      } else if code[0] == 0x0F {
        TwoByteIs(code, operand16, address16);
      } else {
        OneByteIs(code, operand16, address16);
      }
    }
  }

  // ------------------------------------------------------------------ instances

  /** The group opcodes F6 and F7: TEST carries an immediate, the other seven do not. */
  lemma {:induction false} GroupLengths(code: seq<byte>, other: seq<byte>)
    requires |code| >= 12 && |other| >= 12 && code[0] == other[0] && code[2..] == other[2..]
    requires code[0] in {0xF6, 0xF7}
    requires code[1] / 8 % 8 == 0 && other[1] / 8 % 8 != 0
             && code[1] / 64 == other[1] / 64 && code[1] % 8 == other[1] % 8
    ensures var a, b := Decode(code, false, false), Decode(other, false, false);
            var a', b' := Decode(code, true, false), Decode(other, true, false);
            && a.Some? && b.Some? && a'.Some? && b'.Some?
            && (code[0] == 0xF6 ==> a.value.len == b.value.len + 1 && a'.value.len == b'.value.len + 1)
            && (code[0] == 0xF7 ==> a.value.len == b.value.len + 4 && a'.value.len == b'.value.len + 2)
            && (code[1] / 64 == 3 ==> b.value.len == 2)
  {
    hide Decode, ModRmLength;
    GroupFormat(code, false);
    GroupFormat(code, true);
    GroupFormat(other, false);
    GroupFormat(other, true);
    SameModRm(code, other);
  }

  lemma {:induction false} GroupFormat(code: seq<byte>, operand16: bool)
    requires |code| >= 12 && code[0] in {0xF6, 0xF7}
    ensures var immediate := if code[1] / 8 % 8 != 0 then 0 else if code[0] == 0xF6 then 1
                             else if operand16 then 2 else 4;
            Decode(code, operand16, false)
            == Some(Instr(1 + ModRmLength(code, 1) + immediate, NoRel, true, false, NoTarget))
  {
    hide Decode, ModRmLength;
    DecodeIsFormat(code, operand16, false);
    ModRmSize(code, 1);
  }

  lemma {:induction false} SameModRm(code: seq<byte>, other: seq<byte>)
    requires |code| >= 12 && |other| >= 12 && code[2..] == other[2..]
    requires code[1] / 64 == other[1] / 64 && code[1] % 8 == other[1] % 8
    ensures ModRmLength(code, 1) == ModRmLength(other, 1)
    ensures code[1] / 64 == 3 ==> ModRmLength(code, 1) == 1
  {
    assert code[2] == code[2..][0] == other[2..][0] == other[2];
  }

  /** cpuid, 0F A2, is copied with the byte behind it, so that a jump there is not seen as one. */
  lemma {:induction false} CpuidTakesOneMore(code: seq<byte>)
    requires |code| >= 3 && code[0] == 0x0F && code[1] == 0xA2
    ensures Decode(code, false, false) == Some(Instr(3, NoRel, true, false, NoTarget))
  {
    DecodeIsFormat(code, false, false);
  }

  /**
   * The bytes AdjustTarget asks for: three more for a short jump whose target is lost, three fewer for a loop, which
   * cannot be made longer, and none for a near jump or call, which always reaches.
   */
  lemma {:induction false} LostBytes(code: seq<byte>, delta: int)
    requires |code| >= 12 && !PrefixByte(code[0])
    ensures var r := Decode(code, false, false);
            && r.Some?
            && var lost := Extra(code, r.value, delta);
            && (0x70 <= code[0] <= 0x7F || code[0] == 0xE3 || code[0] == 0xEB ==> lost == 0 || lost == 3)
            && (0xE0 <= code[0] <= 0xE2 ==> lost == 0 || lost == -3)
            && (code[0] == 0xE8 || code[0] == 0xE9 || (code[0] == 0x0F && 0x80 <= code[1] <= 0x8F) ==> lost == 0)
  {
    hide Decode, ModRmLength, Disp;
    DecodeIsFormat(code, false, false);
    ModRmSize(code, 1);
    ModRmSize(code, 2);
    ModRmSize(code, 3);
  }
}
