/** The opcode tables of the x86 instruction copier (disasm.cpp). */
module OpcodeTables {
  import opened Bytes

  /** One row of the opcode tables, named after its ENTRY_ macro. */
  datatype Row =
    | CopyBytes1 | CopyBytes1Dynamic | CopyBytes2 | CopyBytes2Jump | CopyBytes2CantJump | CopyBytes2Dynamic
    | CopyBytes3 | CopyBytes3Dynamic | CopyBytes3Or5 | CopyBytes3Or5Rax | CopyBytes3Or5Target
    | CopyBytes5Or7Dynamic | CopyBytes3Or5Address | CopyBytes4 | CopyBytes2Mod | CopyBytes2Mod1
    | CopyBytes2ModOperand | CopyBytes3Mod
    | CopyBytesPrefix | Copy0F | Copy66 | Copy67 | CopyF6 | CopyF7 | CopyFF | Invalid

  /** The fields of a COPYENTRY that the x86 build reads. */
  datatype CopyEntry = CopyEntry(nFixedSize: nat, nFixedSize16: nat, nModOffset: nat, nRelOffset: nat,
                                 dynamic: bool, address: bool, noEnlarge: bool)

  function Entry(row: Row): (e: CopyEntry)
    ensures e.nRelOffset > 0 ==> e.nModOffset == 0 && e.nRelOffset == 1
    ensures e.nRelOffset > 0 ==> e.nFixedSize - 1 in {1, 4} && e.nFixedSize16 - 1 in {1, 2} && !e.address
    ensures e.nModOffset > 0 ==> e.nModOffset < e.nFixedSize16 <= e.nFixedSize <= 6
    ensures e.nFixedSize16 <= e.nFixedSize <= 7
  {
    match row
    case CopyBytes1 => CopyEntry(1, 1, 0, 0, false, false, false)
    case CopyBytes1Dynamic => CopyEntry(1, 1, 0, 0, true, false, false)
    case CopyBytes2 => CopyEntry(2, 2, 0, 0, false, false, false)
    case CopyBytes2Jump => CopyEntry(2, 2, 0, 1, false, false, false)
    case CopyBytes2CantJump => CopyEntry(2, 2, 0, 1, false, false, true)
    case CopyBytes2Dynamic => CopyEntry(2, 2, 0, 0, true, false, false)
    case CopyBytes3 => CopyEntry(3, 3, 0, 0, false, false, false)
    case CopyBytes3Dynamic => CopyEntry(3, 3, 0, 0, true, false, false)
    case CopyBytes3Or5 => CopyEntry(5, 3, 0, 0, false, false, false)
    case CopyBytes3Or5Rax => CopyEntry(5, 3, 0, 0, false, false, false)
    case CopyBytes3Or5Target => CopyEntry(5, 3, 0, 1, false, false, false)
    case CopyBytes5Or7Dynamic => CopyEntry(7, 5, 0, 0, true, false, false)
    case CopyBytes3Or5Address => CopyEntry(5, 3, 0, 0, false, true, false)
    case CopyBytes4 => CopyEntry(4, 4, 0, 0, false, false, false)
    case CopyBytes2Mod => CopyEntry(2, 2, 1, 0, false, false, false)
    case CopyBytes2Mod1 => CopyEntry(3, 3, 1, 0, false, false, false)
    case CopyBytes2ModOperand => CopyEntry(6, 4, 1, 0, false, false, false)
    case CopyBytes3Mod => CopyEntry(3, 3, 2, 0, false, false, false)
    case CopyBytesPrefix => CopyEntry(1, 1, 0, 0, false, false, false)
    case Copy0F => CopyEntry(1, 1, 0, 0, false, false, false)
    case Copy66 => CopyEntry(1, 1, 0, 0, false, false, false)
    case Copy67 => CopyEntry(1, 1, 0, 0, false, false, false)
    case CopyF6 => CopyEntry(0, 0, 0, 0, false, false, false)
    case CopyF7 => CopyEntry(0, 0, 0, 0, false, false, false)
    case CopyFF => CopyEntry(0, 0, 0, 0, false, false, false)
    case Invalid => CopyEntry(1, 1, 0, 0, false, false, false)
  }

  /** Whether the row is copied by CopyBytes itself. */
  predicate IsPlain(row: Row) {
    !(row.CopyBytesPrefix? || row.Copy0F? || row.Copy66? || row.Copy67? || row.CopyF6? || row.CopyF7? || row.CopyFF?
      || row.Invalid?)
  }

  /** s_rceCopyTable. */
  function CopyTable(op: byte): Row {
    if op <= 0x03 then CopyBytes2Mod else if op <= 0x04 then CopyBytes2 else if op <= 0x05 then CopyBytes3Or5
    else if op <= 0x07 then CopyBytes1 else if op <= 0x0B then CopyBytes2Mod else if op <= 0x0C then CopyBytes2
    else if op <= 0x0D then CopyBytes3Or5 else if op <= 0x0E then CopyBytes1 else if op <= 0x0F then Copy0F
    else if op <= 0x13 then CopyBytes2Mod else if op <= 0x14 then CopyBytes2 else if op <= 0x15 then CopyBytes3Or5
    else if op <= 0x17 then CopyBytes1 else if op <= 0x1B then CopyBytes2Mod else if op <= 0x1C then CopyBytes2
    else if op <= 0x1D then CopyBytes3Or5 else if op <= 0x1F then CopyBytes1 else if op <= 0x23 then CopyBytes2Mod
    else if op <= 0x24 then CopyBytes2 else if op <= 0x25 then CopyBytes3Or5 else if op <= 0x26 then CopyBytesPrefix
    else if op <= 0x27 then CopyBytes1 else if op <= 0x2B then CopyBytes2Mod else if op <= 0x2C then CopyBytes2
    else if op <= 0x2D then CopyBytes3Or5 else if op <= 0x2E then CopyBytesPrefix else if op <= 0x2F then CopyBytes1
    else if op <= 0x33 then CopyBytes2Mod else if op <= 0x34 then CopyBytes2 else if op <= 0x35 then CopyBytes3Or5
    else if op <= 0x36 then CopyBytesPrefix else if op <= 0x37 then CopyBytes1 else if op <= 0x3B then CopyBytes2Mod
    else if op <= 0x3C then CopyBytes2 else if op <= 0x3D then CopyBytes3Or5 else if op <= 0x3E then CopyBytesPrefix
    else if op <= 0x61 then CopyBytes1 else if op <= 0x63 then CopyBytes2Mod else if op <= 0x65 then CopyBytesPrefix
    else if op <= 0x66 then Copy66 else if op <= 0x67 then Copy67 else if op <= 0x68 then CopyBytes3Or5
    else if op <= 0x69 then CopyBytes2ModOperand else if op <= 0x6A then CopyBytes2
    else if op <= 0x6B then CopyBytes2Mod1 else if op <= 0x6F then CopyBytes1 else if op <= 0x7F then CopyBytes2Jump
    else if op <= 0x80 then CopyBytes2Mod1 else if op <= 0x81 then CopyBytes2ModOperand
    else if op <= 0x82 then CopyBytes2 else if op <= 0x83 then CopyBytes2Mod1 else if op <= 0x8F then CopyBytes2Mod
    else if op <= 0x99 then CopyBytes1 else if op <= 0x9A then CopyBytes5Or7Dynamic
    else if op <= 0x9F then CopyBytes1 else if op <= 0xA3 then CopyBytes3Or5Address
    else if op <= 0xA7 then CopyBytes1 else if op <= 0xA8 then CopyBytes2 else if op <= 0xA9 then CopyBytes3Or5
    else if op <= 0xAF then CopyBytes1 else if op <= 0xB7 then CopyBytes2 else if op <= 0xB8 then CopyBytes3Or5Rax
    else if op <= 0xBF then CopyBytes3Or5 else if op <= 0xC1 then CopyBytes2Mod1 else if op <= 0xC2 then CopyBytes3
    else if op <= 0xC3 then CopyBytes1 else if op <= 0xC5 then CopyBytes2Mod else if op <= 0xC6 then CopyBytes2Mod1
    else if op <= 0xC7 then CopyBytes2ModOperand else if op <= 0xC8 then CopyBytes4
    else if op <= 0xC9 then CopyBytes1 else if op <= 0xCA then CopyBytes3Dynamic
    else if op <= 0xCC then CopyBytes1Dynamic else if op <= 0xCD then CopyBytes2Dynamic
    else if op <= 0xCF then CopyBytes1Dynamic else if op <= 0xD3 then CopyBytes2Mod
    else if op <= 0xD5 then CopyBytes2 else if op <= 0xD6 then Invalid else if op <= 0xD7 then CopyBytes1
    else if op <= 0xDF then CopyBytes2Mod else if op <= 0xE2 then CopyBytes2CantJump
    else if op <= 0xE3 then CopyBytes2Jump else if op <= 0xE7 then CopyBytes2
    else if op <= 0xE9 then CopyBytes3Or5Target else if op <= 0xEA then CopyBytes5Or7Dynamic
    else if op <= 0xEB then CopyBytes2Jump else if op <= 0xEF then CopyBytes1 else if op <= 0xF0 then CopyBytesPrefix
    else if op <= 0xF1 then Invalid else if op <= 0xF3 then CopyBytesPrefix else if op <= 0xF5 then CopyBytes1
    else if op <= 0xF6 then CopyF6 else if op <= 0xF7 then CopyF7 else if op <= 0xFD then CopyBytes1
    else if op <= 0xFE then CopyBytes2Mod else CopyFF
  }

  /** s_rceCopyTable0F, the opcodes after the escape byte 0F. */
  function CopyTable0F(op: byte): (row: Row)
    ensures (IsPlain(row) && Entry(row).nFixedSize <= 5) || row.Invalid?
  {
    if op <= 0x03 then CopyBytes2Mod else if op <= 0x05 then Invalid else if op <= 0x06 then CopyBytes2
    else if op <= 0x07 then Invalid else if op <= 0x09 then CopyBytes2 else if op <= 0x0A then Invalid
    else if op <= 0x0B then CopyBytes2 else if op <= 0x0C then Invalid else if op <= 0x0D then CopyBytes2Mod
    else if op <= 0x0E then CopyBytes2 else if op <= 0x0F then CopyBytes3Mod else if op <= 0x18 then CopyBytes2Mod
    else if op <= 0x1F then Invalid else if op <= 0x23 then CopyBytes2Mod else if op <= 0x27 then Invalid
    else if op <= 0x2F then CopyBytes2Mod else if op <= 0x35 then CopyBytes2 else if op <= 0x3F then Invalid
    else if op <= 0x6F then CopyBytes2Mod else if op <= 0x73 then CopyBytes2Mod1
    else if op <= 0x76 then CopyBytes2Mod else if op <= 0x77 then CopyBytes2 else if op <= 0x7D then Invalid
    else if op <= 0x7F then CopyBytes2Mod else if op <= 0x8F then CopyBytes3Or5Target
    else if op <= 0x9F then CopyBytes2Mod else if op <= 0xA2 then CopyBytes2 else if op <= 0xA3 then CopyBytes2Mod
    else if op <= 0xA4 then CopyBytes2Mod1 else if op <= 0xA5 then CopyBytes2Mod else if op <= 0xA7 then Invalid
    else if op <= 0xAA then CopyBytes2 else if op <= 0xAB then CopyBytes2Mod else if op <= 0xAC then CopyBytes2Mod1
    else if op <= 0xB7 then CopyBytes2Mod else if op <= 0xB9 then Invalid else if op <= 0xBA then CopyBytes2Mod1
    else if op <= 0xC3 then CopyBytes2Mod else if op <= 0xC6 then CopyBytes2Mod1
    else if op <= 0xC7 then CopyBytes2Mod else if op <= 0xCF then CopyBytes2 else if op <= 0xD0 then Invalid
    else if op <= 0xEF then CopyBytes2Mod else if op <= 0xF0 then Invalid else if op <= 0xFE then CopyBytes2Mod
    else Invalid
  }

  /** The low nibble of s_rbModRm: the displacement and SIB bytes that follow the ModR/M byte. */
  function ModRmExtra(modRm: byte): (n: nat)
    ensures n <= 5
  {
    var mod, rm := modRm / 64, modRm % 8;
    if mod == 0 then (if rm == 4 then 1 else if rm == 5 then 4 else 0)
    else if mod == 1 then (if rm == 4 then 2 else 1)
    else if mod == 2 then (if rm == 4 then 5 else 4)
    else 0
  }

  /** The SIB flag of s_rbModRm, set only where the SIB byte can add a displacement of its own. */
  predicate ModRmSib(modRm: byte) {
    modRm / 64 == 0 && modRm % 8 == 4
  }
}
