/** Moving the first instructions of a function into a trampoline, and moving them back (detours.cpp). */
module Relocation {
  import opened Bytes
  import opened OpcodeTables
  import opened Disasm

  const SIZE_OF_JMP: nat := 5
  /** sizeof(DETOUR_TRAMPOLINE) and of its rbCode. */
  const SLOT_SIZE: nat := 32
  const CODE_SIZE: nat := 23
  const INT3: byte := 0xCC

  /** detour_does_code_end_function. */
  predicate EndsFunction(code: seq<byte>)
    requires code != []
  {
    || code[0] in {0xE9, 0xE0, 0xC2, 0xC3, 0xCC}
    || (|code| > 1 && code[0] == 0xFF && code[1] == 0x25)
    || (|code| > 2 && code[0] in {0x26, 0x2E, 0x36, 0xE3, 0x64, 0x65} && code[1] == 0xFF && code[2] == 0x25)
  }

  /** Where a copying loop stopped, and the bytes it copied into. */
  datatype Progress = Progress(cb: nat, buf: seq<byte>)

  /**
   * DetourAttachEx's loop: copy instructions of `code` into `buf` until a jump fits, an instruction does not, or
   * the function ends.  None when `code` ends inside an instruction or a copy would leave `buf`.
   */
  function MoveFrom(buf: seq<byte>, code: seq<byte>, delta: int, cb: nat): (r: Option<Progress>)
    requires cb <= |code|
    ensures r.Some? ==> |r.value.buf| == |buf| && cb <= r.value.cb <= |code| && (cb <= |buf| ==> r.value.cb <= |buf|)
    decreases |code| - cb
  {
    if cb >= SIZE_OF_JMP then Some(Progress(cb, buf))
    else
      var rest := code[cb..];
      var r := Decode(rest, false, false);
      if r.None? || cb + r.value.len > |buf| then None
      else
        var ins := r.value;
        var buf' := Blit(buf, cb, Relocated(rest, ins, delta));
        if Extra(rest, ins, delta) != 0 then Some(Progress(cb, buf'))
        else if EndsFunction(rest) then Some(Progress(cb + ins.len, buf'))
        else MoveFrom(buf', code, delta, cb + ins.len)
  }

  /** DetourTransactionCommitEx's loop: copy the moved instructions of `code` back into `buf`. */
  function UnmoveFrom(buf: seq<byte>, code: seq<byte>, delta: int, cbTarget: nat, cb: nat): (r: Option<Progress>)
    requires cb <= |code|
    ensures r.Some? ==> |r.value.buf| == |buf|
    decreases |code| - cb
  {
    if cb >= cbTarget then Some(Progress(cb, buf))
    else
      var rest := code[cb..];
      var r := Decode(rest, false, false);
      if r.None? || cb + r.value.len > |buf| then None
      else
        var ins := r.value;
        var buf' := Blit(buf, cb, Relocated(rest, ins, delta));
        if Extra(rest, ins, delta) != 0 then Some(Progress(cb, buf'))
        else UnmoveFrom(buf', code, delta, cbTarget, cb + ins.len)
  }

  /** The bytes of `code` from `cb` to `n` are whole instructions whose copies fit. */
  predicate Tiled(code: seq<byte>, delta: int, cb: nat, n: nat)
    decreases n - cb
  {
    cb == n || (cb < n <= |code| &&
      var r := Decode(code[cb..], false, false);
      r.Some? && Extra(code[cb..], r.value, delta) == 0 && Tiled(code, delta, cb + r.value.len, n))
  }

  /** None of those instructions ends in a row the tables mark Invalid. */
  predicate NoInvalid(code: seq<byte>, cb: nat, n: nat)
    decreases n - cb
  {
    cb >= n || cb >= |code| ||
      var r := Decode(code[cb..], false, false);
      r.Some? && r.value.valid && NoInvalid(code, cb + r.value.len, n)
  }

  /** `buf` holds the copy of the instruction at `cb`, with INT3 where the copier skipped a byte. */
  predicate HoldsCopy(buf: seq<byte>, code: seq<byte>, delta: int, cb: nat)
  {
    cb < |code| &&
    var r := Decode(code[cb..], false, false);
    && r.Some? && cb + r.value.len <= |buf|
    && var copy := Relocated(code[cb..], r.value, delta);
    && buf[cb..cb + |copy|] == copy
    && (!r.value.valid ==> buf[cb + r.value.len - 1] == INT3)
  }

  /** `buf` holds the copies of all of those instructions. */
  predicate HoldsCopies(buf: seq<byte>, code: seq<byte>, delta: int, cb: nat, n: nat)
    decreases n - cb
  {
    cb >= n || cb >= |code| ||
      (HoldsCopy(buf, code, delta, cb)
       && HoldsCopies(buf, code, delta, cb + Decode(code[cb..], false, false).value.len, n))
  }

  lemma {:induction false} HoldsCopiesFrame(buf: seq<byte>, buf': seq<byte>, code: seq<byte>, delta: int, cb: nat,
                                            n: nat)
    requires cb <= n <= |buf| && n <= |buf'| && buf[cb..n] == buf'[cb..n]
    requires Tiled(code, delta, cb, n) && HoldsCopies(buf, code, delta, cb, n)
    ensures HoldsCopies(buf', code, delta, cb, n)
    decreases n - cb
  {
    hide Decode, Relocated, HoldsCopy;
    if cb < n {
      TiledStep(code, delta, cb, n);
      var ins := Decode(code[cb..], false, false).value;
      HoldsCopyFrame(buf, buf', code, delta, cb, n);
      SameRest(buf, buf', cb, cb + ins.len, n);
      HoldsCopiesFrame(buf, buf', code, delta, cb + ins.len, n);
    }
  }

  lemma {:induction false} SameRest(buf: seq<byte>, buf': seq<byte>, cb: nat, at: nat, n: nat)
    requires cb <= at <= n <= |buf| && n <= |buf'| && buf[cb..n] == buf'[cb..n]
    ensures buf[at..n] == buf'[at..n]
  {
    SliceOfSlice(buf, cb, n, at - cb, n - cb);
    SliceOfSlice(buf', cb, n, at - cb, n - cb);
  }

  lemma {:induction false} HoldsCopyFrame(buf: seq<byte>, buf': seq<byte>, code: seq<byte>, delta: int, cb: nat, n: nat)
    requires cb < n <= |buf| && n <= |buf'| && buf[cb..n] == buf'[cb..n] && HoldsCopy(buf, code, delta, cb)
    requires cb + Decode(code[cb..], false, false).value.len <= n
    ensures HoldsCopy(buf', code, delta, cb)
  {
    hide Decode, Relocated;
    assert forall k :: cb <= k < n ==> buf[k] == buf[cb..n][k - cb] == buf'[cb..n][k - cb] == buf'[k];
  }

  lemma {:induction false} MoveTiles(buf: seq<byte>, code: seq<byte>, delta: int, cb: nat)
    requires cb <= |code| && cb <= |buf| && MoveFrom(buf, code, delta, cb).Some?
    ensures Tiled(code, delta, cb, MoveFrom(buf, code, delta, cb).value.cb)
    ensures MoveFrom(buf, code, delta, cb).value.buf[..cb] == buf[..cb]
    decreases |code| - cb
  {
    hide Decode, Relocated, Extra, Blit;
    if cb < SIZE_OF_JMP {
      var rest := code[cb..];
      var ins := Decode(rest, false, false).value;
      var buf' := Blit(buf, cb, Relocated(rest, ins, delta));
      BlitFrame(buf, cb, Relocated(rest, ins, delta), 0, cb);
      if Extra(rest, ins, delta) == 0 && !EndsFunction(rest) {
        MoveTiles(buf', code, delta, cb + ins.len);
        var m := MoveFrom(buf', code, delta, cb + ins.len).value;
        assert m.buf[..cb] == m.buf[..cb + ins.len][..cb] == buf'[..cb];
      }
    }
  }

  /** What one step of the moving loop leaves in a buffer filled with INT3. */
  lemma {:induction false} StepCopies(buf: seq<byte>, m: seq<byte>, code: seq<byte>, delta: int, cb: nat)
    requires cb < |code| && Decode(code[cb..], false, false).Some? && |m| == |buf|
    requires var ins := Decode(code[cb..], false, false).value;
             && cb + ins.len <= |buf| && buf[cb + ins.len - 1] == INT3
             && m[..cb + ins.len] == Blit(buf, cb, Relocated(code[cb..], ins, delta))[..cb + ins.len]
    ensures HoldsCopy(m, code, delta, cb)
  {
    hide Decode, Relocated, Blit;
    var ins := Decode(code[cb..], false, false).value;
    var copy := Relocated(code[cb..], ins, delta);
    var buf' := Blit(buf, cb, copy);
    BlitReads(buf, cb, copy);
    var n := cb + ins.len;
    assert forall k :: 0 <= k < n ==> m[k] == m[..n][k] == buf'[..n][k] == buf'[k];
    assert m[cb..cb + |copy|] == buf'[cb..cb + |copy|];
  }

  /** What the moving loop leaves in a buffer filled with INT3. */
  lemma {:induction false} MoveCopies(buf: seq<byte>, code: seq<byte>, delta: int, cb: nat)
    requires cb <= |code| && cb <= |buf| && MoveFrom(buf, code, delta, cb).Some?
    requires forall k :: cb <= k < |buf| ==> buf[k] == INT3
    ensures var m := MoveFrom(buf, code, delta, cb).value; HoldsCopies(m.buf, code, delta, cb, m.cb)
    decreases |code| - cb
  {
    hide Decode, Relocated, Extra, HoldsCopy, Blit;
    if cb < SIZE_OF_JMP {
      var rest := code[cb..];
      var ins := Decode(rest, false, false).value;
      var m := MoveFrom(buf, code, delta, cb).value;
      var buf' := Blit(buf, cb, Relocated(rest, ins, delta));
      if Extra(rest, ins, delta) == 0 {
        if EndsFunction(rest) {
          assert m == Progress(cb + ins.len, buf');
        } else {
          assert m == MoveFrom(buf', code, delta, cb + ins.len).value;
          MoveTiles(buf', code, delta, cb + ins.len);
          MoveCopies(buf', code, delta, cb + ins.len);
        }
        StepCopies(buf, m.buf, code, delta, cb);
        CopiesStep(m.buf, code, delta, cb, m.cb);
      }
    }
  }

  lemma {:induction false} CopiesStep(buf: seq<byte>, code: seq<byte>, delta: int, cb: nat, n: nat)
    requires HoldsCopy(buf, code, delta, cb)
    requires HoldsCopies(buf, code, delta, cb + Decode(code[cb..], false, false).value.len, n)
    ensures HoldsCopies(buf, code, delta, cb, n)
  {
  }

  /** Moving the copies back restores the original bytes, provided no Invalid row was met. */
  lemma {:induction false} UnmoveRestores(dst: seq<byte>, rb: seq<byte>, code: seq<byte>, delta: int, cb: nat, n: nat)
    requires cb <= n <= |rb| && n <= |dst| && n <= |code|
    requires Tiled(code, delta, cb, n) && HoldsCopies(rb, code, delta, cb, n) && NoInvalid(code, cb, n)
    ensures UnmoveFrom(dst, rb, -delta, n, cb) == Some(Progress(n, Blit(dst, cb, code[cb..n])))
    decreases n - cb
  {
    hide Decode, Relocated, Extra;
    if cb < n {
      var rest := code[cb..];
      var ins := Decode(rest, false, false).value;
      TiledStep(code, delta, cb, n);
      assert rb[cb..][..ins.len] == rb[cb..cb + ins.len];
      CopyUndone(rest, rb[cb..], delta);
      assert rest[..ins.len] == code[cb..cb + ins.len];
      var dst' := Blit(dst, cb, code[cb..cb + ins.len]);
      UnmoveRestores(dst', rb, code, delta, cb + ins.len, n);
      assert Blit(dst', cb + ins.len, code[cb + ins.len..n]) == Blit(dst, cb, code[cb..n]);
    } else {
      assert code[cb..n] == [] && Blit(dst, cb, []) == dst;
    }
  }

  lemma {:induction false} TiledStep(code: seq<byte>, delta: int, cb: nat, n: nat)
    requires cb < n && Tiled(code, delta, cb, n)
    ensures Decode(code[cb..], false, false).Some? && cb + Decode(code[cb..], false, false).value.len <= n
  {
  }

  /** An instruction ending in an Invalid row, INT3 in place of its last byte, decodes as one that keeps the INT3. */
  lemma {:induction false} Int3Decodes(code: seq<byte>, copy: seq<byte>, operand16: bool, address16: bool)
    requires Decode(code, operand16, address16).Some? && !Decode(code, operand16, address16).value.valid
    requires var n := Decode(code, operand16, address16).value.len;
             n <= |copy| && copy[..n - 1] == code[..n - 1] && copy[n - 1] == INT3
    ensures var n := Decode(code, operand16, address16).value.len;
            && code[n - 1] != INT3
            && var r := Decode(copy, operand16, address16);
               r.Some? ==> r.value.valid && r.value.rel.NoRel? && r.value.len >= n
    decreases |code|
  {
    hide CopyTable, Unprefixed;
    var n := Decode(code, operand16, address16).value.len;
    assert forall k :: 0 <= k < n - 1 ==> copy[k] == copy[..n - 1][k] == code[k];
    var row := CopyTable(code[0]);
    if IsPrefix(row) {
      assert copy[1..][..n - 2] == code[1..][..n - 2];
      Int3Decodes(code[1..], copy[1..], operand16 || row.Copy66?, address16 || row.Copy67?);
    } else {
      Int3Unprefixed(code, copy, operand16, address16);
    }
  }

  lemma {:induction false} OpcodeFixed(row: Row, size: nat, code: seq<byte>, operand16: bool, address16: bool)
    requires (row == CopyBytes2 && size == 2) || (row == CopyBytes1Dynamic && size == 1)
    requires code != []
    ensures var r := Opcode(row, code, operand16, address16);
            r.Some? ==> r.value.valid && r.value.rel.NoRel? && r.value.len == size
  {
  }

  lemma {:induction false} Int3Unprefixed(code: seq<byte>, copy: seq<byte>, operand16: bool, address16: bool)
    requires code != [] && copy != [] && !IsPrefix(CopyTable(code[0]))
    requires Unprefixed(code, operand16, address16).Some? && !Unprefixed(code, operand16, address16).value.valid
    requires var n := Unprefixed(code, operand16, address16).value.len;
             n <= |copy| && copy[n - 1] == INT3 && (n > 1 ==> copy[0] == code[0])
    ensures var n := Unprefixed(code, operand16, address16).value.len;
            && code[n - 1] != INT3 && !IsPrefix(CopyTable(copy[0]))
            && var r := Unprefixed(copy, operand16, address16);
               r.Some? ==> r.value.valid && r.value.rel.NoRel? && r.value.len >= n
  {
    hide PlainInstr, CopyTable0F, CopyTable, Opcode;
    var row := CopyTable(code[0]);
    if row.Copy0F? {
      var escaped := Opcode(CopyTable0F(code[1]), code[1..], operand16, address16).value;
      assert !escaped.valid && escaped.len == 1;
      Int3Rows(code[1]);
      OpcodeFixed(CopyBytes2, 2, copy[1..], operand16, address16);
    } else {
      GroupRowPlain(row, if |code| > 1 then code[1] else 0);
      Int3Rows(code[0]);
      OpcodeFixed(CopyBytes1Dynamic, 1, copy, operand16, address16);
    }
  }

  lemma {:induction false} Int3Rows(op: byte)
    ensures CopyTable(INT3) == CopyBytes1Dynamic && CopyTable0F(INT3) == CopyBytes2
    ensures CopyTable(op).Invalid? || CopyTable0F(op).Invalid? || !IsPlain(CopyTable0F(op)) ==> op != INT3
  {
  }

  lemma {:induction false} GroupRowPlain(row: Row, modRm: byte)
    requires !IsPrefix(row) && !row.Copy0F?
    ensures IsPlain(GroupRow(row, modRm)) <==> !row.Invalid?
  {
  }

  lemma {:induction false} UnmovePrefix(dst: seq<byte>, rb: seq<byte>, delta: int, n: nat, cb: nat)
    requires cb <= |rb| && cb <= |dst| && UnmoveFrom(dst, rb, delta, n, cb).Some?
    ensures UnmoveFrom(dst, rb, delta, n, cb).value.buf[..cb] == dst[..cb]
    decreases |rb| - cb
  {
    hide Decode, Relocated, Extra;
    if cb < n {
      var rest := rb[cb..];
      var ins := Decode(rest, false, false).value;
      var dst' := Blit(dst, cb, Relocated(rest, ins, delta));
      BlitFrame(dst, cb, Relocated(rest, ins, delta), 0, cb);
      if Extra(rest, ins, delta) == 0 {
        UnmovePrefix(dst', rb, delta, n, cb + ins.len);
        var m := UnmoveFrom(dst', rb, delta, n, cb + ins.len).value;
        assert m.buf[..cb] == m.buf[..cb + ins.len][..cb] == dst'[..cb];
      }
    }
  }

  /** Where an Invalid row was met, moving the copies back leaves an INT3 that was not there. */
  lemma {:induction false} UnmoveBreaks(dst: seq<byte>, rb: seq<byte>, code: seq<byte>, delta: int, cb: nat, n: nat)
    returns (p: nat)
    requires cb <= n <= |rb| && n <= |dst| && n <= |code|
    requires Tiled(code, delta, cb, n) && HoldsCopies(rb, code, delta, cb, n) && !NoInvalid(code, cb, n)
    requires UnmoveFrom(dst, rb, -delta, n, cb).Some?
    ensures p < n && UnmoveFrom(dst, rb, -delta, n, cb).value.buf[p] != code[p]
    decreases n - cb
  {
    hide Decode, Relocated, Extra;
    var rest := code[cb..];
    var ins := Decode(rest, false, false).value;
    TiledStep(code, delta, cb, n);
    var m := UnmoveFrom(dst, rb, -delta, n, cb).value;
    if ins.valid {
      assert rb[cb..][..ins.len] == rb[cb..cb + ins.len];
      CopyUndone(rest, rb[cb..], delta);
      p := UnmoveBreaks(Blit(dst, cb, rest[..ins.len]), rb, code, delta, cb + ins.len, n);
    } else {
      p := cb + ins.len - 1;
      assert rb[cb..][..ins.len - 1] == rb[cb..cb + ins.len - 1] == rest[..ins.len - 1] by {
        InvalidCopy(rest, ins, delta);
      }
      Int3Decodes(rest, rb[cb..], false, false);
      UnmovesInt3(dst, rb, -delta, n, cb, p);
    }
  }

  lemma {:induction false} UnmovesInt3(dst: seq<byte>, rb: seq<byte>, delta: int, n: nat, cb: nat, p: nat)
    requires cb <= p < n && p < |rb| && rb[p] == INT3 && UnmoveFrom(dst, rb, delta, n, cb).Some?
    requires var r := Decode(rb[cb..], false, false);
             r.Some? && r.value.valid && r.value.rel.NoRel? && p < cb + r.value.len
    ensures p < |dst| && UnmoveFrom(dst, rb, delta, n, cb).value.buf[p] == INT3
  {
    hide Decode, Relocated, Extra;
    var ins := Decode(rb[cb..], false, false).value;
    PlainRelocated(rb[cb..], ins, delta);
    var dst' := Blit(dst, cb, rb[cb..][..ins.len]);
    UnmovePrefix(dst', rb, delta, n, cb + ins.len);
    var m := UnmoveFrom(dst, rb, delta, n, cb).value;
    assert m.buf[p] == m.buf[..cb + ins.len][p] == dst'[..cb + ins.len][p] == dst'[p];
  }

  lemma {:induction false} InvalidCopy(code: seq<byte>, ins: Instr, delta: int)
    requires WellFormed(ins, code) && !ins.valid
    ensures Relocated(code, ins, delta) == code[..ins.len - 1]
  {
  }

  lemma {:induction false} PlainRelocated(code: seq<byte>, ins: Instr, delta: int)
    requires WellFormed(ins, code) && ins.valid && ins.rel.NoRel?
    ensures Relocated(code, ins, delta) == code[..ins.len] && Extra(code, ins, delta) == 0
  {
  }

  /**
   * A trampoline built by the moving loop gives the original code back, in the same number of bytes, if and only
   * if no Invalid row was met while building it.
   */
  lemma {:induction false} MoveUndoneIff(code: seq<byte>, delta: int, rb: seq<byte>, dst: seq<byte>)
    requires MoveFrom(seq(SLOT_SIZE, _ => INT3), code, delta, 0).Some?
    requires var m := MoveFrom(seq(SLOT_SIZE, _ => INT3), code, delta, 0).value;
             m.cb <= |rb| && m.cb <= |dst| && rb[..m.cb] == m.buf[..m.cb]
    ensures var n := MoveFrom(seq(SLOT_SIZE, _ => INT3), code, delta, 0).value.cb;
            var r := UnmoveFrom(dst, rb, -delta, n, 0);
            && (NoInvalid(code, 0, n) ==> r == Some(Progress(n, Blit(dst, 0, code[..n]))))
            && (r.Some? && r.value.cb == n && r.value.buf[..n] == code[..n] ==> NoInvalid(code, 0, n))
  {
    var blank := seq(SLOT_SIZE, _ => INT3);
    var m := MoveFrom(blank, code, delta, 0).value;
    MoveTiles(blank, code, delta, 0);
    MoveCopies(blank, code, delta, 0);
    HoldsCopiesFrame(m.buf, rb, code, delta, 0, m.cb);
    if NoInvalid(code, 0, m.cb) {
      UnmoveRestores(dst, rb, code, delta, 0, m.cb);
    } else if UnmoveFrom(dst, rb, -delta, m.cb, 0).Some? {
      var r := UnmoveFrom(dst, rb, -delta, m.cb, 0).value;
      var p := UnmoveBreaks(dst, rb, code, delta, 0, m.cb);
      assert r.buf[..m.cb][p] != code[..m.cb][p];
    }
  }

  /** Code in which no instruction the loop can reach carries more than three prefix bytes. */
  predicate FewPrefixes(code: seq<byte>) {
    |code| >= 19 && forall k :: 0 <= k < SIZE_OF_JMP ==> Prefixes(code[k..]) <= 3
  }

  /** On such code the loop moves at most 18 bytes, so the copies and the jump behind them fit in rbCode. */
  lemma {:induction false} MoveBound(buf: seq<byte>, code: seq<byte>, delta: int, cb: nat)
    requires FewPrefixes(code) && |buf| >= CODE_SIZE - SIZE_OF_JMP && cb <= CODE_SIZE - SIZE_OF_JMP
    ensures var r := MoveFrom(buf, code, delta, cb);
            && r.Some? && r.value.cb <= CODE_SIZE - SIZE_OF_JMP
            && r.value.buf[CODE_SIZE - SIZE_OF_JMP..] == buf[CODE_SIZE - SIZE_OF_JMP..]
    decreases |code| - cb
  {
    hide Decode, Relocated, Extra, Blit, Prefixes;
    if cb < SIZE_OF_JMP {
      var rest := code[cb..];
      DecodeReads(rest, false, false);
      DecodeLength(rest, false, false);
      var ins := Decode(rest, false, false).value;
      var copy := Relocated(rest, ins, delta);
      BlitFrame(buf, cb, copy, CODE_SIZE - SIZE_OF_JMP, |buf|);
      MoveBound(Blit(buf, cb, copy), code, delta, cb + ins.len);
    }
  }

  /** The first `n` bytes alone say all there is to say about the moved instructions. */
  lemma {:induction false} CutCode(code: seq<byte>, buf: seq<byte>, delta: int, cb: nat, n: nat)
    requires cb <= n <= |code| && Tiled(code, delta, cb, n)
    ensures Tiled(code[..n], delta, cb, n)
    ensures NoInvalid(code, cb, n) ==> NoInvalid(code[..n], cb, n)
    ensures HoldsCopies(buf, code, delta, cb, n) ==> HoldsCopies(buf, code[..n], delta, cb, n)
    decreases n - cb
  {
    hide Decode, Relocated, Extra;
    if cb < n {
      TiledStep(code, delta, cb, n);
      var a, b := code[cb..], code[..n][cb..];
      var ins := Decode(a, false, false).value;
      CutInstr(a, b, ins, delta);
      CutCode(code, buf, delta, cb + ins.len, n);
    }
  }

  lemma {:induction false} CutInstr(a: seq<byte>, b: seq<byte>, ins: Instr, delta: int)
    requires Decode(a, false, false) == Some(ins) && ins.len <= |b| <= |a| && b == a[..|b|]
    ensures Decode(b, false, false) == Some(ins)
    ensures Extra(b, ins, delta) == Extra(a, ins, delta) && Relocated(b, ins, delta) == Relocated(a, ins, delta)
  {
    hide Decode, EncodeDisp, Disp;
    DecodeSameShape(a, b, false, false);
    if ins.rel.Rel? {
      DispPrefix(a, |b|, ins.rel.at, ins.rel.size);
      assert b[..ins.rel.at] == a[..ins.rel.at];
    }
    assert b[..ins.len] == a[..ins.len] && b[..ins.len - 1] == a[..ins.len - 1];
  }

  /** When enough was moved, nothing was written behind it. */
  lemma {:induction false} MoveTail(buf: seq<byte>, code: seq<byte>, delta: int, cb: nat)
    requires cb <= |code| && cb <= |buf| && MoveFrom(buf, code, delta, cb).Some?
    requires MoveFrom(buf, code, delta, cb).value.cb >= SIZE_OF_JMP
    ensures var m := MoveFrom(buf, code, delta, cb).value; m.buf[m.cb..] == buf[m.cb..]
    decreases |code| - cb
  {
    hide Decode, Relocated, Extra, Blit;
    if cb < SIZE_OF_JMP {
      var rest := code[cb..];
      var ins := Decode(rest, false, false).value;
      var buf' := Blit(buf, cb, Relocated(rest, ins, delta));
      var m := MoveFrom(buf, code, delta, cb).value;
      assert m.cb >= cb + ins.len;
      BlitFrame(buf, cb, Relocated(rest, ins, delta), m.cb, |buf|);
      assert m.buf[m.cb..|buf|] == m.buf[m.cb..] && buf'[m.cb..|buf|] == buf'[m.cb..];
      if !EndsFunction(rest) {
        MoveTail(buf', code, delta, cb + ins.len);
      }
    }
  }

  // ----------------------------------------------------------------- an instance

  /** mov eax, imm32 is copied as it is, over any distance. */
  lemma {:induction false} MovIsPlain(code: seq<byte>, delta: int)
    requires |code| >= 5 && code[0] == 0xB8
    ensures var r := Decode(code, false, false);
            r.Some? && r.value.len == 5 && Relocated(code, r.value, delta) == code[..5]
            && Extra(code, r.value, delta) == 0
  {
  }

  lemma {:induction false} OneByte(code: seq<byte>, delta: int)
    requires code != [] && code[0] in {0xD6, INT3}
    ensures var r := Decode(code, false, false);
            && r.Some? && r.value.len == 1 && Extra(code, r.value, delta) == 0
            && Relocated(code, r.value, delta) == if code[0] == INT3 then [INT3] else []
  {
  }

  /** salc; mov eax, 0x04030201: two whole instructions, of which the first has an Invalid entry. */
  function SalcCode(): seq<byte> { [0xD6, 0xB8, 1, 2, 3, 4] }

  function SalcCopy(): (buf: seq<byte>)
    ensures |buf| == SLOT_SIZE
  {
    Blit(seq(SLOT_SIZE, _ => INT3), 1, SalcCode()[1..])
  }

  lemma {:induction false} SalcMoves(delta: int)
    ensures MoveFrom(seq(SLOT_SIZE, _ => INT3), SalcCode(), delta, 0) == Some(Progress(6, SalcCopy()))
  {
    hide Decode, Relocated, Extra;
    var code, blank := SalcCode(), seq(SLOT_SIZE, _ => INT3);
    OneByte(code, delta);
    MovIsPlain(code[1..], delta);
    assert Blit(blank, 0, []) == blank;
    assert code[1..][..5] == code[1..] && code[0..] == code;
  }

  /** After attach and detach the function starts with INT3 in place of salc, wherever its trampoline was. */
  lemma {:induction false} SalcLost(delta: int, dst: seq<byte>)
    requires |dst| >= 6
    ensures var m := MoveFrom(seq(SLOT_SIZE, _ => INT3), SalcCode(), delta, 0);
            && m.Some? && m.value.cb == 6
            && var r := UnmoveFrom(dst, m.value.buf, -delta, 6, 0);
               r.Some? && r.value.cb == 6 && r.value.buf[..6] == [INT3, 0xB8, 1, 2, 3, 4] != SalcCode()
  {
    hide Decode, Relocated, Extra, Blit;
    var code, buf := SalcCode(), SalcCopy();
    SalcMoves(delta);
    SalcCopyBytes();
    OneByte(buf, -delta);
    MovIsPlain(buf[1..], -delta);
    var back := Blit(Blit(dst, 0, [INT3]), 1, code[1..]);
    SalcBytes(dst, back);
    assert UnmoveFrom(back, buf, -delta, 6, 6) == Some(Progress(6, back));
    assert UnmoveFrom(Blit(dst, 0, [INT3]), buf, -delta, 6, 1) == Some(Progress(6, back));
    assert UnmoveFrom(dst, buf, -delta, 6, 0) == Some(Progress(6, back));
  }

  lemma {:induction false} SalcCopyBytes()
    ensures SalcCopy()[0..] == SalcCopy() && SalcCopy()[0] == INT3 && SalcCopy()[1] == 0xB8
    ensures SalcCopy()[1..][..5] == SalcCode()[1..]
  {
  }

  lemma {:induction false} SalcBytes(dst: seq<byte>, back: seq<byte>)
    requires |dst| >= 6 && back == Blit(Blit(dst, 0, [INT3]), 1, SalcCode()[1..])
    ensures back[..6] == [INT3, 0xB8, 1, 2, 3, 4] != SalcCode()
  {
  }
}
