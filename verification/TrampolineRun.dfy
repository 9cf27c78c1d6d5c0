/** Running a trampoline does what running the moved instructions in place did. */
module TrampolineRun {
  import opened Bytes
  import opened OpcodeTables
  import opened Disasm
  import opened Relocation

  /** Where an instruction passes control: onwards, to its relative target, or to an absolute address. */
  datatype Flow = Next | Taken | Goto(address: dword)

  /**
   * What instructions do to the machine state M other than EIP, given their bytes without the displacement.  No
   * instruction sees its own address, which leaves out calls.
   */
  type Semantics<!M> = (seq<byte>, M) -> (M, Flow)

  datatype Cpu<M> = Cpu(eip: dword, m: M)

  /** The bytes of an instruction that do not depend on where it stands. */
  function Key(code: seq<byte>, ins: Instr): seq<byte>
    requires WellFormed(ins, code)
  {
    if ins.rel.Rel? then code[..ins.rel.at] else code[..ins.len]
  }

  /** One step over the tables' own instruction boundaries; None where no valid instruction can be read. */
  function Step<M>(mem: seq<byte>, sem: Semantics<M>, cpu: Cpu<M>): Option<Cpu<M>> {
    if cpu.eip >= |mem| then None
    else
      var code := mem[cpu.eip..];
      var r := Decode(code, false, false);
      if r.None? || !r.value.valid then None
      else
        var ins := r.value;
        var (m, flow) := sem(Key(code, ins), cpu.m);
        match flow
        case Next => Some(Cpu(WrapAddr(cpu.eip + ins.len), m))
        case Taken => if ins.rel.NoRel? then None else Some(Cpu(BranchTarget(cpu.eip, code, ins), m))
        case Goto(a) => Some(Cpu(a, m))
  }

  /** Run until EIP leaves [lo, hi); None when a step is impossible or `fuel` steps do not get there. */
  function RunUntilOut<M>(mem: seq<byte>, sem: Semantics<M>, lo: int, hi: int, cpu: Cpu<M>, fuel: nat): Option<Cpu<M>>
    decreases fuel
  {
    if !(lo <= cpu.eip < hi) then Some(cpu)
    else if fuel == 0 then None
    else
      var r := Step(mem, sem, cpu);
      if r.None? then None else RunUntilOut(mem, sem, lo, hi, r.value, fuel - 1)
  }

  /** jmp rel32 back to where the moved code ended, then INT3 up to the end of rbCode. */
  function JumpBytes(at: int, to: int): (bs: seq<byte>)
    ensures |bs| == SIZE_OF_JMP
  {
    [0xE9] + LE32(WrapAddr(to - (at + SIZE_OF_JMP)))
  }

  /** The moved bytes [target, target + n) and the trampoline that holds their copies, each in its own memory. */
  datatype Block = Block(before: seq<byte>, after: seq<byte>, target: nat, tramp: nat, n: nat)

  predicate Trampolined(b: Block) {
    && |b.before| == |b.after| == ADDRESS_SPACE
    && 0 < b.n && b.target + b.n < ADDRESS_SPACE && b.tramp + b.n + SIZE_OF_JMP < ADDRESS_SPACE
    && b.after[b.tramp + b.n..b.tramp + b.n + SIZE_OF_JMP] == JumpBytes(b.tramp + b.n, b.target + b.n)
  }

  /** Decoding `code` from offset `j` on, instruction by instruction, comes to offset `k`. */
  predicate Starts(code: seq<byte>, j: nat, k: nat)
    decreases if j < k then k - j else 0
  {
    j == k || (j < k && j <= |code| && Decode(code[j..], false, false).Some?
               && Starts(code, j + Decode(code[j..], false, false).value.len, k))
  }

  predicate Inside(b: Block, a: int) { b.target <= a < b.target + b.n }

  /** Offset `k` is an instruction boundary of the moved code, copied from there on. */
  predicate Boundary(b: Block, k: nat)
    requires Trampolined(b)
  {
    && k <= b.n
    && Tiled(b.before[b.target..], b.tramp - b.target, k, b.n)
    && NoInvalid(b.before[b.target..], k, b.n)
    && HoldsCopies(b.after[b.tramp..], b.before[b.target..], b.tramp - b.target, k, b.n)
  }

  /** No relative branch of the moved code, from boundary `k` on, lands inside it. */
  predicate BranchesLeave(b: Block, k: nat)
    decreases b.n - k
  {
    k >= b.n || (
      && b.target + k <= |b.before|
      && var code := b.before[b.target..][k..];
      var r := Decode(code, false, false);
      && r.Some?
      && (r.value.rel.Rel? ==> !Inside(b, BranchTarget(b.target + k, code, r.value)))
      && BranchesLeave(b, k + r.value.len))
  }

  /** The other control transfers of `sem` leave the moved code too, and E9 is an unconditional jump. */
  ghost predicate JumpsLeave<M(!new)>(b: Block, sem: Semantics<M>) {
    && (forall key, m :: var flow := sem(key, m).1; flow.Goto? ==> !Inside(b, flow.address))
    && (forall m :: sem([0xE9], m) == (m, Taken))
  }

  /** The instruction at boundary `k` and its copy are the same instruction with the same branch target. */
  lemma {:induction false} CopySameInstr(b: Block, k: nat)
    requires Trampolined(b) && Boundary(b, k) && k < b.n
    ensures var code, copy := b.before[b.target..][k..], b.after[b.tramp..][k..];
            var r := Decode(code, false, false);
            && r.Some? && r.value.valid && k + r.value.len <= b.n && Decode(copy, false, false) == r
            && Key(copy, r.value) == Key(code, r.value)
            && Boundary(b, k + r.value.len)
            && (r.value.rel.Rel? ==>
                  BranchTarget(b.tramp + k, copy, r.value) == BranchTarget(b.target + k, code, r.value))
  {
    hide Decode, Relocated, Extra, Disp;
    var delta := b.tramp - b.target;
    var base, copies := b.before[b.target..], b.after[b.tramp..];
    var code, copy := base[k..], copies[k..];
    var ins := Decode(code, false, false).value;
    TiledStep(base, delta, k, b.n);
    assert copy[..ins.len] == copies[k..k + ins.len];
    CopyUndone(code, copy, delta);
    var bs := Relocated(code, ins, delta);
    KeyPrefix(copy, ins);
    KeyRelocated(code, ins, delta);
    if ins.rel.Rel? {
      DispOfRelocated(code, ins, delta);
      DispPrefix(copy, ins.len, ins.rel.at, ins.rel.size);
      ExtraMeansTargetLost(b.target + k, b.tramp + k, code, ins);
    }
  }

  /** Every instruction of the moved code starts at a boundary. */
  lemma {:induction false} StartsAreBoundaries(b: Block, j: nat, k: nat)
    requires Trampolined(b) && Boundary(b, j) && j <= k <= b.n && Starts(b.before[b.target..], j, k)
    ensures Boundary(b, k)
    decreases k - j
  {
    hide Decode, Tiled, NoInvalid, HoldsCopies, BranchTarget, Key;
    if j < k {
      CopySameInstr(b, j);
      StartsAreBoundaries(b, j + Decode(b.before[b.target..][j..], false, false).value.len, k);
    }
  }

  lemma {:induction false} KeyPrefix(code: seq<byte>, ins: Instr)
    requires WellFormed(ins, code)
    ensures Key(code[..ins.len], ins) == Key(code, ins)
  {
    assert ins.rel.Rel? ==> code[..ins.len][..ins.rel.at] == code[..ins.rel.at];
  }

  lemma {:induction false} KeyRelocated(code: seq<byte>, ins: Instr, delta: int)
    requires WellFormed(ins, code) && ins.valid
    ensures Key(Relocated(code, ins, delta), ins) == Key(code, ins)
  {
    hide EncodeDisp, Disp;
  }

  /** The jump behind the copies leads to the first instruction that was not moved. */
  lemma {:induction false} JumpBack<M(!new)>(b: Block, sem: Semantics<M>, m: M)
    requires Trampolined(b) && JumpsLeave(b, sem)
    ensures Step(b.after, sem, Cpu(b.tramp + b.n, m)) == Some(Cpu(b.target + b.n, m))
  {
    hide Decode, BranchTarget, JumpBytes;
    var at := b.tramp + b.n;
    var code := b.after[at..];
    assert code[..SIZE_OF_JMP] == JumpBytes(at, b.target + b.n);
    JumpDecodes(code, at, b.target + b.n);
    assert code[..1] == [0xE9];
  }

  lemma {:induction false} JumpDecodes(code: seq<byte>, at: nat, to: nat)
    requires |code| >= SIZE_OF_JMP && code[..SIZE_OF_JMP] == JumpBytes(at, to) && to < ADDRESS_SPACE
    ensures code[0] == 0xE9 && Decode(code, false, false) == Some(Instr(5, Rel(1, 4), true, false, Relative))
    ensures BranchTarget(at, code, Instr(5, Rel(1, 4), true, false, Relative)) == to
  {
    assert forall k :: 0 <= k < SIZE_OF_JMP ==> code[k] == code[..SIZE_OF_JMP][k] == JumpBytes(at, to)[k];
    assert CopyTable(code[0]) == CopyBytes3Or5Target;
    assert U32At(code, 1) == WrapAddr(to - (at + SIZE_OF_JMP)) by {
      assert code[1..5] == LE32(WrapAddr(to - (at + SIZE_OF_JMP)));
      assert U32At(code, 1) == U32At(code[1..5], 0);
    }
  }

  /** One step from a boundary: onwards to the next boundary in both worlds, or out to the same address. */
  lemma {:induction false} StepsAlike<M(!new)>(b: Block, sem: Semantics<M>, k: nat, m: M) returns (k': nat)
    requires Trampolined(b) && Boundary(b, k) && k < b.n && BranchesLeave(b, k) && JumpsLeave(b, sem)
    ensures var s, s' := Step(b.before, sem, Cpu(b.target + k, m)), Step(b.after, sem, Cpu(b.tramp + k, m));
            && k < k' <= b.n && Boundary(b, k') && BranchesLeave(b, k')
            && (s.None? <==> s'.None?)
            && (s.Some? ==> s.value.m == s'.value.m
                            && ((s.value.eip == b.target + k' && s'.value.eip == b.tramp + k')
                                || (s.value.eip == s'.value.eip && !Inside(b, s.value.eip))))
  {
    hide Decode, Tiled, NoInvalid, HoldsCopies, BranchTarget, Key, JumpBytes;
    CopySameInstr(b, k);
    k' := k + Decode(b.before[b.target..][k..], false, false).value.len;
    assert b.before[b.target..][k..] == b.before[b.target + k..];
    assert b.after[b.tramp..][k..] == b.after[b.tramp + k..];
  }

  /**
   * From any instruction boundary of the moved code, running the trampoline leaves it in the same machine state
   * and at the same address as running the unpatched code leaves the moved bytes, and is stuck where that is
   * stuck; the way back to the rest of the function is the one extra step.  It takes that no branch of the moved
   * code lands inside it, and that the run does not leave for the trampoline itself.
   */
  lemma {:induction false} TrampolineRefines<M(!new)>(b: Block, sem: Semantics<M>, k: nat, m: M, fuel: nat)
    requires Trampolined(b) && Boundary(b, k) && k < b.n && BranchesLeave(b, k) && JumpsLeave(b, sem)
    requires fuel >= b.n - k
    requires var s := RunUntilOut(b.before, sem, b.target, b.target + b.n, Cpu(b.target + k, m), fuel);
             s.Some? ==> !(b.tramp <= s.value.eip < b.tramp + b.n + SIZE_OF_JMP)
    ensures RunUntilOut(b.after, sem, b.tramp, b.tramp + b.n + SIZE_OF_JMP, Cpu(b.tramp + k, m), fuel + 1)
         == RunUntilOut(b.before, sem, b.target, b.target + b.n, Cpu(b.target + k, m), fuel)
    decreases b.n - k
  {
    hide Step, Decode, Boundary, BranchesLeave, JumpsLeave;
    var k' := StepsAlike(b, sem, k, m);
    var s, s' := Step(b.before, sem, Cpu(b.target + k, m)), Step(b.after, sem, Cpu(b.tramp + k, m));
    if s.Some? && s'.value.eip == b.tramp + k' && s.value.eip == b.target + k' {
      if k' < b.n {
        TrampolineRefines(b, sem, k', s.value.m, fuel - 1);
      } else {
        JumpBack(b, sem, s.value.m);
        var out := Cpu(b.target + b.n, s.value.m);
        assert RunUntilOut(b.after, sem, b.tramp, b.tramp + b.n + SIZE_OF_JMP, out, fuel - 1) == Some(out);
        assert RunUntilOut(b.after, sem, b.tramp, b.tramp + b.n + SIZE_OF_JMP, s'.value, fuel) == Some(out);
      }
    }
  }
}
