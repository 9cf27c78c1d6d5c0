/** Where Attach stops moving: behind the last instruction of a short function, never inside its neighbour. */
module FunctionEnds {
  import opened Bytes
  import opened Disasm
  import opened Relocation
  import opened TrampolineRun

  /**
   * A function ends with the instruction at `k`: jmp rel32, loopne, ret n, ret, int 3, or jmp [m], which may stand
   * behind a segment prefix or E3.
   */
  predicate LastAt(code: seq<byte>, k: nat) {
    k < |code| &&
    (|| code[k] == 0xE9 || code[k] == 0xE0 || code[k] == 0xC2 || code[k] == 0xC3 || code[k] == 0xCC
     || (k + 1 < |code| && code[k] == 0xFF && code[k + 1] == 0x25)
     || (k + 2 < |code| && code[k + 1] == 0xFF && code[k + 2] == 0x25
         && (code[k] == 0x26 || code[k] == 0x2E || code[k] == 0x36 || code[k] == 0x64 || code[k] == 0x65
             || code[k] == 0xE3)))
  }

  /** The instruction at `k` and its length. */
  predicate Whole(code: seq<byte>, k: nat) { k <= |code| && Decode(code[k..], false, false).Some? }

  function Length(code: seq<byte>, k: nat): nat
    requires Whole(code, k)
  {
    Decode(code[k..], false, false).value.len
  }

  /** What is moved from instruction `j` on ends at `n`. */
  ghost predicate StopsAt(code: seq<byte>, delta: int, j: nat, n: nat) {
    && j <= n <= |code| && Starts(code, j, n)
    && (forall k :: j <= k < n && Starts(code, j, k) ==>
          k < 5 && Whole(code, k) && Extra(code[k..], Decode(code[k..], false, false).value, delta) == 0
          && (LastAt(code, k) ==> k + Length(code, k) == n))
    && (n >= 5
        || (Whole(code, n) && Extra(code[n..], Decode(code[n..], false, false).value, delta) != 0)
        || exists k :: j <= k < n && Starts(code, j, k) && Whole(code, k) && LastAt(code, k)
            && k + Length(code, k) == n)
  }

  lemma {:induction false} SkipStart(code: seq<byte>, j: nat, k: nat)
    requires j < k && Starts(code, j, k)
    ensures Whole(code, j) && j + Length(code, j) <= k && Starts(code, j + Length(code, j), k)
  {
    hide Decode;
    StartsOrder(code, j + Length(code, j), k);
  }

  lemma {:induction false} StartsOrder(code: seq<byte>, j: nat, k: nat)
    requires Starts(code, j, k)
    ensures j <= k
  {
  }

  /** Every move ends at 5 bytes or behind, at the end of the function, or in front of what cannot be moved. */
  lemma {:induction false} MoveStops(buf: seq<byte>, code: seq<byte>, delta: int, cb: nat)
    requires cb <= |code| && MoveFrom(buf, code, delta, cb).Some?
    ensures StopsAt(code, delta, cb, MoveFrom(buf, code, delta, cb).value.cb)
    decreases |code| - cb
  {
    hide Decode, Relocated, Extra, Blit, EndsFunction, LastAt;
    var n := MoveFrom(buf, code, delta, cb).value.cb;
    if cb < 5 {
      var rest := code[cb..];
      var ins := Decode(rest, false, false).value;
      EndIsLast(code, cb);
      if Extra(rest, ins, delta) == 0 {
        var at := cb + ins.len;
        if !EndsFunction(rest) {
          MoveStops(Blit(buf, cb, Relocated(rest, ins, delta)), code, delta, at);
        }
        StopsBehind(code, delta, cb, n);
      }
    }
  }

  lemma {:induction false} EndIsLast(code: seq<byte>, k: nat)
    requires k < |code|
    ensures EndsFunction(code[k..]) <==> LastAt(code, k)
  {
  }

  lemma {:induction false} StopsBehind(code: seq<byte>, delta: int, j: nat, n: nat)
    requires Whole(code, j) && j < 5 && Extra(code[j..], Decode(code[j..], false, false).value, delta) == 0
    requires j + Length(code, j) <= |code|
    requires if LastAt(code, j) then n == j + Length(code, j) else StopsAt(code, delta, j + Length(code, j), n)
    ensures StopsAt(code, delta, j, n)
  {
    hide Decode, Extra, LastAt;
    var at := j + Length(code, j);
    assert Starts(code, at, n) && Starts(code, j, n);
    forall k | j < k < n && Starts(code, j, k) ensures at <= k && Starts(code, at, k) {
      SkipStart(code, j, k);
    }
    if !LastAt(code, j) {
      forall k | at <= k < n && Starts(code, at, k) ensures Starts(code, j, k) {
      }
    }
  }

  /** A function whose last instruction can be reached and read can be moved up to there. */
  lemma {:induction false} MovesToLast(buf: seq<byte>, code: seq<byte>, delta: int, j: nat, k: nat)
    requires Starts(code, j, k) && Whole(code, k) && LastAt(code, k) && k + Length(code, k) <= |buf|
    ensures j <= |code| && MoveFrom(buf, code, delta, j).Some?
    decreases k - j
  {
    hide Decode, Relocated, Extra, Blit, LastAt;
    StartsOrder(code, j, k);
    if j < 5 {
      EndIsLast(code, j);
      if j < k {
        SkipStart(code, j, k);
        var rest := code[j..];
        MovesToLast(Blit(buf, j, Relocated(rest, Decode(rest, false, false).value, delta)), code, delta,
                    j + Length(code, j), k);
      }
    }
  }
}
