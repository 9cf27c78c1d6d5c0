/** The output side of CImage: the growing output buffer, the table writers, and the .detour section laid out in it. */
module ImageOutput {
  import opened Bytes
  import opened PayloadStore
  import opened ImportLayout

  // ----------------------------------------------------------------- alignment

  /** Align: `a` rounded up to a multiple of `size`, a power of two in every use. */
  function Align(a: nat, size: nat): nat
    requires size > 0
  {
    (a + (size - 1)) / size * size
  }

  lemma {:induction false} AlignBounds(a: nat, size: nat)
    requires size > 0
    ensures a <= Align(a, size) < a + size
  {
    var x := a + (size - 1);
    assert x == x / size * size + x % size;
  }

  lemma {:induction false} AlignIsLeast(a: nat, size: nat, p: nat)
    requires size > 0 && a <= p * size
    ensures Align(a, size) <= p * size
  {
    AlignBounds(a, size);
    var q := (a + (size - 1)) / size;
    if q > p {
      TimesMonotone(p + 1, q, size);
    } else {
      TimesMonotone(q, p, size);
    }
  }

  lemma {:induction false} TimesMonotone(a: nat, b: nat, c: nat)
    requires a <= b
    ensures a * c <= b * c
  {
  }

  type quad = x: nat | x % 8 == 0

  /** The block of `cb` bytes at `at`, rounded up, ends here. */
  function NextBlock(at: quad, cb: nat): (r: quad)
    ensures at + cb <= r == at + QuadAlign(cb) && r < at + cb + 8
  {
    at + QuadAlign(cb)
  }

  /** Where the blocks of the section start, and where the last one ends. */
  datatype Layout = Layout(look: quad, bound: quad, text: quad, data: quad, table: quad, end: quad)

  function LayoutOf(cbPre: nat, nThunks: nat, nChars: nat, cbData: nat, nTables: nat): (l: Layout)
    ensures 64 + cbPre <= l.look && l.look + 4 * nThunks <= l.bound && l.bound + 4 * nThunks <= l.text
    ensures l.text + nChars <= l.data && l.data + cbData <= l.table && l.table + 20 * nTables <= l.end
  {
    hide QuadAlign;
    var look := NextBlock(64, cbPre);
    var bound := NextBlock(look, 4 * nThunks);
    var text := NextBlock(bound, 4 * nThunks);
    var data := NextBlock(text, nChars);
    var table := NextBlock(data, cbData);
    Layout(look, bound, text, data, table, NextBlock(table, 20 * nTables))
  }

  /** What Write asks SizeOutputBuffer for; the size of the PE prefix is not rounded up in it. */
  function SizeNeeded(cbPre: nat, nThunks: nat, nChars: nat, cbData: nat, nTables: nat): nat {
    QuadAlign(64) + cbPre + QuadAlign(cbData) + QuadAlign(4 * nThunks) + QuadAlign(4 * nThunks) + QuadAlign(nChars)
    + QuadAlign(20 * nTables)
  }

  lemma {:induction false} QuadOf64()
    ensures QuadAlign(64) == 64
  {
  }

  /** A buffer of a multiple of eight bytes that has the size asked for holds every block all the same. */
  lemma {:induction false} NeededIsEnough(cbPre: nat, nThunks: nat, nChars: nat, cbData: nat, nTables: nat, size: nat)
    requires size % 8 == 0 && SizeNeeded(cbPre, nThunks, nChars, cbData, nTables) <= size
    ensures LayoutOf(cbPre, nThunks, nChars, cbData, nTables).end <= size
  {
    hide QuadAlign;
    var end := LayoutOf(cbPre, nThunks, nChars, cbData, nTables).end;
    QuadOf64();
    QuadBelow(end, size);
  }

  lemma {:induction false} QuadBelow(a: quad, b: quad)
    requires a < b + 8
    ensures a <= b
  {
    assert a == 8 * (a / 8) && b == 8 * (b / 8);
  }

  // -------------------------------------------------------------- table writers

  /** CImageThunks: a cursor through a table of thunks in the output buffer. */
  class CImageThunks {
    const mem: array<byte>
    const m_nThunksMax: nat
    var m_pThunks: nat
    var m_nThunks: nat
    var m_nThunkVirtAddr: nat

    ghost predicate Valid()
      reads this
    {
      m_nThunks <= m_nThunksMax && m_pThunks + 4 * (m_nThunksMax - m_nThunks) <= mem.Length
    }

    constructor (mem: array<byte>, nThunksMax: nat, pThunks: nat, rva: nat)
      requires pThunks + 4 * nThunksMax <= mem.Length
      ensures Valid() && this.mem == mem && m_nThunksMax == nThunksMax && m_nThunks == 0
      ensures m_pThunks == pThunks && m_nThunkVirtAddr == rva
    {
      this.mem, m_nThunksMax, m_pThunks, m_nThunks, m_nThunkVirtAddr := mem, nThunksMax, pThunks, 0, rva;
    }

    /** The address of the next entry; none in a table of at most one entry. */
    method Current() returns (rva: nat)
      ensures rva == if m_nThunksMax > 1 then m_nThunkVirtAddr else 0
    {
      if m_nThunksMax > 1 {
        return m_nThunkVirtAddr;
      }
      return 0;
    }

    method Allocate(nData: dword) returns (pThunk: Option<nat>, rva: nat)
      requires Valid()
      modifies this, mem
      ensures Valid()
      ensures old(m_nThunks) < m_nThunksMax ==>
                && pThunk == Some(old(m_pThunks)) && rva == old(m_nThunkVirtAddr)
                && m_nThunks == old(m_nThunks) + 1 && m_pThunks == old(m_pThunks) + 4
                && m_nThunkVirtAddr == old(m_nThunkVirtAddr) + 4
                && mem[..] == Blit(old(mem[..]), old(m_pThunks), LE32(nData))
      ensures old(m_nThunks) == m_nThunksMax ==>
                pThunk.None? && rva == 0 && unchanged(this) && mem[..] == old(mem[..])
    {
      hide Blit, LE32;
      if m_nThunks < m_nThunksMax {
        rva := m_nThunkVirtAddr;
        pThunk := Some(m_pThunks);
        CopyMemory(mem, m_pThunks, LE32(nData));
        m_nThunks, m_nThunkVirtAddr, m_pThunks := m_nThunks + 1, m_nThunkVirtAddr + 4, m_pThunks + 4;
        return;
      }
      return None, 0;
    }
  }

  /** StringCchCopyA: the string and its terminator, cut off when `cchDest` characters do not hold it. */
  method StringCchCopyA(mem: array<byte>, pszDest: nat, cchDest: nat, s: seq<byte>)
    requires cchDest > 0 && pszDest + (if |s| < cchDest then |s| + 1 else cchDest) <= mem.Length
    modifies mem
    ensures mem[..] == Blit(old(mem[..]), pszDest, (if |s| < cchDest then s else s[..cchDest - 1]) + [0])
  {
    ghost var was := mem[..];
    var i := 0;
    while i < cchDest && i < |s|
      invariant i <= |s| && i <= cchDest
      invariant mem[..] == Blit(was, pszDest, s[..i])
    {
      mem[pszDest + i] := s[i];
      i := i + 1;
    }
    if i == cchDest {
      i := i - 1;
    }
    mem[pszDest + i] := 0;
  }

  /** CImageChars: a cursor through the name table. */
  class CImageChars {
    const mem: array<byte>
    const m_nCharsMax: nat
    var m_pChars: nat
    var m_nChars: nat
    var m_nCharVirtAddr: nat

    ghost predicate Valid()
      reads this
    {
      m_nChars <= m_nCharsMax && m_pChars + (m_nCharsMax - m_nChars) <= mem.Length
    }

    constructor (mem: array<byte>, nCharsMax: nat, pChars: nat, rva: nat)
      requires pChars + nCharsMax <= mem.Length
      ensures Valid() && this.mem == mem && m_nCharsMax == nCharsMax && m_nChars == 0
      ensures m_pChars == pChars && m_nCharVirtAddr == rva
    {
      this.mem, m_nCharsMax, m_pChars, m_nChars, m_nCharVirtAddr := mem, nCharsMax, pChars, 0, rva;
    }

    /** Move the cursor behind `nLen` characters. */
    method Advance(nLen: nat)
      requires Valid() && m_nChars + nLen <= m_nCharsMax
      modifies this
      ensures Valid() && m_pChars == old(m_pChars) + nLen && m_nChars == old(m_nChars) + nLen
      ensures m_nCharVirtAddr == old(m_nCharVirtAddr) + nLen
    {
      m_pChars, m_nChars, m_nCharVirtAddr := m_pChars + nLen, m_nChars + nLen, m_nCharVirtAddr + nLen;
    }

    /** Add a string; address zero when it does not fit. */
    method AllocateName(s: seq<byte>) returns (rva: nat)
      requires Valid()
      modifies this, mem
      ensures Valid()
      ensures old(m_nChars) + |NameText(s)| <= m_nCharsMax ==>
                && rva == old(m_nCharVirtAddr) && Advanced(old(m_pChars), old(m_nChars), old(m_nCharVirtAddr),
                                                           |NameText(s)|)
                && mem[..] == Blit(old(mem[..]), old(m_pChars), s + [0])
      ensures old(m_nChars) + |NameText(s)| > m_nCharsMax ==> rva == 0 && unchanged(this) && mem[..] == old(mem[..])
    {
      hide Blit;
      var nLen := |s| + 1;
      nLen := nLen + nLen % 2;
      assert nLen == |NameText(s)|;
      hide NameText;
      if m_nChars + nLen > m_nCharsMax {
        return 0;
      }
      rva := m_nCharVirtAddr;
      StringCchCopyA(mem, m_pChars, m_nCharsMax, s);
      Advance(nLen);
    }

    /** Add a hint and a string. */
    method AllocateHint(s: seq<byte>, nHint: word) returns (rva: nat)
      requires Valid()
      modifies this, mem
      ensures Valid()
      ensures old(m_nChars) + |HintText(nHint, s)| <= m_nCharsMax ==>
                && rva == old(m_nCharVirtAddr)
                && Advanced(old(m_pChars), old(m_nChars), old(m_nCharVirtAddr), |HintText(nHint, s)|)
                && mem[..] == Blit(old(mem[..]), old(m_pChars), LE16(nHint) + (s + [0]))
      ensures old(m_nChars) + |HintText(nHint, s)| > m_nCharsMax
              ==> rva == 0 && unchanged(this) && mem[..] == old(mem[..])
    {
      hide Blit, LE16;
      var nLen := |s| + 1 + 2;
      nLen := nLen + nLen % 2;
      assert nLen == |HintText(nHint, s)|;
      hide HintText;
      if m_nChars + nLen > m_nCharsMax {
        return 0;
      }
      rva := m_nCharVirtAddr;
      ghost var was := mem[..];
      CopyMemory(mem, m_pChars, LE16(nHint));
      StringCchCopyA(mem, m_pChars + 2, m_nCharsMax, s);
      BlitTwice(was, m_pChars, LE16(nHint), s + [0], LE16(nHint) + (s + [0]));
      Advance(nLen);
    }

    ghost predicate Advanced(pChars: nat, nChars: nat, rva: nat, nLen: nat)
      reads this
    {
      m_pChars == pChars + nLen && m_nChars == nChars + nLen && m_nCharVirtAddr == rva + nLen
    }
  }

  // -------------------------------------------------------- what was emitted

  /** `bytes` stand at offset `at` of the buffer. */
  predicate Stands(m: seq<byte>, at: nat, bytes: seq<byte>) {
    at + |bytes| <= |m| && m[at..at + |bytes|] == bytes
  }

  predicate ZeroRange(m: seq<byte>, lo: nat, hi: nat) {
    hi <= |m| && forall i :: lo <= i < hi ==> m[i] == 0
  }

  /** The blocks in front and in the middle, and the entries of the four tables so far. */
  datatype Emission = Emission(head: seq<byte>, look: seq<dword>, bound: seq<dword>, text: seq<byte>, data: seq<byte>,
                               table: seq<byte>)

  /** The table sizes all entries must fit. */
  datatype Room = Room(nThunks: nat, nChars: nat, nTables: nat)

  predicate Fits(e: Emission, room: Room) {
    && |e.look| <= room.nThunks && |e.bound| <= room.nThunks && |e.text| <= room.nChars
    && |e.table| <= 20 * room.nTables
  }

  predicate Apart(l: Layout, room: Room) {
    && l.look + 4 * room.nThunks <= l.bound && l.bound + 4 * room.nThunks <= l.text
    && l.text + room.nChars <= l.data && l.data <= l.table && l.table + 20 * room.nTables <= l.end
  }

  predicate Emitted(m: seq<byte>, l: Layout, room: Room, e: Emission) {
    && Apart(l, room) && Fits(e, room) && l.end <= |m|
    && |e.head| <= l.look && l.data + |e.data| <= l.table && Stands(m, 0, e.head) && Stands(m, l.data, e.data)
    && Stands(m, l.look, ThunkBytes(e.look)) && Stands(m, l.bound, ThunkBytes(e.bound))
    && Stands(m, l.text, e.text) && Stands(m, l.table, e.table)
    && ZeroRange(m, l.text + |e.text|, l.text + room.nChars)
  }

  lemma {:induction false} StandsFrame(m: seq<byte>, at: nat, bs: seq<byte>, base: nat, bytes: seq<byte>)
    requires Stands(m, base, bytes) && at + |bs| <= |m| && (at + |bs| <= base || base + |bytes| <= at)
    ensures Stands(Blit(m, at, bs), base, bytes)
  {
    BlitFrame(m, at, bs, base, base + |bytes|);
  }

  lemma {:induction false} StandsMore(m: seq<byte>, base: nat, bytes: seq<byte>, bs: seq<byte>)
    requires Stands(m, base, bytes) && base + |bytes| + |bs| <= |m|
    ensures Stands(Blit(m, base + |bytes|, bs), base, bytes + bs)
  {
  }

  lemma {:induction false} ZeroFrame(m: seq<byte>, at: nat, bs: seq<byte>, lo: nat, hi: nat)
    requires ZeroRange(m, lo, hi) && at + |bs| <= |m| && (at + |bs| <= lo || hi <= at)
    ensures ZeroRange(Blit(m, at, bs), lo, hi)
  {
  }

  lemma {:induction false} ThunkBytesSnoc(ts: seq<dword>, t: dword)
    ensures ThunkBytes(ts + [t]) == ThunkBytes(ts) + LE32(t)
  {
    hide LE32;
    if ts == [] {
      assert ThunkBytes([t]) == LE32(t) + ThunkBytes([]);
      assert [] + [t] == [t];
    } else {
      ThunkBytesSnoc(ts[1..], t);
      assert (ts + [t])[1..] == ts[1..] + [t];
      assert LE32(ts[0]) + (ThunkBytes(ts[1..]) + LE32(t)) == (LE32(ts[0]) + ThunkBytes(ts[1..])) + LE32(t);
    }
  }

  lemma {:induction false} EmitLook(m: seq<byte>, l: Layout, room: Room, e: Emission, t: dword)
    requires Emitted(m, l, room, e) && |e.look| < room.nThunks
    ensures l.look + 4 * |e.look| + 4 <= |m|
    ensures Emitted(Blit(m, l.look + 4 * |e.look|, LE32(t)), l, room, e.(look := e.look + [t]))
  {
    hide Blit, LE32, ThunkBytes, Stands, ZeroRange;
    var at := l.look + 4 * |e.look|;
    StandsFrame(m, at, LE32(t), 0, e.head);
    StandsFrame(m, at, LE32(t), l.data, e.data);
    ThunkBytesSnoc(e.look, t);
    StandsMore(m, l.look, ThunkBytes(e.look), LE32(t));
    StandsFrame(m, at, LE32(t), l.bound, ThunkBytes(e.bound));
    StandsFrame(m, at, LE32(t), l.text, e.text);
    StandsFrame(m, at, LE32(t), l.table, e.table);
    ZeroFrame(m, at, LE32(t), l.text + |e.text|, l.text + room.nChars);
  }

  lemma {:induction false} EmitBound(m: seq<byte>, l: Layout, room: Room, e: Emission, t: dword)
    requires Emitted(m, l, room, e) && |e.bound| < room.nThunks
    ensures l.bound + 4 * |e.bound| + 4 <= |m|
    ensures Emitted(Blit(m, l.bound + 4 * |e.bound|, LE32(t)), l, room, e.(bound := e.bound + [t]))
  {
    hide Blit, LE32, ThunkBytes, Stands, ZeroRange;
    var at := l.bound + 4 * |e.bound|;
    StandsFrame(m, at, LE32(t), 0, e.head);
    StandsFrame(m, at, LE32(t), l.data, e.data);
    ThunkBytesSnoc(e.bound, t);
    StandsMore(m, l.bound, ThunkBytes(e.bound), LE32(t));
    StandsFrame(m, at, LE32(t), l.look, ThunkBytes(e.look));
    StandsFrame(m, at, LE32(t), l.text, e.text);
    StandsFrame(m, at, LE32(t), l.table, e.table);
    ZeroFrame(m, at, LE32(t), l.text + |e.text|, l.text + room.nChars);
  }

  /** A string written into the zeroed name table is followed by its padding. */
  lemma {:induction false} EmitText(m: seq<byte>, l: Layout, room: Room, e: Emission, s: seq<byte>)
    requires Emitted(m, l, room, e) && |e.text| + |EvenPad(s)| <= room.nChars
    ensures l.text + |e.text| + |s| <= |m|
    ensures Emitted(Blit(m, l.text + |e.text|, s), l, room, e.(text := e.text + EvenPad(s)))
  {
    hide Blit, ThunkBytes, Stands, ZeroRange, EvenPad;
    var at := l.text + |e.text|;
    StandsFrame(m, at, s, 0, e.head);
    StandsFrame(m, at, s, l.data, e.data);
    StandsFrame(m, at, s, l.look, ThunkBytes(e.look));
    StandsFrame(m, at, s, l.bound, ThunkBytes(e.bound));
    StandsFrame(m, at, s, l.table, e.table);
    PaddedText(m, l.text, e.text, s, l.text + room.nChars);
  }

  lemma {:induction false} PaddedText(m: seq<byte>, base: nat, text: seq<byte>, s: seq<byte>, hi: nat)
    requires Stands(m, base, text) && ZeroRange(m, base + |text|, hi) && base + |text| + |EvenPad(s)| <= hi
    ensures var m', text' := Blit(m, base + |text|, s), text + EvenPad(s);
            Stands(m', base, text') && ZeroRange(m', base + |text'|, hi)
  {
  }

  lemma {:induction false} EmitTable(m: seq<byte>, l: Layout, room: Room, e: Emission, d: seq<byte>)
    requires Emitted(m, l, room, e) && |e.table| + |d| <= 20 * room.nTables
    ensures l.table + |e.table| + |d| <= |m|
    ensures Emitted(Blit(m, l.table + |e.table|, d), l, room, e.(table := e.table + d))
  {
    hide Blit, ThunkBytes, Stands, ZeroRange;
    var at := l.table + |e.table|;
    StandsFrame(m, at, d, 0, e.head);
    StandsFrame(m, at, d, l.data, e.data);
    StandsMore(m, l.table, e.table, d);
    StandsFrame(m, at, d, l.look, ThunkBytes(e.look));
    StandsFrame(m, at, d, l.bound, ThunkBytes(e.bound));
    StandsFrame(m, at, d, l.text, e.text);
    ZeroFrame(m, at, d, l.text + |e.text|, l.text + room.nChars);
  }
}
