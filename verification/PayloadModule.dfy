/**
 * The payload writer of creatwth.cpp, which builds a little module in another process, and the reader of
 * modules.cpp, which finds payloads in any loaded module.  Reading an unmapped address is the structured
 * exception that the reader turns into a failure.
 */
module PayloadModule {
  import opened Bytes
  import opened PayloadRecords
  import opened PayloadStore

  const NT_HEADERS_SIZE: nat := 248
  const OPTIONAL_HEADER_SIZE: nat := 224
  const SECTION_HEADER_SIZE: nat := 40
  const DETOUR_HEADER_SIZE: nat := 64
  const DOS_SIGNATURE: word := 0x5A4D
  const NT_SIGNATURE: dword := 0x4550
  const DETOUR_SIGNATURE: dword := 0x0072_7444
  const IMAGE_FILE_DLL: word := 0x2000
  /** ".detour" and its terminator, which fill a section name. */
  const DETOUR_NAME: seq<byte> := [46, 100, 101, 116, 111, 117, 114, 0]

  datatype LoadError = NoLoadError | BadExeFormat | InvalidExeSignature | ExeMarkedInvalid | InvalidHandle

  datatype Lookup = Lookup(pBinary: Option<nat>, error: LoadError)

  predicate Readable(m: seq<byte>, at: int, n: nat) { 0 <= at && at + n <= |m| }

  // -------------------------------------------------------------------- reader

  /** The checks on a section named ".detour". */
  function DetourHeaderOf(m: seq<byte>, base: nat, h: nat): Option<nat> {
    if !Readable(m, h + 12, 8) then None
    else if U32At(m, h + 12) == 0 || U32At(m, h + 16) == 0 then None
    else
      var p := base + U32At(m, h + 12);
      if !Readable(m, p, 16) || U32At(m, p) < DETOUR_HEADER_SIZE || U32At(m, p + 4) != DETOUR_SIGNATURE then None
      else Some(p)
  }

  /** The first section named ".detour" decides. */
  function ScanSections(m: seq<byte>, base: nat, first: int, count: nat, n: nat): Option<nat>
    requires n <= count
    decreases count - n
  {
    if n == count || !Readable(m, first + 40 * n, 8) then None
    else if m[first + 40 * n..first + 40 * n + 8] == DETOUR_NAME then DetourHeaderOf(m, base, first + 40 * n)
    else ScanSections(m, base, first, count, n + 1)
  }

  /** Where the NT headers are, e_lfanew being signed. */
  function NtHeaders(m: seq<byte>, base: nat): int
    requires Readable(m, base + 60, 4)
  {
    base + Wrap32(U32At(m, base + 60))
  }

  function SectionOf(m: seq<byte>, base: nat): Lookup {
    if !Readable(m, base, 2) then Lookup(None, ExeMarkedInvalid)
    else if U16At(m, base) != DOS_SIGNATURE then Lookup(None, BadExeFormat)
    else if !Readable(m, base + 60, 4) || !Readable(m, NtHeaders(m, base), 4) then Lookup(None, ExeMarkedInvalid)
    else
      var nt := NtHeaders(m, base);
      if U32At(m, nt) != NT_SIGNATURE then Lookup(None, InvalidExeSignature)
      else if !Readable(m, nt, 24) || U16At(m, nt + 20) == 0 then Lookup(None, ExeMarkedInvalid)
      else
        var pBinary := ScanSections(m, base, nt + 24 + U16At(m, nt + 20), U16At(m, nt + 6), 0);
        Lookup(pBinary, if pBinary.Some? then NoLoadError else ExeMarkedInvalid)
  }

  /** The header with a missing data offset filled in. */
  function DefaultOffset(m: seq<byte>, pBinary: Option<nat>): (r: seq<byte>)
    ensures |r| == |m|
  {
    if pBinary.None? || !Readable(m, pBinary.value, 16) || U32At(m, pBinary.value + 8) != 0 then m
    else Blit(m, pBinary.value + 8, LE32(U32At(m, pBinary.value)))
  }

  /** The range the reader walks through. */
  function DataBegin(m: seq<byte>, p: nat): nat
    requires Readable(m, p, 16)
  {
    p + U32At(m, p + 8)
  }

  function DataEnd(m: seq<byte>, p: nat): nat
    requires Readable(m, p, 16)
  {
    p + U32At(m, p + 12)
  }

  /** The payload data is a list of records, as every writer leaves it. */
  predicate PayloadsTile(m: seq<byte>, p: nat) {
    Readable(m, p, 16)
    && (DataBegin(m, p) < DataEnd(m, p) ==> DataEnd(m, p) <= |m| && Decode(m[DataBegin(m, p)..DataEnd(m, p)]).Some?)
  }

  function Payloads(m: seq<byte>, p: nat): seq<Record>
    requires PayloadsTile(m, p)
  {
    if DataBegin(m, p) < DataEnd(m, p) then Decode(m[DataBegin(m, p)..DataEnd(m, p)]).value else []
  }

  lemma {:induction false} SectionIsReadable(m: seq<byte>, base: nat)
    ensures var r := SectionOf(m, base);
            r.pBinary.Some? ==> Readable(m, r.pBinary.value, 16) && U32At(m, r.pBinary.value) >= DETOUR_HEADER_SIZE
                                && U32At(m, r.pBinary.value + 4) == DETOUR_SIGNATURE
  {
    hide DetourHeaderOf, U32At, U16At, NtHeaders;
    if Readable(m, base + 60, 4) && Readable(m, NtHeaders(m, base), 24) {
      var nt := NtHeaders(m, base);
      ScanIsReadable(m, base, nt + 24 + U16At(m, nt + 20), U16At(m, nt + 6), 0);
    }
  }

  lemma {:induction false} ScanIsReadable(m: seq<byte>, base: nat, first: int, count: nat, n: nat)
    requires n <= count
    ensures var r := ScanSections(m, base, first, count, n);
            r.Some? ==> Readable(m, r.value, 16) && U32At(m, r.value) >= DETOUR_HEADER_SIZE
                        && U32At(m, r.value + 4) == DETOUR_SIGNATURE
    decreases count - n
  {
    hide U32At;
    if n < count {
      ScanIsReadable(m, base, first, count, n + 1);
    }
  }

  method ReadU16(mem: array<byte>, at: nat) returns (w: word)
    requires at + 2 <= mem.Length
    ensures w == U16At(mem[..], at)
  {
    var b0: int, b1: int := mem[at], mem[at + 1];
    w := b0 + 0x100 * b1;
  }

  /** GetPayloadSectionFromModule: find the .detour section and fill in its default data offset. */
  method GetPayloadSectionFromModule(mem: array<byte>, hModule: nat) returns (pBinary: Option<nat>, error: LoadError)
    modifies mem
    ensures Lookup(pBinary, error) == SectionOf(old(mem[..]), hModule)
    ensures mem[..] == DefaultOffset(old(mem[..]), pBinary)
  {
    hide DetourHeaderOf, U32At, U16At, Wrap32;
    if hModule + 2 > mem.Length {
      return None, ExeMarkedInvalid;
    }
    var e_magic := ReadU16(mem, hModule);
    if e_magic != DOS_SIGNATURE {
      return None, BadExeFormat;
    }
    if hModule + 64 > mem.Length {
      return None, ExeMarkedInvalid;
    }
    var e_lfanew := ReadU32(mem, hModule + 60);
    var pNtHeader := hModule + Wrap32(e_lfanew);
    if pNtHeader < 0 || pNtHeader + 4 > mem.Length {
      return None, ExeMarkedInvalid;
    }
    var signature := ReadU32(mem, pNtHeader);
    if signature != NT_SIGNATURE {
      return None, InvalidExeSignature;
    }
    if pNtHeader + 24 > mem.Length {
      return None, ExeMarkedInvalid;
    }
    var cbOptional := ReadU16(mem, pNtHeader + 20);
    if cbOptional == 0 {
      return None, ExeMarkedInvalid;
    }
    var nSections := ReadU16(mem, pNtHeader + 6);
    pBinary := FindDetourSection(mem, hModule, pNtHeader + 24 + cbOptional, nSections);
    SectionIsReadable(mem[..], hModule);
    if pBinary.None? {
      return None, ExeMarkedInvalid;
    }
    FillDataOffset(mem, pBinary.value);
    return pBinary, NoLoadError;
  }

  /** The loop over the section headers. */
  method FindDetourSection(mem: array<byte>, base: nat, first: int, count: nat) returns (pBinary: Option<nat>)
    ensures pBinary == ScanSections(mem[..], base, first, count, 0)
  {
    hide U32At;
    var n := 0;
    while n < count
      invariant n <= count && ScanSections(mem[..], base, first, count, n)
                == ScanSections(mem[..], base, first, count, 0)
    {
      var h := first + 40 * n;
      if h < 0 || h + 8 > mem.Length {
        return None;
      }
      if mem[h..h + 8] == DETOUR_NAME {
        if h + 20 > mem.Length {
          return None;
        }
        var va := ReadU32(mem, h + 12);
        var raw := ReadU32(mem, h + 16);
        if va == 0 || raw == 0 {
          return None;
        }
        var pbData := base + va;
        if pbData + 16 > mem.Length {
          return None;
        }
        var cbHeaderSize := ReadU32(mem, pbData);
        var nSignature := ReadU32(mem, pbData + 4);
        if cbHeaderSize < DETOUR_HEADER_SIZE || nSignature != DETOUR_SIGNATURE {
          return None;
        }
        return Some(pbData);
      }
      n := n + 1;
    }
    return None;
  }

  method FillDataOffset(mem: array<byte>, pHeader: nat)
    requires pHeader + 16 <= mem.Length
    modifies mem
    ensures mem[..] == DefaultOffset(old(mem[..]), Some(pHeader))
  {
    hide U32At, LE32, Blit;
    var nDataOffset := ReadU32(mem, pHeader + 8);
    if nDataOffset == 0 {
      var cbHeaderSize := ReadU32(mem, pHeader);
      CopyMemory(mem, pHeader + 8, LE32(cbHeaderSize));
    }
  }

  // ---------------------------------------------------------------- the walk

  /** How much of a GUID is read when `n` bytes of it can be: Data1, Data2 and Data3 are read as a whole. */
  function WholeFields(n: int): (r: nat)
    ensures r <= 16 && (0 <= n ==> r <= n) && (16 <= n ==> r == 16)
  {
    if n < 4 then 0 else if n < 6 then 4 else if n < 8 then 6 else if n < 16 then n else 16
  }

  datatype Comparison = Same | Differ | Unreadable

  /** The fields are compared in order, and none is read behind the first that differs. */
  function CompareGuid(m: seq<byte>, at: nat, g: Guid): (c: Comparison)
    ensures c == Same <==> at + RECORD_SIZE <= |m| && m[at + 8..at + RECORD_SIZE] == g
    ensures c == Differ ==> at + 8 < |m|
  {
    var r := WholeFields(|m| - (at + 8));
    if r == 0 then Unreadable
    else if m[at + 8..at + 8 + r] != g[..r] then Differ
    else if r < 16 then Unreadable
    else Same
  }

  /** What becomes of the walk: a record of size zero holds it up for ever. */
  datatype Walk = Found(pb: nat, cbData: dword) | Ended | Faults | Endless

  function WalkFrom(m: seq<byte>, at: nat, end: nat, g: Guid, wantSize: bool): Walk
    decreases end - at
  {
    if at >= end then Ended
    else
      var c := CompareGuid(m, at, g);
      if c == Unreadable then Faults
      else
        var cbBytes := U32At(m, at);
        if c == Same && wantSize then Found(at + RECORD_SIZE, WrapAddr(cbBytes - RECORD_SIZE))
        else if cbBytes == 0 then Endless
        else WalkFrom(m, at + cbBytes, end, g, wantSize)
  }

  function WalkModule(m: seq<byte>, p: nat, g: Guid, wantSize: bool): Walk
    requires Readable(m, p, 16)
  {
    WalkFrom(m, DataBegin(m, p), DataEnd(m, p), g, wantSize)
  }

  /** The walk comes to an end in the module at `base`, if there is one. */
  predicate WalkEnds(m: seq<byte>, base: nat, g: Guid, wantSize: bool) {
    var pBinary := SectionOf(m, base).pBinary;
    pBinary.Some? ==>
      && Readable(m, pBinary.value, 16)
      && WalkModule(DefaultOffset(m, pBinary), pBinary.value, g, wantSize) != Endless
  }

  /**
   * DetourFindPayload: what the walk through the section's data finds, wherever the caller passes a place for the
   * size; without one (`wantSize` false) even a payload that is there is never returned.
   */
  method DetourFindPayload(mem: array<byte>, hModule: nat, rguid: Guid, wantSize: bool)
    returns (pb: Option<nat>, cbData: nat, error: LoadError)
    requires WalkEnds(mem[..], hModule, rguid, wantSize)
    modifies mem
    ensures var r := SectionOf(old(mem[..]), hModule);
            && mem[..] == DefaultOffset(old(mem[..]), r.pBinary)
            && (r.pBinary.None? ==> pb.None? && cbData == 0 && error == r.error)
            && (r.pBinary.Some? ==>
                  Readable(mem[..], r.pBinary.value, 16)
                  && Reports(WalkModule(mem[..], r.pBinary.value, rguid, wantSize), pb, cbData, error))
  {
    hide SectionOf, DefaultOffset, Reports, WalkModule;
    ghost var m := mem[..];
    pb, cbData := None, 0;
    var pBinary;
    pBinary, error := GetPayloadSectionFromModule(mem, hModule);
    if pBinary.None? {
      return;
    }
    assert WalkModule(DefaultOffset(m, pBinary), pBinary.value, rguid, wantSize) != Endless;
    pb, cbData, error := WalkPayloads(mem, pBinary.value, rguid, wantSize);
  }

  /** What the caller is told; a fault is reported as a missing payload is. */
  ghost predicate Reports(w: Walk, pb: Option<nat>, cbData: nat, error: LoadError) {
    if w.Found? then pb == Some(w.pb) && cbData == w.cbData && error == NoLoadError
    else pb == None && cbData == 0 && error == InvalidHandle
  }

  /** The loop over the records behind a detour header. */
  method WalkPayloads(mem: array<byte>, pHeader: nat, rguid: Guid, wantSize: bool)
    returns (pb: Option<nat>, cbData: nat, error: LoadError)
    requires Readable(mem[..], pHeader, 16) && WalkModule(mem[..], pHeader, rguid, wantSize) != Endless
    ensures Reports(WalkModule(mem[..], pHeader, rguid, wantSize), pb, cbData, error)
  {
    hide U32At, CompareGuid;
    var nDataOffset := ReadU32(mem, pHeader + 8);
    var cbDataSize := ReadU32(mem, pHeader + 12);
    var pbData, pbEnd := pHeader + nDataOffset, pHeader + cbDataSize;
    while pbData < pbEnd
      invariant WalkModule(mem[..], pHeader, rguid, wantSize) == WalkFrom(mem[..], pbData, pbEnd, rguid, wantSize)
      decreases pbEnd - pbData
    {
      var c := ReadGuid(mem, pbData, rguid);
      if c == Unreadable {
        return None, 0, InvalidHandle;
      }
      var cbBytes := ReadU32(mem, pbData);
      if c == Same && wantSize {
        return Some(pbData + RECORD_SIZE), WrapAddr(cbBytes - RECORD_SIZE), NoLoadError;
      }
      pbData := pbData + cbBytes;
    }
    return None, 0, InvalidHandle;
  }

  /** The comparison of a record's GUID in memory. */
  method ReadGuid(mem: array<byte>, at: nat, rguid: Guid) returns (c: Comparison)
    ensures c == CompareGuid(mem[..], at, rguid)
    ensures c != Unreadable ==> at + 8 < mem.Length
  {
    var r := WholeFields(mem.Length - (at + 8));
    if r == 0 {
      return Unreadable;
    }
    if mem[at + 8..at + 8 + r] != rguid[..r] {
      return Differ;
    }
    return if r < 16 then Unreadable else Same;
  }

  /** Payloads that tile the section are found by their list: the walk ends, at the first record of the GUID. */
  lemma {:induction false} TiledWalk(m: seq<byte>, beg: nat, end: nat, g: Guid, wantSize: bool)
    requires beg <= end <= |m| && Decode(m[beg..end]).Some?
    ensures var rs := Decode(m[beg..end]).value;
            var i := Index(rs, g);
            if wantSize && i < |rs| then
              && var pb := beg + Offset(rs, i) + RECORD_SIZE;
              && pb + |rs[i].data| <= |m| && m[pb..pb + |rs[i].data|] == rs[i].data
              && |rs[i].data| < ADDRESS_SPACE && WalkFrom(m, beg, end, g, wantSize) == Found(pb, |rs[i].data|)
            else WalkFrom(m, beg, end, g, wantSize) == Ended
    decreases end - beg
  {
    hide U32At, Decode, WalkFrom, Index, Offset, Encode;
    if beg < end {
      DecodeStep(m, beg, end);
      WalkStep(m, beg, end, g, wantSize);
      TiledWalk(m, beg + U32At(m, beg), end, g, wantSize);
      var rs := Decode(m[beg..end]).value;
      assert rs[1..] == Decode(m[beg + U32At(m, beg)..end]).value;
      IndexStep(rs, g);
    } else {
      NothingLeft(m, beg, end, g, wantSize);
    }
  }

  /** The reader finds exactly what the list of payloads has for the GUID. */
  lemma {:induction false} PayloadsFound(m: seq<byte>, p: nat, g: Guid)
    requires PayloadsTile(m, p)
    ensures var data, w := FindFirst(Payloads(m, p), g), WalkModule(m, p, g, true);
            if data.None? then w == Ended
            else
              && w.Found? && w.cbData == |data.value| && w.pb + w.cbData <= |m|
              && m[w.pb..w.pb + w.cbData] == data.value
    ensures WalkModule(m, p, g, false) == Ended
  {
    hide U32At, Decode, Offset;
    if DataBegin(m, p) < DataEnd(m, p) {
      TiledWalk(m, DataBegin(m, p), DataEnd(m, p), g, true);
      TiledWalk(m, DataBegin(m, p), DataEnd(m, p), g, false);
    }
  }

  lemma {:induction false} NothingLeft(m: seq<byte>, beg: nat, end: nat, g: Guid, wantSize: bool)
    requires beg == end <= |m|
    ensures Decode(m[beg..end]) == Some([]) && WalkFrom(m, beg, end, g, wantSize) == Ended
  {
  }

  lemma {:induction false} DecodeStep(m: seq<byte>, beg: nat, end: nat)
    requires beg < end <= |m| && Decode(m[beg..end]).Some?
    ensures beg + RECORD_SIZE <= end && var n := U32At(m, beg);
            && RECORD_SIZE <= n && beg + n <= end && Decode(m[beg + n..end]).Some?
            && Decode(m[beg..end]).value
               == [Record(m[beg + 8..beg + RECORD_SIZE], m[beg + RECORD_SIZE..beg + n])] + Decode(m[beg + n..end]).value
  {
    hide U32At;
    U32Shift(m, beg, end, 0);
    FirstRecord(m, beg, end, U32At(m, beg));
  }

  lemma {:induction false} WalkStep(m: seq<byte>, beg: nat, end: nat, g: Guid, wantSize: bool)
    requires beg + RECORD_SIZE <= end <= |m| && U32At(m, beg) >= RECORD_SIZE
    ensures var n := U32At(m, beg);
            WalkFrom(m, beg, end, g, wantSize)
            == if m[beg + 8..beg + RECORD_SIZE] == g && wantSize then Found(beg + RECORD_SIZE, n - RECORD_SIZE)
               else WalkFrom(m, beg + n, end, g, wantSize)
  {
    hide U32At;
  }

  lemma {:induction false} FirstRecord(m: seq<byte>, beg: nat, end: nat, n: nat)
    requires beg + RECORD_SIZE <= beg + n <= end <= |m|
    ensures m[beg..end][n..] == m[beg + n..end]
    ensures m[beg..end][8..RECORD_SIZE] == m[beg + 8..beg + RECORD_SIZE]
    ensures m[beg..end][RECORD_SIZE..n] == m[beg + RECORD_SIZE..beg + n]
  {
    SliceOfSlice(m, beg, end, n, end - beg);
    SliceOfSlice(m, beg, end, 8, RECORD_SIZE);
    SliceOfSlice(m, beg, end, RECORD_SIZE, n);
  }

  lemma {:induction false} IndexStep(rs: seq<Record>, g: Guid)
    requires rs != []
    ensures rs[0].guid == g ==> Index(rs, g) == 0 && Offset(rs, Index(rs, g)) == 0
    ensures rs[0].guid != g ==>
              Index(rs, g) == 1 + Index(rs[1..], g)
              && Offset(rs, Index(rs, g)) == RECORD_SIZE + |rs[0].data| + Offset(rs[1..], Index(rs[1..], g))
  {
    hide Encode;
    var i := Index(rs[1..], g);
    assert rs[..i + 1][1..] == rs[1..][..i];
  }

  lemma {:induction false} U32Shift(m: seq<byte>, beg: nat, end: nat, at: nat)
    requires beg <= end <= |m| && at + 4 <= end - beg
    ensures U32At(m[beg..end], at) == U32At(m, beg + at)
  {
    assert forall k :: 0 <= k < end - beg ==> m[beg..end][k] == m[beg + k];
  }

  lemma {:induction false} U16Shift(m: seq<byte>, beg: nat, end: nat, at: nat)
    requires beg <= end <= |m| && at + 2 <= end - beg
    ensures U16At(m[beg..end], at) == U16At(m, beg + at)
  {
    assert forall k :: 0 <= k < end - beg ==> m[beg..end][k] == m[beg + k];
  }

  // -------------------------------------------------------------------- writer

  function Zeros(n: nat): (z: seq<byte>)
    ensures |z| == n
  {
    seq(n, _ => 0)
  }

  function DosHeader(): (h: seq<byte>)
    ensures |h| == DOS_HEADER_SIZE
  {
    Blit(Blit(Zeros(64), 0, LE16(DOS_SIGNATURE)), 60, LE32(64))
  }

  function NtHeader(): (h: seq<byte>)
    ensures |h| == NT_HEADERS_SIZE
  {
    Blit(Blit(Blit(Blit(Zeros(248), 0, LE32(NT_SIGNATURE)), 6, LE16(1)), 20, LE16(OPTIONAL_HEADER_SIZE)), 22,
         LE16(IMAGE_FILE_DLL))
  }

  function SectionHeader(va: dword, cbRaw: dword): (h: seq<byte>)
    ensures |h| == SECTION_HEADER_SIZE
  {
    Blit(Blit(Blit(Zeros(40), 0, DETOUR_NAME), 12, LE32(va)), 16, LE32(cbRaw))
  }

  function DetourHeader(cbData: dword): (h: seq<byte>)
    ensures |h| == DETOUR_HEADER_SIZE
  {
    Blit(Zeros(64), 0, LE32(64) + LE32(DETOUR_SIGNATURE) + LE32(64) + LE32(cbData))
  }

  /** The module that carries one payload. */
  function FakeModule(g: Guid, data: seq<byte>): (bs: seq<byte>)
    requires 440 + |data| < ADDRESS_SPACE
    ensures |bs| == 440 + |data|
  {
    var cb := 88 + |data|;
    DosHeader() + NtHeader() + SectionHeader(352, cb) + DetourHeader(cb) + Encode(Record(g, data))
  }

  /** DetourCopyPayloadToProcess; `pbBase` is the block allocated in the other process, if there is one. */
  method DetourCopyPayloadToProcess(mem: array<byte>, pbBase: Option<nat>, rguid: Guid, pData: seq<byte>)
    returns (ok: bool)
    requires 440 + |pData| < ADDRESS_SPACE && (pbBase.Some? ==> pbBase.value + 440 + |pData| <= mem.Length)
    modifies mem
    ensures ok <==> pbBase.Some?
    ensures mem[..] == if ok then Blit(old(mem[..]), pbBase.value, FakeModule(rguid, pData)) else old(mem[..])
  {
    hide Blit, DosHeader, NtHeader, SectionHeader, DetourHeader, LE32;
    if pbBase.None? {
      return false;
    }
    ghost var was, base := mem[..], pbBase.value;
    var pbTarget := pbBase.value;
    var idh := DosHeader();
    CopyMemory(mem, pbTarget, idh);
    pbTarget := pbTarget + DOS_HEADER_SIZE;
    var inh := NtHeader();
    CopyMemory(mem, pbTarget, inh);
    BlitTwice(was, base, idh, inh, idh + inh);
    pbTarget := pbTarget + NT_HEADERS_SIZE;
    var cbRaw := DETOUR_HEADER_SIZE + RECORD_SIZE + |pData|;
    var ish := SectionHeader(pbTarget + SECTION_HEADER_SIZE - pbBase.value, cbRaw);
    CopyMemory(mem, pbTarget, ish);
    BlitTwice(was, base, idh + inh, ish, idh + inh + ish);
    pbTarget := pbTarget + SECTION_HEADER_SIZE;
    var dsh := DetourHeader(cbRaw);
    CopyMemory(mem, pbTarget, dsh);
    BlitTwice(was, base, idh + inh + ish, dsh, idh + inh + ish + dsh);
    pbTarget := pbTarget + DETOUR_HEADER_SIZE;
    var dsr := LE32(|pData| + RECORD_SIZE) + LE32(0) + rguid;
    CopyMemory(mem, pbTarget, dsr);
    BlitTwice(was, base, idh + inh + ish + dsh, dsr, idh + inh + ish + dsh + dsr);
    pbTarget := pbTarget + RECORD_SIZE;
    CopyMemory(mem, pbTarget, pData);
    BlitTwice(was, base, idh + inh + ish + dsh + dsr, pData, idh + inh + ish + dsh + dsr + pData);
    assert idh + inh + ish + dsh + dsr + pData == FakeModule(rguid, pData);
    return true;
  }

  // ---------------------------------------------------------------- round trip

  lemma {:induction false} DosFields()
    ensures U16At(DosHeader(), 0) == DOS_SIGNATURE && U32At(DosHeader(), 60) == 64
  {
  }

  lemma {:induction false} NtFields()
    ensures U32At(NtHeader(), 0) == NT_SIGNATURE && U16At(NtHeader(), 6) == 1
            && U16At(NtHeader(), 20) == OPTIONAL_HEADER_SIZE
  {
  }

  lemma {:induction false} SectionFields(va: dword, cbRaw: dword)
    ensures var h := SectionHeader(va, cbRaw);
            h[0..8] == DETOUR_NAME && U32At(h, 12) == va && U32At(h, 16) == cbRaw
  {
    var h := SectionHeader(va, cbRaw);
    hide Blit, LE32;
    U32Cut(h, 12, LE32(va));
    U32Cut(h, 16, LE32(cbRaw));
  }

  lemma {:induction false} DetourFields(cbData: dword)
    ensures var h := DetourHeader(cbData);
            U32At(h, 0) == 64 && U32At(h, 4) == DETOUR_SIGNATURE && U32At(h, 8) == 64 && U32At(h, 12) == cbData
  {
    var h := DetourHeader(cbData);
    hide Blit, LE32;
    U32Cut(h, 0, LE32(64));
    U32Cut(h, 4, LE32(DETOUR_SIGNATURE));
    U32Cut(h, 8, LE32(64));
    U32Cut(h, 12, LE32(cbData));
  }

  /** The parts of the module as they stand in memory. */
  lemma {:induction false} ModuleParts(m: seq<byte>, base: nat, g: Guid, data: seq<byte>)
    requires base + 440 + |data| <= |m| && 440 + |data| < ADDRESS_SPACE
    requires m[base..base + 440 + |data|] == FakeModule(g, data)
    ensures m[base..base + 64] == DosHeader() && m[base + 64..base + 312] == NtHeader()
    ensures m[base + 312..base + 352] == SectionHeader(352, 88 + |data|)
    ensures m[base + 352..base + 416] == DetourHeader(88 + |data|)
    ensures m[base + 416..base + 440 + |data|] == Encode(Record(g, data))
  {
    hide DosHeader, NtHeader, SectionHeader, DetourHeader, Encode;
    var f, end := FakeModule(g, data), base + 440 + |data|;
    SliceOfSlice(m, base, end, 0, 64);
    SliceOfSlice(m, base, end, 64, 312);
    SliceOfSlice(m, base, end, 312, 352);
    SliceOfSlice(m, base, end, 352, 416);
    SliceOfSlice(m, base, end, 416, 440 + |data|);
    assert f[0..64] == DosHeader() && f[64..312] == NtHeader() && f[312..352] == SectionHeader(352, 88 + |data|);
  }

  /** Wherever the payload module stands in memory, the reader finds its one record. */
  lemma {:induction false} ModuleRoundTrip(m: seq<byte>, base: nat, g: Guid, data: seq<byte>)
    requires base + 440 + |data| <= |m| && 440 + |data| < ADDRESS_SPACE
    requires m[base..base + 440 + |data|] == FakeModule(g, data)
    ensures SectionOf(m, base) == Lookup(Some(base + 352), NoLoadError)
    ensures DefaultOffset(m, Some(base + 352)) == m
    ensures PayloadsTile(m, base + 352) && Payloads(m, base + 352) == [Record(g, data)]
  {
    hide DosHeader, NtHeader, SectionHeader, DetourHeader, Encode, U32At, U16At, Wrap32, DetourHeaderOf, Decode;
    ModuleParts(m, base, g, data);
    DosFields();
    NtFields();
    SectionFields(352, 88 + |data|);
    DetourFields(88 + |data|);
    U16Shift(m, base, base + 64, 0);
    U32Shift(m, base, base + 64, 60);
    U32Shift(m, base + 64, base + 312, 0);
    U16Shift(m, base + 64, base + 312, 6);
    U16Shift(m, base + 64, base + 312, 20);
    HeaderFound(m, base, 88 + |data|);
    SliceOfSlice(m, base + 312, base + 352, 0, 8);
    SmallIsItself(64);
    U32Shift(m, base + 352, base + 416, 8);
    U32Shift(m, base + 352, base + 416, 12);
    OneRecord(g, data);
  }

  lemma {:induction false} SmallIsItself(x: nat)
    requires x < 0x8000_0000
    ensures Wrap32(x) == x
  {
  }

  lemma {:induction false} HeaderFound(m: seq<byte>, base: nat, cb: dword)
    requires base + 416 <= |m| && cb > 0
    requires m[base + 312..base + 352] == SectionHeader(352, cb) && m[base + 352..base + 416] == DetourHeader(cb)
    ensures DetourHeaderOf(m, base, base + 312) == Some(base + 352)
  {
    hide SectionHeader, DetourHeader, U32At;
    SectionFields(352, cb);
    DetourFields(cb);
    U32Shift(m, base + 312, base + 352, 12);
    U32Shift(m, base + 312, base + 352, 16);
    U32Shift(m, base + 352, base + 416, 0);
    U32Shift(m, base + 352, base + 416, 4);
  }

  lemma {:induction false} OneRecord(g: Guid, data: seq<byte>)
    requires RECORD_SIZE + |data| < ADDRESS_SPACE
    ensures Decode(Encode(Record(g, data))) == Some([Record(g, data)])
  {
    hide Encode, Decode;
    var rs := [Record(g, data)];
    assert EncodeAll(rs) == Encode(rs[0]) + EncodeAll(rs[1..]) && EncodeAll(rs[1..]) == [];
    assert Encode(rs[0]) + [] == Encode(rs[0]);
    DecodeEncoded(rs);
  }

  /** For every GUID and byte string, the reader returns exactly what the writer was given. */
  method CopyAndFind(mem: array<byte>, base: nat, rguid: Guid, pData: seq<byte>) returns (pb: Option<nat>, cbData: nat)
    requires 440 + |pData| < ADDRESS_SPACE && base + 440 + |pData| <= mem.Length
    modifies mem
    ensures pb == Some(base + 440) && cbData == |pData| && mem[base + 440..base + 440 + cbData] == pData
  {
    hide FakeModule, SectionOf, DefaultOffset, WalkEnds, WalkModule, Blit;
    ghost var was := mem[..];
    var ok := DetourCopyPayloadToProcess(mem, Some(base), rguid, pData);
    BlitReads(was, base, FakeModule(rguid, pData));
    assert mem[..][base..base + 440 + |pData|] == FakeModule(rguid, pData);
    OneFound(mem[..], base, rguid, pData);
    var error;
    pb, cbData, error := DetourFindPayload(mem, base, rguid, true);
  }

  /** The walk through the payload module stops at its record. */
  lemma {:induction false} OneFound(m: seq<byte>, base: nat, g: Guid, data: seq<byte>)
    requires base + 440 + |data| <= |m| && 440 + |data| < ADDRESS_SPACE
    requires m[base..base + 440 + |data|] == FakeModule(g, data)
    ensures SectionOf(m, base).pBinary == Some(base + 352) && DefaultOffset(m, Some(base + 352)) == m
    ensures WalkEnds(m, base, g, true) && WalkModule(m, base + 352, g, true) == Found(base + 440, |data|)
    ensures m[base + 440..base + 440 + |data|] == data
  {
    hide FakeModule, SectionOf, DefaultOffset, Encode, Decode, WalkFrom, U32At;
    ModuleRoundTrip(m, base, g, data);
    OneRange(m, base, g, data);
    TiledWalk(m, base + 416, base + 440 + |data|, g, true);
    OneRecord(g, data);
    OneIndex(g, data);
  }

  lemma {:induction false} OneIndex(g: Guid, data: seq<byte>)
    ensures Index([Record(g, data)], g) == 0 && Offset([Record(g, data)], 0) == 0
  {
  }

  lemma {:induction false} OneRange(m: seq<byte>, base: nat, g: Guid, data: seq<byte>)
    requires base + 440 + |data| <= |m| && 440 + |data| < ADDRESS_SPACE
    requires m[base..base + 440 + |data|] == FakeModule(g, data)
    ensures DataBegin(m, base + 352) == base + 416 && DataEnd(m, base + 352) == base + 440 + |data|
    ensures m[base + 416..base + 440 + |data|] == Encode(Record(g, data))
  {
    hide U32At, DosHeader, NtHeader, SectionHeader, DetourHeader, Encode;
    ModuleParts(m, base, g, data);
    DetourFields(88 + |data|);
    U32Shift(m, base + 352, base + 416, 8);
    U32Shift(m, base + 352, base + 416, 12);
  }
}
