/** The bytes of a payload module, and the bytes by which the reader knows one, in numerals. */
module PayloadFormat {
  import opened Bytes
  import opened PayloadRecords
  import opened PayloadModule

  /** "MZ", e_lfanew 64; "PE", one section, 224 bytes of optional header, a DLL. */
  predicate HeadersAre(m: seq<byte>) {
    && |m| >= 312 && m[0] == 0x4D && m[1] == 0x5A && U32At(m, 60) == 64
    && U32At(m, 64) == 0x4550 && U16At(m, 70) == 1 && U16At(m, 84) == 224 && U16At(m, 86) == 0x2000
  }

  /** The section ".detour" at 352, then its header: 64 bytes, "Dtr", the data behind it, and their size. */
  predicate SectionIs(m: seq<byte>, cb: int) {
    && |m| >= 416 && m[312..320] == [46, 100, 101, 116, 111, 117, 114, 0] && U32At(m, 324) == 352
    && U32At(m, 328) == cb && U32At(m, 352) == 64 && U32At(m, 356) == 0x0072_7444 && U32At(m, 360) == 64
    && U32At(m, 364) == cb
  }

  /** One record: its size, a reserved zero, the identifier, the data. */
  predicate RecordIs(m: seq<byte>, g: Guid, data: seq<byte>) {
    && |m| == 440 + |data| && U32At(m, 416) == 24 + |data| && U32At(m, 420) == 0 && m[424..440] == g && m[440..] == data
  }

  lemma {:induction false} DosBytes()
    ensures DosHeader()[0] == 0x4D && DosHeader()[1] == 0x5A
  {
  }

  lemma {:induction false} DllField()
    ensures U16At(NtHeader(), 22) == 0x2000
  {
  }

  /** What DetourCopyPayloadToProcess writes. */
  lemma {:induction false} ModuleBytes(g: Guid, data: seq<byte>)
    requires 440 + |data| < ADDRESS_SPACE
    ensures var m := FakeModule(g, data);
            HeadersAre(m) && SectionIs(m, 88 + |data|) && RecordIs(m, g, data)
  {
    hide DosHeader, NtHeader, SectionHeader, DetourHeader, Encode, U32At, U16At;
    var m, cb := FakeModule(g, data), 88 + |data|;
    assert m[0..|m|] == m;
    ModuleParts(m, 0, g, data);
    DosFields();
    DosBytes();
    NtFields();
    DllField();
    assert m[0] == m[0..64][0] && m[1] == m[0..64][1];
    U32Shift(m, 0, 64, 60);
    U32Shift(m, 64, 312, 0);
    U16Shift(m, 64, 312, 6);
    U16Shift(m, 64, 312, 20);
    U16Shift(m, 64, 312, 22);
    SectionFields(352, cb);
    SliceOfSlice(m, 312, 352, 0, 8);
    U32Shift(m, 312, 352, 12);
    U32Shift(m, 312, 352, 16);
    DetourFields(cb);
    U32Shift(m, 352, 416, 0);
    U32Shift(m, 352, 416, 4);
    U32Shift(m, 352, 416, 8);
    U32Shift(m, 352, 416, 12);
    RecordBytes(m, g, data);
  }

  lemma {:induction false} RecordBytes(m: seq<byte>, g: Guid, data: seq<byte>)
    requires |m| == 440 + |data| < ADDRESS_SPACE && m[416..440 + |data|] == Encode(Record(g, data))
    ensures RecordIs(m, g, data)
  {
    hide Encode, U32At, LE32;
    var r := Record(g, data);
    ReadsEncoded([], r, []);
    assert [] + Encode(r) + [] == m[416..440 + |data|];
    U32Shift(m, 416, 440 + |data|, 0);
    U32Shift(m, 416, 440 + |data|, 4);
    SliceOfSlice(m, 416, 440 + |data|, 8, 24);
    SliceOfSlice(m, 416, 440 + |data|, 24, 24 + |data|);
  }

  // -------------------------------------------------------------------- reader

  predicate NameReads(m: seq<byte>, at: int) { 0 <= at && at + 8 <= |m| }

  predicate Named(m: seq<byte>, at: int)
    requires NameReads(m, at)
  {
    m[at..at + 8] == [46, 100, 101, 116, 111, 117, 114, 0]
  }

  /** The section header at `h` leads to a detour header at `p`. */
  predicate LeadsTo(m: seq<byte>, base: nat, h: int, p: nat) {
    && 0 <= h && h + 20 <= |m| && U32At(m, h + 12) != 0 && U32At(m, h + 16) != 0 && p == base + U32At(m, h + 12)
    && p + 16 <= |m| && U32At(m, p) >= 64 && m[p + 4] == 0x44 && m[p + 5] == 0x74 && m[p + 6] == 0x72 && m[p + 7] == 0
  }

  /** Of `count` sections from `first` on, section `n` is the first one of the name and leads to `p`. */
  predicate FirstNamed(m: seq<byte>, base: nat, first: int, count: nat, n: nat, p: nat) {
    && n < count && (forall k :: 0 <= k <= n ==> NameReads(m, first + 40 * k) && (Named(m, first + 40 * k) <==> k == n))
    && LeadsTo(m, base, first + 40 * n, p)
  }

  ghost predicate SomeNamed(m: seq<byte>, base: nat, first: int, count: nat, p: nat) {
    exists n: nat :: FirstNamed(m, base, first, count, n, p)
  }

  /** Where the NT headers are: `base` and the signed word at offset 60. */
  function NtAt(m: seq<byte>, base: nat): int
    requires base + 64 <= |m|
  {
    var d := U32At(m, base + 60);
    base + if d < 0x8000_0000 then d else d - 0x1_0000_0000
  }

  predicate IsMz(m: seq<byte>, base: nat) { base + 2 <= |m| && m[base] == 0x4D && m[base + 1] == 0x5A }

  predicate IsPe(m: seq<byte>, nt: int) {
    0 <= nt && nt + 4 <= |m| && m[nt] == 0x50 && m[nt + 1] == 0x45 && m[nt + 2] == 0 && m[nt + 3] == 0
  }

  /** Everything that must stand in memory for the payload section of the module at `base` to be at `p`. */
  ghost predicate IsModule(m: seq<byte>, base: nat, p: nat) {
    && base + 64 <= |m| && IsMz(m, base)
    && var nt := NtAt(m, base);
    && 0 <= nt && nt + 24 <= |m| && IsPe(m, nt) && U16At(m, nt + 20) != 0
    && SomeNamed(m, base, nt + 24 + U16At(m, nt + 20), U16At(m, nt + 6), p)
  }

  lemma {:induction false} WordOfBytes(m: seq<byte>, at: nat)
    ensures at + 2 <= |m| ==> (U16At(m, at) == 0x5A4D <==> m[at] == 0x4D && m[at + 1] == 0x5A)
    ensures at + 4 <= |m| ==>
              && (U32At(m, at) == 0x4550 <==> m[at] == 0x50 && m[at + 1] == 0x45 && m[at + 2] == 0 && m[at + 3] == 0)
              && (U32At(m, at) == 0x0072_7444
                  <==> m[at] == 0x44 && m[at + 1] == 0x74 && m[at + 2] == 0x72 && m[at + 3] == 0)
  {
  }

  lemma {:induction false} HeaderLeads(m: seq<byte>, base: nat, h: nat, p: nat)
    ensures DetourHeaderOf(m, base, h) == Some(p) <==> LeadsTo(m, base, h, p)
  {
    hide U32At;
    WordOfBytes(m, p + 4);
  }

  lemma {:induction false} ScanFinds(m: seq<byte>, base: nat, first: int, count: nat, from: nat, p: nat)
    requires from <= count
    requires forall k :: 0 <= k < from ==> NameReads(m, first + 40 * k) && !Named(m, first + 40 * k)
    ensures ScanSections(m, base, first, count, from) == Some(p) <==> SomeNamed(m, base, first, count, p)
    decreases count - from
  {
    hide DetourHeaderOf, LeadsTo;
    var at := first + 40 * from;
    if from < count && NameReads(m, at) {
      if Named(m, at) {
        HeaderLeads(m, base, at, p);
        if LeadsTo(m, base, at, p) {
          assert FirstNamed(m, base, first, count, from, p);
        }
        forall n: nat | FirstNamed(m, base, first, count, n, p) ensures n == from {
        }
      } else {
        ScanFinds(m, base, first, count, from + 1, p);
      }
    } else {
      forall n: nat ensures !FirstNamed(m, base, first, count, n, p) {
        if from <= n < count {
          assert !NameReads(m, first + 40 * from);
        }
      }
    }
  }

  /** The reader finds a payload section at `p` if and only if these bytes are there. */
  lemma {:induction false} ReaderFinds(m: seq<byte>, base: nat, p: nat)
    ensures SectionOf(m, base).pBinary == Some(p) <==> IsModule(m, base, p)
  {
    hide ScanSections, U32At, U16At, FirstNamed;
    if base + 64 <= |m| {
      WordOfBytes(m, base);
      var nt := NtHeaders(m, base);
      assert nt == NtAt(m, base);
      if 0 <= nt && nt + 24 <= |m| {
        WordOfBytes(m, nt);
        ScanFinds(m, base, nt + 24 + U16At(m, nt + 20), U16At(m, nt + 6), 0, p);
      }
    }
  }

  /** And these are the errors it reports. */
  lemma {:induction false} ReaderErrors(m: seq<byte>, base: nat)
    ensures var r := SectionOf(m, base);
            && (r.pBinary.Some? <==> r.error == NoLoadError)
            && (r.error == BadExeFormat <==> base + 2 <= |m| && !IsMz(m, base))
            && (r.error == InvalidExeSignature <==>
                  base + 64 <= |m| && IsMz(m, base) && 0 <= NtAt(m, base) && NtAt(m, base) + 4 <= |m|
                  && !IsPe(m, NtAt(m, base)))
            && r.error in {NoLoadError, BadExeFormat, InvalidExeSignature, ExeMarkedInvalid}
  {
    hide ScanSections, U32At, U16At;
    WordOfBytes(m, base);
    if base + 64 <= |m| && NtAt(m, base) >= 0 {
      WordOfBytes(m, NtAt(m, base));
    }
  }

  /** A data offset of zero becomes the size of the header, and no other byte is touched. */
  lemma {:induction false} OffsetDefaults(m: seq<byte>, p: nat)
    requires p + 16 <= |m|
    ensures var r := DefaultOffset(m, Some(p));
            && U32At(r, p + 8) == (if U32At(m, p + 8) == 0 then U32At(m, p) else U32At(m, p + 8))
            && forall i :: 0 <= i < |m| && !(p + 8 <= i < p + 12) ==> r[i] == m[i]
  {
    hide Blit, LE32, U32At;
    BlitReads(m, p + 8, LE32(U32At(m, p)));
    U32Cut(Blit(m, p + 8, LE32(U32At(m, p))), p + 8, LE32(U32At(m, p)));
    assert |LE32(U32At(m, p))| == 4;
  }
}
