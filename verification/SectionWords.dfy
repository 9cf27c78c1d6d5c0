/** The import tables of a written .detour section word by word, as the loader will see them. */
module SectionWords {
  import opened Bytes
  import opened ImportLayout
  import opened ImageOutput
  import opened ImageWriter
  import opened ImportRoundTrip

  predicate WordIs(m: seq<byte>, at: int, d: int) { 0 <= at && at + 4 <= |m| && U32At(m, at) == d }

  /** `s` and a NUL behind it. */
  predicate TextIs(m: seq<byte>, at: int, s: seq<byte>) {
    0 <= at && at + |s| < |m| && m[at..at + |s|] == s && m[at + |s|] == 0
  }

  /** A thunk table that imports ordinal 1 and nothing else. */
  predicate OrdinalOne(m: seq<byte>, at: int) { WordIs(m, at, 0x8000_0001) && WordIs(m, at + 4, 0) }

  /** Fields of the descriptor at `d` of a file: TimeDateStamp, ForwarderChain, Name. */
  predicate NamesFile(m: seq<byte>, v: nat, f: ImportFile, d: nat) {
    && d + 20 <= |m| && WordIs(m, d + 4, 0) && WordIs(m, d + 8, f.nForwarderChain)
    && TextIs(m, U32At(m, d + 12) - v, f.pszName)
  }

  /** An added file: OriginalFirstThunk and FirstThunk of its descriptor lead to two tables with ordinal 1. */
  predicate BywayHolds(m: seq<byte>, v: nat, f: ImportFile, d: nat) {
    && NamesFile(m, v, f, d)
    && var look, first := U32At(m, d), U32At(m, d + 16);
    && OrdinalOne(m, look - v) && OrdinalOne(m, first - v) && (look + 8 <= first || first + 8 <= look)
  }

  /** The lookup entry at `at`: the address of hint and name, or the ordinal with the top bit set. */
  predicate SymbolHolds(m: seq<byte>, v: nat, n: ImportName, at: int) {
    && 0 <= at && at + 4 <= |m|
    && var t := U32At(m, at);
    && if n.pszName.None? then t == (0x8000_0000 + n.nOrdinal) % 0x1_0000_0000
       else
         && 0 <= t - v && t < 0x8000_0000 && t - v + 2 <= |m| && U16At(m, t - v) == n.nHint
         && TextIs(m, t - v + 2, n.pszName.value)
  }

  /** Any other file: its import addresses are where they were, its symbols stand in order in front of a zero. */
  predicate PlainHolds(m: seq<byte>, v: nat, f: ImportFile, d: nat, nThunks: nat) {
    && NamesFile(m, v, f, d) && WordIs(m, d + 16, f.rvaFirstThunk)
    && var look := U32At(m, d);
    && if nThunks == 1 then look == 0
       else
         && (forall j :: 0 <= j < |f.names| ==> SymbolHolds(m, v, f.names[j], look - v + 4 * j))
         && WordIs(m, look - v + 4 * |f.names|, 0)
  }

  predicate FileHolds(m: seq<byte>, v: nat, f: ImportFile, d: nat, nThunks: nat) {
    if f.fByway then BywayHolds(m, v, f, d) else PlainHolds(m, v, f, d, nThunks)
  }

  lemma {:induction false} TextStands(m: seq<byte>, at: nat, s: seq<byte>, rest: seq<byte>)
    requires Stands(m, at, (s + [0]) + rest)
    ensures TextIs(m, at, s)
  {
    StandsSplit(m, at, s + [0], rest);
    SliceOfSlice(m, at, at + |s| + 1, 0, |s|);
    assert (s + [0])[0..|s|] == s && m[at..at + |s| + 1][|s|] == (s + [0])[|s|];
  }

  lemma {:induction false} NameStands(m: seq<byte>, at: nat, s: seq<byte>, rest: seq<byte>)
    requires Stands(m, at, NameText(s) + rest)
    ensures TextIs(m, at, s)
  {
    StandsSplit(m, at, NameText(s), rest);
    assert NameText(s) == (s + [0]) + NameText(s)[|s| + 1..];
    TextStands(m, at, s, NameText(s)[|s| + 1..]);
  }

  lemma {:induction false} HintStands(m: seq<byte>, at: nat, hint: word, s: seq<byte>)
    requires Stands(m, at, HintText(hint, s))
    ensures at + 2 <= |m| && U16At(m, at) == hint && TextIs(m, at + 2, s)
  {
    var text := HintText(hint, s);
    var rest := text[|s| + 3..];
    assert text == LE16(hint) + ((s + [0]) + rest);
    StandsSplit(m, at, LE16(hint), (s + [0]) + rest);
    TextStands(m, at + 2, s, rest);
    assert m[at] == m[at..at + 2][0] && m[at + 1] == m[at..at + 2][1];
  }

  lemma {:induction false} SymbolStands(m: seq<byte>, v: nat, n: ImportName, a: nat, rva: nat)
    requires WordIs(m, a, SymThunk(n, rva)) && v <= rva && rva + |SymText(n)| < 0x8000_0000
    requires Stands(m, rva - v, SymText(n))
    ensures SymbolHolds(m, v, n, a)
  {
    hide HintText, TextIs, Stands, U32At, U16At;
    if n.pszName.Some? {
      HintStands(m, rva - v, n.nHint, n.pszName.value);
    }
  }

  lemma {:induction false} SymbolsStand(m: seq<byte>, v: nat, names: seq<ImportName>, a: nat, rva: nat)
    requires v <= rva && rva + |SymTexts(names)| < 0x8000_0000
    requires Stands(m, a, ThunkBytes(SymThunks(names, rva) + [0])) && Stands(m, rva - v, SymTexts(names))
    ensures forall j :: 0 <= j < |names| ==> SymbolHolds(m, v, names[j], a + 4 * j)
    ensures WordIs(m, a + 4 * |names|, 0)
    decreases |names|
  {
    hide SymText, SymThunk, U32At, Stands, LE32, SymbolHolds;
    if names == [] {
      ReadsEnd(m, a);
    } else {
      var t, rest := SymThunk(names[0], rva), SymThunks(names[1..], rva + |SymText(names[0])|) + [0];
      assert SymThunks(names, rva) + [0] == [t] + rest;
      FirstThunk(m, a, t, rest);
      StandsSplit(m, rva - v, SymText(names[0]), SymTexts(names[1..]));
      SymbolStands(m, v, names[0], a, rva);
      SymbolsStand(m, v, names[1..], a + 4, rva + |SymText(names[0])|);
      forall j | 0 <= j < |names| ensures SymbolHolds(m, v, names[j], a + 4 * j) {
        if j > 0 {
          assert names[j] == names[1..][j - 1];
          assert SymbolHolds(m, v, names[1..][j - 1], a + 4 + 4 * (j - 1));
        }
      }
    }
  }

  lemma {:induction false} DescriptorWords(m: seq<byte>, i: nat, f: ImportFile, nMax: nat, look: nat, bound: nat,
                                           text: nat)
    requires Stands(m, i, Descriptor(f, nMax, look, bound, text))
    requires look < 0x8000_0000 && bound < 0x8000_0000 && text < 0x8000_0000
    ensures i + 20 <= |m| && WordIs(m, i, if f.fByway || nMax > 1 then look else 0) && WordIs(m, i + 4, 0)
    ensures WordIs(m, i + 8, f.nForwarderChain) && WordIs(m, i + 12, text)
    ensures WordIs(m, i + 16, if f.fByway then bound else f.rvaFirstThunk)
  {
    hide LE32, Stands, U32At;
    var first: dword, orig: dword := if f.fByway then bound else f.rvaFirstThunk,
                                     if f.fByway || nMax > 1 then look else 0;
    var d0, d4, d8, d12, d16 := LE32(orig), LE32(0), LE32(f.nForwarderChain), LE32(text), LE32(first);
    SplitFive(m, i, d0, d4, d8, d12, d16);
    StandsSplit(m, i, d0 + d4 + d8 + d12, d16);
    StandsSplit(m, i, d0 + d4 + d8, d12);
    StandsSplit(m, i, d0 + d4, d8);
    StandsSplit(m, i, d0, d4);
    ReadsWord(m, i, orig);
    ReadsWord(m, i + 4, 0);
    ReadsWord(m, i + 8, f.nForwarderChain);
    ReadsWord(m, i + 12, text);
    ReadsWord(m, i + 16, first);
    StandsLength(m, i, Descriptor(f, nMax, look, bound, text));
  }

  lemma {:induction false} OrdinalStands(m: seq<byte>, a: nat)
    requires Stands(m, a, ThunkBytes(BYWAY_THUNKS))
    ensures OrdinalOne(m, a)
  {
    hide LE32, U32At;
    assert BYWAY_THUNKS == [0x8000_0001] + ([] + [0]);
    FirstThunk(m, a, 0x8000_0001, [] + [0]);
    ReadsEnd(m, a + 4);
  }

  /** The tables of one file, its bound table too. */
  ghost predicate Tables(m: seq<byte>, s: Place, f: ImportFile, i: nat, nMax: nat, look: nat, bound: nat, text: nat) {
    && s.p == 0 && s.v + s.cb < 0x8000_0000 && FileStands(m, s, f, i, nMax, look, bound, text)
    && Stands(m, bound - s.v, ThunkBytes(FileBound(f)))
    && (look + 4 * FileThunks(f) <= bound || bound + 4 * |FileBound(f)| <= look)
  }

  lemma {:induction false} BywayStands(m: seq<byte>, s: Place, f: ImportFile, i: nat, nMax: nat, look: nat, bound: nat,
                                       text: nat)
    requires Tables(m, s, f, i, nMax, look, bound, text) && f.fByway
    ensures BywayHolds(m, s.v, f, i)
  {
    hide Stands, Descriptor, U32At, NameText, ThunkBytes, TextIs;
    DescriptorWords(m, i, f, nMax, look, bound, text);
    OrdinalStands(m, look - s.v);
    OrdinalStands(m, bound - s.v);
    assert FileText(f) == NameText(f.pszName) + [];
    NameStands(m, text - s.v, f.pszName, []);
  }

  lemma {:induction false} PlainStands(m: seq<byte>, s: Place, f: ImportFile, i: nat, nMax: nat, look: nat, bound: nat,
                                       text: nat)
    requires Tables(m, s, f, i, nMax, look, bound, text) && !f.fByway && nMax > 0
    ensures PlainHolds(m, s.v, f, i, nMax)
  {
    hide Stands, Descriptor, U32At, NameText, ThunkBytes, TextIs, SymTexts, SymThunks, SymbolHolds;
    DescriptorWords(m, i, f, nMax, look, bound, text);
    NameStands(m, text - s.v, f.pszName, SymTexts(f.names));
    StandsSplit(m, text - s.v, NameText(f.pszName), SymTexts(f.names));
    SymbolsStand(m, s.v, f.names, look - s.v, text + |NameText(f.pszName)|);
  }

  /** The tables of a list of files, in the buffer itself. */
  ghost predicate AllTables(m: seq<byte>, s: Place, fs: seq<ImportFile>, i: nat, nMax: nat, look: nat, bound: nat,
                            text: nat) {
    && s.p == 0 && s.v + s.cb < 0x8000_0000 && FilesStand(m, s, fs, i, nMax, look, bound, text)
    && Stands(m, bound - s.v, ThunkBytes(Bounds(fs))) && look + 4 * Thunks(fs) <= bound
  }

  lemma {:induction false} FirstTables(m: seq<byte>, s: Place, fs: seq<ImportFile>, i: nat, nMax: nat, look: nat,
                                       bound: nat, text: nat)
    requires AllTables(m, s, fs, i, nMax, look, bound, text) && fs != []
    ensures Tables(m, s, fs[0], i, nMax, look, bound, text)
    ensures AllTables(m, s, fs[1..], i + 20, nMax, look + 4 * FileThunks(fs[0]), bound + 4 * |FileBound(fs[0])|,
                      text + |FileText(fs[0])|)
  {
    hide Stands, FileText, FileBound, FileThunks, FileLookup, Descriptor, ThunkBytes, Texts, FileStands;
    FirstFileStands(m, s, fs, i, nMax, look, bound, text);
    FirstSizes(fs);
    ThunkBytesAppend(FileBound(fs[0]), Bounds(fs[1..]));
    StandsSplit(m, bound - s.v, ThunkBytes(FileBound(fs[0])), ThunkBytes(Bounds(fs[1..])));
  }

  lemma {:induction false} AllHold(m: seq<byte>, s: Place, fs: seq<ImportFile>, i: nat, nMax: nat, look: nat,
                                   bound: nat, text: nat)
    requires AllTables(m, s, fs, i, nMax, look, bound, text) && (fs == [] || nMax > 0)
    ensures forall k :: 0 <= k < |fs| ==> FileHolds(m, s.v, fs[k], i + 20 * k, nMax)
    ensures WordIs(m, i + 20 * |fs|, 0)
    decreases |fs|
  {
    hide AllTables, Tables, FileText, FileBound, FileThunks, BywayHolds, PlainHolds, U32At;
    if fs == [] {
      TableEnds(m, s, i, nMax, look, bound, text);
    } else {
      FirstTables(m, s, fs, i, nMax, look, bound, text);
      if fs[0].fByway {
        BywayStands(m, s, fs[0], i, nMax, look, bound, text);
      } else {
        PlainStands(m, s, fs[0], i, nMax, look, bound, text);
      }
      AllHold(m, s, fs[1..], i + 20, nMax, look + 4 * FileThunks(fs[0]), bound + 4 * |FileBound(fs[0])|,
              text + |FileText(fs[0])|);
      forall k | 0 <= k < |fs| ensures FileHolds(m, s.v, fs[k], i + 20 * k, nMax) {
        if k > 0 {
          assert fs[k] == fs[1..][k - 1];
          assert FileHolds(m, s.v, fs[1..][k - 1], i + 20 + 20 * (k - 1), nMax);
        }
      }
    }
  }

  lemma {:induction false} TableEnds(m: seq<byte>, s: Place, i: nat, nMax: nat, look: nat, bound: nat, text: nat)
    requires AllTables(m, s, [], i, nMax, look, bound, text)
    ensures WordIs(m, i, 0)
  {
    assert [] + [0, 0, 0, 0] == [0, 0, 0, 0];
    var end := m[i..i + 4];
    assert end == [0, 0, 0, 0] && m[i] == end[0] && m[i + 1] == end[1] && m[i + 2] == end[2] && m[i + 3] == end[3];
  }

  /** The fields of the section's header: its size, "Dtr", and where the payloads are. */
  predicate HeadHolds(m: seq<byte>, at: int, cb: int) {
    && |m| >= 64 && WordIs(m, 0, 64) && m[4..8] == [0x44, 0x74, 0x72, 0]
    && WordIs(m, 8, at) && WordIs(m, 12, at + cb)
  }

  lemma {:induction false} HeadStands(m: seq<byte>, at: nat, cb: nat, others: seq<byte>, prePE: seq<byte>)
    requires at + cb < ADDRESS_SPACE && |others| == 48 && Stands(m, 0, SectionHead(at, at + cb, others) + prePE)
    ensures HeadHolds(m, at, cb) && Stands(m, 16, others) && Stands(m, 64, prePE)
  {
    hide LE32, U32At, Stands;
    var a, b, c, d := LE32(64), LE32(0x0072_7444), LE32(at), LE32(at + cb);
    StandsSplit(m, 0, a + b + c + d + others, prePE);
    StandsSplit(m, 0, a + b + c + d, others);
    StandsSplit(m, 0, a + b + c, d);
    StandsSplit(m, 0, a + b, c);
    StandsSplit(m, 0, a, b);
    ReadsWord(m, 0, 64);
    ReadsWord(m, 8, at);
    ReadsWord(m, 12, at + cb);
    StandsLength(m, 64, prePE);
    StandsLength(m, 16, others);
    SignatureBytes(m);
  }

  lemma {:induction false} SignatureBytes(m: seq<byte>)
    requires Stands(m, 4, LE32(0x0072_7444))
    ensures |m| >= 8 && m[4..8] == [0x44, 0x74, 0x72, 0]
  {
  }

  /**
   * What WriteDetourSection leaves in its buffer, for every import list: the header, the payloads, and at the k-th
   * descriptor the k-th file with its symbols.
   */
  lemma {:induction false} SectionHolds(m: seq<byte>, fs: seq<ImportFile>, prePE: seq<byte>, data: seq<byte>,
                                        others: seq<byte>, v: nat)
    requires var l := LayoutFor(fs, |prePE|, |data|);
             && v + l.end < 0x8000_0000 && |others| == 48
             && Emitted(m, l, RoomFor(fs), SectionImage(fs, prePE, data, others, l, RoomFor(fs), v))
    ensures var l := LayoutFor(fs, |prePE|, |data|);
            && HeadHolds(m, l.data, |data|) && Stands(m, 16, others) && Stands(m, 64, prePE) && Stands(m, l.data, data)
            && (forall k :: 0 <= k < |fs| ==> FileHolds(m, v, fs[k], l.table + 20 * k, Thunks(fs)))
            && WordIs(m, l.table + 20 * |fs|, 0)
  {
    hide Stands, Lookups, Texts, Bounds, Descriptors, ThunkBytes, LayoutOf, SectionImage, FileHolds, SectionHead, U32At;
    var l := LayoutFor(fs, |prePE|, |data|);
    var e := SectionImage(fs, prePE, data, others, l, RoomFor(fs), v);
    SectionParts(fs, prePE, data, others, l, v);
    EmittedParts(m, l, RoomFor(fs), e);
    EmittedFits(m, l, RoomFor(fs), e);
    hide Emitted;
    HeadStands(m, l.data, |data|, others, prePE);
    AllHold(m, Place(v, 0, l.end), fs, l.table, Thunks(fs), v + l.look, v + l.bound, v + l.text);
  }
}
