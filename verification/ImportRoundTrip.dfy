/** What the .detour section holds is read back as the import list it was written from. */
module ImportRoundTrip {
  import opened Bytes
  import opened PayloadRecords
  import opened ImportLayout
  import opened ImageOutput
  import opened ImageWriter
  import opened ImportReader

  /** `cb` bytes at file offset `p` are mapped at address `v`. */
  datatype Place = Place(v: nat, p: nat, cb: nat)

  ghost predicate Mapped(ss: seq<SectionHeader>, s: Place) {
    && 0 < s.v && s.v + s.cb < 0x8000_0000
    && forall rva: dword :: s.v <= rva < s.v + s.cb ==> RvaToVa(ss, rva) == Some(s.p + rva - s.v)
  }

  // ----------------------------------------------------------- pieces of tables

  lemma {:induction false} StandsSplit(m: seq<byte>, at: nat, a: seq<byte>, b: seq<byte>)
    requires Stands(m, at, a + b)
    ensures Stands(m, at, a) && Stands(m, at + |a|, b)
  {
    var ab := a + b;
    SliceOfSlice(m, at, at + |ab|, 0, |a|);
    SliceOfSlice(m, at, at + |ab|, |a|, |ab|);
    assert ab[0..|a|] == a && ab[|a|..|ab|] == b;
  }

  lemma {:induction false} ReadsWord(m: seq<byte>, at: nat, d: dword)
    requires Stands(m, at, LE32(d))
    ensures U32At(m, at) == d
  {
    hide LE32;
    U32Cut(m, at, LE32(d));
  }

  lemma {:induction false} ReadsString(m: seq<byte>, at: nat, s: seq<byte>)
    requires Stands(m, at, s + [0]) && NulFree(s)
    ensures StringAt(m, at) == Some(s)
    decreases |s|
  {
    var cut := s + [0];
    assert m[at] == m[at..at + |cut|][0] == cut[0];
    if s == [] {
    } else {
      assert cut == [s[0]] + (s[1..] + [0]);
      StandsSplit(m, at, [s[0]], s[1..] + [0]);
      ReadsString(m, at + 1, s[1..]);
      assert [s[0]] + s[1..] == s;
    }
  }

  lemma {:induction false} ReadsNameText(m: seq<byte>, at: nat, s: seq<byte>)
    requires Stands(m, at, NameText(s)) && NulFree(s)
    ensures StringAt(m, at) == Some(s)
  {
    var text := NameText(s);
    assert text == (s + [0]) + text[|s| + 1..];
    StandsSplit(m, at, s + [0], text[|s| + 1..]);
    ReadsString(m, at, s);
  }

  lemma {:induction false} ReadsHintText(m: seq<byte>, at: nat, hint: word, s: seq<byte>)
    requires Stands(m, at, HintText(hint, s)) && NulFree(s)
    ensures at + 2 <= |m| && U16At(m, at) == hint && StringAt(m, at + 2) == Some(s)
  {
    var text := HintText(hint, s);
    var rest := text[|s| + 3..];
    assert text == LE16(hint) + ((s + [0]) + rest);
    StandsSplit(m, at, LE16(hint), (s + [0]) + rest);
    StandsSplit(m, at + 2, s + [0], rest);
    ReadsString(m, at + 2, s);
    assert m[at] == m[at..at + 2][0] && m[at + 1] == m[at..at + 2][1];
  }

  lemma {:induction false} ThunkBytesAppend(a: seq<dword>, b: seq<dword>)
    ensures ThunkBytes(a + b) == ThunkBytes(a) + ThunkBytes(b)
  {
    hide LE32;
    if a == [] {
      assert a + b == b;
    } else {
      ThunkBytesAppend(a[1..], b);
      assert (a + b)[1..] == a[1..] + b;
      Joins(LE32(a[0]), ThunkBytes(a[1..]), ThunkBytes(b));
    }
  }

  // -------------------------------------------------------------------- symbols

  /** What the tables can carry: a string without a NUL, or a 16-bit ordinal. */
  predicate WritableName(n: ImportName) {
    if n.pszName.Some? then NulFree(n.pszName.value) else n.nOrdinal < 0x1_0000
  }

  /** What a symbol was in the original image: an ordinal, or a name. */
  datatype Source = Source(nOrig: dword, pszOrig: Option<seq<byte>>)

  function SourceOf(n: ImportName): Source { Source(n.nOrig, n.pszOrig) }

  /** The original a thunk of the original lookup table stands for; None when its name is not mapped. */
  function OrigSymbol(m: seq<byte>, ss: seq<SectionHeader>, t: dword): Option<Source> {
    if t >= ORDINAL_FLAG then Some(Source(t % 0x1_0000, None))
    else
      var h := HintNameAt(m, ss, t);
      if h.HintName? then Some(Source(0, Some(h.name))) else None
  }

  /** The original lookup table at `look` still holds these symbols. */
  predicate OrigNames(m: seq<byte>, ss: seq<SectionHeader>, look: Option<nat>, origs: seq<Source>)
    decreases |origs|
  {
    origs == []
    || (look.Some? && look.value + 4 <= |m| && OrigSymbol(m, ss, U32At(m, look.value)) == Some(origs[0])
        && OrigNames(m, ss, Next(look, 4), origs[1..]))
  }

  /**
   * The same import: by name, with its hint and its original, or by ordinal, which Read takes for the original one
   * whatever it was.
   */
  predicate SameName(n: ImportName, b: ImportName) {
    b.pszName == n.pszName
    && if n.pszName.Some? then b.nHint == n.nHint && SourceOf(b) == SourceOf(n)
       else b.nOrdinal == n.nOrdinal && SourceOf(b) == Source(n.nOrdinal, None)
  }

  function NameOrigs(ns: seq<ImportName>): (r: seq<Source>)
    ensures |r| == |ns|
  {
    if ns == [] then [] else [SourceOf(ns[0])] + NameOrigs(ns[1..])
  }

  lemma {:induction false} ReadsSymbol(m: seq<byte>, ss: seq<SectionHeader>, s: Place, n: ImportName, look: Option<nat>,
                                       rva: nat)
    requires Mapped(ss, s) && WritableName(n) && s.v <= rva && rva + |SymText(n)| <= s.v + s.cb
    requires Stands(m, s.p + (rva - s.v), SymText(n))
    requires look.Some? && look.value + 4 <= |m| && OrigSymbol(m, ss, U32At(m, look.value)) == Some(SourceOf(n))
    ensures SymThunk(n, rva) != 0
    ensures var b := ReadName(m, ss, SymThunk(n, rva), look); b.Some? && SameName(n, b.value)
  {
    hide RvaToVa, StringAt, U32At, U16At, LE16;
    if n.pszName.Some? {
      HintTextLength(n.nHint, n.pszName.value);
      ReadsHintText(m, s.p + (rva - s.v), n.nHint, n.pszName.value);
    }
  }

  lemma {:induction false} HintTextLength(hint: word, name: seq<byte>)
    ensures |HintText(hint, name)| > 0
  {
  }

  lemma {:induction false} ReadsNames(m: seq<byte>, ss: seq<SectionHeader>, s: Place, names: seq<ImportName>, a: nat,
                                      look: Option<nat>, rva: nat)
    requires Mapped(ss, s) && s.v <= rva && rva + |SymTexts(names)| <= s.v + s.cb
    requires Stands(m, a, ThunkBytes(SymThunks(names, rva) + [0])) && Stands(m, s.p + (rva - s.v), SymTexts(names))
    requires (forall k :: 0 <= k < |names| ==> WritableName(names[k])) && OrigNames(m, ss, look, NameOrigs(names))
    ensures var b := ReadNames(m, ss, a, look);
            && b.Some? && |b.value| == |names| && forall k :: 0 <= k < |names| ==> SameName(names[k], b.value[k])
    decreases |names|
  {
    hide Mapped, SymText, SymThunk, SameName, WritableName, U32At, OrigSymbol, ReadName, Stands, LE32;
    if names == [] {
      ReadsEnd(m, a);
    } else {
      var t, rest := SymThunk(names[0], rva), SymThunks(names[1..], rva + |SymText(names[0])|) + [0];
      assert SymThunks(names, rva) + [0] == [t] + rest;
      FirstThunk(m, a, t, rest);
      StandsSplit(m, s.p + (rva - s.v), SymText(names[0]), SymTexts(names[1..]));
      ReadsSymbol(m, ss, s, names[0], look, rva);
      ReadsNames(m, ss, s, names[1..], a + 4, Next(look, 4), rva + |SymText(names[0])|);
      var b := ReadNames(m, ss, a, look).value;
      var b0, bs := ReadName(m, ss, t, look).value, ReadNames(m, ss, a + 4, Next(look, 4)).value;
      assert b == [b0] + bs;
      assert forall k :: 1 <= k < |names| ==> names[k] == names[1..][k - 1] && b[k] == bs[k - 1];
    }
  }

  lemma {:induction false} FirstThunk(m: seq<byte>, a: nat, t: dword, rest: seq<dword>)
    requires Stands(m, a, ThunkBytes([t] + rest))
    ensures a + 4 <= |m| && U32At(m, a) == t && Stands(m, a + 4, ThunkBytes(rest))
  {
    hide LE32;
    assert ([t] + rest)[1..] == rest;
    StandsSplit(m, a, LE32(t), ThunkBytes(rest));
    ReadsWord(m, a, t);
  }

  lemma {:induction false} ReadsEnd(m: seq<byte>, a: nat)
    requires Stands(m, a, ThunkBytes([] + [0]))
    ensures a + 4 <= |m| && U32At(m, a) == 0
  {
    var none: seq<dword> := [];
    assert none + [0] == [0] + none;
    FirstThunk(m, a, 0, none);
  }

  // ---------------------------------------------------------------------- files

  /** What was in the original image: per file that is no byway, its name and its symbols. */
  datatype Orig = Orig(name: Option<seq<byte>>, symbols: seq<Source>)

  function Origs(fs: seq<ImportFile>): seq<Orig> {
    if fs == [] then []
    else (if fs[0].fByway then [] else [Orig(fs[0].pszOrig, NameOrigs(fs[0].names))]) + Origs(fs[1..])
  }

  /** The original import table from the descriptor at `o` on still describes these files. */
  predicate OrigTable(m: seq<byte>, ss: seq<SectionHeader>, o: nat, origs: seq<Orig>)
    decreases |origs|
  {
    origs == []
    || (o + DESCRIPTOR_SIZE <= |m| && origs[0].name.Some? && StringAtRva(m, ss, U32At(m, o + 12)) == origs[0].name
        && OrigNames(m, ss, RvaToVa(ss, U32At(m, o)), origs[0].symbols)
        && OrigTable(m, ss, o + DESCRIPTOR_SIZE, origs[1..]))
  }

  /**
   * What the tables can carry: a byway imports nothing but ordinal 1, and any other file keeps its import
   * addresses outside the new section.
   */
  predicate WritableFile(f: ImportFile, s: Place) {
    NulFree(f.pszName)
    && (if f.fByway then f.names == [] else !(s.v <= f.rvaFirstThunk < s.v + s.cb))
    && forall k :: 0 <= k < |f.names| ==> WritableName(f.names[k])
  }

  ghost predicate SameFile(f: ImportFile, b: ImportFile) {
    && b.fByway == f.fByway && b.pszName == f.pszName && b.nForwarderChain == f.nForwarderChain
    && (!f.fByway ==> b.rvaFirstThunk == f.rvaFirstThunk && b.pszOrig == f.pszOrig)
    && |b.names| == |f.names| && forall k :: 0 <= k < |f.names| ==> SameName(f.names[k], b.names[k])
  }

  /** The tables of one file stand at these addresses of the section, its descriptor at file offset `i`. */
  ghost predicate FileStands(m: seq<byte>, s: Place, f: ImportFile, i: nat, nMax: nat, look: nat, bound: nat,
                             text: nat) {
    && s.v <= look && look + 4 * FileThunks(f) <= s.v + s.cb
    && s.v <= bound && bound + 4 * |FileBound(f)| <= s.v + s.cb
    && s.v <= text && text + |FileText(f)| <= s.v + s.cb
    && Stands(m, i, Descriptor(f, nMax, look, bound, text))
    && Stands(m, s.p + (look - s.v), ThunkBytes(FileLookup(f, text)))
    && Stands(m, s.p + (text - s.v), FileText(f))
  }

  lemma {:induction false} ReadsDescriptor(m: seq<byte>, i: nat, f: ImportFile, nMax: nat, look: nat, bound: nat,
                                           text: nat)
    requires Stands(m, i, Descriptor(f, nMax, look, bound, text)) && nMax > 1
    requires look < ADDRESS_SPACE && bound < ADDRESS_SPACE && text < ADDRESS_SPACE
    ensures i + DESCRIPTOR_SIZE <= |m|
    ensures U32At(m, i) == look && U32At(m, i + 8) == f.nForwarderChain && U32At(m, i + 12) == text
    ensures U32At(m, i + 16) == if f.fByway then bound else f.rvaFirstThunk
  {
    hide LE32, Stands, U32At;
    var first: dword := if f.fByway then bound else f.rvaFirstThunk;
    var d0, d4, d8, d12, d16 := LE32(look), LE32(0), LE32(f.nForwarderChain), LE32(text), LE32(first);
    SplitFive(m, i, d0, d4, d8, d12, d16);
    ReadsWord(m, i, look);
    ReadsWord(m, i + 8, f.nForwarderChain);
    ReadsWord(m, i + 12, text);
    ReadsWord(m, i + 16, first);
    StandsLength(m, i, Descriptor(f, nMax, look, bound, text));
  }

  lemma {:induction false} StandsLength(m: seq<byte>, at: nat, bs: seq<byte>)
    requires Stands(m, at, bs)
    ensures at + |bs| <= |m|
  {
  }

  lemma {:induction false} SplitFive(m: seq<byte>, i: nat, a: seq<byte>, b: seq<byte>, c: seq<byte>, d: seq<byte>,
                                     e: seq<byte>)
    requires |a| == |b| == |c| == |d| == |e| == 4 && Stands(m, i, a + b + c + d + e)
    ensures Stands(m, i, a) && Stands(m, i + 8, c) && Stands(m, i + 12, d) && Stands(m, i + 16, e)
  {
    hide Stands;
    StandsSplit(m, i, a + b + c + d, e);
    StandsSplit(m, i, a + b + c, d);
    StandsSplit(m, i, a + b, c);
    StandsSplit(m, i, a, b);
  }

  /** Section bytes are found at their addresses. */
  lemma {:induction false} MappedAt(ss: seq<SectionHeader>, s: Place, rva: nat)
    requires Mapped(ss, s) && s.v <= rva < s.v + s.cb
    ensures RvaToVa(ss, rva) == Some(s.p + (rva - s.v)) && 0 < rva < ORDINAL_FLAG
  {
  }

  lemma {:induction false} ReadsByway(m: seq<byte>, ss: seq<SectionHeader>, s: Place, f: ImportFile, i: nat, o: nat,
                                      nMax: nat, look: nat, bound: nat, text: nat)
    requires Mapped(ss, s) && FileStands(m, s, f, i, nMax, look, bound, text) && nMax > 1
    requires f.fByway && WritableFile(f, s)
    ensures i + 4 <= |m| && U32At(m, i) != 0
    ensures var b := ReadFile(m, ss, i, o, s.v, s.v + s.cb); b.Some? && SameFile(f, b.value)
  {
    hide RvaToVa, StringAt, Stands, Descriptor, U32At, NameText, Mapped, ThunkBytes;
    NameTextLength(f.pszName);
    MappedAt(ss, s, look);
    MappedAt(ss, s, text);
    MappedAt(ss, s, bound);
    ReadsDescriptor(m, i, f, nMax, look, bound, text);
    assert NameText(f.pszName) + [] == NameText(f.pszName);
    ReadsNameText(m, s.p + (text - s.v), f.pszName);
  }

  lemma {:induction false} NameTextLength(name: seq<byte>)
    ensures |NameText(name)| > 0
  {
  }

  lemma {:induction false} ReadsPlain(m: seq<byte>, ss: seq<SectionHeader>, s: Place, f: ImportFile, i: nat, o: nat,
                                      nMax: nat, look: nat, bound: nat, text: nat)
    requires Mapped(ss, s) && FileStands(m, s, f, i, nMax, look, bound, text) && nMax > 1
    requires !f.fByway && WritableFile(f, s)
    requires bound < ADDRESS_SPACE
    requires o + DESCRIPTOR_SIZE <= |m| && f.pszOrig.Some? && StringAtRva(m, ss, U32At(m, o + 12)) == f.pszOrig
    requires OrigNames(m, ss, RvaToVa(ss, U32At(m, o)), NameOrigs(f.names))
    ensures i + 4 <= |m| && U32At(m, i) != 0
    ensures var b := ReadFile(m, ss, i, o, s.v, s.v + s.cb); b.Some? && SameFile(f, b.value)
  {
    hide RvaToVa, StringAt, Stands, Descriptor, U32At, NameText, Mapped, ThunkBytes, SymTexts, SymThunks, SameName,
         OrigNames, WritableName, ReadNames;
    NameTextLength(f.pszName);
    MappedAt(ss, s, look);
    MappedAt(ss, s, text);
    ReadsDescriptor(m, i, f, nMax, look, bound, text);
    StandsSplit(m, s.p + (text - s.v), NameText(f.pszName), SymTexts(f.names));
    ReadsNameText(m, s.p + (text - s.v), f.pszName);
    ReadsNames(m, ss, s, f.names, s.p + (look - s.v), RvaToVa(ss, U32At(m, o)), text + |NameText(f.pszName)|);
  }

  /** The tables of a list of files, with the terminating descriptor. */
  ghost predicate FilesStand(m: seq<byte>, s: Place, fs: seq<ImportFile>, i: nat, nMax: nat, look: nat, bound: nat,
                             text: nat) {
    && s.v <= look && look + 4 * Thunks(fs) <= s.v + s.cb
    && s.v <= bound && bound + 4 * |Bounds(fs)| <= s.v + s.cb
    && s.v <= text && text + |Texts(fs)| <= s.v + s.cb
    && Stands(m, i, Descriptors(fs, nMax, look, bound, text) + [0, 0, 0, 0])
    && Stands(m, s.p + (look - s.v), ThunkBytes(Lookups(fs, text)))
    && Stands(m, s.p + (text - s.v), Texts(fs))
  }

  lemma {:induction false} FirstSizes(fs: seq<ImportFile>)
    requires fs != []
    ensures Thunks(fs) == FileThunks(fs[0]) + Thunks(fs[1..])
    ensures |Bounds(fs)| == |FileBound(fs[0])| + |Bounds(fs[1..])|
    ensures |Texts(fs)| == |FileText(fs[0])| + |Texts(fs[1..])|
  {
    hide FileText, FileBound, FileThunks;
  }

  lemma {:induction false} FirstDescriptor(m: seq<byte>, fs: seq<ImportFile>, i: nat, nMax: nat, look: nat, bound: nat,
                                           text: nat)
    requires fs != [] && Stands(m, i, Descriptors(fs, nMax, look, bound, text) + [0, 0, 0, 0])
    ensures Stands(m, i, Descriptor(fs[0], nMax, look, bound, text))
    ensures Stands(m, i + DESCRIPTOR_SIZE,
                   Descriptors(fs[1..], nMax, look + 4 * FileThunks(fs[0]), bound + 4 * |FileBound(fs[0])|,
                               text + |FileText(fs[0])|) + [0, 0, 0, 0])
  {
    hide Stands, FileText, FileBound, FileThunks, Descriptor;
    var d, ds := Descriptor(fs[0], nMax, look, bound, text),
                 Descriptors(fs[1..], nMax, look + 4 * FileThunks(fs[0]), bound + 4 * |FileBound(fs[0])|,
                             text + |FileText(fs[0])|);
    Joins(d, ds, [0, 0, 0, 0]);
    StandsSplit(m, i, d, ds + [0, 0, 0, 0]);
  }

  lemma {:induction false} FirstLookup(m: seq<byte>, fs: seq<ImportFile>, at: nat, text: nat)
    requires fs != [] && Stands(m, at, ThunkBytes(Lookups(fs, text)))
    ensures Stands(m, at, ThunkBytes(FileLookup(fs[0], text)))
    ensures Stands(m, at + 4 * FileThunks(fs[0]), ThunkBytes(Lookups(fs[1..], text + |FileText(fs[0])|)))
  {
    hide Stands, FileText, FileLookup, FileThunks;
    ThunkBytesAppend(FileLookup(fs[0], text), Lookups(fs[1..], text + |FileText(fs[0])|));
    StandsSplit(m, at, ThunkBytes(FileLookup(fs[0], text)), ThunkBytes(Lookups(fs[1..], text + |FileText(fs[0])|)));
  }

  lemma {:induction false} FirstText(m: seq<byte>, fs: seq<ImportFile>, at: nat)
    requires fs != [] && Stands(m, at, Texts(fs))
    ensures Stands(m, at, FileText(fs[0])) && Stands(m, at + |FileText(fs[0])|, Texts(fs[1..]))
  {
    hide Stands, FileText;
    StandsSplit(m, at, FileText(fs[0]), Texts(fs[1..]));
  }

  lemma {:induction false} FirstFileStands(m: seq<byte>, s: Place, fs: seq<ImportFile>, i: nat, nMax: nat, look: nat,
                                           bound: nat, text: nat)
    requires FilesStand(m, s, fs, i, nMax, look, bound, text) && fs != []
    ensures FileStands(m, s, fs[0], i, nMax, look, bound, text)
    ensures FilesStand(m, s, fs[1..], i + DESCRIPTOR_SIZE, nMax, look + 4 * FileThunks(fs[0]),
                       bound + 4 * |FileBound(fs[0])|, text + |FileText(fs[0])|)
  {
    hide Stands, FileText, FileBound, FileThunks, FileLookup, Descriptor, ThunkBytes, Texts, Bounds, Thunks, Lookups,
         Descriptors;
    FirstSizes(fs);
    FirstDescriptor(m, fs, i, nMax, look, bound, text);
    FirstLookup(m, fs, s.p + (look - s.v), text);
    FirstText(m, fs, s.p + (text - s.v));
  }

  ghost predicate SameFiles(fs: seq<ImportFile>, bs: seq<ImportFile>) {
    |bs| == |fs| && forall k :: 0 <= k < |fs| ==> SameFile(fs[k], bs[k])
  }

  lemma {:induction false} SameFilesCons(f: ImportFile, fs: seq<ImportFile>, b: ImportFile, bs: seq<ImportFile>)
    requires SameFile(f, b) && SameFiles(fs, bs)
    ensures SameFiles([f] + fs, [b] + bs)
  {
    hide SameFile;
  }

  /** The first file is read, and the original table is left at the files behind it. */
  lemma {:induction false} ReadsFirst(m: seq<byte>, ss: seq<SectionHeader>, s: Place, fs: seq<ImportFile>, i: nat,
                                      o: nat, nMax: nat, look: nat, bound: nat, text: nat)
    requires Mapped(ss, s) && FilesStand(m, s, fs, i, nMax, look, bound, text) && nMax > 1 && fs != []
    requires WritableFile(fs[0], s) && OrigTable(m, ss, o, Origs(fs))
    ensures i + 4 <= |m| && U32At(m, i) != 0
    ensures var b := ReadFile(m, ss, i, o, s.v, s.v + s.cb);
            && b.Some? && SameFile(fs[0], b.value)
            && OrigTable(m, ss, NextOriginal(o, b.value), Origs(fs[1..]))
  {
    hide Mapped, FileStands, FilesStand, WritableFile, SameFile, ReadFile, U32At, OrigNames, RvaToVa, StringAtRva,
         NameOrigs, Origs;
    FirstFileStands(m, s, fs, i, nMax, look, bound, text);
    OrigsFirst(fs);
    if fs[0].fByway {
      ReadsByway(m, ss, s, fs[0], i, o, nMax, look, bound, text);
    } else {
      BoundIsAddress(m, ss, s, fs, i, nMax, look, bound, text);
      ReadsPlain(m, ss, s, fs[0], i, o, nMax, look, bound, text);
    }
    SameFileByway(fs[0], ReadFile(m, ss, i, o, s.v, s.v + s.cb).value);
  }

  lemma {:induction false} ReadsFiles(m: seq<byte>, ss: seq<SectionHeader>, s: Place, fs: seq<ImportFile>, i: nat,
                                      o: nat, nMax: nat, look: nat, bound: nat, text: nat)
    requires Mapped(ss, s) && FilesStand(m, s, fs, i, nMax, look, bound, text) && nMax > 1
    requires (forall k :: 0 <= k < |fs| ==> WritableFile(fs[k], s)) && OrigTable(m, ss, o, Origs(fs))
    ensures var b := ReadFiles(m, ss, i, o, s.v, s.v + s.cb);
            b.Some? && SameFiles(fs, b.value)
    decreases |fs|
  {
    hide Mapped, FilesStand, WritableFile, SameFile, ReadFile, U32At, OrigTable, NextOriginal, Origs;
    if fs == [] {
      NoMoreFiles(m, s, i, nMax, look, bound, text);
    } else {
      var rest := fs[1..];
      FirstFileStands(m, s, fs, i, nMax, look, bound, text);
      ReadsFirst(m, ss, s, fs, i, o, nMax, look, bound, text);
      var b := ReadFile(m, ss, i, o, s.v, s.v + s.cb).value;
      ReadsFiles(m, ss, s, rest, i + DESCRIPTOR_SIZE, NextOriginal(o, b), nMax, look + 4 * FileThunks(fs[0]),
                 bound + 4 * |FileBound(fs[0])|, text + |FileText(fs[0])|);
      SameFilesCons(fs[0], rest, b, ReadFiles(m, ss, i + DESCRIPTOR_SIZE, NextOriginal(o, b), s.v, s.v + s.cb).value);
      assert [fs[0]] + rest == fs;
    }
  }

  lemma {:induction false} SameFileByway(f: ImportFile, b: ImportFile)
    requires SameFile(f, b)
    ensures f.fByway == b.fByway
  {
  }

  lemma {:induction false} BoundIsAddress(m: seq<byte>, ss: seq<SectionHeader>, s: Place, fs: seq<ImportFile>, i: nat,
                                          nMax: nat, look: nat, bound: nat, text: nat)
    requires Mapped(ss, s) && FilesStand(m, s, fs, i, nMax, look, bound, text)
    ensures bound < ADDRESS_SPACE
  {
    hide Stands, Lookups, Texts, Descriptors, Thunks, Bounds;
  }

  lemma {:induction false} OrigsFirst(fs: seq<ImportFile>)
    requires fs != []
    ensures if fs[0].fByway then Origs(fs) == Origs(fs[1..])
            else
              && Origs(fs) != [] && Origs(fs)[0] == Orig(fs[0].pszOrig, NameOrigs(fs[0].names))
              && Origs(fs)[1..] == Origs(fs[1..])
  {
    hide NameOrigs;
    if !fs[0].fByway {
      assert ([Orig(fs[0].pszOrig, NameOrigs(fs[0].names))] + Origs(fs[1..]))[1..] == Origs(fs[1..]);
    }
  }

  lemma {:induction false} NoMoreFiles(m: seq<byte>, s: Place, i: nat, nMax: nat, look: nat, bound: nat, text: nat)
    requires FilesStand(m, s, [], i, nMax, look, bound, text)
    ensures i + 4 <= |m| && U32At(m, i) == 0
  {
    assert [] + [0, 0, 0, 0] == LE32(0);
    ReadsWord(m, i, 0);
  }

  // ------------------------------------------------------------- the whole section

  /** The room and layout Write computes for an import list. */
  function RoomFor(fs: seq<ImportFile>): Room { Room(Thunks(fs), |Texts(fs)|, |fs| + 1) }

  function LayoutFor(fs: seq<ImportFile>, cbPre: nat, cbData: nat): Layout {
    LayoutOf(cbPre, Thunks(fs), |Texts(fs)|, cbData, |fs| + 1)
  }

  /** The output buffer as WriteDetourSection leaves it, for a section described by `h`. */
  ghost predicate Written(buf: seq<byte>, fs: seq<ImportFile>, prePE: seq<byte>, data: seq<byte>, others: seq<byte>,
                          h: SectionHeader) {
    var l := LayoutFor(fs, |prePE|, |data|);
    && l.end <= h.cbRaw <= |buf| && 0 < h.va && h.va + h.cbRaw < 0x8000_0000
    && Emitted(buf, l, RoomFor(fs), SectionImage(fs, prePE, data, others, l, RoomFor(fs), h.va))
  }

  lemma {:induction false} StandsIn(m: seq<byte>, p: nat, buf: seq<byte>, n: nat, at: nat, bs: seq<byte>)
    requires n <= |buf| && Stands(m, p, buf[..n]) && Stands(buf, at, bs) && at + |bs| <= n
    ensures Stands(m, p + at, bs)
  {
    SliceOfSlice(m, p, p + n, at, at + |bs|);
    SliceOfSlice(buf, 0, n, at, at + |bs|);
  }

  lemma {:induction false} TablesInFile(m: seq<byte>, h: SectionHeader, buf: seq<byte>, fs: seq<ImportFile>,
                                        prePE: seq<byte>, data: seq<byte>, others: seq<byte>)
    requires Written(buf, fs, prePE, data, others, h) && Stands(m, h.pRaw, buf[..h.cbRaw])
    ensures var l := LayoutFor(fs, |prePE|, |data|);
            FilesStand(m, Place(h.va, h.pRaw, h.cbRaw), fs, h.pRaw + l.table, Thunks(fs), h.va + l.look, h.va + l.bound,
                       h.va + l.text)
  {
    hide Stands, Lookups, Texts, Bounds, Descriptors, ThunkBytes, LayoutOf, SectionImage;
    var l := LayoutFor(fs, |prePE|, |data|);
    var e := SectionImage(fs, prePE, data, others, l, RoomFor(fs), h.va);
    SectionParts(fs, prePE, data, others, l, h.va);
    EmittedParts(buf, l, RoomFor(fs), e);
    EmittedFits(buf, l, RoomFor(fs), e);
    hide Emitted;
    StandsIn(m, h.pRaw, buf, h.cbRaw, l.look, ThunkBytes(e.look));
    StandsIn(m, h.pRaw, buf, h.cbRaw, l.text, e.text);
    StandsIn(m, h.pRaw, buf, h.cbRaw, l.table, e.table);
  }

  lemma {:induction false} SectionParts(fs: seq<ImportFile>, prePE: seq<byte>, data: seq<byte>, others: seq<byte>,
                                        l: Layout, v: nat)
    requires l.data + |data| < ADDRESS_SPACE
    ensures var e := SectionImage(fs, prePE, data, others, l, RoomFor(fs), v);
            && e.look == Lookups(fs, v + l.text) && e.text == Texts(fs) && e.bound == Bounds(fs) && e.data == data
            && e.table == Descriptors(fs, Thunks(fs), v + l.look, v + l.bound, v + l.text) + [0, 0, 0, 0]
            && e.head == SectionHead(l.data, l.data + |data|, others) + prePE
  {
    hide Lookups, Texts, Bounds, Descriptors, SectionHead;
    var look, text, bound, ds := Lookups(fs, v + l.text), Texts(fs), Bounds(fs),
                                 Descriptors(fs, Thunks(fs), v + l.look, v + l.bound, v + l.text);
    assert [] + look == look && [] + text == text && [] + bound == bound && [] + ds == ds;
  }

  lemma {:induction false} EmittedParts(m: seq<byte>, l: Layout, room: Room, e: Emission)
    requires Emitted(m, l, room, e)
    ensures Stands(m, 0, e.head) && Stands(m, l.look, ThunkBytes(e.look)) && Stands(m, l.bound, ThunkBytes(e.bound))
    ensures Stands(m, l.text, e.text) && Stands(m, l.data, e.data) && Stands(m, l.table, e.table)
    ensures |e.head| <= l.look && l.data + |e.data| <= l.table
  {
    hide Stands, ZeroRange, ThunkBytes;
  }

  lemma {:induction false} LayoutBelow(fs: seq<ImportFile>, cbPre: nat, cbData: nat)
    ensures LayoutFor(fs, cbPre, cbData).table < LayoutFor(fs, cbPre, cbData).end
  {
    hide Thunks, Texts;
  }

  /** What Read makes of such a section: the list, or nothing at all in place of a single thunk. */
  ghost predicate ReadAgain(back: Option<seq<ImportFile>>, fs: seq<ImportFile>) {
    back.Some? && (SameFiles(fs, back.value) <==> Thunks(fs) != 1) && (Thunks(fs) == 1 ==> back.value == [])
  }

  /** The section in a file. */
  ghost predicate InFile(m: seq<byte>, h: SectionHeader, buf: seq<byte>, fs: seq<ImportFile>, prePE: seq<byte>,
                         data: seq<byte>, others: seq<byte>) {
    Written(buf, fs, prePE, data, others, h) && Stands(m, h.pRaw, buf[..h.cbRaw])
  }

  /**
   * For every import list, what Write lays out in the .detour section is read back by Read as the same list, in
   * the same order and with the original names, if and only if the lookup table does not come out as a single
   * entry: then the one file in it is lost.
   */
  lemma {:induction false} ImportsRoundTrip(m: seq<byte>, earlier: seq<SectionHeader>, h: SectionHeader, buf: seq<byte>,
                                            fs: seq<ImportFile>, prePE: seq<byte>, data: seq<byte>, others: seq<byte>,
                                            o: nat)
    requires InFile(m, h, buf, fs, prePE, data, others)
    requires Mapped(earlier + [h], Place(h.va, h.pRaw, h.cbRaw))
    requires forall k :: 0 <= k < |fs| ==> WritableFile(fs[k], Place(h.va, h.pRaw, h.cbRaw))
    requires OrigTable(m, earlier + [h], o, Origs(fs))
    ensures var ss, l := earlier + [h], LayoutFor(fs, |prePE|, |data|);
            var back := ReadFiles(m, ss, h.pRaw + l.table, o, h.va, h.va + h.cbRaw);
            && RvaToVa(ss, WrapAddr(h.va + l.table)) == Some(h.pRaw + l.table)
            && ReadAgain(back, fs)
  {
    hide Mapped, FilesStand, WritableFile, SameFiles, Origs, OrigTable, LayoutFor, Emitted, SectionImage, RvaToVa,
         Stands, ReadFiles, Thunks;
    var ss, l, s := earlier + [h], LayoutFor(fs, |prePE|, |data|), Place(h.va, h.pRaw, h.cbRaw);
    LayoutBelow(fs, |prePE|, |data|);
    MappedAt(ss, s, h.va + l.table);
    TablesInFile(m, h, buf, fs, prePE, data, others);
    TablesReadBack(m, ss, s, fs, h.pRaw + l.table, o, h.va + l.look, h.va + l.bound, h.va + l.text);
  }

  lemma {:induction false} TablesReadBack(m: seq<byte>, ss: seq<SectionHeader>, s: Place, fs: seq<ImportFile>, i: nat,
                                          o: nat, look: nat, bound: nat, text: nat)
    requires Mapped(ss, s) && FilesStand(m, s, fs, i, Thunks(fs), look, bound, text)
    requires (forall k :: 0 <= k < |fs| ==> WritableFile(fs[k], s)) && OrigTable(m, ss, o, Origs(fs))
    ensures ReadAgain(ReadFiles(m, ss, i, o, s.v, s.v + s.cb), fs)
  {
    hide Mapped, FilesStand, WritableFile, SameFile, Origs, OrigTable, ReadFile, Thunks, U32At;
    FewThunks(fs);
    if Thunks(fs) > 1 {
      ReadsFiles(m, ss, s, fs, i, o, Thunks(fs), look, bound, text);
    } else if fs == [] {
      NoMoreFiles(m, s, i, Thunks(fs), look, bound, text);
    } else {
      LoneThunk(m, s, fs, i, look, bound, text);
    }
  }

  lemma {:induction false} FewThunks(fs: seq<ImportFile>)
    ensures Thunks(fs) == 0 <==> fs == []
    ensures Thunks(fs) == 1 ==> |fs| == 1 && !fs[0].fByway
  {
    if |fs| > 1 {
      assert fs[1..] != [];
    }
  }

  /** The descriptor of a list with a single thunk looks like the terminator. */
  lemma {:induction false} LoneThunk(m: seq<byte>, s: Place, fs: seq<ImportFile>, i: nat, look: nat, bound: nat,
                                     text: nat)
    requires FilesStand(m, s, fs, i, 1, look, bound, text) && fs != [] && !fs[0].fByway
    ensures i + 4 <= |m| && U32At(m, i) == 0
  {
    hide LE32, Stands, U32At, ThunkBytes, Lookups, Texts, Bounds;
    FirstDescriptor(m, fs, i, 1, look, bound, text);
    var f := fs[0];
    var d0, d4, d8, d12, d16 := LE32(0), LE32(0), LE32(f.nForwarderChain), LE32(WrapAddr(text)), LE32(f.rvaFirstThunk);
    SplitFive(m, i, d0, d4, d8, d12, d16);
    ReadsWord(m, i, 0);
    StandsLength(m, i, LE32(0));
  }

  // -------------------------------------------------------------- original imports

  /** Whether Read found out what a symbol was originally; not so for ordinal zero and for unmapped names. */
  predicate HasOriginal(n: ImportName) { n.pszOrig.Some? || n.nOrig != 0 }

  lemma {:induction false} FreshNames(m: seq<byte>, ss: seq<SectionHeader>, a: nat, ns: seq<ImportName>)
    requires ReadNames(m, ss, a, Some(a)) == Some(ns) && forall k :: 0 <= k < |ns| ==> HasOriginal(ns[k])
    ensures OrigNames(m, ss, Some(a), NameOrigs(ns))
    decreases |ns|
  {
    hide HintNameAt, U32At;
    if ns != [] {
      assert ns == [ns[0]] + ns[1..];
      FreshNames(m, ss, a + 4, ns[1..]);
      assert NameOrigs(ns)[1..] == NameOrigs(ns[1..]);
    }
  }

  /** An image without a .detour section describes its own originals. */
  lemma {:induction false} FreshOrigs(m: seq<byte>, ss: seq<SectionHeader>, i: nat, fs: seq<ImportFile>)
    requires ReadFiles(m, ss, i, i, 0, 0) == Some(fs)
    requires forall k, j :: 0 <= k < |fs| && 0 <= j < |fs[k].names| ==> HasOriginal(fs[k].names[j])
    ensures OrigTable(m, ss, i, Origs(fs))
    decreases |fs|
  {
    hide U32At, ReadNames, OrigNames, StringAtRva, HasOriginal, NameOrigs;
    if fs != [] {
      var rest := fs[1..];
      assert fs == [fs[0]] + rest;
      FreshOrigs(m, ss, i + DESCRIPTOR_SIZE, rest);
      NoOrigNames(m, ss, RvaToVa(ss, U32At(m, i)));
      if RvaToVa(ss, U32At(m, i)).Some? {
        FreshNames(m, ss, RvaToVa(ss, U32At(m, i)).value, fs[0].names);
      }
      OrigsFirst(fs);
    }
  }

  lemma {:induction false} NoOrigNames(m: seq<byte>, ss: seq<SectionHeader>, look: Option<nat>)
    ensures OrigNames(m, ss, look, NameOrigs([]))
  {
  }

  /** In such an image a file has its original name, and every symbol its original import. */
  predicate FreshFile(f: ImportFile) {
    && !f.fByway && f.pszOrig == Some(f.pszName)
    && forall n :: n in f.names ==> n.pszName == n.pszOrig && (n.pszName.None? ==> n.nOrdinal == n.nOrig)
  }

  lemma {:induction false} FreshSymbols(m: seq<byte>, ss: seq<SectionHeader>, a: nat, ns: seq<ImportName>)
    requires ReadNames(m, ss, a, Some(a)) == Some(ns)
    ensures forall n :: n in ns ==> n.pszName == n.pszOrig && (n.pszName.None? ==> n.nOrdinal == n.nOrig)
    decreases |ns|
  {
    hide HintNameAt, U32At;
    if ns != [] {
      assert ns == [ns[0]] + ns[1..];
      FreshSymbols(m, ss, a + 4, ns[1..]);
    }
  }

  lemma {:induction false} FreshFiles(m: seq<byte>, ss: seq<SectionHeader>, i: nat, fs: seq<ImportFile>)
    requires ReadFiles(m, ss, i, i, 0, 0) == Some(fs)
    ensures forall f :: f in fs ==> FreshFile(f)
    decreases |fs|
  {
    hide U32At, ReadNames, StringAtRva;
    if fs != [] {
      assert fs == [fs[0]] + fs[1..];
      FreshFiles(m, ss, i + DESCRIPTOR_SIZE, fs[1..]);
      if RvaToVa(ss, U32At(m, i)).Some? {
        FreshSymbols(m, ss, RvaToVa(ss, U32At(m, i)).value, fs[0].names);
      }
    }
  }

  /** `m'` extends `m` and keeps its bytes from `h` on, where the sections start. */
  predicate Keeps(m: seq<byte>, m': seq<byte>, h: nat) {
    h <= |m| <= |m'| && m'[h..|m|] == m[h..]
  }

  lemma {:induction false} KeptByte(m: seq<byte>, m': seq<byte>, h: nat, at: nat)
    requires Keeps(m, m', h) && h <= at < |m|
    ensures m'[at] == m[at]
  {
    assert m'[h..|m|][at - h] == m[h..][at - h];
  }

  lemma {:induction false} KeptWord(m: seq<byte>, m': seq<byte>, h: nat, at: nat)
    requires Keeps(m, m', h) && h <= at && at + 4 <= |m|
    ensures U32At(m', at) == U32At(m, at)
  {
    hide Keeps;
    KeptByte(m, m', h, at);
    KeptByte(m, m', h, at + 1);
    KeptByte(m, m', h, at + 2);
    KeptByte(m, m', h, at + 3);
  }

  lemma {:induction false} KeptString(m: seq<byte>, m': seq<byte>, h: nat, at: nat)
    requires Keeps(m, m', h) && h <= at && StringAt(m, at).Some?
    ensures StringAt(m', at) == StringAt(m, at)
    decreases |m| - at
  {
    hide Keeps;
    KeptByte(m, m', h, at);
    KeptLength(m, m', h);
    if m[at] != 0 {
      KeptString(m, m', h, at + 1);
    }
  }

  lemma {:induction false} KeptLength(m: seq<byte>, m': seq<byte>, h: nat)
    requires Keeps(m, m', h)
    ensures |m| <= |m'|
  {
  }

  lemma {:induction false} KeptRva(ss: seq<SectionHeader>, added: SectionHeader, h: nat, rva: dword)
    requires RvaToVa(ss, rva).Some? && forall k :: 0 <= k < |ss| ==> h <= ss[k].pRaw
    ensures RvaToVa(ss + [added], rva) == RvaToVa(ss, rva) && h <= RvaToVa(ss, rva).value
    decreases |ss|
  {
    assert (ss + [added])[1..] == ss[1..] + [added];
    if !(ss[0].va <= rva < ss[0].va + ss[0].cbRaw) {
      KeptRva(ss[1..], added, h, rva);
    }
  }

  lemma {:induction false} KeptNames(m: seq<byte>, m': seq<byte>, ss: seq<SectionHeader>, added: SectionHeader, h: nat,
                                     look: nat, origs: seq<Source>)
    requires Keeps(m, m', h) && h <= look && (forall k :: 0 <= k < |ss| ==> h <= ss[k].pRaw)
    requires OrigNames(m, ss, Some(look), origs)
    ensures OrigNames(m', ss + [added], Some(look), origs)
    decreases |origs|
  {
    hide Keeps, OrigSymbol, U32At;
    if origs != [] {
      KeptLength(m, m', h);
      KeptWord(m, m', h, look);
      KeptSymbol(m, m', ss, added, h, U32At(m, look));
      KeptNames(m, m', ss, added, h, look + 4, origs[1..]);
    }
  }

  lemma {:induction false} KeptSymbol(m: seq<byte>, m': seq<byte>, ss: seq<SectionHeader>, added: SectionHeader, h: nat,
                                      t: dword)
    requires Keeps(m, m', h) && (forall k :: 0 <= k < |ss| ==> h <= ss[k].pRaw) && OrigSymbol(m, ss, t).Some?
    ensures OrigSymbol(m', ss + [added], t) == OrigSymbol(m, ss, t)
  {
    hide Keeps, RvaToVa, StringAt, U16At;
    if t < ORDINAL_FLAG {
      KeptRva(ss, added, h, t);
      KeptLength(m, m', h);
      KeptString(m, m', h, RvaToVa(ss, t).value + 2);
    }
  }

  lemma {:induction false} KeptTable(m: seq<byte>, m': seq<byte>, ss: seq<SectionHeader>, added: SectionHeader, h: nat,
                                     o: nat, origs: seq<Orig>)
    requires Keeps(m, m', h) && h <= o && (forall k :: 0 <= k < |ss| ==> h <= ss[k].pRaw)
    requires OrigTable(m, ss, o, origs)
    ensures OrigTable(m', ss + [added], o, origs)
    decreases |origs|
  {
    hide Keeps, OrigNames, U32At, RvaToVa, StringAt;
    if origs != [] {
      KeptLength(m, m', h);
      KeptWord(m, m', h, o);
      KeptWord(m, m', h, o + 12);
      KeptRva(ss, added, h, U32At(m, o + 12));
      KeptString(m, m', h, RvaToVa(ss, U32At(m, o + 12)).value);
      if origs[0].symbols != [] {
        NamesLookUp(m, ss, RvaToVa(ss, U32At(m, o)), origs[0].symbols);
        KeptRva(ss, added, h, U32At(m, o));
        KeptNames(m, m', ss, added, h, RvaToVa(ss, U32At(m, o)).value, origs[0].symbols);
      } else {
        NoOrigNames(m', ss + [added], RvaToVa(ss + [added], U32At(m', o)));
      }
      KeptTable(m, m', ss, added, h, o + DESCRIPTOR_SIZE, origs[1..]);
    }
  }

  lemma {:induction false} NamesLookUp(m: seq<byte>, ss: seq<SectionHeader>, look: Option<nat>,
                                       origs: seq<Source>)
    requires OrigNames(m, ss, look, origs) && origs != []
    ensures look.Some?
  {
  }

  /**
   * The originals of an image read without a .detour section survive a rewrite that keeps its section data and
   * appends a section: the original table still describes them.
   */
  lemma {:induction false} OriginalsSurvive(m: seq<byte>, m': seq<byte>, ss: seq<SectionHeader>, added: SectionHeader,
                                            h: nat, i: nat, fs: seq<ImportFile>)
    requires ReadFiles(m, ss, i, i, 0, 0) == Some(fs)
    requires forall k, j :: 0 <= k < |fs| && 0 <= j < |fs[k].names| ==> HasOriginal(fs[k].names[j])
    requires Keeps(m, m', h) && h <= i && forall k :: 0 <= k < |ss| ==> h <= ss[k].pRaw
    ensures OrigTable(m', ss + [added], i, Origs(fs))
  {
    hide Keeps, ReadFiles, OrigTable, Origs, HasOriginal;
    FreshOrigs(m, ss, i, fs);
    KeptTable(m, m', ss, added, h, i, Origs(fs));
  }

  // ------------------------------------------------- the same sections in another file

  lemma {:induction false} SectionStart(ss: seq<SectionHeader>, h: nat, rva: dword)
    requires RvaToVa(ss, rva).Some? && forall k :: 0 <= k < |ss| ==> h <= ss[k].pRaw
    ensures h <= RvaToVa(ss, rva).value
    decreases |ss|
  {
    if !(ss[0].va <= rva < ss[0].va + ss[0].cbRaw) {
      SectionStart(ss[1..], h, rva);
    }
  }

  lemma {:induction false} KeptHintName(m: seq<byte>, m': seq<byte>, ss: seq<SectionHeader>, h: nat, rva: dword)
    requires Keeps(m, m', h) && (forall k :: 0 <= k < |ss| ==> h <= ss[k].pRaw) && !HintNameAt(m, ss, rva).Fault?
    ensures HintNameAt(m', ss, rva) == HintNameAt(m, ss, rva)
  {
    hide Keeps, StringAt, RvaToVa;
    if RvaToVa(ss, rva).Some? {
      var p := RvaToVa(ss, rva).value;
      SectionStart(ss, h, rva);
      KeptLength(m, m', h);
      KeptString(m, m', h, p + 2);
      KeptByte(m, m', h, p);
      KeptByte(m, m', h, p + 1);
    }
  }

  lemma {:induction false} KeptName(m: seq<byte>, m': seq<byte>, ss: seq<SectionHeader>, h: nat, thunk: dword,
                                    look: Option<nat>)
    requires Keeps(m, m', h) && (forall k :: 0 <= k < |ss| ==> h <= ss[k].pRaw) && (look.Some? ==> h <= look.value)
    requires ReadName(m, ss, thunk, look).Some?
    ensures ReadName(m', ss, thunk, look) == ReadName(m, ss, thunk, look)
  {
    hide Keeps, HintNameAt, U32At;
    if thunk < ORDINAL_FLAG {
      KeptHintName(m, m', ss, h, thunk);
      KeptLength(m, m', h);
      KeptWord(m, m', h, look.value);
      if U32At(m, look.value) < ORDINAL_FLAG {
        KeptHintName(m, m', ss, h, U32At(m, look.value));
      }
    }
  }

  lemma {:induction false} KeptReadNames(m: seq<byte>, m': seq<byte>, ss: seq<SectionHeader>, h: nat, a: nat,
                                         look: Option<nat>)
    requires Keeps(m, m', h) && (forall k :: 0 <= k < |ss| ==> h <= ss[k].pRaw) && (look.Some? ==> h <= look.value)
    requires h <= a && ReadNames(m, ss, a, look).Some?
    ensures ReadNames(m', ss, a, look) == ReadNames(m, ss, a, look)
    decreases |m| - a
  {
    hide Keeps, ReadName, U32At;
    KeptLength(m, m', h);
    KeptWord(m, m', h, a);
    if U32At(m, a) != 0 {
      KeptName(m, m', ss, h, U32At(m, a), look);
      KeptReadNames(m, m', ss, h, a + 4, Next(look, 4));
    }
  }

  lemma {:induction false} KeptStringAt(m: seq<byte>, m': seq<byte>, ss: seq<SectionHeader>, h: nat, rva: dword)
    requires Keeps(m, m', h) && (forall k :: 0 <= k < |ss| ==> h <= ss[k].pRaw) && StringAtRva(m, ss, rva).Some?
    ensures StringAtRva(m', ss, rva) == StringAtRva(m, ss, rva)
  {
    hide Keeps, StringAt, RvaToVa;
    SectionStart(ss, h, rva);
    KeptString(m, m', h, RvaToVa(ss, rva).value);
  }

  lemma {:induction false} KeptFile(m: seq<byte>, m': seq<byte>, ss: seq<SectionHeader>, h: nat, i: nat, o: nat,
                                    beg: nat, end: nat)
    requires Keeps(m, m', h) && (forall k :: 0 <= k < |ss| ==> h <= ss[k].pRaw) && h <= i && h <= o
    requires i + 4 <= |m| && ReadFile(m, ss, i, o, beg, end).Some?
    ensures i + 4 <= |m'| && ReadFile(m', ss, i, o, beg, end) == ReadFile(m, ss, i, o, beg, end)
  {
    hide Keeps, ReadNames, U32At, StringAtRva, RvaToVa;
    KeptLength(m, m', h);
    KeptWord(m, m', h, i);
    KeptWord(m, m', h, i + 8);
    KeptWord(m, m', h, i + 12);
    KeptWord(m, m', h, i + 16);
    KeptStringAt(m, m', ss, h, U32At(m, i + 12));
    if !(beg <= U32At(m, i + 16) < end) {
      KeptWord(m, m', h, o);
      KeptWord(m, m', h, o + 12);
      KeptStringAt(m, m', ss, h, U32At(m, o + 12));
      if RvaToVa(ss, U32At(m, o)).Some? {
        SectionStart(ss, h, U32At(m, o));
      }
      if RvaToVa(ss, U32At(m, i)).Some? {
        SectionStart(ss, h, U32At(m, i));
        KeptReadNames(m, m', ss, h, RvaToVa(ss, U32At(m, i)).value, RvaToVa(ss, U32At(m, o)));
      }
    }
  }

  /** A file that keeps the sections of another has the same import list in the same table. */
  lemma {:induction false} KeptFiles(m: seq<byte>, m': seq<byte>, ss: seq<SectionHeader>, h: nat, i: nat, o: nat,
                                     beg: nat, end: nat)
    requires Keeps(m, m', h) && (forall k :: 0 <= k < |ss| ==> h <= ss[k].pRaw) && h <= i && h <= o
    requires ReadFiles(m, ss, i, o, beg, end).Some?
    ensures ReadFiles(m', ss, i, o, beg, end) == ReadFiles(m, ss, i, o, beg, end)
    decreases |m| - i
  {
    hide Keeps, ReadFile, U32At;
    KeptLength(m, m', h);
    KeptWord(m, m', h, i);
    if U32At(m, i) != 0 {
      KeptFile(m, m', ss, h, i, o, beg, end);
      KeptFiles(m, m', ss, h, i + DESCRIPTOR_SIZE, NextOriginal(o, ReadFile(m, ss, i, o, beg, end).value), beg, end);
    }
  }
}
