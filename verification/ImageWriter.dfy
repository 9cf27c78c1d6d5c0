/** Writing the .detour section of an image: CImage's output buffer filled with header, payloads and imports. */
module ImageWriter {
  import opened Bytes
  import opened PayloadRecords
  import opened PayloadStore
  import opened ImportLayout
  import opened ImageOutput

  // ---------------------------------------------------- stepping through imports

  /** The three table writers and the descriptor cursor stand right behind what was emitted so far. */
  ghost predicate Ready(mem: array<byte>, look: CImageThunks, bound: CImageThunks, chars: CImageChars,
                        l: Layout, room: Room, e: Emission, v: nat)
    reads mem, look, bound, chars
  {
    && look.Valid() && bound.Valid() && chars.Valid() && look.mem == bound.mem == chars.mem == mem
    && look != bound
    && look.m_nThunksMax == bound.m_nThunksMax == room.nThunks && chars.m_nCharsMax == room.nChars
    && look.m_nThunks == |e.look| && look.m_pThunks == l.look + 4 * |e.look|
    && look.m_nThunkVirtAddr == v + look.m_pThunks
    && bound.m_nThunks == |e.bound| && bound.m_pThunks == l.bound + 4 * |e.bound|
    && bound.m_nThunkVirtAddr == v + bound.m_pThunks
    && chars.m_nChars == |e.text| && chars.m_pChars == l.text + |e.text| && chars.m_nCharVirtAddr == v + chars.m_pChars
    && Emitted(mem[..], l, room, e) && v + l.end < 0x8000_0000
  }

  method PutLook(mem: array<byte>, look: CImageThunks, bound: CImageThunks, chars: CImageChars, t: dword,
                 ghost l: Layout, ghost room: Room, ghost e: Emission, ghost v: nat) returns (rva: nat)
    requires Ready(mem, look, bound, chars, l, room, e, v) && |e.look| < room.nThunks
    modifies mem, look
    ensures Ready(mem, look, bound, chars, l, room, e.(look := e.look + [t]), v)
    ensures rva == v + l.look + 4 * |e.look| && rva < 0x8000_0000
  {
    hide Emitted;
    EmittedFits(mem[..], l, room, e);
    EmitLook(mem[..], l, room, e, t);
    var pThunk;
    pThunk, rva := look.Allocate(t);
  }

  method PutBound(mem: array<byte>, look: CImageThunks, bound: CImageThunks, chars: CImageChars, t: dword,
                  ghost l: Layout, ghost room: Room, ghost e: Emission, ghost v: nat) returns (rva: nat)
    requires Ready(mem, look, bound, chars, l, room, e, v) && |e.bound| < room.nThunks
    modifies mem, bound
    ensures Ready(mem, look, bound, chars, l, room, e.(bound := e.bound + [t]), v)
    ensures rva == v + l.bound + 4 * |e.bound| && rva < 0x8000_0000
  {
    hide Emitted;
    EmittedFits(mem[..], l, room, e);
    EmitBound(mem[..], l, room, e, t);
    var pThunk;
    pThunk, rva := bound.Allocate(t);
  }

  method PutName(mem: array<byte>, look: CImageThunks, bound: CImageThunks, chars: CImageChars, s: seq<byte>,
                 ghost l: Layout, ghost room: Room, ghost e: Emission, ghost v: nat) returns (rva: nat)
    requires Ready(mem, look, bound, chars, l, room, e, v) && |e.text| + |NameText(s)| <= room.nChars
    modifies mem, chars
    ensures Ready(mem, look, bound, chars, l, room, e.(text := e.text + NameText(s)), v)
    ensures rva == v + l.text + |e.text| && rva < 0x8000_0000
  {
    hide Emitted, EvenPad;
    EmittedFits(mem[..], l, room, e);
    EmitText(mem[..], l, room, e, s + [0]);
    rva := chars.AllocateName(s);
  }

  method PutHint(mem: array<byte>, look: CImageThunks, bound: CImageThunks, chars: CImageChars, s: seq<byte>,
                 hint: word, ghost l: Layout, ghost room: Room, ghost e: Emission, ghost v: nat) returns (rva: nat)
    requires Ready(mem, look, bound, chars, l, room, e, v) && |e.text| + |HintText(hint, s)| <= room.nChars
    modifies mem, chars
    ensures Ready(mem, look, bound, chars, l, room, e.(text := e.text + HintText(hint, s)), v)
    ensures rva == v + l.text + |e.text| && rva < 0x8000_0000
  {
    hide Emitted, EvenPad, LE16;
    EmittedFits(mem[..], l, room, e);
    EmitText(mem[..], l, room, e, LE16(hint) + (s + [0]));
    rva := chars.AllocateHint(s, hint);
  }

  lemma {:induction false} EmittedFits(m: seq<byte>, l: Layout, room: Room, e: Emission)
    requires Emitted(m, l, room, e)
    ensures Apart(l, room) && Fits(e, room) && l.end <= |m|
    ensures l.look <= l.bound && l.bound <= l.text && l.text <= l.data
  {
    hide Stands, ZeroRange, ThunkBytes;
  }

  /** The loop over the symbols of a file that is no byway. */
  method EmitSymbols(mem: array<byte>, look: CImageThunks, bound: CImageThunks, chars: CImageChars,
                     names: seq<ImportName>, ghost l: Layout, ghost room: Room, ghost e0: Emission, ghost v: nat)
    requires Ready(mem, look, bound, chars, l, room, e0, v)
    requires |e0.look| + |names| <= room.nThunks && |e0.text| + |SymTexts(names)| <= room.nChars
    modifies mem, look, chars
    ensures Ready(mem, look, bound, chars, l, room,
                  e0.(look := e0.look + SymThunks(names, v + l.text + |e0.text|), text := e0.text + SymTexts(names)), v)
  {
    hide Ready, HintText;
    var n := 0;
    ghost var e := e0;
    ghost var look1, text1 := e0.look + SymThunks(names, v + l.text + |e0.text|), e0.text + SymTexts(names);
    while n < |names|
      invariant n <= |names| && e == e0.(look := e.look, text := e.text)
      invariant Ready(mem, look, bound, chars, l, room, e, v)
      invariant e.look + SymThunks(names[n..], v + l.text + |e.text|) == look1
      invariant e.text + SymTexts(names[n..]) == text1
      invariant |e.look| + |names[n..]| <= room.nThunks && |e.text| + |SymTexts(names[n..])| <= room.nChars
    {
      ghost var rest := names[n + 1..];
      assert names[n..][1..] == rest;
      SymbolStep(names[n..], v + l.text + |e.text|, e.look, e.text);
      e := EmitSymbol(mem, look, bound, chars, names[n], l, room, e, v);
      n := n + 1;
    }
    assert e.look + [] == e.look && e.text + [] == e.text;
  }

  lemma {:induction false} Joins<T>(a: seq<T>, b: seq<T>, c: seq<T>)
    ensures a + (b + c) == (a + b) + c
  {
  }

  lemma {:induction false} SymbolStep(names: seq<ImportName>, rva: nat, look: seq<dword>, text: seq<byte>)
    requires names != []
    ensures look + SymThunks(names, rva)
         == (look + [SymThunk(names[0], rva)]) + SymThunks(names[1..], rva + |SymText(names[0])|)
    ensures text + SymTexts(names) == (text + SymText(names[0])) + SymTexts(names[1..])
    ensures |SymTexts(names)| == |SymText(names[0])| + |SymTexts(names[1..])|
  {
    hide SymText, SymThunk;
    Joins(look, [SymThunk(names[0], rva)], SymThunks(names[1..], rva + |SymText(names[0])|));
    Joins(text, SymText(names[0]), SymTexts(names[1..]));
  }

  method EmitSymbol(mem: array<byte>, look: CImageThunks, bound: CImageThunks, chars: CImageChars, n: ImportName,
                    ghost l: Layout, ghost room: Room, ghost e: Emission, ghost v: nat) returns (ghost e': Emission)
    requires Ready(mem, look, bound, chars, l, room, e, v)
    requires |e.look| < room.nThunks && |e.text| + |SymText(n)| <= room.nChars
    modifies mem, look, chars
    ensures e' == e.(look := e.look + [SymThunk(n, v + l.text + |e.text|)], text := e.text + SymText(n))
    ensures Ready(mem, look, bound, chars, l, room, e', v)
  {
    hide Ready, HintText;
    e' := e.(look := e.look + [SymThunk(n, v + l.text + |e.text|)], text := e.text + SymText(n));
    var rvaIgnored;
    if n.pszName.Some? {
      var nDstName := PutHint(mem, look, bound, chars, n.pszName.value, n.nHint, l, room, e, v);
      rvaIgnored := PutLook(mem, look, bound, chars, nDstName, l, room, e.(text := e.text + SymText(n)), v);
    } else {
      assert e.text + [] == e.text;
      rvaIgnored := PutLook(mem, look, bound, chars, WrapAddr(ORDINAL_FLAG + n.nOrdinal), l, room, e, v);
    }
  }

  /** The body of the loop over the import files; `piidDst` is the descriptor to fill in. */
  method EmitFile(mem: array<byte>, look: CImageThunks, bound: CImageThunks, chars: CImageChars, piidDst: nat,
                  f: ImportFile, ghost l: Layout, ghost room: Room, ghost e: Emission, ghost v: nat)
    returns (ghost e': Emission)
    requires Ready(mem, look, bound, chars, l, room, e, v) && piidDst == l.table + |e.table|
    requires FileFits(e, f, room)
    modifies mem, look, bound, chars
    ensures e' == AfterFile(e, f, l, room, v) && Ready(mem, look, bound, chars, l, room, e', v)
  {
    hide Ready, NameText, FileText, FileLookup, Descriptor, FileThunks, FileBound;
    FileSizes(f);
    ghost var e1 := e.(text := e.text + NameText(f.pszName));
    var rvaName := PutName(mem, look, bound, chars, f.pszName, l, room, e, v);
    if f.fByway {
      BywayParts(f, v + l.text + |e.text|);
      FinishByway(mem, look, bound, chars, piidDst, f, rvaName, l, room, e1, v);
    } else {
      PlainParts(e, f, v + l.text + |e.text|);
      FinishPlain(mem, look, bound, chars, piidDst, f, rvaName, l, room, e1, v);
    }
    e' := AfterFile(e, f, l, room, v);
  }

  method FinishByway(mem: array<byte>, look: CImageThunks, bound: CImageThunks, chars: CImageChars, piidDst: nat,
                     f: ImportFile, rvaName: dword, ghost l: Layout, ghost room: Room, ghost e: Emission, ghost v: nat)
    requires Ready(mem, look, bound, chars, l, room, e, v) && piidDst == l.table + |e.table| && f.fByway
    requires |e.look| + 2 <= room.nThunks && |e.bound| + 2 <= room.nThunks
             && |e.table| + DESCRIPTOR_SIZE <= 20 * room.nTables
    modifies mem, look, bound, chars
    ensures Ready(mem, look, bound, chars, l, room,
                  e.(look := e.look + BYWAY_THUNKS, bound := e.bound + BYWAY_THUNKS,
                     table := e.table + Descriptor(f, room.nThunks, v + l.look + 4 * |e.look|,
                                                   v + l.bound + 4 * |e.bound|, rvaName)), v)
  {
    hide Ready, LE32;
    var rvaLookup, rvaFirst := EmitByway(mem, look, bound, chars, l, room, e, v);
    var d := LE32(rvaLookup) + LE32(0) + LE32(f.nForwarderChain) + LE32(rvaName) + LE32(rvaFirst);
    PutDescriptor(mem, look, bound, chars, piidDst, d, l, room,
                  e.(look := e.look + BYWAY_THUNKS, bound := e.bound + BYWAY_THUNKS), v);
  }

  method FinishPlain(mem: array<byte>, look: CImageThunks, bound: CImageThunks, chars: CImageChars, piidDst: nat,
                     f: ImportFile, rvaName: dword, ghost l: Layout, ghost room: Room, ghost e: Emission, ghost v: nat)
    requires Ready(mem, look, bound, chars, l, room, e, v) && piidDst == l.table + |e.table| && !f.fByway
    requires |e.look| + |f.names| + 1 <= room.nThunks && |e.text| + |SymTexts(f.names)| <= room.nChars
    requires |e.table| + DESCRIPTOR_SIZE <= 20 * room.nTables
    modifies mem, look, bound, chars
    ensures Ready(mem, look, bound, chars, l, room,
                  e.(look := (e.look + SymThunks(f.names, v + l.text + |e.text|)) + [0],
                     text := e.text + SymTexts(f.names),
                     table := e.table + Descriptor(f, room.nThunks, v + l.look + 4 * |e.look|,
                                                   v + l.bound + 4 * |e.bound|, rvaName)), v)
  {
    hide Ready, LE32, SymThunks, SymTexts;
    var rvaLookup := CurrentLook(mem, look, bound, chars, l, room, e, v);
    ghost var e1 := EmitNames(mem, look, bound, chars, f.names, l, room, e, v);
    var d := LE32(rvaLookup) + LE32(0) + LE32(f.nForwarderChain) + LE32(rvaName) + LE32(f.rvaFirstThunk);
    PutDescriptor(mem, look, bound, chars, piidDst, d, l, room, e1, v);
  }

  /** The tables have room for one more file. */
  predicate FileFits(e: Emission, f: ImportFile, room: Room) {
    && |e.look| + FileThunks(f) <= room.nThunks && |e.bound| + |FileBound(f)| <= room.nThunks
    && |e.text| + |FileText(f)| <= room.nChars && |e.table| + DESCRIPTOR_SIZE <= 20 * room.nTables
  }

  function AfterFile(e: Emission, f: ImportFile, l: Layout, room: Room, v: nat): Emission {
    e.(look := e.look + FileLookup(f, v + l.text + |e.text|),
       bound := e.bound + FileBound(f),
       text := e.text + FileText(f),
       table := e.table + Descriptor(f, room.nThunks, v + l.look + 4 * |e.look|, v + l.bound + 4 * |e.bound|,
                                     v + l.text + |e.text|))
  }

  lemma {:induction false} FileSizes(f: ImportFile)
    ensures |FileText(f)| == |NameText(f.pszName)| + if f.fByway then 0 else |SymTexts(f.names)|
    ensures FileThunks(f) == (if f.fByway then 2 else |f.names| + 1) && |FileBound(f)| == if f.fByway then 2 else 0
  {
    hide NameText, SymTexts;
  }

  lemma {:induction false} BywayParts(f: ImportFile, rva: nat)
    requires f.fByway
    ensures FileText(f) == NameText(f.pszName) && FileLookup(f, rva) == FileBound(f) == BYWAY_THUNKS
  {
    hide NameText;
  }

  lemma {:induction false} PlainParts(e: Emission, f: ImportFile, rva: nat)
    requires !f.fByway
    ensures e.text + FileText(f) == (e.text + NameText(f.pszName)) + SymTexts(f.names)
    ensures e.look + FileLookup(f, rva) == (e.look + SymThunks(f.names, rva + |NameText(f.pszName)|)) + [0]
    ensures e.bound + FileBound(f) == e.bound
  {
    hide NameText, SymTexts, SymThunks;
  }

  method CurrentLook(mem: array<byte>, look: CImageThunks, bound: CImageThunks, chars: CImageChars,
                     ghost l: Layout, ghost room: Room, ghost e: Emission, ghost v: nat) returns (rva: dword)
    requires Ready(mem, look, bound, chars, l, room, e, v)
    ensures rva == if room.nThunks > 1 then WrapAddr(v + l.look + 4 * |e.look|) else 0
  {
    hide Emitted;
    EmittedFits(mem[..], l, room, e);
    rva := look.Current();
  }

  /** Ordinal 1 and a terminator, in both the lookup and the bound table. */
  method EmitByway(mem: array<byte>, look: CImageThunks, bound: CImageThunks, chars: CImageChars, ghost l: Layout,
                   ghost room: Room, ghost e: Emission, ghost v: nat) returns (rvaLookup: dword, rvaBound: dword)
    requires Ready(mem, look, bound, chars, l, room, e, v)
    requires |e.look| + 2 <= room.nThunks && |e.bound| + 2 <= room.nThunks
    modifies mem, look, bound
    ensures rvaLookup == WrapAddr(v + l.look + 4 * |e.look|) && rvaBound == WrapAddr(v + l.bound + 4 * |e.bound|)
    ensures Ready(mem, look, bound, chars, l, room, e.(look := e.look + BYWAY_THUNKS, bound := e.bound + BYWAY_THUNKS),
                  v)
  {
    hide Ready;
    ghost var one: dword := 0x8000_0001;
    assert (e.look + [one]) + [0] == e.look + BYWAY_THUNKS && (e.bound + [one]) + [0] == e.bound + BYWAY_THUNKS;
    rvaLookup := PutLook(mem, look, bound, chars, ORDINAL_FLAG + 1, l, room, e, v);
    ghost var e1 := e.(look := e.look + [one]);
    rvaBound := PutBound(mem, look, bound, chars, ORDINAL_FLAG + 1, l, room, e1, v);
    e1 := e1.(bound := e.bound + [one]);
    var rvaIgnored := PutLook(mem, look, bound, chars, 0, l, room, e1, v);
    e1 := e1.(look := e.look + BYWAY_THUNKS);
    rvaIgnored := PutBound(mem, look, bound, chars, 0, l, room, e1, v);
  }

  /** The symbols and their terminator. */
  method EmitNames(mem: array<byte>, look: CImageThunks, bound: CImageThunks, chars: CImageChars,
                   names: seq<ImportName>, ghost l: Layout, ghost room: Room, ghost e: Emission, ghost v: nat)
    returns (ghost e': Emission)
    requires Ready(mem, look, bound, chars, l, room, e, v)
    requires |e.look| + |names| + 1 <= room.nThunks && |e.text| + |SymTexts(names)| <= room.nChars
    modifies mem, look, chars
    ensures e' == e.(look := (e.look + SymThunks(names, v + l.text + |e.text|)) + [0], text := e.text + SymTexts(names))
    ensures Ready(mem, look, bound, chars, l, room, e', v)
  {
    hide Ready, SymTexts, SymThunks;
    EmitSymbols(mem, look, bound, chars, names, l, room, e, v);
    e' := e.(look := e.look + SymThunks(names, v + l.text + |e.text|), text := e.text + SymTexts(names));
    var rvaIgnored := PutLook(mem, look, bound, chars, 0, l, room, e', v);
    e' := e'.(look := e'.look + [0]);
  }

  method PutDescriptor(mem: array<byte>, look: CImageThunks, bound: CImageThunks, chars: CImageChars, piidDst: nat,
                       d: seq<byte>, ghost l: Layout, ghost room: Room, ghost e: Emission, ghost v: nat)
    requires Ready(mem, look, bound, chars, l, room, e, v) && piidDst == l.table + |e.table|
    requires |e.table| + |d| <= 20 * room.nTables
    modifies mem
    ensures Ready(mem, look, bound, chars, l, room, e.(table := e.table + d), v)
  {
    hide Emitted, Blit;
    EmitTable(mem[..], l, room, e, d);
    CopyMemory(mem, piidDst, d);
  }

  /** The emission after the files still to come. */
  function AfterFiles(e: Emission, fs: seq<ImportFile>, l: Layout, room: Room, v: nat): Emission {
    e.(look := e.look + Lookups(fs, v + l.text + |e.text|),
       bound := e.bound + Bounds(fs),
       text := e.text + Texts(fs),
       table := e.table + Descriptors(fs, room.nThunks, v + l.look + 4 * |e.look|, v + l.bound + 4 * |e.bound|,
                                      v + l.text + |e.text|))
  }

  /** The tables have room for all the files still to come. */
  predicate FilesFit(e: Emission, fs: seq<ImportFile>, room: Room) {
    && |e.look| + Thunks(fs) <= room.nThunks && |e.bound| + |Bounds(fs)| <= room.nThunks
    && |e.text| + |Texts(fs)| <= room.nChars && |e.table| + DESCRIPTOR_SIZE * |fs| <= 20 * room.nTables
  }

  lemma {:induction false} LookStep(look: seq<dword>, fs: seq<ImportFile>, rva: nat)
    requires fs != []
    ensures look + Lookups(fs, rva) == (look + FileLookup(fs[0], rva)) + Lookups(fs[1..], rva + |FileText(fs[0])|)
  {
    hide FileLookup, FileText;
    Joins(look, FileLookup(fs[0], rva), Lookups(fs[1..], rva + |FileText(fs[0])|));
  }

  lemma {:induction false} BoundStep(bound: seq<dword>, fs: seq<ImportFile>)
    requires fs != []
    ensures bound + Bounds(fs) == (bound + FileBound(fs[0])) + Bounds(fs[1..])
  {
    hide FileBound;
    Joins(bound, FileBound(fs[0]), Bounds(fs[1..]));
  }

  lemma {:induction false} TextStep(text: seq<byte>, fs: seq<ImportFile>)
    requires fs != []
    ensures text + Texts(fs) == (text + FileText(fs[0])) + Texts(fs[1..])
  {
    hide FileText;
    Joins(text, FileText(fs[0]), Texts(fs[1..]));
  }

  lemma {:induction false} TableStep(table: seq<byte>, fs: seq<ImportFile>, n: nat, look: nat, bound: nat, text: nat)
    requires fs != []
    ensures table + Descriptors(fs, n, look, bound, text)
         == (table + Descriptor(fs[0], n, look, bound, text))
            + Descriptors(fs[1..], n, look + 4 * FileThunks(fs[0]), bound + 4 * |FileBound(fs[0])|,
                          text + |FileText(fs[0])|)
  {
    hide FileText, FileBound, FileThunks, Descriptor;
    Joins(table, Descriptor(fs[0], n, look, bound, text),
          Descriptors(fs[1..], n, look + 4 * FileThunks(fs[0]), bound + 4 * |FileBound(fs[0])|,
                      text + |FileText(fs[0])|));
  }

  lemma {:induction false} FilesStep(e: Emission, fs: seq<ImportFile>, l: Layout, room: Room, v: nat)
    requires fs != []
    ensures AfterFiles(e, fs, l, room, v) == AfterFiles(AfterFile(e, fs[0], l, room, v), fs[1..], l, room, v)
  {
    hide FileLookup, FileText, FileBound, Descriptor, FileThunks, Lookups, Bounds, Texts, Descriptors;
    LookStep(e.look, fs, v + l.text + |e.text|);
    BoundStep(e.bound, fs);
    TextStep(e.text, fs);
    TableStep(e.table, fs, room.nThunks, v + l.look + 4 * |e.look|, v + l.bound + 4 * |e.bound|, v + l.text + |e.text|);
  }

  lemma {:induction false} FilesFitStep(e: Emission, fs: seq<ImportFile>, l: Layout, room: Room, v: nat)
    requires fs != [] && FilesFit(e, fs, room)
    ensures FileFits(e, fs[0], room) && FilesFit(AfterFile(e, fs[0], l, room, v), fs[1..], room)
  {
    hide FileLookup, FileText, FileBound, Descriptor, FileThunks;
  }

  lemma {:induction false} NoFiles(e: Emission, l: Layout, room: Room, v: nat)
    ensures AfterFiles(e, [], l, room, v) == e
  {
    assert e.look + [] == e.look && e.bound + [] == e.bound && e.text + [] == e.text && e.table + [] == e.table;
  }

  /** A detour section header; `others` are the fields behind the data size. */
  function SectionHead(nDataOffset: dword, cbDataSize: dword, others: seq<byte>): seq<byte> {
    LE32(64) + LE32(0x0072_7444) + LE32(nDataOffset) + LE32(cbDataSize) + others
  }

  /** Everything the section holds: header and PE prefix, tables, payloads, and descriptors with their terminator. */
  function SectionImage(files: seq<ImportFile>, prePE: seq<byte>, data: seq<byte>, others: seq<byte>, l: Layout,
                        room: Room, v: nat): Emission
    requires l.data + |data| < ADDRESS_SPACE
  {
    var e := AfterFiles(Emission(SectionHead(l.data, l.data + |data|, others) + prePE, [], [], [], data, []), files, l,
                        room, v);
    e.(table := e.table + [0, 0, 0, 0])
  }

  const DETOUR_HEADER_SIZE: nat := 64

  /** Table writers at the start of their tables. */
  ghost predicate CursorsAt(mem: array<byte>, look: CImageThunks, bound: CImageThunks, chars: CImageChars,
                            l: Layout, room: Room, v: nat)
    reads look, bound, chars
  {
    && look.Valid() && bound.Valid() && chars.Valid() && look.mem == bound.mem == chars.mem == mem
    && look.m_nThunksMax == bound.m_nThunksMax == room.nThunks && chars.m_nCharsMax == room.nChars
    && look.m_nThunks == 0 && look.m_pThunks == l.look && look.m_nThunkVirtAddr == v + l.look
    && bound.m_nThunks == 0 && bound.m_pThunks == l.bound && bound.m_nThunkVirtAddr == v + l.bound
    && chars.m_nChars == 0 && chars.m_pChars == l.text && chars.m_nCharVirtAddr == v + l.text
  }

  lemma {:induction false} ZeroGrows(m: seq<byte>, at: nat, cb: nat)
    requires ZeroRange(m, 0, at) && at + cb <= |m|
    ensures ZeroRange(Blit(m, at, seq(cb, _ => 0)), 0, at + cb)
  {
  }

  lemma {:induction false} NothingYet(m: seq<byte>)
    ensures ZeroRange(m, 0, 0)
  {
  }

  /** Each block starts where the one before it ends. */
  lemma {:induction false} LayoutChain(cbPre: nat, nThunks: nat, nChars: nat, cbData: nat, nTables: nat)
    ensures var l := LayoutOf(cbPre, nThunks, nChars, cbData, nTables);
            && NextBlock(0, 64) == 64 && NextBlock(64, cbPre) == l.look && NextBlock(l.look, 4 * nThunks) == l.bound
            && NextBlock(l.bound, 4 * nThunks) == l.text && NextBlock(l.text, nChars) == l.data
            && NextBlock(l.data, cbData) == l.table && NextBlock(l.table, 20 * nTables) == l.end
            && l.look <= l.bound <= l.text <= l.data <= l.table <= l.end
  {
  }

  class CImage {
    const fileAlignment: nat
    var m_pbOutputBuffer: array?<byte>
    var m_cbOutputBuffer: nat
    var m_nOutputVirtAddr: nat
    var m_nOutputVirtSize: nat
    var m_pImportFiles: seq<ImportFile>
    ghost var units: nat

    /** The buffer is a whole number of file alignments, which are powers of two from eight on. */
    ghost predicate Valid()
      reads this
    {
      && fileAlignment > 0 && fileAlignment % 8 == 0
      && m_cbOutputBuffer == units * fileAlignment
      && (if m_pbOutputBuffer == null then m_cbOutputBuffer == 0 else m_cbOutputBuffer == m_pbOutputBuffer.Length)
    }

    constructor (fileAlignment: nat, files: seq<ImportFile>)
      requires fileAlignment > 0 && fileAlignment % 8 == 0
      ensures Valid() && m_pbOutputBuffer == null && this.fileAlignment == fileAlignment && m_pImportFiles == files
    {
      this.fileAlignment, m_pImportFiles := fileAlignment, files;
      m_pbOutputBuffer, m_cbOutputBuffer, m_nOutputVirtAddr, m_nOutputVirtSize, units := null, 0, 0, 0, 0;
    }

    method SizeOutputBuffer(cbData0: nat, haveMemory: bool) returns (ok: bool)
      requires Valid()
      modifies `m_pbOutputBuffer, `m_cbOutputBuffer, `units
      ensures Valid() && (m_pbOutputBuffer == old(m_pbOutputBuffer) || fresh(m_pbOutputBuffer))
      ensures ok <==> cbData0 <= old(m_cbOutputBuffer) || haveMemory
      ensures ok ==> cbData0 <= m_cbOutputBuffer && m_cbOutputBuffer % 8 == 0
      ensures ok && cbData0 > 0 ==> m_pbOutputBuffer != null
    {
      UnitsAreQuads(units, fileAlignment);
      if m_cbOutputBuffer < cbData0 {
        var cbData := cbData0;
        if cbData < 1024 {
          cbData := 1024;
        }
        AlignBounds(cbData, fileAlignment);
        ghost var q := (cbData + (fileAlignment - 1)) / fileAlignment;
        UnitsAreQuads(q, fileAlignment);
        cbData := Align(cbData, fileAlignment);
        if !haveMemory {
          return false;
        }
        var pOutput := new byte[cbData];
        if m_pbOutputBuffer != null {
          forall i | 0 <= i < m_cbOutputBuffer {
            pOutput[i] := m_pbOutputBuffer[i];
          }
        }
        forall i | m_cbOutputBuffer <= i < cbData {
          pOutput[i] := 0;
        }
        m_pbOutputBuffer, m_cbOutputBuffer, units := pOutput, cbData, q;
      }
      return true;
    }

    /** Take the next block of the buffer, rounded up to eight bytes and zeroed. */
    method AllocateOutput(cbData0: nat) returns (pbData: Option<nat>, va: nat)
      requires Valid() && m_pbOutputBuffer != null
      modifies `m_nOutputVirtSize, m_pbOutputBuffer
      ensures Valid() && va == m_nOutputVirtAddr + old(m_nOutputVirtSize)
      ensures m_nOutputVirtSize == old(m_nOutputVirtSize) + QuadAlign(cbData0)
      ensures pbData.Some? <==> m_nOutputVirtSize <= m_cbOutputBuffer
      ensures pbData.Some? ==>
                && pbData.value == old(m_nOutputVirtSize)
                && m_pbOutputBuffer[..]
                   == Blit(old(m_pbOutputBuffer[..]), pbData.value, seq(QuadAlign(cbData0), _ => 0))
      ensures pbData.None? ==> m_pbOutputBuffer[..] == old(m_pbOutputBuffer[..])
    {
      hide QuadAlign, Blit;
      var cbData := QuadAlign(cbData0);
      var pb := m_nOutputVirtSize;
      va := m_nOutputVirtAddr + m_nOutputVirtSize;
      m_nOutputVirtSize := m_nOutputVirtSize + cbData;
      if m_nOutputVirtSize > m_cbOutputBuffer {
        return None, va;
      }
      ZeroMemory(m_pbOutputBuffer, pb, cbData);
      return Some(pb), va;
    }

    /** The loop over the import files, and the terminating descriptor. */
    method EmitImports(look: CImageThunks, bound: CImageThunks, chars: CImageChars, piidTable: nat,
                       ghost l: Layout, ghost room: Room, ghost e0: Emission, ghost v: nat)
      requires m_pbOutputBuffer != null && Ready(m_pbOutputBuffer, look, bound, chars, l, room, e0, v)
      requires piidTable == l.table && e0.table == [] && FilesFit(e0, m_pImportFiles, room)
      requires 20 * |m_pImportFiles| + 4 <= 20 * room.nTables
      modifies m_pbOutputBuffer, look, bound, chars
      ensures var e := AfterFiles(e0, m_pImportFiles, l, room, v);
              Emitted(m_pbOutputBuffer[..], l, room, e.(table := e.table + [0, 0, 0, 0]))
    {
      hide Ready, AfterFile, AfterFiles, FileFits, FilesFit;
      var k, piidDst := 0, piidTable;
      ghost var e := e0;
      while k < |m_pImportFiles|
        invariant k <= |m_pImportFiles| && piidDst == l.table + |e.table| && |e.table| == 20 * k
        invariant Ready(m_pbOutputBuffer, look, bound, chars, l, room, e, v)
        invariant FilesFit(e, m_pImportFiles[k..], room)
        invariant AfterFiles(e, m_pImportFiles[k..], l, room, v) == AfterFiles(e0, m_pImportFiles, l, room, v)
      {
        FilesStep(e, m_pImportFiles[k..], l, room, v);
        FilesFitStep(e, m_pImportFiles[k..], l, room, v);
        assert m_pImportFiles[k..][1..] == m_pImportFiles[k + 1..];
        TableGrows(e, m_pImportFiles[k], l, room, v);
        e := EmitFile(m_pbOutputBuffer, look, bound, chars, piidDst, m_pImportFiles[k], l, room, e, v);
        piidDst := piidDst + DESCRIPTOR_SIZE;
        k := k + 1;
      }
      assert m_pImportFiles[k..] == [];
      NoFiles(e, l, room, v);
      Terminate(look, bound, chars, piidDst, l, room, e, v);
    }

    /** AllocateOutput for a block known to fit, behind blocks that are still all zero. */
    method AllocateZeroed(ghost at: quad, cbData: nat, ghost limit: nat) returns (pb: nat, va: nat)
      requires Valid() && m_pbOutputBuffer != null && m_nOutputVirtSize == at
               && NextBlock(at, cbData) <= limit <= m_cbOutputBuffer
      requires ZeroRange(m_pbOutputBuffer[..], 0, at)
      modifies `m_nOutputVirtSize, m_pbOutputBuffer
      ensures Valid() && m_nOutputVirtSize == NextBlock(at, cbData) && pb == at && va == m_nOutputVirtAddr + at
      ensures ZeroRange(m_pbOutputBuffer[..], 0, m_nOutputVirtSize)
    {
      hide QuadAlign, ZeroRange, Blit;
      ZeroGrows(m_pbOutputBuffer[..], at, QuadAlign(cbData));
      var pbData;
      pbData, va := AllocateOutput(cbData);
      return pbData.value, va;
    }

    /** The blocks in front of the import table, one behind the other: none of the allocations fails. */
    method AllocateBlocks(cbPre: nat, nThunks: nat, nChars: nat, cbData: nat, nTables: nat)
      returns (lookupTable: CImageThunks, boundTable: CImageThunks, nameTable: CImageChars, pbData: nat)
      requires Valid() && m_pbOutputBuffer != null && m_nOutputVirtSize == 0
      requires LayoutOf(cbPre, nThunks, nChars, cbData, nTables).end <= m_cbOutputBuffer
      modifies `m_nOutputVirtSize, m_pbOutputBuffer
      ensures Valid() && fresh(lookupTable) && fresh(boundTable) && fresh(nameTable) && lookupTable != boundTable
      ensures var l := LayoutOf(cbPre, nThunks, nChars, cbData, nTables);
              && pbData == l.data && m_nOutputVirtSize == l.table && ZeroRange(m_pbOutputBuffer[..], 0, l.table)
              && CursorsAt(m_pbOutputBuffer, lookupTable, boundTable, nameTable, l, Room(nThunks, nChars, nTables),
                           m_nOutputVirtAddr)
    {
      hide ZeroRange, NextBlock;
      LayoutChain(cbPre, nThunks, nChars, cbData, nTables);
      ghost var l := LayoutOf(cbPre, nThunks, nChars, cbData, nTables);
      var pb, va;
      NothingYet(m_pbOutputBuffer[..]);
      pb, va := AllocateZeroed(0, DETOUR_HEADER_SIZE, l.end);
      pb, va := AllocateZeroed(64, cbPre, l.end);
      pb, va := AllocateZeroed(l.look, 4 * nThunks, l.end);
      lookupTable := new CImageThunks(m_pbOutputBuffer, nThunks, pb, va);
      pb, va := AllocateZeroed(l.bound, 4 * nThunks, l.end);
      boundTable := new CImageThunks(m_pbOutputBuffer, nThunks, pb, va);
      pb, va := AllocateZeroed(l.text, nChars, l.end);
      nameTable := new CImageChars(m_pbOutputBuffer, nChars, pb, va);
      pb, va := AllocateZeroed(l.data, cbData, l.end);
      pbData := pb;
    }

    /** Copy header, PE prefix and payloads into their blocks. */
    method CopyBlocks(head: seq<byte>, prePE: seq<byte>, data: seq<byte>, pbData: nat, ghost l: Layout,
                      ghost room: Room)
      requires m_pbOutputBuffer != null && Apart(l, room) && l.end <= m_pbOutputBuffer.Length && pbData == l.data
      requires |head| == 64 && 64 + |prePE| <= l.look && l.data + |data| <= l.table && l.look <= l.bound
               && l.bound <= l.text
      requires ZeroRange(m_pbOutputBuffer[..], 0, l.table)
      modifies m_pbOutputBuffer
      ensures Emitted(m_pbOutputBuffer[..], l, room, Emission(head + prePE, [], [], [], data, []))
    {
      hide Blit, Emitted, ZeroRange;
      ghost var was := m_pbOutputBuffer[..];
      BlocksCopied(was, l, room, head + prePE, data);
      CopyMemory(m_pbOutputBuffer, 0, head);
      CopyMemory(m_pbOutputBuffer, DETOUR_HEADER_SIZE, prePE);
      BlitTwice(was, 0, head, prePE, head + prePE);
      CopyMemory(m_pbOutputBuffer, pbData, data);
    }

    /** Lay the section out in a buffer that is large enough. */
    method FillSection(nTables: nat, nThunks: nat, nChars: nat, prePE: seq<byte>, data: seq<byte>, others: seq<byte>)
      returns (rvaImportTable: nat)
      requires Valid() && m_pbOutputBuffer != null && m_nOutputVirtSize == 0 && |others| == 48
      requires nTables == |m_pImportFiles| + 1 && nThunks == Thunks(m_pImportFiles) && nChars == |Texts(m_pImportFiles)|
      requires var l := LayoutOf(|prePE|, nThunks, nChars, |data|, nTables);
               l.end <= m_cbOutputBuffer && m_nOutputVirtAddr + l.end < 0x8000_0000
      modifies `m_nOutputVirtSize, m_pbOutputBuffer
      ensures Valid()
      ensures var l, room := LayoutOf(|prePE|, nThunks, nChars, |data|, nTables), Room(nThunks, nChars, nTables);
              && m_nOutputVirtSize == l.end && rvaImportTable == m_nOutputVirtAddr + l.table
              && Emitted(m_pbOutputBuffer[..], l, room,
                         SectionImage(m_pImportFiles, prePE, data, others, l, room, m_nOutputVirtAddr))
    {
      hide Emitted, ZeroRange, Ready, FilesFit, Lookups, Bounds, Descriptors, Texts, Thunks, NextBlock, LE32, Blit,
           LayoutOf;
      LayoutChain(|prePE|, nThunks, nChars, |data|, nTables);
      ghost var l, room := LayoutOf(|prePE|, nThunks, nChars, |data|, nTables), Room(nThunks, nChars, nTables);
      var lookupTable, boundTable, nameTable, pbData := AllocateBlocks(|prePE|, nThunks, nChars, |data|, nTables);
      var dh := SectionHead(pbData, pbData + |data|, others);
      CopyBlocks(dh, prePE, data, pbData, l, room);
      ghost var e := Emission(dh + prePE, [], [], [], data, []);
      CountsFit(m_pImportFiles, dh + prePE, data);
      TableZeroed(m_pbOutputBuffer[..], l, room, e, QuadAlign(20 * nTables));
      var piidDst;
      piidDst, rvaImportTable := AllocateOutput(20 * nTables);
      ReadyToStart(lookupTable, boundTable, nameTable, l, room, e);
      EmitImports(lookupTable, boundTable, nameTable, piidDst.value, l, room, e, m_nOutputVirtAddr);
    }

    lemma {:induction false} ReadyToStart(look: CImageThunks, bound: CImageThunks, chars: CImageChars, l: Layout,
                                          room: Room, e: Emission)
      requires m_pbOutputBuffer != null && CursorsAt(m_pbOutputBuffer, look, bound, chars, l, room, m_nOutputVirtAddr)
      requires Emitted(m_pbOutputBuffer[..], l, room, e) && e.look == [] && e.bound == [] && e.text == []
      requires look != bound && m_nOutputVirtAddr + l.end < 0x8000_0000
      ensures Ready(m_pbOutputBuffer, look, bound, chars, l, room, e, m_nOutputVirtAddr)
    {
      hide Emitted;
    }

    /**
     * The part of Write that inserts the .detour section: the buffer is sized once, no block allocation fails, and
     * what is written to the file lies inside the buffer.
     */
    method WriteDetourSection(nVirtAddr: nat, prePE: seq<byte>, pImageData: CImageData, others: seq<byte>,
                              haveMemory: bool)
      returns (ok: bool, section: Option<Section>)
      requires Valid() && pImageData.Valid() && |others| == 48
      requires pImageData.m_pbData == null || pImageData.m_pbData != m_pbOutputBuffer
      requires nVirtAddr + LayoutOf(|prePE|, Thunks(m_pImportFiles), |Texts(m_pImportFiles)|,
                                    |EncodeAll(pImageData.records)|, |m_pImportFiles| + 1).end < 0x8000_0000
      modifies this, m_pbOutputBuffer
      ensures Valid() && m_pImportFiles == old(m_pImportFiles)
      ensures haveMemory ==> ok
      ensures ok ==> (section.Some? <==> WritesSection(m_pImportFiles, |EncodeAll(pImageData.records)|))
      ensures ok && section.Some? ==>
                var data := EncodeAll(pImageData.records);
                var room := Room(Thunks(m_pImportFiles), |Texts(m_pImportFiles)|, |m_pImportFiles| + 1);
                var l := LayoutOf(|prePE|, room.nThunks, room.nChars, |data|, room.nTables);
                && section.value.rvaImportTable == nVirtAddr + l.table
                && m_pbOutputBuffer != null && m_nOutputVirtSize == l.end && m_nOutputVirtAddr == nVirtAddr
                && l.end <= section.value.cbRaw <= m_pbOutputBuffer.Length
                && Emitted(m_pbOutputBuffer[..], l, room,
                           SectionImage(m_pImportFiles, prePE, data, others, l, room, nVirtAddr))
    {
      hide Emitted, Thunks, Texts, EncodeAll, FileEdited, SectionImage, LayoutOf;
      var need, nTables, nThunks, nChars := CheckImportsNeeded(m_pImportFiles);
      if !need && pImageData.m_cbData == 0 {
        return true, None;
      }
      m_nOutputVirtAddr, m_nOutputVirtSize := nVirtAddr, 0;
      var data := pImageData.Bytes();
      ok := SizeOutputBuffer(SizeNeeded(|prePE|, nThunks, nChars, |data|, nTables), haveMemory);
      if !ok {
        return false, None;
      }
      NeededIsEnough(|prePE|, nThunks, nChars, |data|, nTables, m_cbOutputBuffer);
      var rvaImportTable := FillSection(nTables, nThunks, nChars, prePE, data, others);
      AlignBounds(m_nOutputVirtSize, fileAlignment);
      AlignIsLeast(m_nOutputVirtSize, fileAlignment, units);
      return true, Some(Section(rvaImportTable, Align(m_nOutputVirtSize, fileAlignment)));
    }

    method Terminate(look: CImageThunks, bound: CImageThunks, chars: CImageChars, piidDst: nat,
                     ghost l: Layout, ghost room: Room, ghost e: Emission, ghost v: nat)
      requires m_pbOutputBuffer != null && Ready(m_pbOutputBuffer, look, bound, chars, l, room, e, v)
      requires piidDst == l.table + |e.table| && |e.table| + 4 <= 20 * room.nTables
      modifies m_pbOutputBuffer
      ensures Emitted(m_pbOutputBuffer[..], l, room, e.(table := e.table + [0, 0, 0, 0]))
    {
      hide Emitted, Blit;
      EmitTable(m_pbOutputBuffer[..], l, room, e, [0, 0, 0, 0]);
      CopyMemory(m_pbOutputBuffer, piidDst, [0, 0, 0, 0]);
    }
  }

  /** The .detour section as the section header will describe it. */
  datatype Section = Section(rvaImportTable: nat, cbRaw: nat)

  /** Copying header, PE prefix and payloads leaves the tables empty and the name table zero. */
  lemma {:induction false} BlocksCopied(m: seq<byte>, l: Layout, room: Room, head: seq<byte>, data: seq<byte>)
    requires Apart(l, room) && l.end <= |m| && |head| <= l.look && l.data + |data| <= l.table
             && ZeroRange(m, 0, l.table)
    requires l.look <= l.bound && l.bound <= l.text
    ensures Emitted(Blit(Blit(m, 0, head), l.data, data), l, room, Emission(head, [], [], [], data, []))
  {
    hide Blit, Stands, ZeroRange;
    var m1 := Blit(m, 0, head);
    StandsEmpty(m, 0);
    StandsMore(m, 0, [], head);
    assert [] + head == head && [] + data == data;
    ZeroPart(m, l.text, l.text + room.nChars, l.table);
    ZeroFrame(m, 0, head, l.text, l.text + room.nChars);
    StandsEmpty(m1, l.data);
    StandsMore(m1, l.data, [], data);
    StandsFrame(m1, l.data, data, 0, head);
    ZeroFrame(m1, l.data, data, l.text, l.text + room.nChars);
    var m2 := Blit(m1, l.data, data);
    StandsEmpty(m2, l.look);
    StandsEmpty(m2, l.bound);
    StandsEmpty(m2, l.text);
    StandsEmpty(m2, l.table);
  }

  lemma {:induction false} StandsEmpty(m: seq<byte>, at: nat)
    requires at <= |m|
    ensures Stands(m, at, []) && ThunkBytes([]) == []
  {
  }

  lemma {:induction false} ZeroPart(m: seq<byte>, lo: nat, hi: nat, end: nat)
    requires ZeroRange(m, 0, end) && lo <= hi <= end
    ensures ZeroRange(m, lo, hi)
  {
  }

  /** A write behind the blocks in front, into an import table still empty. */
  lemma {:induction false} TableZeroed(m: seq<byte>, l: Layout, room: Room, e: Emission, cb: nat)
    requires Emitted(m, l, room, e) && e.table == [] && l.table + cb <= |m|
    ensures Emitted(Blit(m, l.table, seq(cb, _ => 0)), l, room, e)
  {
    EmittedFits(m, l, room, e);
    hide Blit, Stands, ZeroRange, ThunkBytes;
    var bs := seq(cb, _ => 0);
    StandsFrame(m, l.table, bs, 0, e.head);
    StandsFrame(m, l.table, bs, l.data, e.data);
    StandsFrame(m, l.table, bs, l.look, ThunkBytes(e.look));
    StandsFrame(m, l.table, bs, l.bound, ThunkBytes(e.bound));
    StandsFrame(m, l.table, bs, l.text, e.text);
    StandsEmpty(Blit(m, l.table, bs), l.table);
    ZeroFrame(m, l.table, bs, l.text + |e.text|, l.text + room.nChars);
  }

  /** The counts CheckImportsNeeded makes are room enough. */
  lemma {:induction false} CountsFit(files: seq<ImportFile>, head: seq<byte>, data: seq<byte>)
    ensures FilesFit(Emission(head, [], [], [], data, []), files, Room(Thunks(files), |Texts(files)|, |files| + 1))
  {
  }

  lemma {:induction false} TableGrows(e: Emission, f: ImportFile, l: Layout, room: Room, v: nat)
    ensures |AfterFile(e, f, l, room, v).table| == |e.table| + DESCRIPTOR_SIZE
  {
  }

  lemma {:induction false} UnitsAreQuads(units: nat, fileAlignment: nat)
    requires fileAlignment % 8 == 0
    ensures (units * fileAlignment) % 8 == 0
  {
    var k := fileAlignment / 8;
    assert units * fileAlignment == 8 * (units * k);
  }
}
