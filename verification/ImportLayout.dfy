/**
 * The import list of image.cpp and the bytes its tables take: what CheckImportsNeeded counts, and what stepping
 * through the imports lays out, as functions.
 */
module ImportLayout {
  import opened Bytes

  /** A CImageImportName: a symbol imported by name or by ordinal, and what it was in the original image. */
  datatype ImportName = ImportName(nHint: word, nOrig: dword, nOrdinal: dword,
                                   pszOrig: Option<seq<byte>>, pszName: Option<seq<byte>>)

  /** A CImageImportFile; a byway is a file added by an edit, of which only ordinal 1 is imported. */
  datatype ImportFile = ImportFile(fByway: bool, names: seq<ImportName>, rvaOriginalFirstThunk: dword,
                                   rvaFirstThunk: dword, nForwarderChain: dword,
                                   pszOrig: Option<seq<byte>>, pszName: seq<byte>)

  predicate NulFree(s: seq<byte>) { forall k :: 0 <= k < |s| ==> s[k] != 0 }

  const ORDINAL_FLAG: dword := 0x8000_0000
  /** sizeof(IMAGE_IMPORT_DESCRIPTOR). */
  const DESCRIPTOR_SIZE: nat := 20

  // --------------------------------------------------------------------- names

  /** One zero byte more when the length is odd. */
  function EvenPad(bs: seq<byte>): (r: seq<byte>)
    ensures |r| % 2 == 0 && |bs| <= |r| <= |bs| + 1 && r[..|bs|] == bs
  {
    if |bs| % 2 == 1 then bs + [0] else bs
  }

  function NameText(name: seq<byte>): seq<byte> { EvenPad(name + [0]) }

  function HintText(hint: word, name: seq<byte>): seq<byte> { EvenPad(LE16(hint) + (name + [0])) }

  function SymText(n: ImportName): (r: seq<byte>)
    ensures |r| % 2 == 0
  {
    if n.pszName.Some? then HintText(n.nHint, n.pszName.value) else []
  }

  function SymTexts(ns: seq<ImportName>): (r: seq<byte>)
    ensures |r| % 2 == 0
  {
    if ns == [] then [] else SymText(ns[0]) + SymTexts(ns[1..])
  }

  function FileText(f: ImportFile): (r: seq<byte>)
    ensures |r| % 2 == 0
  {
    NameText(f.pszName) + if f.fByway then [] else SymTexts(f.names)
  }

  /** The name table. */
  function Texts(fs: seq<ImportFile>): (r: seq<byte>)
    ensures |r| % 2 == 0
  {
    if fs == [] then []
    else
      EvenSum(|FileText(fs[0])|, |Texts(fs[1..])|);
      FileText(fs[0]) + Texts(fs[1..])
  }

  lemma {:induction false} EvenSum(a: nat, b: nat)
    requires a % 2 == 0 && b % 2 == 0
    ensures (a + b) % 2 == 0
  {
  }

  // -------------------------------------------------------------------- thunks

  function ThunkBytes(ts: seq<dword>): (r: seq<byte>)
    ensures |r| == 4 * |ts|
  {
    if ts == [] then [] else LE32(ts[0]) + ThunkBytes(ts[1..])
  }

  /** The lookup entry of a symbol whose text stands at `rva`. */
  function SymThunk(n: ImportName, rva: nat): dword {
    WrapAddr(if n.pszName.Some? then rva else ORDINAL_FLAG + n.nOrdinal)
  }

  function SymThunks(ns: seq<ImportName>, rva: nat): (ts: seq<dword>)
    ensures |ts| == |ns|
  {
    if ns == [] then [] else [SymThunk(ns[0], rva)] + SymThunks(ns[1..], rva + |SymText(ns[0])|)
  }

  const BYWAY_THUNKS: seq<dword> := [0x8000_0001, 0]

  /** The lookup entries of a file whose text stands at `rva`, with their terminator. */
  function FileLookup(f: ImportFile, rva: nat): (ts: seq<dword>)
    ensures |ts| == FileThunks(f)
  {
    if f.fByway then BYWAY_THUNKS else SymThunks(f.names, rva + |NameText(f.pszName)|) + [0]
  }

  function Lookups(fs: seq<ImportFile>, rva: nat): (ts: seq<dword>)
    ensures |ts| == Thunks(fs)
  {
    if fs == [] then [] else FileLookup(fs[0], rva) + Lookups(fs[1..], rva + |FileText(fs[0])|)
  }

  function FileBound(f: ImportFile): seq<dword> { if f.fByway then BYWAY_THUNKS else [] }

  function Bounds(fs: seq<ImportFile>): (ts: seq<dword>)
    ensures |ts| <= Thunks(fs)
  {
    if fs == [] then [] else FileBound(fs[0]) + Bounds(fs[1..])
  }

  // --------------------------------------------------------------- descriptors

  /**
   * The import descriptor of a file whose lookup entries, bound entries and text stand at these addresses; a
   * lookup table of a single entry yields no address.
   */
  function Descriptor(f: ImportFile, nMax: nat, rvaLookup: nat, rvaBound: nat, rvaText: nat): (d: seq<byte>)
    ensures |d| == DESCRIPTOR_SIZE
  {
    LE32(if f.fByway || nMax > 1 then WrapAddr(rvaLookup) else 0) + LE32(0) + LE32(f.nForwarderChain)
    + LE32(WrapAddr(rvaText)) + LE32(if f.fByway then WrapAddr(rvaBound) else f.rvaFirstThunk)
  }

  function Descriptors(fs: seq<ImportFile>, nMax: nat, rvaLookup: nat, rvaBound: nat, rvaText: nat): (d: seq<byte>)
    ensures |d| == DESCRIPTOR_SIZE * |fs|
  {
    if fs == [] then []
    else
      Descriptor(fs[0], nMax, rvaLookup, rvaBound, rvaText)
      + Descriptors(fs[1..], nMax, rvaLookup + 4 * FileThunks(fs[0]), rvaBound + 4 * |FileBound(fs[0])|,
                    rvaText + |FileText(fs[0])|)
  }

  // -------------------------------------------------------------------- counts

  function FileThunks(f: ImportFile): nat { if f.fByway then 2 else |f.names| + 1 }

  function Thunks(fs: seq<ImportFile>): nat {
    if fs == [] then 0 else FileThunks(fs[0]) + Thunks(fs[1..])
  }

  predicate FileEdited(f: ImportFile) {
    f.fByway || Some(f.pszName) != f.pszOrig || exists n :: n in f.names && n.pszName != n.pszOrig
  }

  /** Whether Write inserts a .detour section: for payloads, or because an import no longer has its original name. */
  predicate WritesSection(files: seq<ImportFile>, cbData: nat) {
    cbData > 0 || exists f :: f in files && FileEdited(f)
  }

  /** `nChars` bytes more, rounded up to an even count. */
  function AddChars(nChars: nat, cb: nat): nat { nChars + cb + (nChars + cb) % 2 }

  lemma {:induction false} CountsNameText(nChars: nat, name: seq<byte>)
    requires nChars % 2 == 0
    ensures AddChars(nChars, |name| + 1) == nChars + |NameText(name)| && |NameText(name)| % 2 == 0
  {
  }

  lemma {:induction false} CountsHintText(nChars: nat, hint: word, name: seq<byte>)
    requires nChars % 2 == 0
    ensures AddChars(nChars + 2, |name| + 1) == nChars + |HintText(hint, name)| && |HintText(hint, name)| % 2 == 0
  {
  }

  /**
   * CheckImportsNeeded: whether anything differs from the original imports, and exactly the table, thunk and
   * character counts that stepping through the imports will use up.
   */
  method CheckImportsNeeded(files: seq<ImportFile>) returns (need: bool, nTables: nat, nThunks: nat, nChars: nat)
    ensures need <==> exists f :: f in files && FileEdited(f)
    ensures nTables == |files| + 1 && nThunks == Thunks(files) && nChars == |Texts(files)|
  {
    hide FileEdited, FileThunks, FileText;
    need, nTables, nThunks, nChars := false, 0, 0, 0;
    var k := 0;
    while k < |files|
      invariant k <= |files| && nTables == k
      invariant nThunks + Thunks(files[k..]) == Thunks(files)
      invariant nChars % 2 == 0 && nChars + |Texts(files[k..])| == |Texts(files)|
      invariant need <==> exists i :: 0 <= i < k && FileEdited(files[i])
    {
      assert files[k..][1..] == files[k + 1..];
      need, nThunks, nChars := CountFile(files[k], need, nThunks, nChars);
      nTables := nTables + 1;
      k := k + 1;
    }
    nTables := nTables + 1;
  }

  /** The body of the loop, for one file. */
  method CountFile(f: ImportFile, need0: bool, nThunks0: nat, nChars0: nat)
    returns (need: bool, nThunks: nat, nChars: nat)
    requires nChars0 % 2 == 0
    ensures need <==> need0 || FileEdited(f)
    ensures nThunks == nThunks0 + FileThunks(f) && nChars == nChars0 + |FileText(f)|
  {
    hide NameText, HintText, AddChars;
    need, nThunks, nChars := need0, nThunks0, nChars0;
    CountsNameText(nChars, f.pszName);
    nChars := AddChars(nChars, |f.pszName| + 1);
    if f.fByway {
      need := true;
      nThunks := nThunks + 1;
    } else {
      if !need && Some(f.pszName) != f.pszOrig {
        need := true;
      }
      need, nThunks, nChars := CountNames(f.names, need, nThunks, nChars);
    }
    nThunks := nThunks + 1;
  }

  lemma {:induction false} RestTexts(names: seq<ImportName>, n: nat)
    ensures n < |names| ==> |SymTexts(names[n..])| == |SymText(names[n])| + |SymTexts(names[n + 1..])|
    ensures names[0..] == names && SymTexts(names[|names|..]) == []
  {
    hide HintText;
    if n < |names| {
      assert names[n..][1..] == names[n + 1..];
    }
  }

  /** The inner loop, over the symbols of one file. */
  method CountNames(names: seq<ImportName>, need0: bool, nThunks0: nat, nChars0: nat)
    returns (need: bool, nThunks: nat, nChars: nat)
    requires nChars0 % 2 == 0
    ensures need <==> need0 || exists n :: n in names && n.pszName != n.pszOrig
    ensures nThunks == nThunks0 + |names| && nChars == nChars0 + |SymTexts(names)|
  {
    hide HintText, AddChars, SymTexts;
    need, nThunks, nChars := need0, nThunks0, nChars0;
    var n := 0;
    RestTexts(names, 0);
    while n < |names|
      invariant n <= |names| && nThunks == nThunks0 + n
      invariant nChars % 2 == 0 && nChars + |SymTexts(names[n..])| == nChars0 + |SymTexts(names)|
      invariant need <==> need0 || exists i :: 0 <= i < n && names[i].pszName != names[i].pszOrig
    {
      var pImportName := names[n];
      RestTexts(names, n);
      if !need && pImportName.pszName != pImportName.pszOrig {
        need := true;
      }
      if pImportName.pszName.Some? {
        CountsHintText(nChars, pImportName.nHint, pImportName.pszName.value);
        nChars := nChars + 2;
        nChars := AddChars(nChars, |pImportName.pszName.value| + 1);
      }
      nThunks := nThunks + 1;
      n := n + 1;
    }
  }
}
