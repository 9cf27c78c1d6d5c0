/** Opening an image, editing its imports, writing it, opening the result and resetting it, end to end. */
module ImageRoundTrip {
  import opened Bytes
  import PayloadRecords
  import opened ImportLayout
  import opened ImageOutput
  import opened ImportReader
  import opened ImportRoundTrip
  import opened ImportEditor

  /** The names of the files that are no byways, in order. */
  function FileNames(fs: seq<ImportFile>): seq<Option<seq<byte>>> {
    if fs == [] then [] else (if fs[0].fByway then [] else [Some(fs[0].pszName)]) + FileNames(fs[1..])
  }

  // ------------------------------------------------------------------ the imports

  datatype Symbol = ByName(name: Text) | ByOrdinal(n: dword)

  /** A file that is imported and no byway, and what is imported from it. */
  datatype Import = Import(file: Text, symbols: seq<Symbol>)

  function SymbolOf(n: ImportName): Symbol {
    if n.pszName.Some? then ByName(n.pszName.value) else ByOrdinal(n.nOrdinal)
  }

  function Symbols(ns: seq<ImportName>): (r: seq<Symbol>)
    ensures |r| == |ns| && forall k :: 0 <= k < |ns| ==> r[k] == SymbolOf(ns[k])
  {
    if ns == [] then [] else [SymbolOf(ns[0])] + Symbols(ns[1..])
  }

  function ImportsOf(fs: seq<ImportFile>): seq<Import> {
    if fs == [] then []
    else (if fs[0].fByway then [] else [Import(fs[0].pszName, Symbols(fs[0].names))]) + ImportsOf(fs[1..])
  }

  /** Every symbol that is imported by ordinal in `a` is imported by the same ordinal in `b`. */
  predicate SymbolsStay(a: seq<Symbol>, b: seq<Symbol>) {
    |a| == |b| && forall j :: 0 <= j < |a| && a[j].ByOrdinal? ==> b[j] == a[j]
  }

  predicate OrdinalsKept(a: seq<Import>, b: seq<Import>) {
    |a| == |b| && forall k :: 0 <= k < |a| ==> SymbolsStay(a[k].symbols, b[k].symbols)
  }

  lemma {:induction false} OrdinalsKeptFirst(a: seq<Import>, b: seq<Import>)
    requires a != [] && b != []
    ensures OrdinalsKept(a, b) <==> SymbolsStay(a[0].symbols, b[0].symbols) && OrdinalsKept(a[1..], b[1..])
  {
    hide SymbolsStay;
    if SymbolsStay(a[0].symbols, b[0].symbols) && OrdinalsKept(a[1..], b[1..]) {
      assert forall k :: 1 <= k < |a| ==> a[k] == a[1..][k - 1] && b[k] == b[1..][k - 1];
    }
  }

  lemma {:induction false} ImportsFirst(fs: seq<ImportFile>)
    requires fs != []
    ensures if fs[0].fByway then ImportsOf(fs) == ImportsOf(fs[1..])
            else
              && ImportsOf(fs) != [] && ImportsOf(fs)[0] == Import(fs[0].pszName, Symbols(fs[0].names))
              && ImportsOf(fs)[1..] == ImportsOf(fs[1..])
  {
    hide Symbols;
    if fs[0].fByway {
      assert [] + ImportsOf(fs[1..]) == ImportsOf(fs[1..]);
    }
  }

  lemma {:induction false} SameImports(fs: seq<ImportFile>, bs: seq<ImportFile>)
    requires SameFiles(fs, bs)
    ensures ImportsOf(bs) == ImportsOf(fs)
    decreases |fs|
  {
    hide SameName;
    if fs != [] {
      assert SameFile(fs[0], bs[0]);
      assert forall k :: 0 <= k < |fs[1..]| ==> fs[1..][k] == fs[k + 1] && bs[1..][k] == bs[k + 1];
      SameImports(fs[1..], bs[1..]);
      SameSymbolsOf(fs[0].names, bs[0].names);
      ImportsFirst(fs);
      ImportsFirst(bs);
    }
  }

  lemma {:induction false} SameSymbolsOf(ns: seq<ImportName>, bs: seq<ImportName>)
    requires |bs| == |ns| && forall k :: 0 <= k < |ns| ==> SameName(ns[k], bs[k])
    ensures Symbols(bs) == Symbols(ns)
  {
    forall k | 0 <= k < |ns| ensures SymbolOf(bs[k]) == SymbolOf(ns[k]) {
      assert SameName(ns[k], bs[k]);
    }
  }

  // ------------------------------------------------------- edits that Write passes over

  lemma {:induction false} ErasedSymbols(ns: seq<ImportName>, bs: seq<ImportName>)
    requires ErasedNames(ns) == ErasedNames(bs)
    ensures |ns| == |bs|
    ensures forall k :: 0 <= k < |ns| ==> ns[k].nHint == bs[k].nHint && SourceOf(ns[k]) == SourceOf(bs[k])
    decreases |ns|
  {
    if ns != [] && bs != [] {
      assert ErasedNames(ns)[1..] == ErasedNames(ns[1..]) && ErasedNames(bs)[1..] == ErasedNames(bs[1..]);
      ErasedSymbols(ns[1..], bs[1..]);
      assert ErasedNames(ns)[0] == ErasedNames(bs)[0];
      assert forall k :: 1 <= k < |ns| ==> ns[k] == ns[1..][k - 1] && bs[k] == bs[1..][k - 1];
    }
  }

  /** A file with its original names is the same one if and only if no ordinal was changed. */
  lemma {:induction false} UneditedFile(f: ImportFile, b: ImportFile)
    requires Erased(f) == Erased(b) && !FileEdited(f) && FreshFile(b)
    ensures SameFile(f, b) <==> SymbolsStay(Symbols(f.names), Symbols(b.names))
    ensures !f.fByway
  {
    hide ErasedNames, Symbols;
    ErasedSymbols(f.names, b.names);
    forall k | 0 <= k < |f.names|
      ensures SameName(f.names[k], b.names[k])
              <==> (SymbolOf(f.names[k]).ByOrdinal? ==> SymbolOf(b.names[k]) == SymbolOf(f.names[k]))
    {
      UneditedName(f, b, k);
    }
    SymbolsStayIs(f.names, b.names);
  }

  lemma {:induction false} SymbolsStayIs(ns: seq<ImportName>, bs: seq<ImportName>)
    ensures SymbolsStay(Symbols(ns), Symbols(bs)) <==>
              |ns| == |bs|
              && forall k :: 0 <= k < |ns| ==> (SymbolOf(ns[k]).ByOrdinal? ==> SymbolOf(bs[k]) == SymbolOf(ns[k]))
  {
    hide SymbolOf;
    var a, b := Symbols(ns), Symbols(bs);
    if SymbolsStay(a, b) {
      assert forall k :: 0 <= k < |ns| ==> a[k] == SymbolOf(ns[k]) && b[k] == SymbolOf(bs[k]);
    }
  }

  lemma {:induction false} UneditedName(f: ImportFile, b: ImportFile, k: nat)
    requires !FileEdited(f) && FreshFile(b) && k < |f.names| == |b.names|
    requires f.names[k].nHint == b.names[k].nHint && SourceOf(f.names[k]) == SourceOf(b.names[k])
    ensures SameName(f.names[k], b.names[k])
            <==> (SymbolOf(f.names[k]).ByOrdinal? ==> SymbolOf(b.names[k]) == SymbolOf(f.names[k]))
  {
    assert f.names[k] in f.names && b.names[k] in b.names;
  }

  /** A list with all its original names is the original list if and only if no ordinal was changed. */
  lemma {:induction false} UneditedIs(fs: seq<ImportFile>, bs: seq<ImportFile>)
    requires Plain(fs) == Plain(bs) && (forall f :: f in fs ==> !FileEdited(f))
             && (forall b :: b in bs ==> FreshFile(b))
    ensures SameFiles(fs, bs) <==> OrdinalsKept(ImportsOf(fs), ImportsOf(bs))
    decreases |fs|
  {
    hide FileEdited, FreshFile, Erased, SameFile, Symbols, SymbolsStay;
    if fs != [] {
      PlainFirst(fs);
    }
    if bs != [] {
      FreshPlain(bs[0]);
      PlainFirst(bs);
    }
    if fs != [] && bs != [] {
      UneditedFile(fs[0], bs[0]);
      UneditedIs(fs[1..], bs[1..]);
      ImportsFirst(fs);
      ImportsFirst(bs);
      OrdinalsKeptFirst(ImportsOf(fs), ImportsOf(bs));
      SameFilesFirst(fs, bs);
    }
  }

  lemma {:induction false} FreshPlain(f: ImportFile)
    requires FreshFile(f)
    ensures !f.fByway
  {
  }

  lemma {:induction false} PlainFirst(fs: seq<ImportFile>)
    requires fs != [] && (!FileEdited(fs[0]) || !fs[0].fByway)
    ensures !fs[0].fByway && Plain(fs) != [] && Plain(fs)[0] == Erased(fs[0]) && Plain(fs)[1..] == Plain(fs[1..])
  {
    hide Erased;
  }

  lemma {:induction false} SameFilesFirst(fs: seq<ImportFile>, bs: seq<ImportFile>)
    requires fs != [] && bs != []
    ensures SameFiles(fs, bs) <==> SameFile(fs[0], bs[0]) && SameFiles(fs[1..], bs[1..])
  {
    hide SameFile;
    if SameFile(fs[0], bs[0]) && SameFiles(fs[1..], bs[1..]) {
      assert forall k :: 1 <= k < |fs| ==> fs[k] == fs[1..][k - 1] && bs[k] == bs[1..][k - 1];
    }
  }

  // ------------------------------------------------------------ what a reset brings back

  /** A symbol with the original of the table, or one by ordinal, which has lost its original. */
  predicate Sourced(n: ImportName, source: Source) {
    SourceOf(n) == if n.pszName.Some? then source else Source(n.nOrdinal, None)
  }

  predicate SymbolsFit(ns: seq<ImportName>, symbols: seq<Source>) {
    |ns| == |symbols| && forall k :: 0 <= k < |ns| ==> Sourced(ns[k], symbols[k])
  }

  /** A list as Read leaves it, next to the original table. */
  predicate FitsTable(fs: seq<ImportFile>, origs: seq<Orig>)
    decreases |fs|
  {
    if fs == [] then origs == []
    else if fs[0].fByway then FitsTable(fs[1..], origs)
    else
      && origs != [] && fs[0].pszOrig == origs[0].name && SymbolsFit(fs[0].names, origs[0].symbols)
      && FitsTable(fs[1..], origs[1..])
  }

  lemma {:induction false} SourcesAre(ns: seq<ImportName>, k: nat)
    requires k < |ns|
    ensures NameOrigs(ns)[k] == SourceOf(ns[k])
  {
    if k > 0 {
      SourcesAre(ns[1..], k - 1);
    }
  }

  /** What is read from a section fits the originals of the list it was written from. */
  lemma {:induction false} SameFits(fs: seq<ImportFile>, bs: seq<ImportFile>)
    requires SameFiles(fs, bs)
    ensures FitsTable(bs, Origs(fs))
    decreases |fs|
  {
    hide SameFile, SymbolsFit, NameOrigs;
    if fs != [] {
      SameFilesFirst(fs, bs);
      SameFits(fs[1..], bs[1..]);
      SameFileFits(fs[0], bs[0]);
      OrigsFirst(fs);
    }
  }

  lemma {:induction false} SameFileFits(f: ImportFile, b: ImportFile)
    requires SameFile(f, b)
    ensures b.fByway == f.fByway && (!f.fByway ==> b.pszOrig == f.pszOrig && SymbolsFit(b.names, NameOrigs(f.names)))
  {
    forall k | 0 <= k < |f.names| ensures Sourced(b.names[k], NameOrigs(f.names)[k]) {
      SourcesAre(f.names, k);
      assert SameName(f.names[k], b.names[k]);
    }
  }

  /** So does the list of an image without a .detour section. */
  lemma {:induction false} FreshFits(fs: seq<ImportFile>)
    requires forall f :: f in fs ==> FreshFile(f)
    ensures FitsTable(fs, Origs(fs))
    decreases |fs|
  {
    hide FreshFile, SymbolsFit, NameOrigs;
    if fs != [] {
      FreshFits(fs[1..]);
      FreshFileFits(fs[0]);
      OrigsFirst(fs);
    }
  }

  lemma {:induction false} FreshFileFits(f: ImportFile)
    requires FreshFile(f)
    ensures !f.fByway && SymbolsFit(f.names, NameOrigs(f.names))
  {
    forall k | 0 <= k < |f.names| ensures Sourced(f.names[k], NameOrigs(f.names)[k]) {
      SourcesAre(f.names, k);
      assert f.names[k] in f.names;
    }
  }

  /** The original of every symbol that is imported by name is known. */
  predicate Known(f: ImportFile) { forall n :: n in f.names ==> n.pszName.Some? ==> HasOriginal(n) }

  /** A symbol comes back if and only if it is imported by name, or by its original ordinal. */
  lemma {:induction false} ResetSymbol(n: ImportName, x: ImportName)
    requires Sourced(n, SourceOf(x)) && (n.pszName.Some? ==> HasOriginal(n))
    requires x.pszName == x.pszOrig && (x.pszName.None? ==> x.nOrdinal == x.nOrig)
    ensures SymbolOf(Renamed(n, n.nOrig, n.pszOrig)) == SymbolOf(x)
            <==> (SymbolOf(n).ByOrdinal? ==> SymbolOf(x) == SymbolOf(n))
  {
  }

  lemma {:induction false} ResetSymbols(f: ImportFile, x: ImportFile)
    requires SymbolsFit(f.names, NameOrigs(x.names)) && Known(f) && FreshFile(x)
    ensures Symbols(ResetNames(f.names)) == Symbols(x.names) <==> SymbolsStay(Symbols(f.names), Symbols(x.names))
  {
    hide ResetNames, Symbols, SymbolOf, Renamed, Sourced;
    var ns, r := f.names, ResetNames(f.names);
    forall k | 0 <= k < |ns|
      ensures SymbolOf(r[k]) == SymbolOf(x.names[k])
              <==> (SymbolOf(ns[k]).ByOrdinal? ==> SymbolOf(x.names[k]) == SymbolOf(ns[k]))
    {
      ResetNamesAt(ns, k);
      SourcesAre(x.names, k);
      assert ns[k] in ns && x.names[k] in x.names;
      ResetSymbol(ns[k], x.names[k]);
    }
    SymbolsStayIs(ns, x.names);
    SymbolsEqual(r, x.names);
  }

  lemma {:induction false} SymbolsEqual(ns: seq<ImportName>, bs: seq<ImportName>)
    requires |ns| == |bs|
    ensures Symbols(ns) == Symbols(bs) <==> forall k :: 0 <= k < |ns| ==> SymbolOf(ns[k]) == SymbolOf(bs[k])
  {
    hide SymbolOf;
    var a, b := Symbols(ns), Symbols(bs);
    if a == b {
      assert forall k :: 0 <= k < |ns| ==> a[k] == SymbolOf(ns[k]) && b[k] == SymbolOf(bs[k]);
    }
  }

  /** Resetting a list as Read leaves it gives the first image's imports if and only if its ordinals are theirs. */
  lemma {:induction false} ResetIsOriginal(bs: seq<ImportFile>, fs: seq<ImportFile>)
    requires FitsTable(bs, Origs(fs)) && (forall f :: f in fs ==> FreshFile(f))
    requires forall b :: b in bs && !b.fByway ==> Known(b)
    ensures ImportsOf(ResetFiles(bs)) == ImportsOf(fs) <==> OrdinalsKept(ImportsOf(bs), ImportsOf(fs))
    ensures FileNames(ResetFiles(bs)) == FileNames(fs)
    decreases |bs| + |fs|
  {
    hide Known, FreshFile, SymbolsFit, NameOrigs, ResetNames, Symbols, SymbolsStay;
    if fs != [] {
      FreshPlain(fs[0]);
      OrigsFirst(fs);
      ImportsFirst(fs);
    }
    if bs != [] {
      ImportsFirst(bs);
      if bs[0].fByway {
        ResetIsOriginal(bs[1..], fs);
        assert [] + ResetFiles(bs[1..]) == ResetFiles(bs[1..]);
      } else {
        var r := ResetFiles(bs);
        assert r[0] == ResetFile(bs[0]) && r[1..] == ResetFiles(bs[1..]);
        ResetIsOriginal(bs[1..], fs[1..]);
        ImportsFirst(r);
        ResetSymbols(bs[0], fs[0]);
        FreshName(fs[0]);
        OrdinalsKeptFirst(ImportsOf(bs), ImportsOf(fs));
        SameCons(ImportsOf(r), ImportsOf(fs));
      }
    }
  }

  lemma {:induction false} FreshName(f: ImportFile)
    requires FreshFile(f)
    ensures f.pszOrig == Some(f.pszName)
  {
  }

  lemma {:induction false} SameCons<T>(a: seq<T>, b: seq<T>)
    requires a != [] && b != []
    ensures a == b <==> a[0] == b[0] && a[1..] == b[1..]
  {
    if a[0] == b[0] && a[1..] == b[1..] {
      assert a == [a[0]] + a[1..] && b == [b[0]] + b[1..];
    }
  }

  // --------------------------------------------------------------------- end to end

  /** An image without a .detour section: its file, its sections from offset `start` on, and its import table. */
  datatype Origin = Origin(m: seq<byte>, ss: seq<SectionHeader>, start: nat, i: nat)

  /** Read finds the list `fs` in it. */
  ghost predicate Opens(g: Origin, fs: seq<ImportFile>) {
    && ReadFiles(g.m, g.ss, g.i, g.i, 0, 0) == Some(fs) && g.start <= g.i
    && (forall k :: 0 <= k < |g.ss| ==> g.start <= g.ss[k].pRaw)
  }

  /** What Write produces: a file and, when one is inserted, the .detour section and what it holds. */
  datatype Output = Output(file: seq<byte>, added: SectionHeader, buf: seq<byte>, prePE: seq<byte>, data: seq<byte>,
                           others: seq<byte>)

  /** The section that Write lays out for `edited` stands in the file, found at its addresses. */
  ghost predicate SectionOk(g: Origin, w: Output, edited: seq<ImportFile>) {
    var s := Place(w.added.va, w.added.pRaw, w.added.cbRaw);
    && Mapped(g.ss + [w.added], s) && InFile(w.file, w.added, w.buf, edited, w.prePE, w.data, w.others)
    && forall k :: 0 <= k < |edited| ==> WritableFile(edited[k], s)
  }

  /** Write keeps the sections and, for payloads or changed names only, inserts one. */
  ghost predicate WriteOk(g: Origin, w: Output, edited: seq<ImportFile>) {
    Keeps(g.m, w.file, g.start) && (WritesSection(edited, |w.data|) ==> SectionOk(g, w, edited))
  }

  /** What Read finds in the file: the table of the new section, or the original one. */
  function ReadBack(g: Origin, w: Output, edited: seq<ImportFile>): Option<seq<ImportFile>> {
    if WritesSection(edited, |w.data|) then
      ReadFiles(w.file, g.ss + [w.added], w.added.pRaw + LayoutFor(edited, |w.prePE|, |w.data|).table, g.i, w.added.va,
                w.added.va + w.added.cbRaw)
    else ReadFiles(w.file, g.ss, g.i, g.i, 0, 0)
  }

  ghost predicate AllOriginal(fs: seq<ImportFile>) { forall f, n :: f in fs && n in f.names ==> HasOriginal(n) }

  /** In a file with a new section Read finds the edited list, unless its only file has no symbols. */
  lemma {:induction false} SectionReadsBack(g: Origin, w: Output, fs: seq<ImportFile>, edited: seq<ImportFile>)
    requires Opens(g, fs) && AllOriginal(fs) && Origs(edited) == Origs(fs)
    requires WriteOk(g, w, edited) && WritesSection(edited, |w.data|)
    ensures ReadAgain(ReadBack(g, w, edited), edited)
  {
    hide ReadFiles, Keeps, Written, WritableFile, HasOriginal, SameFiles, Stands, Origs, OrigTable, LayoutFor, Thunks,
         RvaToVa, Mapped, WritesSection;
    assert forall k, j :: 0 <= k < |fs| && 0 <= j < |fs[k].names| ==> fs[k] in fs && fs[k].names[j] in fs[k].names;
    OriginalsSurvive(g.m, w.file, g.ss, w.added, g.start, g.i, fs);
    ImportsRoundTrip(w.file, g.ss, w.added, w.buf, edited, w.prePE, w.data, w.others, g.i);
  }

  /** In a file without one Read finds the first image's list. */
  lemma {:induction false} OriginalReadBack(g: Origin, w: Output, fs: seq<ImportFile>, edited: seq<ImportFile>)
    requires Opens(g, fs) && WriteOk(g, w, edited) && !WritesSection(edited, |w.data|)
    ensures ReadBack(g, w, edited) == Some(fs)
  {
    hide ReadFiles, Keeps, SectionOk, WritesSection;
    KeptFiles(g.m, w.file, g.ss, g.start, g.i, g.i, 0, 0);
  }

  /**
   * An image is read, its imports are edited by any callbacks, also unsuccessfully, and it is written.  Reading the
   * new file gives back exactly the edited list if and only if a section was written and its list does not have
   * one thunk only, or none was written and no ordinal was changed.
   */
  lemma {:induction false} EditedImageRoundTrip(g: Origin, fs: seq<ImportFile>, cb: Callbacks, stop: nat, w: Output)
    requires Opens(g, fs) && StopsAt(cb, stop) && WriteOk(g, w, Edit(cb, fs, stop).value)
    requires WritesSection(Edit(cb, fs, stop).value, |w.data|) ==> AllOriginal(fs)
    ensures var edited := Edit(cb, fs, stop).value;
            var back := ReadBack(g, w, edited);
            && back.Some?
            && (SameFiles(edited, back.value)
                <==> if WritesSection(edited, |w.data|) then Thunks(edited) != 1
                     else OrdinalsKept(ImportsOf(edited), ImportsOf(fs)))
  {
    hide ReadFiles, AllOriginal, StopsAt, SameFiles, EditFrom, Plain, Origs, WriteOk, ReadBack, OrdinalsKept, Thunks,
         FreshFile, FileEdited;
    var edited := Edit(cb, fs, stop).value;
    EditKeepsFiles(cb, 0, fs, stop);
    if WritesSection(edited, |w.data|) {
      OrigsOfPlain(fs);
      OrigsOfPlain(edited);
      SectionReadsBack(g, w, fs, edited);
    } else {
      OriginalReadBack(g, w, fs, edited);
      FreshFiles(g.m, g.ss, g.i, fs);
      UneditedIs(edited, fs);
    }
  }

  /**
   * Resetting what is read back gives the original file names, unless a list of one thunk was written, and the
   * original imports if and only if, besides, no section was written or no symbol was given an ordinal.
   */
  lemma {:induction false} ResetImageRoundTrip(g: Origin, fs: seq<ImportFile>, cb: Callbacks, stop: nat, w: Output)
    requires Opens(g, fs) && StopsAt(cb, stop) && WriteOk(g, w, Edit(cb, fs, stop).value)
    requires WritesSection(Edit(cb, fs, stop).value, |w.data|) ==> AllOriginal(fs)
    ensures var edited := Edit(cb, fs, stop).value;
            var back, wrote := ReadBack(g, w, edited), WritesSection(edited, |w.data|);
            && back.Some?
            && var reset := ResetImports(back.value);
            && reset.ok && (FileNames(reset.value) == FileNames(fs) <==> !wrote || Thunks(edited) != 1)
            && (ImportsOf(reset.value) == ImportsOf(fs)
                <==> !wrote || (Thunks(edited) != 1 && OrdinalsKept(ImportsOf(edited), ImportsOf(fs))))
  {
    hide ReadFiles, AllOriginal, StopsAt, SameFiles, EditFrom, Plain, Origs, WriteOk, ReadBack, OrdinalsKept, Thunks,
         FreshFile, FileEdited, ImportsOf, FileNames, ResetFiles, Known, FitsTable, WritesSection;
    var edited := Edit(cb, fs, stop).value;
    EditKeepsFiles(cb, 0, fs, stop);
    FreshFiles(g.m, g.ss, g.i, fs);
    if WritesSection(edited, |w.data|) {
      OrigsOfPlain(fs);
      OrigsOfPlain(edited);
      SectionReadsBack(g, w, fs, edited);
      var back := ReadBack(g, w, edited).value;
      ResetIs(0, back);
      if Thunks(edited) == 1 {
        LoneFile(fs, edited);
      } else {
        SameFits(edited, back);
        FitsKnown(back, fs);
        ResetIsOriginal(back, fs);
        SameImports(edited, back);
      }
    } else {
      OriginalReadBack(g, w, fs, edited);
      ResetIs(0, fs);
      FreshFits(fs);
      FreshKnown(fs);
      ResetIsOriginal(fs, fs);
      OrdinalsStay(ImportsOf(fs));
    }
  }

  lemma {:induction false} OrdinalsStay(a: seq<Import>)
    ensures OrdinalsKept(a, a)
  {
  }

  lemma {:induction false} FreshKnown(fs: seq<ImportFile>)
    requires forall f :: f in fs ==> FreshFile(f)
    ensures forall f :: f in fs ==> Known(f)
  {
  }

  /** A list with one thunk is one file, and what is read in its place is none. */
  lemma {:induction false} LoneFile(fs: seq<ImportFile>, edited: seq<ImportFile>)
    requires Thunks(edited) == 1 && Plain(edited) == Plain(fs)
    ensures FileNames(ResetFiles([])) != FileNames(fs) && ImportsOf(ResetFiles([])) != ImportsOf(fs)
  {
    hide Erased, Symbols;
    FewThunks(edited);
    assert Plain(edited) != [];
    NoPlain(fs);
  }

  lemma {:induction false} NoPlain(fs: seq<ImportFile>)
    ensures (FileNames(fs) == [] <==> Plain(fs) == []) && (ImportsOf(fs) == [] <==> Plain(fs) == [])
  {
    hide Erased, Symbols;
    if fs != [] {
      NoPlain(fs[1..]);
    }
  }

  /** The originals in a list that Read leaves are those of the table. */
  lemma {:induction false} FitsKnown(bs: seq<ImportFile>, fs: seq<ImportFile>)
    requires FitsTable(bs, Origs(fs)) && AllOriginal(fs) && forall f :: f in fs ==> FreshFile(f)
    ensures forall b :: b in bs && !b.fByway ==> Known(b) && b.pszOrig.Some?
    decreases |bs| + |fs|
  {
    hide Known, FreshFile, SymbolsFit, NameOrigs;
    if fs != [] {
      FreshPlain(fs[0]);
      FreshName(fs[0]);
      OrigsFirst(fs);
    }
    if bs != [] {
      if bs[0].fByway {
        FitsKnown(bs[1..], fs);
      } else {
        FitsKnown(bs[1..], fs[1..]);
        FitKnown(bs[0], fs[0]);
      }
    }
  }

  lemma {:induction false} FitKnown(b: ImportFile, x: ImportFile)
    requires SymbolsFit(b.names, NameOrigs(x.names)) && forall n :: n in x.names ==> HasOriginal(n)
    ensures Known(b)
  {
    forall n | n in b.names && n.pszName.Some? ensures HasOriginal(n) {
      var k :| 0 <= k < |b.names| && b.names[k] == n;
      SourcesAre(x.names, k);
      assert Sourced(b.names[k], NameOrigs(x.names)[k]) && x.names[k] in x.names;
    }
  }

  // --------------------------------------------------------------- an edit that is lost

  /** A descriptor, the terminating one's first field, the name "a", and a lookup table with ordinal 5. */
  function SmallTable(): seq<dword> { [0x101C, 0, 0, 0x1018, 0x2000, 0, 97, 0x8000_0005, 0] }

  /** One section that starts with this import table. */
  function SmallImage(): Origin {
    Origin(ThunkBytes(SmallTable()), [SectionHeader(0x1000, 36, 0)], 0, 0)
  }

  function SmallList(nOrdinal: dword): seq<ImportFile> {
    [ImportFile(false, [ImportName(0, 5, nOrdinal, None, None)], 0x101C, 0x2000, 0, Some([97]), [97])]
  }

  /** A symbol callback that answers ordinal 6 for everything. */
  function AnswerSix(): Callbacks {
    Callbacks(None, None,
              Some((_: nat, _: dword, _: dword, _: Option<Text>, _: Option<Text>) => (true, 6, None)), None)
  }

  lemma {:induction false} WordAt(ts: seq<dword>, k: nat)
    requires k < |ts|
    ensures U32At(ThunkBytes(ts), 4 * k) == ts[k]
  {
    hide LE32, U32At;
    var rest := ThunkBytes(ts[1..]);
    if k == 0 {
      PayloadRecords.U32Cut(ThunkBytes(ts), 0, LE32(ts[0]));
    } else {
      WordAt(ts[1..], k - 1);
      U32Behind(LE32(ts[0]), rest, 4 * (k - 1));
    }
  }

  lemma {:induction false} U32Behind(a: seq<byte>, b: seq<byte>, at: nat)
    requires at + 4 <= |b|
    ensures U32At(a + b, |a| + at) == U32At(b, at)
  {
  }

  lemma {:induction false} SmallWords()
    ensures var g := SmallImage();
            && g.start == 0 && g.i == 0 && |g.m| == 36 && (forall k :: 0 <= k < |g.ss| ==> g.ss[k].pRaw == 0)
            && U32At(g.m, 0) == 0x101C && U32At(g.m, 8) == 0 && U32At(g.m, 12) == 0x1018 && U32At(g.m, 16) == 0x2000
            && U32At(g.m, 20) == 0 && U32At(g.m, 24) == 97 && U32At(g.m, 28) == 0x8000_0005 && U32At(g.m, 32) == 0
            && RvaToVa(g.ss, 0x1018) == Some(24) && RvaToVa(g.ss, 0x101C) == Some(28)
  {
    hide U32At, ThunkBytes;
    var ts := SmallTable();
    assert |ts| == 9;
    WordAt(ts, 0);
    WordAt(ts, 2);
    WordAt(ts, 3);
    WordAt(ts, 4);
    WordAt(ts, 5);
    WordAt(ts, 6);
    WordAt(ts, 7);
    WordAt(ts, 8);
  }

  lemma {:induction false} TextWord(m: seq<byte>, at: nat)
    requires at + 4 <= |m| && U32At(m, at) == 97
    ensures m[at] == 97 && m[at + 1] == 0
  {
  }

  lemma {:induction false} SmallTexts()
    ensures var g := SmallImage();
            && StringAt(g.m, 24) == Some([97])
            && ReadNames(g.m, g.ss, 28, Some(28)) == Some([ImportName(0, 5, 5, None, None)])
  {
    hide SmallImage, U32At, RvaToVa;
    var g := SmallImage();
    SmallWords();
    TextWord(g.m, 24);
    NothingBehind<byte>(97);
    NothingBehind(ImportName(0, 5, 5, None, None));
    assert StringAt(g.m, 25) == Some([]);
    assert ReadNames(g.m, g.ss, 32, Some(32)) == Some([]);
  }

  lemma {:induction false} SmallOpens()
    ensures Opens(SmallImage(), SmallList(5)) && SmallImage().start == 0
  {
    hide SmallImage, U32At, RvaToVa, StringAt, ReadNames;
    var g := SmallImage();
    SmallWords();
    SmallTexts();
    NothingBehind(SmallList(5)[0]);
    assert ReadFiles(g.m, g.ss, 20, 20, 0, 0) == Some([]);
    assert ReadFile(g.m, g.ss, 0, 0, 0, 0) == Some(SmallList(5)[0]);
  }

  lemma {:induction false} NothingBehind<T>(x: T)
    ensures [x] + [] == [x]
  {
  }

  lemma {:induction false} SmallEdit()
    ensures StopsAt(AnswerSix(), 0) && Edit(AnswerSix(), SmallList(5), 0) == Edited(true, 1, SmallList(6))
  {
    var cb, f := AnswerSix(), SmallList(5)[0];
    assert StopsAt(cb, 0);
    NothingBehind(ImportName(0, 5, 6, None, None));
    NothingBehind(SmallList(6)[0]);
    assert f.names[1..] == [] && EditSymbols(cb, 1, []) == Edited(true, 1, []);
    assert EditSymbols(cb, 0, f.names) == Edited(true, 1, SmallList(6)[0].names);
    assert EditPlain(cb, 0, f) == Edited(true, 1, SmallList(6)[0]);
    assert EditFrom(cb, 1, [], 0) == Edited(true, 1, []);
    assert SmallList(5)[1..] == [];
  }

  /** Edit and Write succeed, and the file still imports ordinal 5: no name differs, so no section is written. */
  lemma {:induction false} OrdinalEditLost(w: Output)
    requires Keeps(SmallImage().m, w.file, 0) && w.data == []
    ensures Opens(SmallImage(), SmallList(5)) && StopsAt(AnswerSix(), 0)
    ensures Edit(AnswerSix(), SmallList(5), 0) == Edited(true, 1, SmallList(6))
    ensures WriteOk(SmallImage(), w, SmallList(6)) && ReadBack(SmallImage(), w, SmallList(6)) == Some(SmallList(5))
    ensures !SameFiles(SmallList(6), SmallList(5))
  {
    hide Keeps, SmallImage, EditFrom, ReadFiles, SectionOk;
    SmallOpens();
    SmallEdit();
    var edited, fs := SmallList(6), SmallList(5);
    assert !FileEdited(edited[0]) && !WritesSection(edited, 0);
    OriginalReadBack(SmallImage(), w, fs, edited);
    assert !SameName(edited[0].names[0], fs[0].names[0]) && !SameFile(edited[0], fs[0]);
  }
}
