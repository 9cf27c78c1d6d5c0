/**
 * An image that is opened, edited and written any number of times: each Read drops the .detour section of the
 * last Write, if there is one, and restores the original import directory, so the originals stay those of the first
 * image.
 */
module ImageCycles {
  import opened Bytes
  import opened ImportLayout
  import opened ImageOutput
  import opened ImportReader
  import opened ImageWriter
  import opened ImportRoundTrip
  import opened ImportEditor
  import opened ImageRoundTrip

  // --------------------------------------------------- originals taken from a table

  /** What a list of files must have in common with the original table: which files, and how many symbols each. */
  datatype Shape = Shape(name: Option<seq<byte>>, symbols: nat)

  function Shapes(origs: seq<Orig>): seq<Shape> {
    if origs == [] then [] else [Shape(origs[0].name, |origs[0].symbols|)] + Shapes(origs[1..])
  }

  predicate SameShape(fs: seq<ImportFile>, origs: seq<Orig>) { Shapes(Origs(fs)) == Shapes(origs) }

  /** The symbols with the original names the table gives them, in order. */
  function RestoredNames(ns: seq<ImportName>, symbols: seq<Source>): (r: seq<ImportName>)
    ensures |r| == |ns|
  {
    if ns == [] || symbols == [] then ns
    else [ns[0].(nOrig := symbols[0].nOrig, pszOrig := symbols[0].pszOrig)] + RestoredNames(ns[1..], symbols[1..])
  }

  /** The files with the symbols' original names taken from the table, which Read consults anew each time. */
  function Restored(fs: seq<ImportFile>, origs: seq<Orig>): (r: seq<ImportFile>)
    ensures |r| == |fs|
  {
    if fs == [] || origs == [] then fs
    else if fs[0].fByway then [fs[0]] + Restored(fs[1..], origs)
    else [fs[0].(names := RestoredNames(fs[0].names, origs[0].symbols))] + Restored(fs[1..], origs[1..])
  }

  lemma {:induction false} RestoredNameOrigs(ns: seq<ImportName>, symbols: seq<Source>)
    requires |ns| == |symbols|
    ensures NameOrigs(RestoredNames(ns, symbols)) == symbols
  {
    if ns != [] {
      RestoredNameOrigs(ns[1..], symbols[1..]);
      assert RestoredNames(ns, symbols)[1..] == RestoredNames(ns[1..], symbols[1..]);
    }
  }

  /** After that the list's originals are those of the table. */
  lemma {:induction false} RestoredOrigs(fs: seq<ImportFile>, origs: seq<Orig>)
    requires SameShape(fs, origs)
    ensures Origs(Restored(fs, origs)) == origs
    decreases |fs|
  {
    hide NameOrigs, RestoredNames;
    if fs != [] && origs != [] {
      OrigsFirst(fs);
      var r := Restored(fs, origs);
      if fs[0].fByway {
        RestoredOrigs(fs[1..], origs);
        assert r[1..] == Restored(fs[1..], origs) && r[0] == fs[0];
        OrigsFirst(r);
      } else {
        assert Shapes(Origs(fs))[1..] == Shapes(origs)[1..];
        RestoredOrigs(fs[1..], origs[1..]);
        RestoredNameOrigs(fs[0].names, origs[0].symbols);
        assert r[1..] == Restored(fs[1..], origs[1..]);
        OrigsFirst(r);
        assert origs == [origs[0]] + origs[1..];
      }
    }
  }

  // ------------------------------------------------ the layout does not see originals

  lemma {:induction false} SameSymbols(ns: seq<ImportName>, symbols: seq<Source>, rva: nat)
    ensures var r := RestoredNames(ns, symbols);
            SymTexts(r) == SymTexts(ns) && SymThunks(r, rva) == SymThunks(ns, rva)
  {
    hide HintText;
    if ns != [] && symbols != [] {
      var r := RestoredNames(ns, symbols);
      SameSymbols(ns[1..], symbols[1..], rva + |SymText(ns[0])|);
      assert r[1..] == RestoredNames(ns[1..], symbols[1..]);
    }
  }

  lemma {:induction false} StillWritable(ns: seq<ImportName>, symbols: seq<Source>)
    requires forall k :: 0 <= k < |ns| ==> WritableName(ns[k])
    ensures forall k :: 0 <= k < |ns| ==> WritableName(RestoredNames(ns, symbols)[k])
  {
    hide NulFree;
    if ns != [] && symbols != [] {
      var r := RestoredNames(ns, symbols);
      assert forall k :: 0 <= k < |ns[1..]| ==> ns[1..][k] == ns[k + 1];
      StillWritable(ns[1..], symbols[1..]);
      assert forall k :: 1 <= k < |ns| ==> r[k] == RestoredNames(ns[1..], symbols[1..])[k - 1];
    }
  }

  /** Two files that Write lays out alike. */
  ghost predicate AlikeFile(f: ImportFile, g: ImportFile) {
    && f.fByway == g.fByway && f.pszName == g.pszName && |f.names| == |g.names|
    && f.rvaFirstThunk == g.rvaFirstThunk && f.nForwarderChain == g.nForwarderChain
    && SymTexts(f.names) == SymTexts(g.names) && forall rva :: SymThunks(f.names, rva) == SymThunks(g.names, rva)
  }

  ghost predicate Alike(fs: seq<ImportFile>, gs: seq<ImportFile>) {
    |fs| == |gs| && forall k :: 0 <= k < |fs| ==> AlikeFile(fs[k], gs[k])
  }

  lemma {:induction false} RestoredAlike(fs: seq<ImportFile>, origs: seq<Orig>, s: Place)
    ensures Alike(fs, Restored(fs, origs))
    ensures (forall k :: 0 <= k < |fs| ==> WritableFile(fs[k], s)) ==>
              forall k :: 0 <= k < |fs| ==> WritableFile(Restored(fs, origs)[k], s)
    decreases |fs|
  {
    hide AlikeFile, WritableFile, RestoredNames;
    forall k | 0 <= k < |fs| ensures AlikeFile(fs[k], fs[k]) {
      AlikeItself(fs[k]);
    }
    if fs != [] && origs != [] {
      var r, rest := Restored(fs, origs), if fs[0].fByway then origs else origs[1..];
      RestoredAlike(fs[1..], rest, s);
      assert r[1..] == Restored(fs[1..], rest);
      assert forall k :: 1 <= k < |fs| ==> fs[k] == fs[1..][k - 1] && r[k] == r[1..][k - 1];
      RestoredFile(fs[0], origs[0].symbols, s);
    }
  }

  lemma {:induction false} AlikeItself(f: ImportFile)
    ensures AlikeFile(f, f)
  {
  }

  lemma {:induction false} RestoredFile(f: ImportFile, symbols: seq<Source>, s: Place)
    ensures var g := f.(names := RestoredNames(f.names, symbols));
            AlikeFile(f, g) && (WritableFile(f, s) && !f.fByway ==> WritableFile(g, s))
  {
    hide SymTexts, SymThunks, RestoredNames, WritableName, NulFree;
    var g := f.(names := RestoredNames(f.names, symbols));
    forall rva ensures SymThunks(g.names, rva) == SymThunks(f.names, rva) {
      SameSymbols(f.names, symbols, rva);
    }
    SameSymbols(f.names, symbols, 0);
    if WritableFile(f, s) {
      StillWritable(f.names, symbols);
    }
  }

  lemma {:induction false} AlikeParts(f: ImportFile, g: ImportFile, n: nat, look: nat, bound: nat, text: nat)
    requires AlikeFile(f, g)
    ensures FileThunks(f) == FileThunks(g) && FileBound(f) == FileBound(g) && FileText(f) == FileText(g)
    ensures FileLookup(f, text) == FileLookup(g, text)
    ensures Descriptor(f, n, look, bound, text) == Descriptor(g, n, look, bound, text)
  {
    hide SymTexts, SymThunks, NameText, LE32;
  }

  lemma {:induction false} AlikeRest(fs: seq<ImportFile>, gs: seq<ImportFile>)
    requires Alike(fs, gs) && fs != []
    ensures AlikeFile(fs[0], gs[0]) && Alike(fs[1..], gs[1..])
  {
    hide AlikeFile;
    assert forall k :: 1 <= k < |fs| ==> fs[k] == fs[1..][k - 1] && gs[k] == gs[1..][k - 1];
  }

  lemma {:induction false} AlikeCounts(fs: seq<ImportFile>, gs: seq<ImportFile>)
    requires Alike(fs, gs)
    ensures Thunks(fs) == Thunks(gs) && Bounds(fs) == Bounds(gs) && Texts(fs) == Texts(gs)
    decreases |fs|
  {
    hide Alike, AlikeFile, FileThunks, FileBound, FileText;
    AlikeLength(fs, gs);
    if fs != [] {
      AlikeRest(fs, gs);
      AlikeParts(fs[0], gs[0], 0, 0, 0, 0);
      AlikeCounts(fs[1..], gs[1..]);
    }
  }

  lemma {:induction false} AlikeLookups(fs: seq<ImportFile>, gs: seq<ImportFile>, text: nat)
    requires Alike(fs, gs)
    ensures Lookups(fs, text) == Lookups(gs, text)
    decreases |fs|
  {
    hide Alike, AlikeFile, FileText, FileLookup;
    AlikeLength(fs, gs);
    if fs != [] {
      AlikeRest(fs, gs);
      AlikeParts(fs[0], gs[0], 0, 0, 0, text);
      AlikeLookups(fs[1..], gs[1..], text + |FileText(fs[0])|);
    }
  }

  lemma {:induction false} AlikeTables(fs: seq<ImportFile>, gs: seq<ImportFile>, n: nat, look: nat, bound: nat,
                                       text: nat)
    requires Alike(fs, gs)
    ensures Descriptors(fs, n, look, bound, text) == Descriptors(gs, n, look, bound, text)
    decreases |fs|
  {
    hide Alike, AlikeFile, FileThunks, FileBound, FileText, Descriptor;
    AlikeLength(fs, gs);
    if fs != [] {
      var f := fs[0];
      AlikeRest(fs, gs);
      AlikeParts(f, gs[0], n, look, bound, text);
      AlikeTables(fs[1..], gs[1..], n, look + 4 * FileThunks(f), bound + 4 * |FileBound(f)|, text + |FileText(f)|);
    }
  }

  lemma {:induction false} AlikeLength(fs: seq<ImportFile>, gs: seq<ImportFile>)
    requires Alike(fs, gs)
    ensures |fs| == |gs|
  {
    hide AlikeFile;
  }

  lemma {:induction false} AlikeWritten(buf: seq<byte>, fs: seq<ImportFile>, gs: seq<ImportFile>, prePE: seq<byte>,
                                        data: seq<byte>, others: seq<byte>, h: SectionHeader)
    requires Alike(fs, gs) && Written(buf, fs, prePE, data, others, h)
    ensures Written(buf, gs, prePE, data, others, h)
    ensures LayoutFor(gs, |prePE|, |data|) == LayoutFor(fs, |prePE|, |data|) && Thunks(gs) == Thunks(fs)
  {
    hide Emitted, LayoutOf, Texts, Thunks, Lookups, Bounds, Descriptors, Alike;
    var l := LayoutFor(fs, |prePE|, |data|);
    AlikeLength(fs, gs);
    AlikeCounts(fs, gs);
    AlikeLookups(fs, gs, h.va + l.text);
    AlikeTables(fs, gs, Thunks(fs), h.va + l.look, h.va + l.bound, h.va + l.text);
  }

  // --------------------------------------------------------------------- one cycle

  /** What Read leaves has the shape of the original table. */
  lemma {:induction false} FitsShape(fs: seq<ImportFile>, origs: seq<Orig>)
    requires FitsTable(fs, origs)
    ensures SameShape(fs, origs)
    decreases |fs|
  {
    hide Sourced, NameOrigs;
    if fs != [] {
      OrigsFirst(fs);
      FitsShape(fs[1..], if fs[0].fByway then origs else origs[1..]);
    }
  }

  /** A list comes out as one thunk only if the first image's list did. */
  lemma {:induction false} LoneShape(edited: seq<ImportFile>, fs: seq<ImportFile>)
    requires SameShape(edited, Origs(fs)) && forall f :: f in fs ==> FreshFile(f)
    ensures Thunks(edited) == 1 ==> Thunks(fs) == 1
  {
    hide FreshFile, NameOrigs;
    FewThunks(edited);
    if Thunks(edited) == 1 {
      OrigsFirst(edited);
      assert edited[1..] == [] && edited[0].names == [] && Origs(edited[1..]) == [];
      var shapes := Shapes(Origs(edited));
      assert Origs(edited) == [Origs(edited)[0]] + Origs(edited)[1..];
      assert Shapes(Origs(edited)[1..]) == [] && |shapes| == 1 && shapes[0].symbols == 0;
      ShapesLength(Origs(fs));
      FreshLength(fs);
      FreshPlain(fs[0]);
      OrigsFirst(fs);
      assert Shapes(Origs(fs))[0].symbols == |fs[0].names| && fs[1..] == [];
    }
  }

  lemma {:induction false} ShapesLength(origs: seq<Orig>)
    ensures |Shapes(origs)| == |origs|
  {
    if origs != [] {
      ShapesLength(origs[1..]);
    }
  }

  lemma {:induction false} FreshLength(fs: seq<ImportFile>)
    requires forall f :: f in fs ==> FreshFile(f)
    ensures |Origs(fs)| == |fs|
  {
    hide FreshFile, NameOrigs;
    if fs != [] {
      FreshPlain(fs[0]);
      FreshLength(fs[1..]);
    }
  }

  /** One round of editing and writing. */
  datatype Cycle = Cycle(cb: Callbacks, stop: nat, output: Output)

  /** The import list a cycle writes, starting from the list `fs`. */
  function EditedBy(c: Cycle, fs: seq<ImportFile>): seq<ImportFile>
    requires StopsAt(c.cb, c.stop)
  {
    Edit(c.cb, fs, c.stop).value
  }

  /** What Read finds in the file a cycle wrote. */
  function ReadAfter(g: Origin, c: Cycle, fs: seq<ImportFile>): Option<seq<ImportFile>>
    requires StopsAt(c.cb, c.stop)
  {
    ReadBack(g, c.output, EditedBy(c, fs))
  }

  /** A cycle copies the sections of the file `m` it was given and, where Write does, appends its own. */
  ghost predicate CycleOk(g: Origin, m: seq<byte>, c: Cycle, fs: seq<ImportFile>) {
    && StopsAt(c.cb, c.stop)
    && g.start <= |g.m| <= |m| && |g.m| <= |c.output.file|
    && c.output.file[g.start..|g.m|] == m[g.start..|g.m|]
    && (WritesSection(EditedBy(c, fs), |c.output.data|) ==> SectionOk(g, c.output, EditedBy(c, fs)))
  }

  /** Whether the one file of an image is out of sight after a round: lost in a section of one thunk, and not back. */
  predicate LostNext(c: Cycle, edited: seq<ImportFile>, lost: bool) {
    WritesSection(edited, |c.output.data|) && (lost || Thunks(edited) == 1)
  }

  /** A list that Read leaves next to the first image's table, or byways only in place of its one file. */
  predicate Reads(fs: seq<ImportFile>, first: seq<ImportFile>, lost: bool) {
    if lost then Origs(fs) == [] && Thunks(first) == 1 else FitsTable(fs, Origs(first))
  }

  /**
   * One round on an image that may have been rewritten before: the first image's sections stay, and Read finds the
   * list that was written, with the first image's originals, or nothing in place of a single thunk, or the first
   * image's list.
   */
  lemma {:induction false} CycleKeeps(g: Origin, m: seq<byte>, c: Cycle, fs: seq<ImportFile>, first: seq<ImportFile>,
                                      lost: bool)
    requires Opens(g, first) && AllOriginal(first)
    requires Keeps(g.m, m, g.start) && Reads(fs, first, lost) && CycleOk(g, m, c, fs)
    ensures Keeps(g.m, c.output.file, g.start)
    ensures var edited, back := EditedBy(c, fs), ReadAfter(g, c, fs);
            && back.Some? && Reads(back.value, first, LostNext(c, edited, lost))
            && if !WritesSection(edited, |c.output.data|) then back.value == first
               else if Thunks(edited) == 1 then back.value == []
               else SameFiles(Restored(edited, Origs(first)), back.value)
  {
    hide EditFrom, StopsAt, Origs, AllOriginal, Opens, Keeps, SectionOk, Restored, SameFiles, FreshFile, Plain,
         ReadBack, Thunks, WritesSection, FitsTable;
    SectionsKept(g, m, c, fs);
    var edited := EditedBy(c, fs);
    Unchanged(g, first);
    if WritesSection(edited, |c.output.data|) {
      EditKeepsFiles(c.cb, 0, fs, c.stop);
      OrigsOfPlain(fs);
      OrigsOfPlain(edited);
      if !lost {
        FitsShape(fs, Origs(first));
        LoneShape(edited, first);
      }
      RestoredReadsBack(g, c.output, first, edited);
      if Thunks(edited) == 1 {
        NoOrigs([]);
      } else {
        BackReads(first, edited, ReadAfter(g, c, fs).value, lost);
      }
    } else {
      OriginalReadBack(g, c.output, first, edited);
      FreshFits(first);
    }
  }

  lemma {:induction false} BackReads(first: seq<ImportFile>, edited: seq<ImportFile>, back: seq<ImportFile>, lost: bool)
    requires SameFiles(Restored(edited, Origs(first)), back)
    requires if lost then Origs(edited) == [] && Thunks(first) == 1 else SameShape(edited, Origs(first))
    ensures Reads(back, first, lost)
  {
    hide Origs, Restored, SameFiles, FitsTable, Thunks, SameShape;
    SameFits(Restored(edited, Origs(first)), back);
    if lost {
      NoOrigs(edited);
      RestoredNone(edited, Origs(first));
      FitsNone(back);
    } else {
      RestoredOrigs(edited, Origs(first));
    }
  }

  lemma {:induction false} FitsNone(fs: seq<ImportFile>)
    requires FitsTable(fs, [])
    ensures Origs(fs) == []
  {
    if fs != [] {
      FitsNone(fs[1..]);
    }
  }

  /** A list of byways only. */
  lemma {:induction false} NoOrigs(fs: seq<ImportFile>)
    ensures Origs(fs) == [] ==> ImportsOf(fs) == [] && ResetFiles(fs) == [] && forall f :: f in fs ==> f.fByway
    ensures Origs(fs) == [] <== fs == []
  {
    hide NameOrigs, Symbols;
    if fs != [] {
      OrigsFirst(fs);
      NoOrigs(fs[1..]);
      assert forall f :: f in fs <==> f == fs[0] || f in fs[1..];
    }
  }

  lemma {:induction false} RestoredNone(fs: seq<ImportFile>, origs: seq<Orig>)
    requires forall f :: f in fs ==> f.fByway
    ensures Restored(fs, origs) == fs
  {
    if fs != [] && origs != [] {
      RestoredNone(fs[1..], origs);
      assert fs == [fs[0]] + fs[1..];
    }
  }

  lemma {:induction false} Unchanged(g: Origin, fs: seq<ImportFile>)
    requires Opens(g, fs)
    ensures forall f :: f in fs ==> FreshFile(f)
  {
    hide ReadFiles, FreshFile;
    FreshFiles(g.m, g.ss, g.i, fs);
  }

  /** In a file with a new section Read finds the list that was written, with the originals of the table. */
  lemma {:induction false} RestoredReadsBack(g: Origin, w: Output, fs: seq<ImportFile>, edited: seq<ImportFile>)
    requires Opens(g, fs) && AllOriginal(fs) && Keeps(g.m, w.file, g.start)
    requires SectionOk(g, w, edited) && WritesSection(edited, |w.data|)
    requires SameShape(edited, Origs(fs)) || Origs(edited) == []
    ensures var back := ReadBack(g, w, edited);
            && back.Some?
            && if Thunks(edited) == 1 then back.value == [] else SameFiles(Restored(edited, Origs(fs)), back.value)
  {
    hide ReadFiles, Keeps, Written, WritableFile, HasOriginal, SameFiles, Stands, Origs, OrigTable, LayoutFor, Thunks,
         RvaToVa, Mapped, WritesSection, Restored, SameShape, Alike;
    assert forall k, j :: 0 <= k < |fs| && 0 <= j < |fs[k].names| ==> fs[k] in fs && fs[k].names[j] in fs[k].names;
    OriginalsSurvive(g.m, w.file, g.ss, w.added, g.start, g.i, fs);
    var restored := Restored(edited, Origs(fs));
    if Origs(edited) == [] {
      NoOrigs(edited);
      RestoredNone(edited, Origs(fs));
      NoTable(w.file, g.ss + [w.added], g.i);
    } else {
      RestoredOrigs(edited, Origs(fs));
    }
    RestoredAlike(edited, Origs(fs), Place(w.added.va, w.added.pRaw, w.added.cbRaw));
    AlikeWritten(w.buf, edited, restored, w.prePE, w.data, w.others, w.added);
    ImportsRoundTrip(w.file, g.ss, w.added, w.buf, restored, w.prePE, w.data, w.others, g.i);
  }

  lemma {:induction false} NoTable(m: seq<byte>, ss: seq<SectionHeader>, o: nat)
    ensures OrigTable(m, ss, o, [])
  {
  }

  lemma {:induction false} SectionsKept(g: Origin, m: seq<byte>, c: Cycle, fs: seq<ImportFile>)
    requires Keeps(g.m, m, g.start) && CycleOk(g, m, c, fs)
    ensures StopsAt(c.cb, c.stop) && Keeps(g.m, c.output.file, g.start)
    ensures WriteOk(g, c.output, EditedBy(c, fs))
  {
    hide StopsAt, SectionOk, WritesSection, EditFrom;
  }

  // -------------------------------------------------------------------- any number

  /** Every cycle starts from what Read finds in the file the last one wrote. */
  ghost predicate CyclesOk(g: Origin, m: seq<byte>, fs: seq<ImportFile>, cycles: seq<Cycle>)
    decreases |cycles|
  {
    cycles == [] ||
      (CycleOk(g, m, cycles[0], fs)
       && (ReadAfter(g, cycles[0], fs).Some? ==>
             CyclesOk(g, cycles[0].output.file, ReadAfter(g, cycles[0], fs).value, cycles[1..])))
  }

  /** The list read from the last file. */
  ghost function LastRead(g: Origin, m: seq<byte>, fs: seq<ImportFile>, cycles: seq<Cycle>): Option<seq<ImportFile>>
    requires CyclesOk(g, m, fs, cycles)
    decreases |cycles|
  {
    if cycles == [] then Some(fs)
    else
      match ReadAfter(g, cycles[0], fs)
      case None => None
      case Some(back) => LastRead(g, cycles[0].output.file, back, cycles[1..])
  }

  /** Whether the first image's file is lost in the end. */
  ghost function LostAfter(g: Origin, m: seq<byte>, fs: seq<ImportFile>, cycles: seq<Cycle>, lost: bool): bool
    requires CyclesOk(g, m, fs, cycles)
    decreases |cycles|
  {
    if cycles == [] then lost
    else
      var next := LostNext(cycles[0], EditedBy(cycles[0], fs), lost);
      match ReadAfter(g, cycles[0], fs)
      case None => next
      case Some(back) => LostAfter(g, cycles[0].output.file, back, cycles[1..], next)
  }

  lemma {:induction false} CyclesKeep(g: Origin, m: seq<byte>, fs: seq<ImportFile>, first: seq<ImportFile>,
                                      cycles: seq<Cycle>, lost: bool)
    requires Opens(g, first) && AllOriginal(first)
    requires Keeps(g.m, m, g.start) && Reads(fs, first, lost) && CyclesOk(g, m, fs, cycles)
    ensures var last := LastRead(g, m, fs, cycles);
            last.Some? && Reads(last.value, first, LostAfter(g, m, fs, cycles, lost))
    decreases |cycles|
  {
    hide CycleOk, ReadAfter, Keeps, Reads, Opens, AllOriginal, Thunks, Origs, EditFrom, LostNext;
    if cycles != [] {
      CycleStops(g, m, cycles[0], fs);
      CycleKeeps(g, m, cycles[0], fs, first, lost);
      CyclesKeep(g, cycles[0].output.file, ReadAfter(g, cycles[0], fs).value, first, cycles[1..],
                 LostNext(cycles[0], EditedBy(cycles[0], fs), lost));
    }
  }

  lemma {:induction false} CycleStops(g: Origin, m: seq<byte>, c: Cycle, fs: seq<ImportFile>)
    requires CycleOk(g, m, c, fs)
    ensures StopsAt(c.cb, c.stop)
  {
    hide StopsAt, SectionOk, WritesSection, EditFrom;
  }

  lemma {:induction false} KeepsItself(g: Origin, fs: seq<ImportFile>)
    requires Opens(g, fs) && g.start <= |g.m|
    ensures Keeps(g.m, g.m, g.start)
  {
  }

  /** The one file of such an image counts among what a reset has to bring back. */
  lemma {:induction false} LoneNamed(fs: seq<ImportFile>)
    requires Thunks(fs) == 1
    ensures FileNames(fs) != [] && ImportsOf(fs) != []
  {
    hide Symbols;
    FewThunks(fs);
  }

  /**
   * However often an image is opened, edited by any callbacks and written, the last file can be read.  Resetting
   * the imports read from it gives the file names of the first image, unless that was one file without symbols which
   * is lost, and all of its imports if and only if no symbol is imported by an ordinal it did not have there.
   */
  lemma {:induction false} ManyCycles(g: Origin, fs: seq<ImportFile>, cycles: seq<Cycle>)
    requires Opens(g, fs) && AllOriginal(fs) && g.start <= |g.m|
    requires CyclesOk(g, g.m, fs, cycles)
    ensures var last, lost := LastRead(g, g.m, fs, cycles), LostAfter(g, g.m, fs, cycles, false);
            && last.Some? && (lost ==> Thunks(fs) == 1)
            && var reset := ResetImports(last.value);
            && reset.ok && (FileNames(reset.value) == FileNames(fs) <==> !lost)
            && (ImportsOf(reset.value) == ImportsOf(fs) <==> OrdinalsKept(ImportsOf(last.value), ImportsOf(fs)))
  {
    hide Opens, AllOriginal, Thunks, CyclesOk, LastRead, ImportsOf, Origs, FitsTable, FreshFile, Known, Keeps, EditFrom,
         ResetFiles, LostAfter;
    Unchanged(g, fs);
    FreshFits(fs);
    KeepsItself(g, fs);
    CyclesKeep(g, g.m, fs, fs, cycles, false);
    var last := LastRead(g, g.m, fs, cycles).value;
    ResetIs(0, last);
    if LostAfter(g, g.m, fs, cycles, false) {
      NoOrigs(last);
      NoOrigs([]);
      LoneNamed(fs);
    } else {
      FitsKnown(last, fs);
      ResetIsOriginal(last, fs);
    }
  }

  /**
   * However an image was edited, over any number of rounds, resetting its imports and writing it without payloads
   * undoes everything: no section is written, and Read finds exactly the first image's list.
   */
  lemma {:induction false} ResetWritten(g: Origin, fs: seq<ImportFile>, cycles: seq<Cycle>, w: Output)
    requires Opens(g, fs) && AllOriginal(fs) && g.start <= |g.m|
    requires CyclesOk(g, g.m, fs, cycles) && w.data == [] && Keeps(g.m, w.file, g.start)
    ensures var last := LastRead(g, g.m, fs, cycles);
            && last.Some?
            && var reset := ResetImports(last.value).value;
            !WritesSection(reset, 0) && ReadBack(g, w, reset) == Some(fs)
  {
    hide Opens, AllOriginal, Thunks, CyclesOk, LastRead, Origs, FitsTable, FreshFile, Keeps, EditFrom, ResetFiles,
         SectionOk, FileEdited, ReadBack, LostAfter;
    Unchanged(g, fs);
    FreshFits(fs);
    KeepsItself(g, fs);
    CyclesKeep(g, g.m, fs, fs, cycles, false);
    var last := LastRead(g, g.m, fs, cycles).value;
    if LostAfter(g, g.m, fs, cycles, false) {
      NoOrigs(last);
    } else {
      FitsKnown(last, fs);
    }
    ResetRestores(last);
    forall f | f in last && !f.fByway ensures Resettable(f) {
      KnownResets(f);
    }
    OriginalReadBack(g, w, fs, ResetImports(last).value);
  }

  lemma {:induction false} KnownResets(f: ImportFile)
    requires Known(f) && f.pszOrig.Some?
    ensures Resettable(f)
  {
  }
}
