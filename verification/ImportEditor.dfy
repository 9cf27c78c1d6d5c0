/** CImage::EditImports with arbitrary callbacks, and the callbacks that reset an image to its original imports. */
module ImportEditor {
  import opened Bytes
  import opened ImportLayout
  import opened ImportReader
  import opened ImportRoundTrip

  type Text = seq<byte>

  /**
   * The four callbacks, any of which may be missing.  A callback may behave differently every time, so each
   * answer also depends on how many callback calls came before it.
   */
  datatype Callbacks = Callbacks(
    byway: Option<(nat, Option<Text>) -> (bool, Option<Text>)>,
    file: Option<(nat, Option<Text>, Text) -> (bool, Option<Text>)>,
    symbol: Option<(nat, dword, dword, Option<Text>, Option<Text>) -> (bool, dword, Option<Text>)>,
    commit: Option<nat -> bool>)

  /** After `stop` calls the byway callback asks for no more insertions. */
  ghost predicate StopsAt(cb: Callbacks, stop: nat) {
    cb.byway.Some? ==> forall n: nat :: n >= stop ==> var (ok, out) := cb.byway.value(n, None); ok ==> out.None?
  }

  /** Whether an edit went through, how many calls it took so far, and what it left. */
  datatype Edited<T> = Edited(ok: bool, calls: nat, value: T)

  // --------------------------------------------------------------- specification

  /** What one answer of the symbol callback does to a symbol. */
  function Renamed(n: ImportName, ordinal: dword, out: Option<Text>): ImportName {
    if out.Some? then n.(nOrdinal := 0, pszName := out)
    else if ordinal != 0 then n.(nOrdinal := ordinal, pszName := None)
    else n
  }

  function EditSymbols(cb: Callbacks, calls: nat, ns: seq<ImportName>): Edited<seq<ImportName>>
    decreases |ns|
  {
    if cb.symbol.None? || ns == [] then Edited(true, calls, ns)
    else
      var (ok, ordinal, out) := cb.symbol.value(calls, ns[0].nOrig, ns[0].nOrdinal, ns[0].pszOrig, ns[0].pszName);
      if !ok then Edited(false, calls + 1, ns)
      else
        var rest := EditSymbols(cb, calls + 1, ns[1..]);
        rest.(value := [Renamed(ns[0], ordinal, out)] + rest.value)
  }

  /** A file that is no byway. */
  function EditPlain(cb: Callbacks, calls: nat, f: ImportFile): Edited<ImportFile> {
    var named := if cb.file.None? then Edited(true, calls, f)
                 else
                   var (ok, out) := cb.file.value(calls, f.pszOrig, f.pszName);
                   Edited(ok, calls + 1, if ok && out.Some? then f.(pszName := out.value) else f);
    if !named.ok then named
    else
      var symbols := EditSymbols(cb, named.calls, f.names);
      Edited(symbols.ok, symbols.calls, named.value.(names := symbols.value))
  }

  function NewByway(name: Text): ImportFile { ImportFile(true, [], 0, 0, 0, None, name) }

  function Cons(f: ImportFile, rest: Edited<seq<ImportFile>>): Edited<seq<ImportFile>> {
    rest.(value := [f] + rest.value)
  }

  /** The list from some file on, everything before it being done. */
  function EditFrom(cb: Callbacks, calls: nat, fs: seq<ImportFile>, stop: nat): Edited<seq<ImportFile>>
    requires StopsAt(cb, stop)
    decreases |fs|, if calls < stop then stop - calls else 0, 1
  {
    if cb.byway.None? then EditHere(cb, calls, fs, stop)
    else
      var (ok, out) := cb.byway.value(calls, None);
      if !ok then Edited(false, calls + 1, fs)
      else if out.Some? then Cons(NewByway(out.value), EditFrom(cb, calls + 1, fs, stop))
      else EditHere(cb, calls + 1, fs, stop)
  }

  /** The same once nothing more is inserted in front of the first file. */
  function EditHere(cb: Callbacks, calls: nat, fs: seq<ImportFile>, stop: nat): Edited<seq<ImportFile>>
    requires StopsAt(cb, stop)
    decreases |fs|, 0, 0
  {
    if fs == [] then Edited(true, calls, [])
    else
      var f, rest := fs[0], fs[1..];
      if f.fByway then
        if cb.byway.None? then Cons(f, EditFrom(cb, calls, rest, stop))
        else
          var (ok, out) := cb.byway.value(calls, Some(f.pszName));
          if !ok then Edited(false, calls + 1, fs)
          else if out.Some? then Cons(f.(pszName := out.value), EditFrom(cb, calls + 1, rest, stop))
          else EditFrom(cb, calls + 1, rest, stop)
      else
        var edited := EditPlain(cb, calls, f);
        if !edited.ok then Edited(false, edited.calls, [edited.value] + rest)
        else Cons(edited.value, EditFrom(cb, edited.calls, rest, stop))
  }

  /** The whole of EditImports. */
  function Edit(cb: Callbacks, fs: seq<ImportFile>, stop: nat): Edited<seq<ImportFile>>
    requires StopsAt(cb, stop)
  {
    var e := EditFrom(cb, 0, fs, stop);
    if e.ok && cb.commit.Some? then Edited(cb.commit.value(e.calls), e.calls + 1, e.value) else e
  }

  // ------------------------------------------------------------------- the editor

  /** The import list of CImage with its count. */
  class CImageImports {
    var m_pImportFiles: seq<ImportFile>
    var m_nImportFiles: nat

    constructor (files: seq<ImportFile>)
      ensures m_pImportFiles == files && m_nImportFiles == |files|
    {
      m_pImportFiles, m_nImportFiles := files, |files|;
    }

    /** The symbol loop, on the file at index `at`. */
    method EditFileSymbols(cb: Callbacks, calls0: nat, at: nat) returns (ok: bool, calls: nat)
      requires at < |m_pImportFiles|
      modifies `m_pImportFiles
      ensures var f := old(m_pImportFiles)[at];
              var e := EditSymbols(cb, calls0, f.names);
              ok == e.ok && calls == e.calls && m_pImportFiles == old(m_pImportFiles)[at := f.(names := e.value)]
    {
      hide EditSymbols, Renamed;
      ghost var files, f := m_pImportFiles, m_pImportFiles[at];
      ghost var e := EditSymbols(cb, calls0, f.names);
      var names, n := m_pImportFiles[at].names, 0;
      ok, calls := true, calls0;
      Halves(names, 0);
      assert names[..0] == [] && names[0..] == names && files[at := f.(names := names)] == files;
      while cb.symbol.Some? && n < |names|
        invariant n <= |names|
        invariant m_pImportFiles == files[at := f.(names := names)]
        invariant var rest := EditSymbols(cb, calls, names[n..]);
                  rest.ok == e.ok && rest.calls == e.calls && names[..n] + rest.value == e.value
      {
        var pImportName := names[n];
        Halves(names, n);
        SymbolAnswer(cb, calls, names[n..]);
        var (cont, nOrdinal, pszName) :=
          cb.symbol.value(calls, pImportName.nOrig, pImportName.nOrdinal, pImportName.pszOrig, pImportName.pszName);
        calls := calls + 1;
        if !cont {
          return false, calls;
        }
        var renamed := Renamed(pImportName, nOrdinal, pszName);
        Replaced(names, n, renamed, EditSymbols(cb, calls, names[n + 1..]).value);
        names := names[n := renamed];
        UpdatedTwice(files, at, m_pImportFiles[at], f.(names := names));
        m_pImportFiles := m_pImportFiles[at := m_pImportFiles[at].(names := names)];
        n := n + 1;
      }
      Halves(names, n);
      NoSymbols(cb, calls, names[n..]);
    }

    /** One pass over a file that is no byway. */
    method EditPlainFile(cb: Callbacks, calls0: nat, at: nat) returns (ok: bool, calls: nat)
      requires at < |m_pImportFiles|
      modifies `m_pImportFiles
      ensures var e := EditPlain(cb, calls0, old(m_pImportFiles)[at]);
              ok == e.ok && calls == e.calls && m_pImportFiles == old(m_pImportFiles)[at := e.value]
    {
      hide EditSymbols;
      calls := calls0;
      ghost var files := m_pImportFiles;
      if cb.file.Some? {
        var pImportFile := m_pImportFiles[at];
        var (cont, pszFile) := cb.file.value(calls, pImportFile.pszOrig, pImportFile.pszName);
        calls := calls + 1;
        if !cont {
          assert files[at := files[at]] == files;
          return false, calls;
        }
        if pszFile.Some? {
          m_pImportFiles := m_pImportFiles[at := pImportFile.(pszName := pszFile.value)];
        }
      }
      ok, calls := EditFileSymbols(cb, calls, at);
    }

    /** EditImports; `stop` witnesses that the byway callback stops inserting. */
    method EditImports(cb: Callbacks, ghost stop: nat) returns (ok: bool)
      requires StopsAt(cb, stop) && m_nImportFiles == |m_pImportFiles|
      modifies this
      ensures ok == Edit(cb, old(m_pImportFiles), stop).ok
      ensures m_pImportFiles == Edit(cb, old(m_pImportFiles), stop).value && m_nImportFiles == |m_pImportFiles|
    {
      hide EditFrom, StopsAt;
      ghost var e := EditFrom(cb, 0, m_pImportFiles, stop);
      var at: nat, calls: nat := 0, 0;
      assert m_pImportFiles[..0] == [] && m_pImportFiles[0..] == m_pImportFiles;
      ok := true;
      var more := true;
      while ok && more
        invariant at <= |m_pImportFiles| == m_nImportFiles
        invariant ok && more ==> Pending(cb, calls, at, stop, e)
        invariant !ok || !more ==> ok == e.ok && (ok ==> calls == e.calls) && m_pImportFiles == e.value
        decreases ok && more, |m_pImportFiles| - at, if calls < stop then stop - calls else 0
      {
        ok, calls, at, more := EditStep(cb, calls, at, stop, e);
      }
      if ok && cb.commit.Some? {
        ok := cb.commit.value(calls);
      }
    }

    /** The files before index `at` are done; the result is known once the others are. */
    ghost predicate Pending(cb: Callbacks, calls: nat, at: nat, stop: nat, e: Edited<seq<ImportFile>>)
      requires StopsAt(cb, stop)
      reads this
    {
      at <= |m_pImportFiles|
      && var rest := EditFrom(cb, calls, m_pImportFiles[at..], stop);
         rest.ok == e.ok && rest.calls == e.calls && m_pImportFiles[..at] + rest.value == e.value
    }

    /** One round of the editing loops: an insertion, or the next file; `more` is false behind the last one. */
    method EditStep(cb: Callbacks, calls0: nat, at0: nat, ghost stop: nat, ghost e: Edited<seq<ImportFile>>)
      returns (ok: bool, calls: nat, at: nat, more: bool)
      requires StopsAt(cb, stop) && m_nImportFiles == |m_pImportFiles| && Pending(cb, calls0, at0, stop, e)
      modifies this
      ensures m_nImportFiles == |m_pImportFiles| && at <= |m_pImportFiles|
              && (ok && more ==> Pending(cb, calls, at, stop, e))
      ensures !ok || !more ==> ok == e.ok && (ok ==> calls == e.calls) && m_pImportFiles == e.value
      ensures ok && more ==>
                || |m_pImportFiles| - at < old(|m_pImportFiles|) - at0
                || (|m_pImportFiles| - at == old(|m_pImportFiles|) - at0 && calls0 < calls && calls0 < stop)
    {
      hide StopsAt;
      calls, at := calls0, at0;
      ghost var files := m_pImportFiles;
      Halves(files, at);
      if cb.byway.Some? {
        var (cont, pszFile) := cb.byway.value(calls, None);
        if !cont {
          return false, calls + 1, at, true;
        }
        if pszFile.Some? {
          Insisting(cb, calls, stop);
          m_pImportFiles := m_pImportFiles[..at] + [NewByway(pszFile.value)] + m_pImportFiles[at..];
          m_nImportFiles := m_nImportFiles + 1;
          Inserted(files, at, NewByway(pszFile.value), EditFrom(cb, calls + 1, files[at..], stop).value);
          return true, calls + 1, at + 1, true;
        }
        calls := calls + 1;
      }
      if at == |m_pImportFiles| {
        assert files[at..] == [] && files[..at] + [] == files;
        NoMore(cb, calls, stop);
        return true, calls, at, false;
      }
      ok, calls, at := EditCurrent(cb, calls, at, stop, e);
      more := true;
    }

    /** The file at the cursor: renamed, deleted, or its symbols edited. */
    method EditCurrent(cb: Callbacks, calls0: nat, at0: nat, ghost stop: nat, ghost e: Edited<seq<ImportFile>>)
      returns (ok: bool, calls: nat, at: nat)
      requires StopsAt(cb, stop) && m_nImportFiles == |m_pImportFiles| && at0 < |m_pImportFiles|
      requires var rest := EditHere(cb, calls0, m_pImportFiles[at0..], stop);
               rest.ok == e.ok && rest.calls == e.calls && m_pImportFiles[..at0] + rest.value == e.value
      modifies this
      ensures m_nImportFiles == |m_pImportFiles| && at <= |m_pImportFiles|
      ensures ok ==> Pending(cb, calls, at, stop, e) && |m_pImportFiles| - at < old(|m_pImportFiles|) - at0
      ensures !ok ==> !e.ok && m_pImportFiles == e.value
    {
      hide StopsAt, EditFrom, EditPlain;
      calls, at := calls0, at0;
      ghost var files := m_pImportFiles;
      Halves(files, at);
      if m_pImportFiles[at].fByway {
        if cb.byway.Some? {
          var (cont, pszFile) := cb.byway.value(calls, Some(m_pImportFiles[at].pszName));
          calls := calls + 1;
          if !cont {
            return false, calls, at;
          }
          if pszFile.Some? {
            m_pImportFiles := m_pImportFiles[at := m_pImportFiles[at].(pszName := pszFile.value)];
          } else {
            m_pImportFiles := m_pImportFiles[..at] + m_pImportFiles[at + 1..];
            m_nImportFiles := m_nImportFiles - 1;
            Removed(files, at);
            return true, calls, at;
          }
        }
      } else {
        ok, calls := EditPlainFile(cb, calls, at);
        if !ok {
          Replaced(files, at, m_pImportFiles[at], []);
          return;
        }
      }
      Replaced(files, at, m_pImportFiles[at], EditFrom(cb, calls, files[at + 1..], stop).value);
      assert m_pImportFiles == files[at := m_pImportFiles[at]];
      return true, calls, at + 1;
    }
  }

  lemma {:induction false} SymbolAnswer(cb: Callbacks, calls: nat, ns: seq<ImportName>)
    requires cb.symbol.Some? && ns != []
    ensures var n, (ok, ordinal, out) := ns[0],
              cb.symbol.value(calls, ns[0].nOrig, ns[0].nOrdinal, ns[0].pszOrig, ns[0].pszName);
            var rest := EditSymbols(cb, calls + 1, ns[1..]);
            EditSymbols(cb, calls, ns)
            == if ok then Edited(rest.ok, rest.calls, [Renamed(n, ordinal, out)] + rest.value)
            else Edited(false, calls + 1, ns)
  {
  }

  lemma {:induction false} NoSymbols(cb: Callbacks, calls: nat, ns: seq<ImportName>)
    requires cb.symbol.None? || ns == []
    ensures EditSymbols(cb, calls, ns) == Edited(true, calls, ns)
  {
  }

  lemma {:induction false} NoMore(cb: Callbacks, calls: nat, stop: nat)
    requires StopsAt(cb, stop)
    ensures EditHere(cb, calls, [], stop) == Edited(true, calls, [])
  {
  }

  lemma {:induction false} Insisting(cb: Callbacks, calls: nat, stop: nat)
    requires StopsAt(cb, stop) && cb.byway.Some? && cb.byway.value(calls, None).0 && cb.byway.value(calls, None).1.Some?
    ensures calls < stop
  {
  }

  lemma {:induction false} UpdatedTwice<T>(files: seq<T>, at: nat, f: T, g: T)
    requires at < |files|
    ensures files[at := f][at := g] == files[at := g] && files[at := f][at] == f
  {
  }

  lemma {:induction false} Halves<T>(files: seq<T>, at: nat)
    requires at <= |files|
    ensures files[..at] + files[at..] == files
    ensures at < |files| ==> files[at..] != [] && files[at..][0] == files[at] && files[at..][1..] == files[at + 1..]
  {
  }

  lemma {:induction false} Inserted<T>(files: seq<T>, at: nat, f: T, rest: seq<T>)
    requires at <= |files|
    ensures var files' := files[..at] + [f] + files[at..];
            files'[at + 1..] == files[at..] && files'[..at + 1] + rest == files[..at] + ([f] + rest)
  {
  }

  lemma {:induction false} Removed<T>(files: seq<T>, at: nat)
    requires at < |files|
    ensures var files' := files[..at] + files[at + 1..];
            files'[..at] == files[..at] && files'[at..] == files[at + 1..]
  {
  }

  lemma {:induction false} Replaced<T>(files: seq<T>, at: nat, f: T, rest: seq<T>)
    requires at < |files|
    ensures var files' := files[at := f];
            && files'[at + 1..] == files[at + 1..] && files'[..at + 1] + rest == files[..at] + ([f] + rest)
            && files' == files[..at] + ([f] + files[at + 1..])
  {
  }

  // -------------------------------------------------------------- what edits keep

  /** What no callback can change: everything about a file that is no byway except names and ordinals. */
  function ErasedNames(ns: seq<ImportName>): seq<ImportName> {
    if ns == [] then [] else [ns[0].(nOrdinal := 0, pszName := None)] + ErasedNames(ns[1..])
  }

  function Erased(f: ImportFile): ImportFile { f.(pszName := [], names := ErasedNames(f.names)) }

  function Plain(fs: seq<ImportFile>): seq<ImportFile> {
    if fs == [] then [] else (if fs[0].fByway then [] else [Erased(fs[0])]) + Plain(fs[1..])
  }

  lemma {:induction false} SymbolsKept(cb: Callbacks, calls: nat, ns: seq<ImportName>)
    ensures ErasedNames(EditSymbols(cb, calls, ns).value) == ErasedNames(ns)
    decreases |ns|
  {
    if cb.symbol.Some? && ns != [] {
      SymbolsKept(cb, calls + 1, ns[1..]);
      var (ok, ordinal, out) := cb.symbol.value(calls, ns[0].nOrig, ns[0].nOrdinal, ns[0].pszOrig, ns[0].pszName);
      var rest := EditSymbols(cb, calls + 1, ns[1..]).value;
      assert ([Renamed(ns[0], ordinal, out)] + rest)[1..] == rest;
    }
  }

  lemma {:induction false} PlainKept(cb: Callbacks, calls: nat, f: ImportFile)
    ensures var f' := EditPlain(cb, calls, f).value; Erased(f') == Erased(f) && f'.fByway == f.fByway
  {
    hide EditSymbols, ErasedNames;
    SymbolsKept(cb, calls, f.names);
    SymbolsKept(cb, calls + 1, f.names);
  }

  lemma {:induction false} PlainCons(f: ImportFile, fs: seq<ImportFile>)
    ensures Plain([f] + fs) == (if f.fByway then [] else [Erased(f)]) + Plain(fs)
  {
    hide Erased;
    assert ([f] + fs)[1..] == fs;
  }

  /**
   * Whatever the callbacks answer, and also when one fails half-way: the files that are no byways are the same
   * ones, in the same order, with the same original names and import addresses.
   */
  lemma {:induction false} EditKeepsFiles(cb: Callbacks, calls: nat, fs: seq<ImportFile>, stop: nat)
    requires StopsAt(cb, stop)
    ensures Plain(EditFrom(cb, calls, fs, stop).value) == Plain(fs)
    decreases |fs|, if calls < stop then stop - calls else 0, 1
  {
    hide StopsAt, Erased, Plain, EditHere;
    if cb.byway.Some? {
      var (ok, out) := cb.byway.value(calls, None);
      if ok && out.Some? {
        Insisting(cb, calls, stop);
        EditKeepsFiles(cb, calls + 1, fs, stop);
        PlainCons(NewByway(out.value), EditFrom(cb, calls + 1, fs, stop).value);
        assert [] + Plain(fs) == Plain(fs);
      } else if ok {
        EditHereKeeps(cb, calls + 1, fs, stop);
      }
    } else {
      EditHereKeeps(cb, calls, fs, stop);
    }
  }

  lemma {:induction false} EditHereKeeps(cb: Callbacks, calls: nat, fs: seq<ImportFile>, stop: nat)
    requires StopsAt(cb, stop)
    ensures Plain(EditHere(cb, calls, fs, stop).value) == Plain(fs)
    decreases |fs|, 0, 0
  {
    hide StopsAt, Erased, Plain, EditFrom, EditPlain;
    if fs != [] {
      var f, rest := fs[0], fs[1..];
      assert [f] + rest == fs;
      PlainCons(f, rest);
      if f.fByway {
        if cb.byway.Some? {
          var (ok, out) := cb.byway.value(calls, Some(f.pszName));
          EditKeepsFiles(cb, calls + 1, rest, stop);
          if out.Some? {
            PlainCons(f.(pszName := out.value), EditFrom(cb, calls + 1, rest, stop).value);
          }
          assert [] + Plain(rest) == Plain(rest);
        } else {
          EditKeepsFiles(cb, calls, rest, stop);
          PlainCons(f, EditFrom(cb, calls, rest, stop).value);
        }
      } else {
        var edited := EditPlain(cb, calls, f);
        PlainKept(cb, calls, f);
        PlainCons(edited.value, rest);
        EditKeepsFiles(cb, edited.calls, rest, stop);
        PlainCons(edited.value, EditFrom(cb, edited.calls, rest, stop).value);
      }
    }
  }

  lemma {:induction false} ErasedOrigs(ns: seq<ImportName>)
    ensures NameOrigs(ErasedNames(ns)) == NameOrigs(ns)
  {
    if ns != [] {
      ErasedOrigs(ns[1..]);
    }
  }

  /** The original names are among what no edit changes. */
  lemma {:induction false} OrigsOfPlain(fs: seq<ImportFile>)
    ensures Origs(Plain(fs)) == Origs(fs)
  {
    hide ErasedNames, NameOrigs;
    if fs != [] {
      OrigsOfPlain(fs[1..]);
      ErasedOrigs(fs[0].names);
      if !fs[0].fByway {
        assert ([Erased(fs[0])] + Plain(fs[1..]))[1..] == Plain(fs[1..]);
      } else {
        assert [] + Plain(fs[1..]) == Plain(fs[1..]) && [] + Origs(fs[1..]) == Origs(fs[1..]);
      }
    }
  }

  // ------------------------------------------------------------------------ reset

  /** The callbacks of DetourBinaryResetImports. */
  function ResetCallbacks(): Callbacks {
    Callbacks(Some((_: nat, _: Option<Text>) => (true, None)),
              Some((_: nat, orig: Option<Text>, _: Text) => (true, orig)),
              Some((_: nat, nOrig: dword, _: dword, orig: Option<Text>, _: Option<Text>) => (true, nOrig, orig)),
              None)
  }

  function ResetNames(ns: seq<ImportName>): (r: seq<ImportName>)
    ensures |r| == |ns|
  {
    if ns == [] then [] else [Renamed(ns[0], ns[0].nOrig, ns[0].pszOrig)] + ResetNames(ns[1..])
  }

  function ResetFile(f: ImportFile): ImportFile {
    f.(pszName := if f.pszOrig.Some? then f.pszOrig.value else f.pszName, names := ResetNames(f.names))
  }

  function ResetFiles(fs: seq<ImportFile>): seq<ImportFile> {
    if fs == [] then [] else (if fs[0].fByway then [] else [ResetFile(fs[0])]) + ResetFiles(fs[1..])
  }

  lemma {:induction false} ResetSymbolsAre(calls: nat, ns: seq<ImportName>)
    ensures var e := EditSymbols(ResetCallbacks(), calls, ns); e.ok && e.value == ResetNames(ns)
    decreases |ns|
  {
    hide Renamed;
    if ns != [] {
      ResetSymbolsAre(calls + 1, ns[1..]);
    }
  }

  lemma {:induction false} ResetPlainIs(calls: nat, f: ImportFile)
    ensures var e := EditPlain(ResetCallbacks(), calls, f); e.ok && e.value == ResetFile(f)
  {
    hide EditSymbols, ResetNames;
    ResetSymbolsAre(calls + 1, f.names);
  }

  lemma {:induction false} ResetIs(calls: nat, fs: seq<ImportFile>)
    ensures StopsAt(ResetCallbacks(), 0)
    ensures var e := EditFrom(ResetCallbacks(), calls, fs, 0); e.ok && e.value == ResetFiles(fs)
    decreases |fs|
  {
    hide EditPlain, ResetFile;
    var cb := ResetCallbacks();
    assert StopsAt(cb, 0);
    assert EditFrom(cb, calls, fs, 0) == EditHere(cb, calls + 1, fs, 0);
    if fs != [] {
      if fs[0].fByway {
        ResetIs(calls + 2, fs[1..]);
        assert [] + ResetFiles(fs[1..]) == ResetFiles(fs[1..]);
      } else {
        ResetPlainIs(calls + 1, fs[0]);
        ResetIs(EditPlain(cb, calls + 1, fs[0]).calls, fs[1..]);
      }
    }
  }

  /** DetourBinaryResetImports: EditImports with the reset callbacks, which never insert. */
  function ResetImports(fs: seq<ImportFile>): Edited<seq<ImportFile>> {
    ResetIs(0, fs);
    Edit(ResetCallbacks(), fs, 0)
  }

  /** The file's original name is known, and each symbol's original import is, unless it has no name to reset. */
  predicate Resettable(f: ImportFile) {
    f.pszOrig.Some? && forall n :: n in f.names ==> n.pszOrig.Some? || n.nOrig != 0 || n.pszName.None?
  }

  lemma {:induction false} ResetName(n: ImportName)
    ensures var r := Renamed(n, n.nOrig, n.pszOrig);
            r.pszName == r.pszOrig <==> n.pszOrig.Some? || n.nOrig != 0 || n.pszName.None?
  {
  }

  lemma {:induction false} ResetNamesAt(ns: seq<ImportName>, k: nat)
    requires k < |ns|
    ensures ResetNames(ns)[k] == Renamed(ns[k], ns[k].nOrig, ns[k].pszOrig)
  {
    hide Renamed;
    if k > 0 {
      ResetNamesAt(ns[1..], k - 1);
    }
  }

  lemma {:induction false} ResetFileEdited(f: ImportFile)
    requires !f.fByway
    ensures FileEdited(ResetFile(f)) <==> !Resettable(f)
  {
    hide Renamed, ResetNames;
    var r := ResetFile(f);
    forall k | 0 <= k < |f.names|
      ensures r.names[k].pszName == r.names[k].pszOrig
              <==> f.names[k].pszOrig.Some? || f.names[k].nOrig != 0 || f.names[k].pszName.None?
    {
      ResetNamesAt(f.names, k);
      ResetName(f.names[k]);
    }
    if exists n :: n in r.names && n.pszName != n.pszOrig {
      var n :| n in r.names && n.pszName != n.pszOrig;
      var k :| 0 <= k < |r.names| && r.names[k] == n;
      assert f.names[k] in f.names;
    }
    if n :| n in f.names && !(n.pszOrig.Some? || n.nOrig != 0 || n.pszName.None?) {
      var k :| 0 <= k < |f.names| && f.names[k] == n;
      assert r.names[k] in r.names;
    }
  }

  lemma {:induction false} ResetFilesEdited(fs: seq<ImportFile>)
    ensures forall f :: f in ResetFiles(fs) ==> !f.fByway && (f.pszOrig.Some? ==> Some(f.pszName) == f.pszOrig)
    ensures (exists f :: f in ResetFiles(fs) && FileEdited(f)) <==> exists f :: f in fs && !f.fByway && !Resettable(f)
  {
    hide FileEdited, Resettable, ResetNames;
    if fs != [] {
      ResetFilesEdited(fs[1..]);
      if !fs[0].fByway {
        ResetFileEdited(fs[0]);
      }
      assert forall f :: f in fs <==> f == fs[0] || f in fs[1..];
    }
  }

  /**
   * Resetting never fails and leaves no byway; every file is under its original name, and nothing is left for
   * Write to put into a .detour section exactly when every symbol's original import is known.
   */
  lemma {:induction false} ResetRestores(fs: seq<ImportFile>)
    ensures var e := ResetImports(fs);
            && e.ok && Plain(e.value) == Plain(fs)
            && (forall f :: f in e.value ==> !f.fByway && (f.pszOrig.Some? ==> Some(f.pszName) == f.pszOrig))
            && ((exists f :: f in e.value && FileEdited(f)) <==> exists f :: f in fs && !f.fByway && !Resettable(f))
  {
    hide FileEdited, Resettable, EditFrom, Plain;
    ResetIs(0, fs);
    EditKeepsFiles(ResetCallbacks(), 0, fs, 0);
    ResetFilesEdited(fs);
  }
}
