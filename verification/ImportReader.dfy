/** The import part of CImage::Read: from the mapped file back to the import list. */
module ImportReader {
  import opened Bytes
  import opened ImportLayout

  datatype SectionHeader = SectionHeader(va: dword, cbRaw: dword, pRaw: dword)

  /** The file offset of an address: the first section whose raw data covers it decides. */
  function RvaToVa(ss: seq<SectionHeader>, rva: dword): Option<nat>
    decreases |ss|
  {
    if rva == 0 || ss == [] then None
    else if ss[0].va <= rva < ss[0].va + ss[0].cbRaw then Some(ss[0].pRaw + rva - ss[0].va)
    else RvaToVa(ss[1..], rva)
  }

  /** What was read so far, in front of the rest. */
  function Before<T>(done: seq<T>, rest: Option<seq<T>>): Option<seq<T>> {
    match rest case None => None case Some(r) => Some(done + r)
  }

  /** The C string at an offset; None when it runs off the map. */
  function StringAt(m: seq<byte>, at: nat): Option<seq<byte>>
    decreases |m| - at
  {
    if at >= |m| then None
    else if m[at] == 0 then Some([])
    else Before([m[at]], StringAt(m, at + 1))
  }

  function StringAtRva(m: seq<byte>, ss: seq<SectionHeader>, rva: dword): Option<seq<byte>> {
    match RvaToVa(ss, rva) case None => None case Some(p) => StringAt(m, p)
  }

  /** A hint and a name; an address outside every section is no name at all, an unreadable one is a fault. */
  datatype HintName = Fault | NoName | HintName(hint: word, name: seq<byte>)

  function HintNameAt(m: seq<byte>, ss: seq<SectionHeader>, rva: dword): HintName {
    match RvaToVa(ss, rva)
    case None => NoName
    case Some(p) =>
      if p + 2 > |m| then Fault
      else match StringAt(m, p + 2) case None => Fault case Some(s) => HintName(U16At(m, p), s)
  }

  /** One symbol from its thunk and, when imported by name, from the original thunk at offset `look`. */
  function ReadName(m: seq<byte>, ss: seq<SectionHeader>, thunk: dword, look: Option<nat>): Option<ImportName> {
    if thunk >= ORDINAL_FLAG then Some(ImportName(0, thunk % 0x1_0000, thunk % 0x1_0000, None, None))
    else
      var now := HintNameAt(m, ss, thunk);
      if now.Fault? || look.None? || look.value + 4 > |m| then None
      else
        var hint := if now.HintName? then now.hint else 0;
        var name := if now.HintName? then Some(now.name) else None;
        var orig := U32At(m, look.value);
        if orig >= ORDINAL_FLAG then Some(ImportName(hint, orig % 0x1_0000, orig % 0x1_0000, None, name))
        else
          match HintNameAt(m, ss, orig)
          case Fault => None
          case NoName => Some(ImportName(hint, 0, 0, None, name))
          case HintName(_, was) => Some(ImportName(hint, 0, 0, Some(was), name))
  }

  function Next(look: Option<nat>, cb: nat): Option<nat> {
    match look case None => None case Some(p) => Some(p + cb)
  }

  /** The symbols from the thunk at offset `a` to the terminating zero. */
  function ReadNames(m: seq<byte>, ss: seq<SectionHeader>, a: nat, look: Option<nat>): Option<seq<ImportName>>
    decreases |m| - a
  {
    if a + 4 > |m| then None
    else if U32At(m, a) == 0 then Some([])
    else
      match ReadName(m, ss, U32At(m, a), look)
      case None => None
      case Some(n) => Before([n], ReadNames(m, ss, a + 4, Next(look, 4)))
  }

  /** The file of the descriptor at `i`, its original being described at `o`; byways have no original. */
  function ReadFile(m: seq<byte>, ss: seq<SectionHeader>, i: nat, o: nat, beg: nat, end: nat): Option<ImportFile>
    requires i + 4 <= |m|
  {
    if i + DESCRIPTOR_SIZE > |m| then None
    else
      var first := U32At(m, i + 16);
      match StringAtRva(m, ss, U32At(m, i + 12))
      case None => None
      case Some(name) =>
        if beg <= first < end then
          Some(ImportFile(true, [], U32At(m, i), first, U32At(m, i + 8), None, name))
        else if o + DESCRIPTOR_SIZE > |m| then None
        else
          match StringAtRva(m, ss, U32At(m, o + 12))
          case None => None
          case Some(orig) =>
            var addr := RvaToVa(ss, U32At(m, i));
            var names := if addr.None? then Some([]) else ReadNames(m, ss, addr.value, RvaToVa(ss, U32At(m, o)));
            if names.None? then None
            else Some(ImportFile(false, names.value, U32At(m, i), first, U32At(m, i + 8), Some(orig), name))
  }

  /** The import list from the descriptor at `i` on. */
  function ReadFiles(m: seq<byte>, ss: seq<SectionHeader>, i: nat, o: nat, beg: nat, end: nat): Option<seq<ImportFile>>
    decreases |m| - i
  {
    if i + 4 > |m| then None
    else if U32At(m, i) == 0 then Some([])
    else
      match ReadFile(m, ss, i, o, beg, end)
      case None => None
      case Some(f) => Before([f], ReadFiles(m, ss, i + DESCRIPTOR_SIZE, NextOriginal(o, f), beg, end))
  }

  /** The original table moves on only past files it describes. */
  function NextOriginal(o: nat, f: ImportFile): nat { if f.fByway then o else o + DESCRIPTOR_SIZE }

  // --------------------------------------------------------------------- methods

  lemma {:induction false} BeforeFacts<T>(done: seq<T>, x: T, rest: Option<seq<T>>)
    ensures Before([], rest) == rest && Before(done, Some([])) == Some(done)
    ensures Before(done + [x], rest) == Before(done, Before([x], rest))
  {
    assert done + [] == done;
    if rest.Some? {
      assert [] + rest.value == rest.value;
      assert (done + [x]) + rest.value == done + ([x] + rest.value);
    }
  }

  /** RvaToVa's loop over the section headers. */
  method FindRva(ss: seq<SectionHeader>, nRva: dword) returns (p: Option<nat>)
    ensures p == RvaToVa(ss, nRva)
  {
    if nRva == 0 {
      return None;
    }
    var n := 0;
    while n < |ss|
      invariant n <= |ss| && RvaToVa(ss[n..], nRva) == RvaToVa(ss, nRva)
    {
      var vaStart := ss[n].va;
      var vaEnd := vaStart + ss[n].cbRaw;
      if nRva >= vaStart && nRva < vaEnd {
        return Some(ss[n].pRaw + nRva - ss[n].va);
      }
      assert ss[n..][1..] == ss[n + 1..];
      n := n + 1;
    }
    return None;
  }

  /** DuplicateString. */
  method DuplicateString(m: seq<byte>, at: nat) returns (s: Option<seq<byte>>)
    ensures s == StringAt(m, at)
  {
    var p, out := at, [];
    BeforeFacts(out, 0, StringAt(m, at));
    while p < |m| && m[p] != 0
      invariant at <= p && (p <= |m| || p == at)
      invariant Before(out, StringAt(m, p)) == StringAt(m, at)
    {
      BeforeFacts(out, m[p], StringAt(m, p + 1));
      out, p := out + [m[p]], p + 1;
    }
    BeforeFacts(out, 0, None);
    return if p < |m| then Some(out) else None;
  }

  lemma {:induction false} NextTwice(look: Option<nat>, a: nat, b: nat)
    ensures Next(Next(look, a), b) == Next(look, a + b)
  {
  }

  lemma {:induction false} LongerThunks(m: seq<byte>, ss: seq<SectionHeader>, a: nat, look: Option<nat>)
    requires a + 4 <= |m| && U32At(m, a) != 0 && ReadNames(m, ss, a, look).Some?
    ensures ReadNames(m, ss, a + 4, Next(look, 4)).Some?
  {
  }

  /** The loops over the thunks of one file: count up to the terminator, then read that many. */
  method ReadImportNames(m: seq<byte>, ss: seq<SectionHeader>, pAddrThunk: nat, pLookThunk: Option<nat>)
    returns (names: Option<seq<ImportName>>)
    ensures names == ReadNames(m, ss, pAddrThunk, pLookThunk)
  {
    hide ReadName, U32At;
    var nNames := 0;
    while pAddrThunk + 4 * nNames + 4 <= |m| && U32At(m, pAddrThunk + 4 * nNames) != 0
      invariant forall f: nat :: f < nNames ==>
                  pAddrThunk + 4 * f + 4 <= |m| && U32At(m, pAddrThunk + 4 * f) != 0
      invariant ReadNames(m, ss, pAddrThunk, pLookThunk).Some? ==>
                  ReadNames(m, ss, pAddrThunk + 4 * nNames, Next(pLookThunk, 4 * nNames)).Some?
      decreases |m| - 4 * nNames
    {
      if ReadNames(m, ss, pAddrThunk, pLookThunk).Some? {
        LongerThunks(m, ss, pAddrThunk + 4 * nNames, Next(pLookThunk, 4 * nNames));
      }
      nNames := nNames + 1;
    }
    if pAddrThunk + 4 * nNames + 4 > |m| {
      return None;
    }
    var f, done := 0, [];
    ghost var any := ImportName(0, 0, 0, None, None);
    BeforeFacts(done, any, ReadNames(m, ss, pAddrThunk, pLookThunk));
    assert Next(pLookThunk, 0) == pLookThunk;
    while f < nNames
      invariant f <= nNames
      invariant Before(done, ReadNames(m, ss, pAddrThunk + 4 * f, Next(pLookThunk, 4 * f)))
             == ReadNames(m, ss, pAddrThunk, pLookThunk)
    {
      var n := ReadName(m, ss, U32At(m, pAddrThunk + 4 * f), Next(pLookThunk, 4 * f));
      if n.None? {
        return None;
      }
      NextTwice(pLookThunk, 4 * f, 4);
      BeforeFacts(done, n.value, ReadNames(m, ss, pAddrThunk + 4 * f + 4, Next(pLookThunk, 4 * f + 4)));
      done, f := done + [n.value], f + 1;
    }
    BeforeFacts(done, any, None);
    return Some(done);
  }

  lemma {:induction false} LongerFiles(m: seq<byte>, ss: seq<SectionHeader>, i: nat, o: nat, beg: nat, end: nat)
    returns (o': nat)
    requires i + 4 <= |m| && U32At(m, i) != 0 && ReadFiles(m, ss, i, o, beg, end).Some?
    ensures ReadFiles(m, ss, i + DESCRIPTOR_SIZE, o', beg, end).Some?
  {
    o' := NextOriginal(o, ReadFile(m, ss, i, o, beg, end).value);
  }

  /** One pass of the file loop. */
  method ReadImportFile(m: seq<byte>, ss: seq<SectionHeader>, iidp: nat, oidp: nat, rvaDetourBeg: nat,
                        rvaDetourEnd: nat)
    returns (file: Option<ImportFile>)
    requires iidp + 4 <= |m|
    ensures file == ReadFile(m, ss, iidp, oidp, rvaDetourBeg, rvaDetourEnd)
  {
    hide U32At, ReadNames, StringAt, RvaToVa;
    if iidp + DESCRIPTOR_SIZE > |m| {
      return None;
    }
    var pszName := NameAtRva(m, ss, U32At(m, iidp + 12));
    if pszName.None? {
      return None;
    }
    var first := U32At(m, iidp + 16);
    if first >= rvaDetourBeg && first < rvaDetourEnd {
      return Some(ImportFile(true, [], U32At(m, iidp), first, U32At(m, iidp + 8), None, pszName.value));
    }
    if oidp + DESCRIPTOR_SIZE > |m| {
      return None;
    }
    var pszOrig := NameAtRva(m, ss, U32At(m, oidp + 12));
    if pszOrig.None? {
      return None;
    }
    var pAddrThunk := FindRva(ss, U32At(m, iidp));
    var pLookThunk := FindRva(ss, U32At(m, oidp));
    var names := Some([]);
    if pAddrThunk.Some? {
      names := ReadImportNames(m, ss, pAddrThunk.value, pLookThunk);
      if names.None? {
        return None;
      }
    }
    return Some(ImportFile(false, names.value, U32At(m, iidp), first, U32At(m, iidp + 8), pszOrig, pszName.value));
  }

  method NameAtRva(m: seq<byte>, ss: seq<SectionHeader>, rva: dword) returns (s: Option<seq<byte>>)
    ensures s == StringAtRva(m, ss, rva)
  {
    var p := FindRva(ss, rva);
    s := None;
    if p.Some? {
      s := DuplicateString(m, p.value);
    }
  }

  /** The import part of Read: count the descriptors, then read that many files. */
  method ReadImports(m: seq<byte>, ss: seq<SectionHeader>, iidp: nat, oidp0: nat, rvaDetourBeg: nat, rvaDetourEnd: nat)
    returns (files: Option<seq<ImportFile>>)
    ensures files == ReadFiles(m, ss, iidp, oidp0, rvaDetourBeg, rvaDetourEnd)
  {
    hide U32At, ReadFile;
    var nFiles := CountDescriptors(m, ss, iidp, oidp0, rvaDetourBeg, rvaDetourEnd);
    if nFiles.None? {
      return None;
    }
    var n, done := 0, [];
    var oidp: nat := oidp0;
    ghost var any := ImportFile(true, [], 0, 0, 0, None, []);
    BeforeFacts(done, any, ReadFiles(m, ss, iidp, oidp0, rvaDetourBeg, rvaDetourEnd));
    while n < nFiles.value
      invariant n <= nFiles.value
      invariant Before(done, ReadFiles(m, ss, iidp + DESCRIPTOR_SIZE * n, oidp, rvaDetourBeg, rvaDetourEnd))
             == ReadFiles(m, ss, iidp, oidp0, rvaDetourBeg, rvaDetourEnd)
    {
      var f := ReadImportFile(m, ss, iidp + DESCRIPTOR_SIZE * n, oidp, rvaDetourBeg, rvaDetourEnd);
      if f.None? {
        return None;
      }
      if !f.value.fByway {
        oidp := oidp + DESCRIPTOR_SIZE;
      }
      BeforeFacts(done, f.value, ReadFiles(m, ss, iidp + DESCRIPTOR_SIZE * (n + 1), oidp, rvaDetourBeg, rvaDetourEnd));
      done, n := done + [f.value], n + 1;
    }
    BeforeFacts(done, any, None);
    return Some(done);
  }

  /** The number of descriptors in front of the terminating one; None when there is none on the map. */
  method CountDescriptors(m: seq<byte>, ss: seq<SectionHeader>, iidp: nat, ghost o: nat, ghost beg: nat, ghost end: nat)
    returns (nFiles: Option<nat>)
    ensures nFiles.Some? ==>
              && iidp + DESCRIPTOR_SIZE * nFiles.value + 4 <= |m|
              && U32At(m, iidp + DESCRIPTOR_SIZE * nFiles.value) == 0
              && forall k: nat :: k < nFiles.value ==>
                   iidp + DESCRIPTOR_SIZE * k + 4 <= |m| && U32At(m, iidp + DESCRIPTOR_SIZE * k) != 0
    ensures nFiles.None? ==> ReadFiles(m, ss, iidp, o, beg, end).None?
  {
    hide U32At, ReadFile;
    var n := 0;
    ghost var o' := o;
    while iidp + DESCRIPTOR_SIZE * n + 4 <= |m| && U32At(m, iidp + DESCRIPTOR_SIZE * n) != 0
      invariant forall k: nat :: k < n ==>
                  iidp + DESCRIPTOR_SIZE * k + 4 <= |m| && U32At(m, iidp + DESCRIPTOR_SIZE * k) != 0
      invariant ReadFiles(m, ss, iidp, o, beg, end).Some? ==>
                  ReadFiles(m, ss, iidp + DESCRIPTOR_SIZE * n, o', beg, end).Some?
      decreases |m| - DESCRIPTOR_SIZE * n
    {
      if ReadFiles(m, ss, iidp, o, beg, end).Some? {
        o' := LongerFiles(m, ss, iidp + DESCRIPTOR_SIZE * n, o', beg, end);
      }
      n := n + 1;
    }
    return if iidp + DESCRIPTOR_SIZE * n + 4 <= |m| then Some(n) else None;
  }
}
