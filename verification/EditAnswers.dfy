/** What every single answer of the callbacks does to the import list, by the number of the call that gave it. */
module EditAnswers {
  import opened Bytes
  import opened ImportLayout
  import opened ImportReader
  import opened ImportRoundTrip
  import opened ImportEditor

  /**
   * Where the edit comes to a file of the old list, or to its end: `first` calls have been made, `at` files of the
   * new list are finished, and `added` byways are asked for in front of it.
   */
  datatype Spot = Spot(first: nat, at: nat, added: nat)

  /** The call that asks about the file itself. */
  function CallAbout(cb: Callbacks, p: Spot): nat { p.first + if cb.byway.Some? then p.added + 1 else 0 }

  /** Call `k` asked for the byway `f`: a new file of that name, without symbols and addresses. */
  predicate AskedFor(cb: Callbacks, k: nat, f: ImportFile) {
    && cb.byway.Some? && cb.byway.value(k, None) == (true, Some(f.pszName))
    && f == ImportFile(true, [], 0, 0, 0, None, f.pszName)
  }

  /** Calls `first` to `first + added - 1` name the byways in front of the file; the next one asks for no more. */
  predicate Added(cb: Callbacks, out: seq<ImportFile>, p: Spot) {
    && p.at + p.added <= |out|
    && (if cb.byway.Some? then cb.byway.value(p.first + p.added, None) == (true, None) else p.added == 0)
    && forall i :: p.at <= i < p.at + p.added ==> AskedFor(cb, p.first + (i - p.at), out[i])
  }

  /** Symbol `n` once call `k` has been asked about it. */
  predicate SymbolAnswered(cb: Callbacks, k: nat, was: ImportName, n: ImportName) {
    && n.nHint == was.nHint && n.nOrig == was.nOrig && n.pszOrig == was.pszOrig
    && if cb.symbol.None? then n.nOrdinal == was.nOrdinal && n.pszName == was.pszName
       else
         var (ok, ordinal, name) := cb.symbol.value(k, was.nOrig, was.nOrdinal, was.pszOrig, was.pszName);
         && ok
         && (if name.Some? then n.nOrdinal == 0 && n.pszName == name
             else if ordinal != 0 then n.nOrdinal == ordinal && n.pszName == None
             else n.nOrdinal == was.nOrdinal && n.pszName == was.pszName)
  }

  /** A file that is no byway, asked about from call `k` on; `next` is the first call behind its symbols. */
  predicate PlainAnswered(cb: Callbacks, k: nat, was: ImportFile, f: ImportFile, next: nat) {
    && !f.fByway && f.rvaOriginalFirstThunk == was.rvaOriginalFirstThunk && f.rvaFirstThunk == was.rvaFirstThunk
    && f.nForwarderChain == was.nForwarderChain && f.pszOrig == was.pszOrig && |f.names| == |was.names|
    && (if cb.file.None? then f.pszName == was.pszName
        else
          var (ok, name) := cb.file.value(k, was.pszOrig, was.pszName);
          ok && f.pszName == if name.Some? then name.value else was.pszName)
    && var symbols := if cb.file.Some? then k + 1 else k;
    && (forall j :: 0 <= j < |was.names| ==> SymbolAnswered(cb, symbols + j, was.names[j], f.names[j]))
    && next == symbols + if cb.symbol.Some? then |was.names| else 0
  }

  /** An old byway asked about by call `k`: it keeps its place under the name answered, or is gone. */
  predicate BywayAnswered(cb: Callbacks, k: nat, was: ImportFile, out: seq<ImportFile>, at: nat, next: Spot) {
    if cb.byway.None? then next.first == k && next.at == at + 1 <= |out| && out[at] == was
    else
      var (ok, name) := cb.byway.value(k, Some(was.pszName));
      && ok && next.first == k + 1
      && if name.None? then next.at == at
         else next.at == at + 1 <= |out| && out[at].fByway && out[at].pszName == name.value
              && out[at] == was.(pszName := out[at].pszName)
  }

  predicate Answered(cb: Callbacks, was: ImportFile, out: seq<ImportFile>, p: Spot, next: Spot) {
    if was.fByway then BywayAnswered(cb, CallAbout(cb, p), was, out, p.at + p.added, next)
    else
      && next.at == p.at + p.added + 1 <= |out|
      && PlainAnswered(cb, CallAbout(cb, p), was, out[p.at + p.added], next.first)
  }

  /** The new list is made of exactly these answers, in this order. */
  predicate MadeOf(cb: Callbacks, fs: seq<ImportFile>, out: seq<ImportFile>, places: seq<Spot>) {
    && |places| == |fs| + 1
    && (forall i :: 0 <= i <= |fs| ==> Added(cb, out, places[i]))
    && (forall i :: 0 <= i < |fs| ==> Answered(cb, fs[i], out, places[i], places[i + 1]))
    && places[|fs|].at + places[|fs|].added == |out|
  }

  // ---------------------------------------------------------------------- proof

  lemma {:induction false} SymbolsAnswered(cb: Callbacks, calls: nat, ns: seq<ImportName>)
    requires EditSymbols(cb, calls, ns).ok
    ensures var e := EditSymbols(cb, calls, ns);
            && |e.value| == |ns| && e.calls == calls + (if cb.symbol.Some? then |ns| else 0)
            && forall j :: 0 <= j < |ns| ==> SymbolAnswered(cb, calls + j, ns[j], e.value[j])
    decreases |ns|
  {
    if cb.symbol.Some? && ns != [] {
      SymbolsAnswered(cb, calls + 1, ns[1..]);
      var e, rest := EditSymbols(cb, calls, ns), EditSymbols(cb, calls + 1, ns[1..]);
      forall j | 0 <= j < |ns| ensures SymbolAnswered(cb, calls + j, ns[j], e.value[j]) {
        if j > 0 {
          assert e.value[j] == rest.value[j - 1] && ns[j] == ns[1..][j - 1];
          assert SymbolAnswered(cb, calls + 1 + (j - 1), ns[1..][j - 1], rest.value[j - 1]);
        }
      }
    }
  }

  lemma {:induction false} PlainIsAnswered(cb: Callbacks, k: nat, was: ImportFile)
    requires !was.fByway && EditPlain(cb, k, was).ok
    ensures PlainAnswered(cb, k, was, EditPlain(cb, k, was).value, EditPlain(cb, k, was).calls)
  {
    hide EditSymbols, SymbolAnswered;
    SymbolsAnswered(cb, if cb.file.Some? then k + 1 else k, was.names);
  }

  /** The file at the front and then the rest. */
  lemma {:induction false} PlaceBehind(cb: Callbacks, fs: seq<ImportFile>, out: seq<ImportFile>, p: Spot,
                                       rest: seq<Spot>)
    requires fs != [] && MadeOf(cb, fs[1..], out, rest) && Added(cb, out, p) && Answered(cb, fs[0], out, p, rest[0])
    ensures MadeOf(cb, fs, out, [p] + rest)
  {
    hide Added, Answered;
    var places := [p] + rest;
    forall i | 0 <= i < |fs| ensures Answered(cb, fs[i], out, places[i], places[i + 1]) {
      if i > 0 {
        assert Answered(cb, fs[1..][i - 1], out, rest[i - 1], rest[i]);
      }
    }
  }

  lemma {:induction false} OneMoreAdded(cb: Callbacks, fs: seq<ImportFile>, out: seq<ImportFile>, places: seq<Spot>,
                                        p: Spot)
    requires MadeOf(cb, fs, out, places) && cb.byway.Some? && p.at + 1 == places[0].at
             && p.first + 1 == places[0].first && p.added == places[0].added + 1
    requires out[p.at] == NewByway(out[p.at].pszName) && cb.byway.value(p.first, None)
             == (true, Some(out[p.at].pszName))
    ensures MadeOf(cb, fs, out, places[0 := p])
  {
    hide BywayAnswered, PlainAnswered;
    var q := places[0];
    assert Added(cb, out, q);
    forall i | p.at <= i < p.at + p.added ensures AskedFor(cb, p.first + (i - p.at), out[i]) {
      if i > p.at {
        assert AskedFor(cb, q.first + (i - q.at), out[i]);
      }
    }
    if fs != [] {
      assert Answered(cb, fs[0], out, q, places[1]);
    }
  }

  /** From any file on, the rest of the new list is made of the answers from the next call on. */
  lemma {:induction false} EditPlaces(cb: Callbacks, calls: nat, fs: seq<ImportFile>, stop: nat, out: seq<ImportFile>,
                                      at: nat) returns (places: seq<Spot>)
    requires StopsAt(cb, stop) && EditFrom(cb, calls, fs, stop).ok
    requires at <= |out| && out[at..] == EditFrom(cb, calls, fs, stop).value
    ensures MadeOf(cb, fs, out, places) && places[0].first == calls && places[0].at == at
    ensures EditFrom(cb, calls, fs, stop).calls == CallAbout(cb, places[|fs|])
    decreases |fs|, if calls < stop then stop - calls else 0, 1
  {
    hide StopsAt, MadeOf, EditHere;
    if cb.byway.None? {
      places := HerePlaces(cb, calls, fs, stop, out, Spot(calls, at, 0));
    } else {
      var name := cb.byway.value(calls, None).1;
      if name.Some? {
        Insisting(cb, calls, stop);
        var rest := EditFrom(cb, calls + 1, fs, stop).value;
        FrontOf(out, at, NewByway(name.value), rest);
        var behind := EditPlaces(cb, calls + 1, fs, stop, out, at + 1);
        SizeOf(cb, fs, out, behind);
        places := behind[0 := Spot(calls, at, behind[0].added + 1)];
        OneMoreAdded(cb, fs, out, behind, places[0]);
      } else {
        places := HerePlaces(cb, calls + 1, fs, stop, out, Spot(calls, at, 0));
      }
    }
  }

  lemma {:induction false} SizeOf(cb: Callbacks, fs: seq<ImportFile>, out: seq<ImportFile>, places: seq<Spot>)
    requires MadeOf(cb, fs, out, places)
    ensures |places| == |fs| + 1
  {
  }

  lemma {:induction false} FrontOf<T>(out: seq<T>, at: nat, f: T, rest: seq<T>)
    requires at <= |out| && out[at..] == [f] + rest
    ensures at < |out| && out[at] == f && out[at + 1..] == rest
  {
    assert out[at] == out[at..][0] && out[at + 1..] == out[at..][1..];
  }

  lemma {:induction false} HerePlaces(cb: Callbacks, calls: nat, fs: seq<ImportFile>, stop: nat, out: seq<ImportFile>,
                                      p: Spot) returns (places: seq<Spot>)
    requires StopsAt(cb, stop) && EditHere(cb, calls, fs, stop).ok && p.at <= |out|
    requires out[p.at..] == EditHere(cb, calls, fs, stop).value
    requires Added(cb, out, p) && p.added == 0 && calls == CallAbout(cb, p)
    ensures MadeOf(cb, fs, out, places) && places[0] == p
    ensures EditHere(cb, calls, fs, stop).calls == CallAbout(cb, places[|fs|])
    decreases |fs|, 0, 0
  {
    hide StopsAt, MadeOf, EditFrom, EditPlain, PlainAnswered;
    if fs == [] {
      NoFiles(cb, out, p);
      places := [p];
    } else {
      var f, rest := fs[0], fs[1..];
      var at, next := p.at, calls;
      if f.fByway {
        if cb.byway.None? {
          FrontOf(out, at, f, EditFrom(cb, calls, rest, stop).value);
          at := at + 1;
        } else {
          var name := cb.byway.value(calls, Some(f.pszName)).1;
          next := calls + 1;
          if name.Some? {
            FrontOf(out, at, f.(pszName := name.value), EditFrom(cb, next, rest, stop).value);
            at := at + 1;
          }
        }
      } else {
        var edited := EditPlain(cb, calls, f);
        PlainIsAnswered(cb, calls, f);
        next := edited.calls;
        FrontOf(out, at, edited.value, EditFrom(cb, next, rest, stop).value);
        at := at + 1;
      }
      var behind := EditPlaces(cb, next, rest, stop, out, at);
      SizeOf(cb, rest, out, behind);
      PlaceBehind(cb, fs, out, p, behind);
      places := [p] + behind;
    }
  }

  lemma {:induction false} NoFiles(cb: Callbacks, out: seq<ImportFile>, p: Spot)
    requires Added(cb, out, p) && p.at + p.added == |out|
    ensures MadeOf(cb, [], out, [p])
  {
  }

  /**
   * An edit that goes through makes the new list of exactly the answers: in front of each file, and at the end, a
   * byway for every name the byway callback gave when asked there, in the order of the calls; old byways under the
   * names answered, or gone; every other file and its symbols as answered.  The edit is then what commit says.
   */
  lemma {:induction false} EditIsAnswers(cb: Callbacks, fs: seq<ImportFile>, stop: nat) returns (places: seq<Spot>)
    requires StopsAt(cb, stop) && (Edit(cb, fs, stop).ok || EditFrom(cb, 0, fs, stop).ok)
    ensures MadeOf(cb, fs, Edit(cb, fs, stop).value, places) && places[0].first == 0 && places[0].at == 0
    ensures Edit(cb, fs, stop).ok
            == (cb.commit.None? || cb.commit.value(CallAbout(cb, places[|fs|])))
  {
    hide StopsAt, MadeOf, EditFrom;
    places := EditPlaces(cb, 0, fs, stop, Edit(cb, fs, stop).value, 0);
  }

  // ------------------------------------------------------------------- failures

  /** Some callback answers FALSE at call `k`. */
  ghost predicate Stopped(cb: Callbacks, k: nat) {
    || (cb.byway.Some? && exists name :: !cb.byway.value(k, name).0)
    || (cb.file.Some? && exists orig, name :: !cb.file.value(k, orig, name).0)
    || (cb.symbol.Some? && exists a, b, orig, name :: !cb.symbol.value(k, a, b, orig, name).0)
  }

  lemma {:induction false} SymbolsFail(cb: Callbacks, calls: nat, ns: seq<ImportName>)
    ensures var e := EditSymbols(cb, calls, ns); !e.ok ==> e.calls > 0 && Stopped(cb, e.calls - 1)
    decreases |ns|
  {
    if cb.symbol.Some? && ns != [] {
      var ok := cb.symbol.value(calls, ns[0].nOrig, ns[0].nOrdinal, ns[0].pszOrig, ns[0].pszName).0;
      if ok {
        SymbolsFail(cb, calls + 1, ns[1..]);
      }
    }
  }

  lemma {:induction false} PlainFails(cb: Callbacks, calls: nat, f: ImportFile)
    ensures var e := EditPlain(cb, calls, f); !e.ok ==> e.calls > 0 && Stopped(cb, e.calls - 1)
  {
    hide EditSymbols;
    SymbolsFail(cb, calls, f.names);
    SymbolsFail(cb, calls + 1, f.names);
  }

  /** The editing ends early only at a call that answers FALSE, and that call is the last. */
  lemma {:induction false} FailsWhenStopped(cb: Callbacks, calls: nat, fs: seq<ImportFile>, stop: nat)
    requires StopsAt(cb, stop)
    ensures var e := EditFrom(cb, calls, fs, stop); !e.ok ==> e.calls > 0 && Stopped(cb, e.calls - 1)
    decreases |fs|, if calls < stop then stop - calls else 0, 1
  {
    hide StopsAt, EditHere;
    if cb.byway.Some? {
      var (ok, name) := cb.byway.value(calls, None);
      if ok && name.Some? {
        Insisting(cb, calls, stop);
        FailsWhenStopped(cb, calls + 1, fs, stop);
      } else if ok {
        HereFails(cb, calls + 1, fs, stop);
      }
    } else {
      HereFails(cb, calls, fs, stop);
    }
  }

  lemma {:induction false} HereFails(cb: Callbacks, calls: nat, fs: seq<ImportFile>, stop: nat)
    requires StopsAt(cb, stop)
    ensures var e := EditHere(cb, calls, fs, stop); !e.ok ==> e.calls > 0 && Stopped(cb, e.calls - 1)
    decreases |fs|, 0, 0
  {
    hide StopsAt, EditFrom, EditPlain;
    if fs != [] {
      var f, rest := fs[0], fs[1..];
      if f.fByway {
        FailsWhenStopped(cb, calls, rest, stop);
        FailsWhenStopped(cb, calls + 1, rest, stop);
      } else {
        PlainFails(cb, calls, f);
        FailsWhenStopped(cb, EditPlain(cb, calls, f).calls, rest, stop);
      }
    }
  }
}
