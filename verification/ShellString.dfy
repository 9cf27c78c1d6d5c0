/** The string printer of the SQLite shell and the tokenizer that reads its output back (shell.c). */
module ShellString {
  import opened Bytes

  const BACKSLASH: byte := 92
  const DOUBLE_QUOTE: byte := 34
  const SINGLE_QUOTE: byte := 39
  /** ArraySize(azArg) in do_meta_command. */
  const MAX_ARGS: nat := 50

  predicate IsPrint(c: byte) { 32 <= c <= 126 }

  predicate IsSpace(c: byte) { c == 32 || 9 <= c <= 13 }

  predicate IsOctal(c: byte) { 48 <= c <= 55 }

  ghost predicate NulFree(s: seq<byte>) { forall k :: 0 <= k < |s| ==> s[k] != 0 }

  /** The `n` characters from `start` on, and the terminator after them. */
  ghost predicate IsCString(z: seq<byte>, start: nat, n: nat) {
    start + n < |z| && z[start + n] == 0 && forall k :: start <= k < start + n ==> z[k] != 0
  }

  // ---------------------------------------------------------------- printing

  /** What output_c_string prints for one character. */
  function PrintChar(c: byte): (p: seq<byte>) {
    if c == BACKSLASH then [BACKSLASH, BACKSLASH]
    else if c == 9 then [BACKSLASH, 116]
    else if c == 10 then [BACKSLASH, 110]
    else if c == 13 then [BACKSLASH, 114]
    else if !IsPrint(c) then [BACKSLASH, 48 + c / 64, 48 + c / 8 % 8, 48 + c % 8]
    else [c]
  }

  function PrintBody(z: seq<byte>): seq<byte> {
    if z == [] then [] else PrintChar(z[0]) + PrintBody(z[1..])
  }

  function Quoted(z: seq<byte>): seq<byte> {
    [DOUBLE_QUOTE] + PrintBody(z) + [DOUBLE_QUOTE]
  }

  lemma {:induction false} PrintBodyAppend(a: seq<byte>, b: seq<byte>)
    ensures PrintBody(a + b) == PrintBody(a) + PrintBody(b)
  {
    hide PrintChar;
    if a == [] {
      assert a + b == b;
    } else {
      PrintBodyAppend(a[1..], b);
      assert (a + b)[1..] == a[1..] + b;
      Joins(PrintChar(a[0]), PrintBody(a[1..]), PrintBody(b));
    }
  }

  lemma {:induction false} Joins(a: seq<byte>, b: seq<byte>, c: seq<byte>)
    ensures a + (b + c) == (a + b) + c
  {
  }

  lemma {:induction false} PrintBodySnoc(z: seq<byte>, i: nat)
    requires i < |z|
    ensures PrintBody(z[..i + 1]) == PrintBody(z[..i]) + PrintChar(z[i])
  {
    assert z[..i + 1] == z[..i] + [z[i]];
    PrintBodyAppend(z[..i], [z[i]]);
    assert PrintBody([z[i]]) == PrintChar(z[i]) + PrintBody([]);
  }

  lemma {:induction false} PrintBodyEmpty()
    ensures PrintBody([]) == []
  {
  }

  /** output_c_string: print the C string held in `z`, quoted, at the end of stream `before`. */
  method OutputCString(before: seq<byte>, z: array<byte>, ghost n: nat) returns (out: seq<byte>)
    requires IsCString(z[..], 0, n)
    ensures out == before + Quoted(z[..n])
  {
    hide PrintBody;
    ghost var s := z[..n];
    out := before + [DOUBLE_QUOTE];
    var i := 0;
    PrintBodyEmpty();
    assert s[..0] == [];
    while z[i] != 0
      invariant 0 <= i <= n
      invariant out == before + [DOUBLE_QUOTE] + PrintBody(s[..i])
      decreases n - i
    {
      var c := z[i];
      assert i < n && s[i] == c;
      var p: seq<byte>;
      if c == BACKSLASH {
        p := [c, c];
      } else if c == 9 {
        p := [BACKSLASH, 116];
      } else if c == 10 {
        p := [BACKSLASH, 110];
      } else if c == 13 {
        p := [BACKSLASH, 114];
      } else if !IsPrint(c) {
        p := [BACKSLASH, 48 + c / 64, 48 + c / 8 % 8, 48 + c % 8];
      } else {
        p := [c];
      }
      assert p == PrintChar(c);
      hide PrintChar;
      PrintBodySnoc(s, i);
      out := out + p;
      i := i + 1;
    }
    assert s[..n] == s;
    out := out + [DOUBLE_QUOTE];
  }

  // ------------------------------------------------------- resolving escapes

  /** The value and length of the escape sequence at the front of `s`. */
  function Escape(s: seq<byte>): (r: (byte, nat))
    requires |s| >= 2
    ensures 2 <= r.1 <= |s|
  {
    var c: int := s[1];
    if c == 110 then (10, 2)
    else if c == 116 then (9, 2)
    else if c == 114 then (13, 2)
    else if !IsOctal(c) then (c, 2)
    else if |s| == 2 || !IsOctal(s[2]) then (c - 48, 2)
    else if |s| == 3 || !IsOctal(s[3]) then ((c - 48) * 8 + s[2] - 48, 3)
    else
      var d: int := s[2];
      (((c - 48) * 64 + (d - 48) * 8 + s[3] - 48) % 0x100, 4)
  }

  /** The resolved characters; None when a lone backslash ends the string and the source runs past its end. */
  function Resolve(s: seq<byte>): (r: Option<seq<byte>>)
    ensures r.Some? ==> |r.value| <= |s|
    decreases |s|
  {
    if s == [] then Some([])
    else if s[0] != BACKSLASH then
      match Resolve(s[1..]) case None => None case Some(rest) => Some([s[0]] + rest)
    else if |s| == 1 then None
    else
      var (c, n) := Escape(s);
      match Resolve(s[n..]) case None => None case Some(rest) => Some([c] + rest)
  }

  lemma {:induction false} ResolvePrintChar(c: byte, rest: seq<byte>)
    requires c != 0
    ensures Resolve(PrintChar(c) + rest)
         == (match Resolve(rest) case None => None case Some(r) => Some([c] + r))
  {
    hide PrintChar, Escape;
    var p := PrintChar(c);
    var s := p + rest;
    PrintedReads(c, rest);
    assert s[|p|..] == rest;
  }

  /** What is printed for a character is one character other than a backslash, or one escape. */
  lemma {:induction false} PrintedReads(c: byte, rest: seq<byte>)
    ensures var p := PrintChar(c);
            if p != [] && p[0] == BACKSLASH then |p| >= 2 && Escape(p + rest) == (c, |p|) else p == [c]
  {
    hide IsOctal;
    OctalDigits(c);
    IsNotOctal();
  }

  lemma {:induction false} IsNotOctal()
    ensures !IsOctal(BACKSLASH) && !IsOctal(110) && !IsOctal(114) && !IsOctal(116)
  {
  }

  lemma {:induction false} OctalDigits(c: byte)
    ensures var a, b, d := 48 + c / 64, 48 + c / 8 % 8, 48 + c % 8;
            && IsOctal(a) && IsOctal(b) && IsOctal(d) && (a - 48) * 64 + (b - 48) * 8 + d - 48 == c
  {
  }

  /** Reading back what was printed gives the original string. */
  lemma {:induction false} ResolvePrinted(z: seq<byte>)
    requires NulFree(z)
    ensures Resolve(PrintBody(z)) == Some(z)
  {
    if z != [] {
      ResolvePrinted(z[1..]);
      ResolvePrintChar(z[0], PrintBody(z[1..]));
      assert [z[0]] + z[1..] == z;
    }
  }

  // -------------------------------------------------------------- tokenizing

  function SkipSpaces(s: seq<byte>, i: nat): (j: nat)
    requires i <= |s|
    ensures i <= j <= |s|
    decreases |s| - i
  {
    if i < |s| && IsSpace(s[i]) then SkipSpaces(s, i + 1) else i
  }

  function FindSpace(s: seq<byte>, i: nat): (j: nat)
    requires i <= |s|
    ensures i <= j <= |s|
    decreases |s| - i
  {
    if i < |s| && !IsSpace(s[i]) then FindSpace(s, i + 1) else i
  }

  function FindByte(s: seq<byte>, i: nat, d: byte): (j: nat)
    requires i <= |s|
    ensures i <= j <= |s|
    decreases |s| - i
  {
    if i < |s| && s[i] != d then FindByte(s, i + 1, d) else i
  }

  /** An argument before its escapes are resolved: s[start..end], scanning to resume at `next`. */
  datatype Raw = Raw(start: nat, end: nat, next: nat, escapes: bool)

  function TokenAt(s: seq<byte>, i: nat): (raw: Raw)
    requires i < |s| && !IsSpace(s[i])
    ensures i < raw.next && i <= raw.start <= raw.end <= raw.next <= |s| && raw.next <= raw.end + 1
    ensures raw.end < |s| ==> raw.next == raw.end + 1
  {
    if s[i] == SINGLE_QUOTE || s[i] == DOUBLE_QUOTE then
      var e := FindByte(s, i + 1, s[i]);
      Raw(i + 1, e, if e < |s| then e + 1 else e, s[i] == DOUBLE_QUOTE)
    else
      var e := FindSpace(s, i + 1);
      Raw(i, e, if e < |s| then e + 1 else e, true)
  }

  function TokenText(s: seq<byte>, raw: Raw): Option<seq<byte>>
    requires raw.start <= raw.end <= |s|
  {
    var t := s[raw.start..raw.end];
    if raw.escapes then Resolve(t) else Some(t)
  }

  /** The first `room` arguments of line `s` from index `i` on. */
  function Tokens(s: seq<byte>, i: nat, room: nat): Option<seq<seq<byte>>>
    requires i <= |s|
    decreases |s| - i
  {
    var j := SkipSpaces(s, i);
    if room == 0 || j == |s| then Some([])
    else
      SkipSpacesStops(s, i);
      var raw := TokenAt(s, j);
      match TokenText(s, raw)
      case None => None
      case Some(text) =>
        match Tokens(s, raw.next, room - 1)
        case None => None
        case Some(rest) => Some([text] + rest)
  }

  lemma {:induction false} SkipSpacesStops(s: seq<byte>, i: nat)
    requires i <= |s|
    ensures var j := SkipSpaces(s, i); j < |s| ==> !IsSpace(s[j])
    decreases |s| - i
  {
    if i < |s| && IsSpace(s[i]) {
      SkipSpacesStops(s, i + 1);
    }
  }

  lemma {:induction false} TokensStep(s: seq<byte>, i: nat, room: nat)
    requires i <= |s| && Tokens(s, i, room).Some?
    ensures var j := SkipSpaces(s, i);
            if room == 0 || j == |s| then Tokens(s, i, room) == Some([])
            else
              && !IsSpace(s[j]) && TokenText(s, TokenAt(s, j)).Some?
              && Tokens(s, TokenAt(s, j).next, room - 1).Some?
              && Tokens(s, i, room).value
                   == [TokenText(s, TokenAt(s, j)).value] + Tokens(s, TokenAt(s, j).next, room - 1).value
  {
    SkipSpacesStops(s, i);
  }

  // ------------------------------------------------------------- round trip

  /** The arguments, each printed by output_c_string and preceded by a space. */
  function Joined(args: seq<seq<byte>>): seq<byte> {
    if args == [] then [] else [32] + Quoted(args[0]) + Joined(args[1..])
  }

  lemma {:induction false} FindByteStops(s: seq<byte>, i: nat, e: nat, d: byte)
    requires i <= e < |s| && s[e] == d && forall k :: i <= k < e ==> s[k] != d
    ensures FindByte(s, i, d) == e
    decreases e - i
  {
    if i < e {
      FindByteStops(s, i + 1, e, d);
    }
  }

  ghost predicate QuoteFree(z: seq<byte>) { forall k :: 0 <= k < |z| ==> z[k] != DOUBLE_QUOTE }

  lemma {:induction false} PrintedQuotes(z: seq<byte>)
    ensures QuoteFree(z) ==> QuoteFree(PrintBody(z))
  {
    if z != [] {
      PrintedQuotes(z[1..]);
      assert QuoteFree(PrintChar(z[0])) || z[0] == DOUBLE_QUOTE;
    }
  }

  /** The longest prefix of `z` before a double quote. */
  function BeforeQuote(z: seq<byte>): (p: seq<byte>)
    ensures |p| <= |z| && p == z[..|p|] && QuoteFree(p)
    ensures if |p| < |z| then z[|p|] == DOUBLE_QUOTE else QuoteFree(z)
  {
    if z == [] || z[0] == DOUBLE_QUOTE then [] else [z[0]] + BeforeQuote(z[1..])
  }

  /** The tokenizer reads a printed argument back up to its first double quote. */
  lemma {:induction false} ReadsQuoted(pre: seq<byte>, z: seq<byte>, post: seq<byte>)
    requires NulFree(z)
    ensures var s := pre + [32] + Quoted(z) + post;
            var p := BeforeQuote(z);
            var raw := TokenAt(s, |pre| + 1);
            && SkipSpaces(s, |pre|) == |pre| + 1 && s[|pre| + 1] == DOUBLE_QUOTE
            && TokenText(s, raw) == Some(p)
            && (p == z <==> QuoteFree(z))
            && (p == z ==> raw.next == |pre| + 1 + |Quoted(z)|)
  {
    hide PrintBody, Resolve;
    var s := pre + [32] + Quoted(z) + post;
    var p := BeforeQuote(z);
    var i := |pre| + 1;
    assert s[i - 1] == 32 && s[i] == DOUBLE_QUOTE;
    assert SkipSpaces(s, i) == i;
    PrintBodyAppend(p, z[|p|..]);
    assert p + z[|p|..] == z;
    PrintedQuotes(p);
    var e := i + 1 + |PrintBody(p)|;
    assert s[i + 1..e] == PrintBody(p);
    assert s[e] == DOUBLE_QUOTE by {
      QuoteLeads(z[|p|..]);
    }
    FindByteStops(s, i + 1, e, DOUBLE_QUOTE) by {
      assert forall k :: i + 1 <= k < e ==> s[k] == PrintBody(p)[k - i - 1];
    }
    ResolvePrinted(p);
  }

  lemma {:induction false} QuoteLeads(z: seq<byte>)
    requires z == [] || z[0] == DOUBLE_QUOTE
    ensures PrintBody(z) == [] || PrintBody(z)[0] == DOUBLE_QUOTE
    ensures z == [] ==> PrintBody(z) == []
  {
  }

  lemma {:induction false} TokensNext(s: seq<byte>, i: nat, room: nat, text: seq<byte>)
    requires i <= |s| && room > 0 && SkipSpaces(s, i) < |s| && !IsSpace(s[SkipSpaces(s, i)])
    requires TokenText(s, TokenAt(s, SkipSpaces(s, i))) == Some(text)
    ensures var rest := Tokens(s, TokenAt(s, SkipSpaces(s, i)).next, room - 1);
            Tokens(s, i, room) == if rest.None? then None else Some([text] + rest.value)
  {
  }

  /** Printed arguments are read back exactly when none of them holds a double quote, which is not escaped. */
  lemma {:induction false} ReadsJoined(pre: seq<byte>, args: seq<seq<byte>>, room: nat)
    requires |args| <= room && forall k :: 0 <= k < |args| ==> NulFree(args[k])
    ensures Tokens(pre + Joined(args), |pre|, room) == Some(args)
            <==> forall k :: 0 <= k < |args| ==> QuoteFree(args[k])
    decreases |args|
  {
    hide Tokens, Resolve, TokenAt, TokenText, Quoted, NulFree, QuoteFree;
    if args == [] {
      assert pre + Joined(args) == pre;
      NoTokens(pre, room);
    } else {
      var a, rest := args[0], args[1..];
      var pre' := pre + [32] + Quoted(a);
      var s := pre + Joined(args);
      assert s == pre' + Joined(rest);
      ReadsQuoted(pre, a, Joined(rest));
      TokensNext(s, |pre|, room, BeforeQuote(a));
      ConsArgs(args, Tokens(s, |pre'|, room - 1), BeforeQuote(a));
      if QuoteFree(a) {
        ReadsJoined(pre', rest, room - 1);
      }
    }
  }

  lemma {:induction false} ConsArgs(args: seq<seq<byte>>, rest: Option<seq<seq<byte>>>, text: seq<byte>)
    requires args != []
    ensures (if rest.None? then None else Some([text] + rest.value)) == Some(args)
            <==> text == args[0] && rest == Some(args[1..])
    ensures (forall k :: 0 <= k < |args| ==> QuoteFree(args[k]))
            <==> QuoteFree(args[0]) && forall k :: 0 <= k < |args[1..]| ==> QuoteFree(args[1..][k])
  {
    hide QuoteFree;
    var a, tail := args[0], args[1..];
    assert args == [a] + tail;
    if rest.Some? {
      assert ([text] + rest.value)[1..] == rest.value;
    }
    if forall k :: 0 <= k < |args| ==> QuoteFree(args[k]) {
      assert forall k :: 0 <= k < |tail| ==> tail[k] == args[k + 1];
    }
  }

  lemma {:induction false} NoTokens(s: seq<byte>, room: nat)
    ensures Tokens(s, |s|, room) == Some([])
  {
  }

  /** A word do_meta_command reads verbatim: no space, backslash, terminator or leading quote. */
  ghost predicate PlainWord(w: seq<byte>) {
    && w != [] && w[0] != SINGLE_QUOTE && w[0] != DOUBLE_QUOTE
    && forall k :: 0 <= k < |w| ==> w[k] != 0 && w[k] != BACKSLASH && !IsSpace(w[k])
  }

  lemma {:induction false} FindSpaceStops(s: seq<byte>, i: nat, e: nat)
    requires i <= e <= |s| && (e < |s| ==> IsSpace(s[e])) && forall k :: i <= k < e ==> !IsSpace(s[k])
    ensures FindSpace(s, i) == e
    decreases e - i
  {
    if i < e {
      FindSpaceStops(s, i + 1, e);
    }
  }

  lemma {:induction false} ResolvePlain(w: seq<byte>)
    requires forall k :: 0 <= k < |w| ==> w[k] != BACKSLASH
    ensures Resolve(w) == Some(w)
  {
    if w != [] {
      ResolvePlain(w[1..]);
      assert [w[0]] + w[1..] == w;
    }
  }

  /** A command line split at its command: what the tokens behind it are, in the room left. */
  lemma {:induction false} SplitCommand(cmd: seq<byte>, line: seq<byte>, room: nat)
    requires PlainWord(cmd) && room > 0 && (line == [] || line[0] == 32)
    ensures var s := [46] + cmd + line;
            var rest := Tokens(s, |cmd| + 1, room - 1);
            Tokens(s, 1, room) == if rest.None? then None else Some([cmd] + rest.value)
  {
    hide Resolve, Tokens;
    var pre := [46] + cmd;
    var s := pre + line;
    assert forall k :: 0 <= k < |cmd| ==> s[k + 1] == cmd[k];
    assert SkipSpaces(s, 1) == 1;
    assert line != [] ==> s[|pre|] == line[0];
    FindSpaceStops(s, 2, |pre|);
    assert s[1..|pre|] == cmd;
    ResolvePlain(cmd);
    TokensNext(s, 1, room, cmd);
    if line != [] {
      TokensSkip(s, |pre|, room - 1);
    }
  }

  /**
   * The shell reads its own C quoting: the line ".cmd" followed by printed arguments splits back into exactly
   * the command and those arguments if and only if no argument contains a double quote.
   */
  lemma {:induction false} ShellReadsItsOutput(cmd: seq<byte>, args: seq<seq<byte>>)
    requires PlainWord(cmd) && |args| <= 49 && forall k :: 0 <= k < |args| ==> NulFree(args[k])
    ensures Tokens([46] + cmd + Joined(args), 1, MAX_ARGS) == Some([cmd] + args)
            <==> forall k :: 0 <= k < |args| ==> QuoteFree(args[k])
  {
    hide Tokens, NulFree, QuoteFree, Quoted, PlainWord;
    JoinedFront(args);
    SplitCommand(cmd, Joined(args), MAX_ARGS);
    ReadsJoined([46] + cmd, args, MAX_ARGS - 1);
    var rest := Tokens([46] + cmd + Joined(args), |cmd| + 1, MAX_ARGS - 1);
    if rest.Some? {
      assert ([cmd] + rest.value)[1..] == rest.value && ([cmd] + args)[1..] == args;
    }
  }

  lemma {:induction false} JoinedFront(args: seq<seq<byte>>)
    ensures Joined(args) == [] || Joined(args)[0] == 32
  {
  }

  lemma {:induction false} TokensSkip(s: seq<byte>, i: nat, room: nat)
    requires i < |s| && IsSpace(s[i])
    ensures Tokens(s, i, room) == Tokens(s, i + 1, room)
  {
  }

  // ------------------------------------------------------- single-quoted lines

  /** The arguments as they are, each in single quotes and preceded by a space. */
  function SingleQuoted(args: seq<seq<byte>>): seq<byte> {
    if args == [] then [] else ([32, 39] + args[0] + [39]) + SingleQuoted(args[1..])
  }

  ghost predicate SingleFree(z: seq<byte>) { forall k :: 0 <= k < |z| ==> z[k] != 39 }

  /** The longest prefix of `z` before a single quote. */
  function BeforeSingle(z: seq<byte>): (p: seq<byte>)
    ensures |p| <= |z| && p == z[..|p|] && SingleFree(p)
    ensures if |p| < |z| then z[|p|] == 39 else SingleFree(z)
  {
    if z == [] || z[0] == 39 then [] else [z[0]] + BeforeSingle(z[1..])
  }

  /** The tokenizer reads a single-quoted argument up to the next single quote, backslashes and all. */
  lemma {:induction false} ReadsSingle(pre: seq<byte>, z: seq<byte>, post: seq<byte>)
    ensures var s := pre + ([32, 39] + z + [39]) + post;
            var p, raw := BeforeSingle(z), TokenAt(s, |pre| + 1);
            && SkipSpaces(s, |pre|) == |pre| + 1 && s[|pre| + 1] == 39
            && TokenText(s, raw) == Some(p)
            && (p == z <==> SingleFree(z)) && (p == z ==> raw.next == |pre| + |z| + 3)
  {
    hide Resolve;
    var s := pre + ([32, 39] + z + [39]) + post;
    var p, i := BeforeSingle(z), |pre| + 1;
    assert s[i - 1] == 32 && s[i] == 39 && SkipSpaces(s, i) == i;
    var e := i + 1 + |p|;
    assert forall k :: 0 <= k < |z| ==> s[i + 1 + k] == z[k];
    assert s[i + 1..e] == p;
    assert s[e] == 39 by {
      assert |p| == |z| ==> s[e] == 39;
    }
    FindByteStops(s, i + 1, e, 39) by {
      assert forall k :: i + 1 <= k < e ==> s[k] == p[k - i - 1];
    }
  }

  /** One argument read, and the line from where it ends. */
  lemma {:induction false} SingleNext(pre: seq<byte>, args: seq<seq<byte>>, room: nat)
    requires args != [] && room > 0
    ensures var p := BeforeSingle(args[0]);
            var pre' := pre + ([32, 39] + args[0] + [39]);
            && pre + SingleQuoted(args) == pre' + SingleQuoted(args[1..])
            && (p == args[0] <==> SingleFree(args[0]))
            && var s := pre + SingleQuoted(args);
               if p == args[0] then
                 var rest := Tokens(s, |pre'|, room - 1);
                 Tokens(s, |pre|, room) == if rest.None? then None else Some([args[0]] + rest.value)
               else Tokens(s, |pre|, room).Some? ==> |Tokens(s, |pre|, room).value| > 0
                                                     && Tokens(s, |pre|, room).value[0] == p
  {
    hide Tokens, TokenAt, TokenText, SingleFree, SingleQuoted, SkipSpaces, IsSpace;
    SinglesSplit(pre, args);
    var s := pre + SingleQuoted(args);
    ReadsSingle(pre, args[0], SingleQuoted(args[1..]));
    QuoteNoSpace();
    TokensNext(s, |pre|, room, BeforeSingle(args[0]));
  }

  lemma {:induction false} QuoteNoSpace()
    ensures !IsSpace(39)
  {
  }

  lemma {:induction false} SinglesSplit(pre: seq<byte>, args: seq<seq<byte>>)
    requires args != []
    ensures pre + SingleQuoted(args) == pre + ([32, 39] + args[0] + [39]) + SingleQuoted(args[1..])
  {
    Joins(pre, [32, 39] + args[0] + [39], SingleQuoted(args[1..]));
  }

  lemma {:induction false} ReadsSingles(pre: seq<byte>, args: seq<seq<byte>>, room: nat)
    requires |args| <= room
    ensures Tokens(pre + SingleQuoted(args), |pre|, room) == Some(args)
            <==> forall k :: 0 <= k < |args| ==> SingleFree(args[k])
    decreases |args|
  {
    hide Tokens, SingleFree, SingleQuoted;
    if args == [] {
      NoSingles(pre, room);
    } else {
      var a, rest, pre' := args[0], args[1..], pre + ([32, 39] + args[0] + [39]);
      SingleNext(pre, args, room);
      ConsArgs(args, Tokens(pre' + SingleQuoted(rest), |pre'|, room - 1), a);
      FreeCons(args);
      if SingleFree(a) {
        ReadsSingles(pre', rest, room - 1);
      }
    }
  }

  lemma {:induction false} NoSingles(pre: seq<byte>, room: nat)
    ensures Tokens(pre + SingleQuoted([]), |pre|, room) == Some([])
  {
    assert pre + SingleQuoted([]) == pre;
    NoTokens(pre, room);
  }

  lemma {:induction false} FreeCons(args: seq<seq<byte>>)
    requires args != []
    ensures (forall k :: 0 <= k < |args| ==> SingleFree(args[k]))
            <==> SingleFree(args[0]) && forall k :: 0 <= k < |args[1..]| ==> SingleFree(args[1..][k])
  {
    hide SingleFree;
    if forall k :: 0 <= k < |args[1..]| ==> SingleFree(args[1..][k]) {
      assert forall k :: 1 <= k < |args| ==> args[k] == args[1..][k - 1];
    }
  }

  /**
   * Arguments in single quotes are taken as they are, backslashes included: the line splits back into the command and
   * those arguments if and only if none of them contains a single quote.
   */
  lemma {:induction false} SingleQuotesKeep(cmd: seq<byte>, args: seq<seq<byte>>)
    requires PlainWord(cmd) && |args| <= 49
    ensures Tokens([46] + cmd + SingleQuoted(args), 1, MAX_ARGS) == Some([cmd] + args)
            <==> forall k :: 0 <= k < |args| ==> SingleFree(args[k])
  {
    hide Tokens, SingleFree, PlainWord;
    var s, rest := [46] + cmd + SingleQuoted(args), Tokens([46] + cmd + SingleQuoted(args), |cmd| + 1, MAX_ARGS - 1);
    SplitCommand(cmd, SingleQuoted(args), MAX_ARGS);
    ReadsSingles([46] + cmd, args, MAX_ARGS - 1);
    if rest.Some? {
      assert ([cmd] + rest.value)[1..] == rest.value && ([cmd] + args)[1..] == args;
    }
  }

  // ------------------------------------------------------------------ bare words

  /** Tab, newline, vertical tab, form feed, carriage return and space. */
  predicate Blank(c: byte) { c == 9 || c == 10 || c == 11 || c == 12 || c == 13 || c == 32 }

  /** A word that needs no quotes. */
  ghost predicate Bare(w: seq<byte>) {
    && w != [] && w[0] != 34 && w[0] != 39
    && forall k :: 0 <= k < |w| ==> !Blank(w[k]) && w[k] != 92
  }

  /** The words, each behind the separator. */
  function Spaced(words: seq<seq<byte>>, sep: seq<byte>): seq<byte> {
    if words == [] then [] else (sep + words[0]) + Spaced(words[1..], sep)
  }

  lemma {:induction false} SkipsBlanks(s: seq<byte>, i: nat, j: nat)
    requires i <= j <= |s| && (forall k :: i <= k < j ==> Blank(s[k])) && (j < |s| ==> !Blank(s[j]))
    ensures SkipSpaces(s, i) == j
    decreases j - i
  {
    if i < j {
      SkipsBlanks(s, i + 1, j);
    }
  }

  lemma {:induction false} SpacedFront(words: seq<seq<byte>>, sep: seq<byte>)
    requires sep != []
    ensures words == [] || (Spaced(words, sep) != [] && Spaced(words, sep)[0] == sep[0])
  {
  }

  /** One word and the separator in front of it. */
  lemma {:induction false} ReadsBare(pre: seq<byte>, sep: seq<byte>, w: seq<byte>, post: seq<byte>)
    requires sep != [] && (forall k :: 0 <= k < |sep| ==> Blank(sep[k])) && Bare(w) && (post == [] || Blank(post[0]))
    ensures var s, i := pre + (sep + w) + post, |pre| + |sep|;
            && SkipSpaces(s, |pre|) == i && i < |s| && !IsSpace(s[i])
            && TokenText(s, TokenAt(s, i)) == Some(w)
            && TokenAt(s, i).next == if post == [] then |s| else i + |w| + 1
  {
    hide Resolve, SkipSpaces, FindSpace;
    var s, i := pre + (sep + w) + post, |pre| + |sep|;
    assert forall k :: 0 <= k < |sep| ==> s[|pre| + k] == sep[k];
    assert forall k :: 0 <= k < |w| ==> s[i + k] == w[k];
    assert post != [] ==> s[i + |w|] == post[0];
    SkipsBlanks(s, |pre|, i);
    FindSpaceStops(s, i + 1, i + |w|);
    assert s[i..i + |w|] == w;
    ResolvePlain(w);
  }

  /** The separator's first blank ends the word before it and is passed over with it. */
  lemma {:induction false} NextBlank(s: seq<byte>, i: nat, room: nat)
    requires i < |s| && Blank(s[i])
    ensures Tokens(s, i, room) == Tokens(s, i + 1, room)
  {
    TokensSkip(s, i, room);
  }

  /** Words without quotes, blanks and backslashes are split at any runs of blanks. */
  lemma {:induction false} WordsSplit(pre: seq<byte>, words: seq<seq<byte>>, sep: seq<byte>, room: nat)
    requires |words| <= room && sep != [] && (forall k :: 0 <= k < |sep| ==> Blank(sep[k]))
    requires forall k :: 0 <= k < |words| ==> Bare(words[k])
    ensures Tokens(pre + Spaced(words, sep), |pre|, room) == Some(words)
    decreases |words|
  {
    hide Tokens, TokenAt, TokenText, Bare, SkipSpaces, IsSpace;
    if words == [] {
      assert pre + Spaced(words, sep) == pre;
      NoTokens(pre, room);
    } else {
      var rest, pre' := words[1..], pre + (sep + words[0]);
      var s := pre + Spaced(words, sep);
      Joins(pre, sep + words[0], Spaced(rest, sep));
      SpacedFront(rest, sep);
      ReadsBare(pre, sep, words[0], Spaced(rest, sep));
      TokensNext(s, |pre|, room, words[0]);
      assert forall k :: 0 <= k < |rest| ==> rest[k] == words[k + 1];
      WordsSplit(pre', rest, sep, room - 1);
      if rest != [] {
        assert s[|pre'|] == Spaced(rest, sep)[0];
        NextBlank(s, |pre'|, room - 1);
      } else {
        assert s == pre';
      }
      assert [words[0]] + rest == words;
    }
  }

  // ------------------------------------------------------------------- limits

  lemma {:induction false} ReadsFirst(pre: seq<byte>, args: seq<seq<byte>>, room: nat)
    requires room <= |args| && forall k :: 0 <= k < |args| ==> SingleFree(args[k])
    ensures Tokens(pre + SingleQuoted(args), |pre|, room) == Some(args[..room])
    decreases |args|
  {
    hide Tokens, SingleFree, SingleQuoted;
    if room == 0 {
      NoRoom(pre + SingleQuoted(args), |pre|);
    } else {
      var rest, pre' := args[1..], pre + ([32, 39] + args[0] + [39]);
      SingleNext(pre, args, room);
      assert forall k :: 0 <= k < |rest| ==> rest[k] == args[k + 1];
      ReadsFirst(pre', rest, room - 1);
      assert args[..room] == [args[0]] + rest[..room - 1];
    }
  }

  lemma {:induction false} NoRoom(s: seq<byte>, i: nat)
    requires i <= |s|
    ensures Tokens(s, i, 0) == Some([])
  {
  }

  /** Of a line of more than fifty words the first fifty are taken, the command among them. */
  lemma {:induction false} FiftyWords(cmd: seq<byte>, args: seq<seq<byte>>)
    requires PlainWord(cmd) && |args| >= 49 && forall k :: 0 <= k < |args| ==> SingleFree(args[k])
    ensures Tokens([46] + cmd + SingleQuoted(args), 1, MAX_ARGS) == Some([cmd] + args[..49])
  {
    hide Tokens, SingleFree, PlainWord;
    SplitCommand(cmd, SingleQuoted(args), MAX_ARGS);
    ReadsFirst([46] + cmd, args, 49);
  }

  /** The escapes of C in ASCII: what is printed for each character, and what each sequence stands for. */
  lemma {:induction false} CEscapes(c: byte, rest: seq<byte>)
    ensures PrintChar(9) == [92, 116] && PrintChar(10) == [92, 110] && PrintChar(13) == [92, 114]
            && PrintChar(92) == [92, 92]
    ensures 32 <= c <= 126 && c != 92 ==> PrintChar(c) == [c]
    ensures c < 9 || c in {11, 12} || 14 <= c < 32 || c >= 127 ==> |PrintChar(c)| == 4
    ensures Escape([92, 116] + rest) == (9, 2) && Escape([92, 110] + rest) == (10, 2)
            && Escape([92, 114] + rest) == (13, 2)
    ensures !(48 <= c <= 55) && c !in {110, 114, 116} ==> Escape([92, c] + rest) == (c, 2)
  {
  }

  /** One to three octal digits are a number, taken modulo 256; a fourth is not part of it. */
  lemma {:induction false} OctalEscapes(a: nat, b: nat, d: nat, rest: seq<byte>)
    requires a < 8 && b < 8 && d < 8
    ensures Escape([92, 48 + a, 48 + b, 48 + d] + rest) == ((64 * a + 8 * b + d) % 256, 4)
    ensures rest == [] || !(48 <= rest[0] <= 55) ==>
              Escape([92, 48 + a, 48 + b] + rest) == (8 * a + b, 3) && Escape([92, 48 + a] + rest) == (a, 2)
  {
  }
}
