/**
 * The tokenizer of the SQLite shell on the memory that holds the command line: arguments are cut and their escapes
 * resolved in place, and what one argument's resolution overwrites is what the next one is read from (shell.c).
 */
module ShellLine {
  import opened Bytes
  import opened ShellString

  // ------------------------------------------------------- resolving escapes

  /** The value and length of the character or escape sequence at `i`; None when it runs off the memory. */
  function EscapeIn(z: seq<byte>, i: nat): (r: Option<(byte, nat)>)
    requires i < |z|
    ensures r.Some? ==> 1 <= r.value.1 && i + r.value.1 <= |z|
  {
    if z[i] != BACKSLASH then Some((z[i], 1))
    else if i + 1 >= |z| then None
    else
      var c: int := z[i + 1];
      if c == 110 then Some((10, 2))
      else if c == 116 then Some((9, 2))
      else if c == 114 then Some((13, 2))
      else if !IsOctal(c) then Some((c, 2))
      else if i + 2 >= |z| then None
      else if !IsOctal(z[i + 2]) then Some((c - 48, 2))
      else if i + 3 >= |z| then None
      else
        var d: int := z[i + 2];
        if !IsOctal(z[i + 3]) then Some(((c - 48) * 8 + d - 48, 3))
        else Some((((c - 48) * 64 + (d - 48) * 8 + z[i + 3] - 48) % 0x100, 4))
  }

  /**
   * The characters that resolving from `i` on puts out up to the terminator it stops at.  A lone backslash in front
   * of a terminator puts out that terminator and goes on behind it.
   */
  function Unescape(z: seq<byte>, i: nat): (r: Option<seq<byte>>)
    requires i <= |z|
    ensures r.Some? ==> i + |r.value| < |z|
    decreases |z| - i
  {
    if i == |z| then None
    else if z[i] == 0 then Some([])
    else
      match EscapeIn(z, i)
      case None => None
      case Some((c, n)) => match Unescape(z, i + n) case None => None case Some(rest) => Some([c] + rest)
  }

  lemma {:induction false} UnescapeStep(z: seq<byte>, i: nat)
    requires i < |z| && z[i] != 0 && Unescape(z, i).Some?
    ensures EscapeIn(z, i).Some?
    ensures var (c, n) := EscapeIn(z, i).value;
            Unescape(z, i + n).Some? && Unescape(z, i).value == [c] + Unescape(z, i + n).value
  {
  }

  /** The octal digits behind the first one, at index `i`; `last` is the index of the last digit. */
  method ReadOctal(z: array<byte>, i: nat, ghost at: nat) returns (c: byte, last: nat)
    requires at + 1 == i < z.Length && z[at] == BACKSLASH && IsOctal(z[i]) && EscapeIn(z[..], at).Some?
    ensures EscapeIn(z[..], at) == Some((c, last + 1 - at))
  {
    last := i;
    var value: int := z[i] - 48;
    ghost var first, second: int := value, 0;
    if IsOctal(z[last + 1]) {
      last := last + 1;
      second := z[last] - 48;
      value := (value * 8 + z[last] - 48) % 0x100;
      assert value == first * 8 + second;
      if IsOctal(z[last + 1]) {
        last := last + 1;
        value := (value * 8 + z[last] - 48) % 0x100;
        assert value == (first * 64 + second * 8 + z[last] - 48) % 0x100;
      }
    }
    c := value;
  }

  /** The body of the resolving loop: the character at index `i`, and the last index it occupies. */
  method ReadEscaped(z: array<byte>, i: nat) returns (c: byte, last: nat)
    requires i < z.Length && EscapeIn(z[..], i).Some?
    ensures EscapeIn(z[..], i) == Some((c, last + 1 - i))
  {
    c, last := z[i], i;
    if c == BACKSLASH {
      last := last + 1;
      c := z[last];
      if c == 110 {
        c := 10;
      } else if c == 116 {
        c := 9;
      } else if c == 114 {
        c := 13;
      } else if IsOctal(c) {
        c, last := ReadOctal(z, last, i);
      }
    }
  }

  lemma {:induction false} EscapeBehind(z: seq<byte>, s: seq<byte>, i: nat)
    requires i < |z| == |s| && forall k :: i <= k < |z| ==> z[k] == s[k]
    ensures EscapeIn(z, i) == EscapeIn(s, i)
  {
  }

  /**
   * resolve_backslashes from `start` on: the write index never passes the read index, so the characters still to
   * be read are intact until they are consumed.
   */
  method ResolveBackslashes(z: array<byte>, start: nat)
    requires start <= z.Length && Unescape(z[..], start).Some?
    modifies z
    ensures z[..] == Blit(old(z[..]), start, Unescape(old(z[..]), start).value + [0])
  {
    hide Blit, EscapeIn, Unescape;
    ghost var s := z[..];
    ghost var result := Unescape(s, start).value;
    ghost var m, rest := 0, result;
    var i, j := start, start;
    UnescapeEnds(s, i);
    while z[i] != 0
      invariant start <= j <= i < |s| && j == start + m && m <= |result|
      invariant forall k :: 0 <= k < start || j <= k < z.Length ==> z[k] == s[k]
      invariant forall k :: start <= k < j ==> z[k] == result[k - start]
      invariant Unescape(s, i) == Some(rest) && rest == result[m..]
      decreases |s| - i
    {
      UnescapeStep(s, i);
      EscapeBehind(z[..], s, i);
      var c, last := ReadEscaped(z, i);
      ghost var tail := Unescape(s, last + 1).value;
      assert c == result[m] && tail == result[m + 1..] by {
        assert rest == [c] + tail;
      }
      m, rest := m + 1, tail;
      i := last;
      z[j] := c;
      i, j := i + 1, j + 1;
      UnescapeEnds(s, i);
    }
    UnescapeEnds(s, i);
    z[j] := 0;
  }

  lemma {:induction false} UnescapeEnds(z: seq<byte>, i: nat)
    requires i <= |z| && Unescape(z, i).Some?
    ensures i < |z| && (z[i] == 0 ==> Unescape(z, i) == Some([]))
  {
  }

  /** An argument without a lone backslash at its end resolves as specified, and nothing behind it is read. */
  lemma {:induction false} ResolvesAlike(z: seq<byte>, i: nat, end: nat)
    requires i <= end < |z| && z[end] == 0 && (forall k :: i <= k < end ==> z[k] != 0) && Resolve(z[i..end]).Some?
    ensures Unescape(z, i) == Resolve(z[i..end])
    decreases end - i
  {
    hide EscapeIn, Escape;
    if i < end {
      var t := z[i..end];
      assert t[0] == BACKSLASH ==> |t| > 1;
      EscapeAlike(z, i, end);
      var n := if t[0] == BACKSLASH then Escape(t).1 else 1;
      assert t[n..] == z[i + n..end];
      ResolvesAlike(z, i + n, end);
    }
  }

  lemma {:induction false} EscapeAlike(z: seq<byte>, i: nat, end: nat)
    requires i < end < |z| && z[end] == 0 && (z[i] == BACKSLASH ==> i + 1 < end)
    ensures EscapeIn(z, i) == Some(if z[i] == BACKSLASH then Escape(z[i..end]) else (z[i], 1))
  {
    var t := z[i..end];
    assert forall k :: 0 <= k < |t| ==> t[k] == z[i + k];
    assert !IsOctal(z[end]);
  }

  // -------------------------------------------------------------- the line

  function FindBreak(z: seq<byte>, i: nat): (j: nat)
    requires i <= |z|
    ensures i <= j <= |z|
    decreases |z| - i
  {
    if i < |z| && z[i] != 0 && !IsSpace(z[i]) then FindBreak(z, i + 1) else i
  }

  function FindDelimiter(z: seq<byte>, i: nat, d: byte): (j: nat)
    requires i <= |z|
    ensures i <= j <= |z|
    decreases |z| - i
  {
    if i < |z| && z[i] != 0 && z[i] != d then FindDelimiter(z, i + 1, d) else i
  }

  /** The argument at `i` of the memory; its end is the end of the memory when no terminator is met. */
  function TokenIn(z: seq<byte>, i: nat): (raw: Raw)
    requires i < |z|
    ensures i <= raw.start <= raw.end <= raw.next && i < raw.next && raw.end <= |z| && raw.next <= raw.end + 1
    ensures raw.end < |z| ==> (raw.next == raw.end + 1 <==> z[raw.end] != 0)
  {
    if z[i] == SINGLE_QUOTE || z[i] == DOUBLE_QUOTE then
      var e := FindDelimiter(z, i + 1, z[i]);
      Raw(i + 1, e, if e < |z| && z[e] != 0 then e + 1 else e, z[i] == DOUBLE_QUOTE)
    else
      var e := FindBreak(z, i + 1);
      Raw(i, e, if e < |z| && z[e] != 0 then e + 1 else e, true)
  }

  /** The memory after some arguments were cut, and where they start. */
  datatype Line = Line(z: seq<byte>, starts: seq<nat>)

  /** One argument cut and resolved. */
  function CutOne(z: seq<byte>, raw: Raw): (r: Option<seq<byte>>)
    requires raw.start <= raw.end <= raw.next <= raw.end + 1
    ensures r.Some? ==> |r.value| == |z|
  {
    if raw.end >= |z| then None
    else
      var cut := if raw.end < raw.next then z[raw.end := 0] else z;
      if !raw.escapes then Some(cut)
      else
        match Unescape(cut, raw.start)
        case None => None
        case Some(out) => Some(Blit(cut, raw.start, out + [0]))
  }

  /** What the tokenizer loop makes of any memory from `i` on; None when it runs off the memory. */
  function Cut(z: seq<byte>, i: nat, room: nat): (r: Option<Line>)
    ensures r.Some? ==> |r.value.z| == |z|
    decreases room
  {
    if i >= |z| then None
    else if z[i] == 0 || room == 0 then Some(Line(z, []))
    else
      var j := SkipSpaces(z, i);
      if j >= |z| then None
      else if z[j] == 0 then Some(Line(z, []))
      else
        var raw := TokenIn(z, j);
        match CutOne(z, raw)
        case None => None
        case Some(z') =>
          match Cut(z', raw.next, room - 1)
          case None => None
          case Some(rest) => Some(Line(rest.z, [raw.start] + rest.starts))
  }

  // ------------------------------------------------------------------ the loops

  /** The token's end, found by the scanning loops of do_meta_command. */
  method ScanToken(zLine: array<byte>, j: nat) returns (raw: Raw)
    requires j < zLine.Length && zLine[j] != 0 && TokenIn(zLine[..], j).end < zLine.Length
    ensures raw == TokenIn(zLine[..], j)
  {
    var i := j;
    if zLine[i] == SINGLE_QUOTE || zLine[i] == DOUBLE_QUOTE {
      var delim := zLine[i];
      i := i + 1;
      var start := i;
      while zLine[i] != 0 && zLine[i] != delim
        invariant start <= i < zLine.Length && FindDelimiter(zLine[..], i, delim)
                  == FindDelimiter(zLine[..], start, delim)
        decreases zLine.Length - i
      {
        i := i + 1;
      }
      raw := Raw(start, i, if zLine[i] == delim then i + 1 else i, delim == DOUBLE_QUOTE);
    } else {
      i := i + 1;
      while zLine[i] != 0 && !IsSpace(zLine[i])
        invariant j < i < zLine.Length && FindBreak(zLine[..], i) == FindBreak(zLine[..], j + 1)
        decreases zLine.Length - i
      {
        i := i + 1;
      }
      raw := Raw(j, i, if zLine[i] != 0 then i + 1 else i, true);
    }
  }

  /** One argument: terminate it where its delimiter was and, unless single quoted, resolve its escapes. */
  method FinishToken(zLine: array<byte>, raw: Raw)
    requires raw.start <= raw.end <= raw.next <= raw.end + 1 && CutOne(zLine[..], raw).Some?
    modifies zLine
    ensures Some(zLine[..]) == CutOne(old(zLine[..]), raw)
  {
    hide Unescape, Blit;
    if raw.end < raw.next {
      zLine[raw.end] := 0;
    }
    assert zLine[..] == if raw.end < raw.next then old(zLine[..])[raw.end := 0] else old(zLine[..]);
    if raw.escapes {
      ResolveBackslashes(zLine, raw.start);
    }
  }

  /** The loop over the spaces in front of an argument. */
  method PassSpaces(zLine: array<byte>, i: nat) returns (j: nat)
    requires i < zLine.Length && SkipSpaces(zLine[..], i) < zLine.Length
    ensures j == SkipSpaces(zLine[..], i)
  {
    j := i;
    while IsSpace(zLine[j])
      invariant i <= j < zLine.Length && SkipSpaces(zLine[..], j) == SkipSpaces(zLine[..], i)
      decreases zLine.Length - j
    {
      j := j + 1;
    }
  }

  /**
   * The tokenizer loop of do_meta_command, on any memory it does not run off: the memory and the argument vector it
   * leaves, also where resolving one argument has changed the text of the next.
   */
  method Tokenize(zLine: array<byte>) returns (azArg: seq<nat>)
    requires Cut(zLine[..], 1, MAX_ARGS).Some?
    modifies zLine
    ensures Some(Line(zLine[..], azArg)) == Cut(old(zLine[..]), 1, MAX_ARGS)
  {
    hide Cut, TokenIn, CutOne, SkipSpaces;
    azArg := [];
    ghost var line := Cut(zLine[..], 1, MAX_ARGS).value;
    var i := 1;
    CutStep(zLine[..], i, MAX_ARGS);
    assert azArg + line.starts == line.starts;
    while zLine[i] != 0 && |azArg| < MAX_ARGS
      invariant 0 <= i < zLine.Length && |azArg| <= MAX_ARGS
      invariant var rest := Cut(zLine[..], i, MAX_ARGS - |azArg|);
                rest.Some? && rest.value.z == line.z && azArg + rest.value.starts == line.starts
      decreases MAX_ARGS - |azArg|
    {
      CutStep(zLine[..], i, MAX_ARGS - |azArg|);
      var j := PassSpaces(zLine, i);
      if zLine[j] == 0 {
        assert azArg + [] == azArg;
        return;
      }
      var raw := ScanToken(zLine, j);
      FinishToken(zLine, raw);
      ghost var rest := Cut(zLine[..], raw.next, MAX_ARGS - |azArg| - 1).value;
      assert azArg + ([raw.start] + rest.starts) == azArg + [raw.start] + rest.starts;
      azArg := azArg + [raw.start];
      i := raw.next;
      CutStep(zLine[..], i, MAX_ARGS - |azArg|);
    }
    CutStep(zLine[..], i, MAX_ARGS - |azArg|);
    assert azArg + [] == azArg;
  }

  lemma {:induction false} CutStep(z: seq<byte>, i: nat, room: nat)
    requires Cut(z, i, room).Some?
    ensures i < |z|
    ensures var line := Cut(z, i, room).value;
            if z[i] == 0 || room == 0 then line == Line(z, [])
            else
              && var j := SkipSpaces(z, i);
              && j < |z|
              && if z[j] == 0 then line == Line(z, [])
                 else
                   && var raw := TokenIn(z, j);
                   && raw.end < |z| && CutOne(z, raw).Some?
                   && var rest := Cut(CutOne(z, raw).value, raw.next, room - 1);
                   rest.Some? && line == Line(rest.value.z, [raw.start] + rest.value.starts)
  {
    hide TokenIn, SkipSpaces, Unescape, Blit;
  }

  // ------------------------------------------------------- lines without surprises

  /** Argument `text`, terminated, at `start`. */
  ghost predicate HoldsText(z: seq<byte>, start: nat, text: seq<byte>) {
    start + |text| < |z| && z[start..start + |text|] == text && z[start + |text|] == 0
  }

  /** Each argument starts at its place in the line and is terminated there. */
  ghost predicate HoldTexts(z: seq<byte>, starts: seq<nat>, texts: seq<seq<byte>>) {
    |starts| == |texts| && forall k :: 0 <= k < |texts| ==> HoldsText(z, starts[k], texts[k])
  }

  /** From `i` on the memory holds the rest of line `s` with its terminator. */
  ghost predicate HoldsLine(z: seq<byte>, s: seq<byte>, i: nat) {
    i <= |s| < |z| && z[|s|] == 0 && NulFree(s) && forall k :: i <= k < |s| ==> z[k] == s[k]
  }

  lemma {:induction false} SpacesAlike(z: seq<byte>, s: seq<byte>, i: nat)
    requires HoldsLine(z, s, i)
    ensures SkipSpaces(z, i) == SkipSpaces(s, i)
    decreases |s| - i
  {
    if i < |s| && IsSpace(s[i]) {
      SpacesAlike(z, s, i + 1);
    }
  }

  lemma {:induction false} BreakAlike(z: seq<byte>, s: seq<byte>, i: nat)
    requires HoldsLine(z, s, i)
    ensures FindBreak(z, i) == FindSpace(s, i)
    decreases |s| - i
  {
    if i < |s| && !IsSpace(s[i]) {
      BreakAlike(z, s, i + 1);
    }
  }

  lemma {:induction false} DelimiterAlike(z: seq<byte>, s: seq<byte>, i: nat, d: byte)
    requires HoldsLine(z, s, i) && d != 0
    ensures FindDelimiter(z, i, d) == FindByte(s, i, d)
    decreases |s| - i
  {
    if i < |s| && s[i] != d {
      DelimiterAlike(z, s, i + 1, d);
    }
  }

  lemma {:induction false} TokenAlike(z: seq<byte>, s: seq<byte>, j: nat)
    requires HoldsLine(z, s, j) && j < |s| && !IsSpace(s[j])
    ensures TokenIn(z, j) == TokenAt(s, j)
  {
    if s[j] == SINGLE_QUOTE || s[j] == DOUBLE_QUOTE {
      DelimiterAlike(z, s, j + 1, s[j]);
    } else {
      BreakAlike(z, s, j + 1);
    }
  }

  /** Cutting an argument that resolves leaves its text, and changes nothing behind it or in front of it. */
  lemma {:induction false} CutHoldsText(z: seq<byte>, s: seq<byte>, raw: Raw, text: seq<byte>)
    requires raw.start <= raw.end <= |s| && HoldsLine(z, s, raw.start) && TokenText(s, raw) == Some(text)
    requires raw.next == if raw.end < |s| then raw.end + 1 else raw.end
    ensures CutOne(z, raw).Some?
    ensures var z' := CutOne(z, raw).value;
            && z'[..raw.start] == z[..raw.start] && HoldsText(z'[..raw.end + 1], raw.start, text)
            && HoldsLine(z', s, raw.next)
  {
    hide Resolve, Unescape, HoldsText, Blit, NulFree;
    var cut := if raw.end < raw.next then z[raw.end := 0] else z;
    CutBytes(z, s, raw, cut);
    if raw.escapes {
      ResolvesAlike(cut, raw.start, raw.end);
      ResolvedText(cut, raw, text);
    } else {
      PlainText(cut, raw, text);
    }
  }

  lemma {:induction false} CutBytes(z: seq<byte>, s: seq<byte>, raw: Raw, cut: seq<byte>)
    requires raw.start <= raw.end <= |s| && HoldsLine(z, s, raw.start)
    requires raw.next == if raw.end < |s| then raw.end + 1 else raw.end
    requires cut == if raw.end < raw.next then z[raw.end := 0] else z
    ensures |cut| == |z| && cut[raw.start..raw.end] == s[raw.start..raw.end] && cut[raw.end] == 0
    ensures (forall k :: raw.start <= k < raw.end ==> cut[k] != 0) && cut[..raw.start] == z[..raw.start]
    ensures forall k :: raw.end < k < |z| ==> cut[k] == z[k]
  {
  }

  lemma {:induction false} PlainText(z: seq<byte>, raw: Raw, text: seq<byte>)
    requires raw.start <= raw.end < |z| && z[raw.end] == 0 && z[raw.start..raw.end] == text
    ensures HoldsText(z[..raw.end + 1], raw.start, text)
  {
    assert z[..raw.end + 1][raw.start..raw.end] == text;
  }

  lemma {:induction false} ResolvedText(z: seq<byte>, raw: Raw, text: seq<byte>)
    requires raw.start <= raw.end < |z| && z[raw.end] == 0 && Resolve(z[raw.start..raw.end]) == Some(text)
    ensures raw.start + |text| <= raw.end
    ensures var z' := Blit(z, raw.start, text + [0]);
            && HoldsText(z'[..raw.end + 1], raw.start, text) && z'[..raw.start] == z[..raw.start]
            && z'[raw.end] == 0 && forall k :: raw.end < k < |z| ==> z'[k] == z[k]
  {
    hide Resolve, HoldsText;
    var z' := Blit(z, raw.start, text + [0]);
    BlitReads(z, raw.start, text + [0]);
    TextStands(z', raw.start, raw.end + 1, text);
  }

  lemma {:induction false} TextStands(z: seq<byte>, start: nat, lim: nat, text: seq<byte>)
    requires start + |text| < lim <= |z| && z[start..start + |text| + 1] == text + [0]
    ensures HoldsText(z[..lim], start, text)
  {
    assert z[..lim][start..start + |text|] == z[start..start + |text| + 1][..|text|] == text;
    assert z[start + |text|] == z[start..start + |text| + 1][|text|];
  }

  lemma {:induction false} TextKept(z: seq<byte>, z': seq<byte>, lim: nat, lim': nat, start: nat, text: seq<byte>)
    requires lim <= lim' <= |z| == |z'| && z'[..lim'] == z[..lim'] && HoldsText(z[..lim], start, text)
    ensures HoldsText(z', start, text)
  {
    assert forall k :: start <= k <= start + |text| ==> z[..lim][k] == z[..lim'][k] == z'[..lim'][k] == z'[k];
  }

  /**
   * Where the specified tokens exist, no argument's escapes end in a lone backslash, and then the loop leaves exactly
   * these tokens in place, whatever is in the memory behind the line.
   */
  lemma {:induction false} CutTokens(z: seq<byte>, s: seq<byte>, i: nat, room: nat)
    requires HoldsLine(z, s, i) && Tokens(s, i, room).Some?
    ensures Cut(z, i, room).Some?
    ensures var line := Cut(z, i, room).value;
            HoldTexts(line.z, line.starts, Tokens(s, i, room).value) && line.z[..i] == z[..i]
            && (i == |s| ==> line.z == z)
    decreases room
  {
    hide Tokens, TokenAt, TokenText, CutOne, HoldsText, HoldsLine, TokenIn, Resolve, SkipSpaces;
    LineLength(z, s, i);
    SpacesAlike(z, s, i);
    TokensStep(s, i, room);
    var j := SkipSpaces(s, i);
    LineByte(z, s, i, j);
    if j < |s| && room > 0 {
      TokenAlike(z, s, j);
      var raw, text := TokenAt(s, j), TokenText(s, TokenAt(s, j)).value;
      RawBounds(s, j);
      LineByte(z, s, i, raw.start);
      CutHoldsText(z, s, raw, text);
      var z' := CutOne(z, raw).value;
      CutTokens(z', s, raw.next, room - 1);
      var line := Cut(z', raw.next, room - 1).value;
      TextKept(z', line.z, raw.end + 1, if raw.end < |s| then raw.next else |z|, raw.start, text);
      FrontKept(z, z', line.z, i, raw);
    }
  }

  lemma {:induction false} FrontKept(z: seq<byte>, z': seq<byte>, z'': seq<byte>, i: nat, raw: Raw)
    requires i <= raw.start <= raw.end <= raw.next <= |z| == |z'| == |z''|
    requires z'[..raw.start] == z[..raw.start] && z''[..raw.next] == z'[..raw.next]
    ensures z''[..i] == z[..i]
  {
    assert z''[..i] == z''[..raw.next][..i] == z'[..raw.start][..i] == z[..i];
  }

  lemma {:induction false} LineLength(z: seq<byte>, s: seq<byte>, i: nat)
    requires HoldsLine(z, s, i)
    ensures i <= |s| < |z|
  {
  }

  lemma {:induction false} LineByte(z: seq<byte>, s: seq<byte>, i: nat, j: nat)
    requires HoldsLine(z, s, i) && i <= j <= |s|
    ensures HoldsLine(z, s, j) && j < |z| && (z[j] == 0 <==> j == |s|) && (z[i] == 0 <==> i == |s|)
  {
  }

  lemma {:induction false} RawBounds(s: seq<byte>, j: nat)
    requires j < |s| && !IsSpace(s[j])
    ensures var raw := TokenAt(s, j);
            j <= raw.start <= raw.end <= |s| && raw.next == if raw.end < |s| then raw.end + 1 else raw.end
  {
  }

  /** The shell reads its own C quoting, in place: printed arguments without a double quote are found again. */
  lemma {:induction false} PrintedLineRead(z: seq<byte>, cmd: seq<byte>, args: seq<seq<byte>>)
    requires PlainWord(cmd) && |args| <= 49 && HoldsLine(z, [46] + cmd + Joined(args), 1)
    requires forall k :: 0 <= k < |args| ==> NulFree(args[k]) && QuoteFree(args[k])
    ensures Cut(z, 1, MAX_ARGS).Some?
    ensures HoldTexts(Cut(z, 1, MAX_ARGS).value.z, Cut(z, 1, MAX_ARGS).value.starts, [cmd] + args)
  {
    hide Cut, Tokens, Joined, HoldsLine, HoldTexts, PlainWord, NulFree, QuoteFree;
    var s := [46] + cmd + Joined(args);
    ShellReadsItsOutput(cmd, args);
    LineLength(z, s, 1);
    CutTokens(z, s, 1, MAX_ARGS);
  }

  /** Arguments in single quotes without one inside are found in place as they are, backslashes included. */
  lemma {:induction false} SingleQuotesRead(z: seq<byte>, cmd: seq<byte>, args: seq<seq<byte>>)
    requires PlainWord(cmd) && |args| <= 49 && HoldsLine(z, [46] + cmd + SingleQuoted(args), 1)
    requires forall k :: 0 <= k < |args| ==> SingleFree(args[k])
    ensures Cut(z, 1, MAX_ARGS).Some?
    ensures HoldTexts(Cut(z, 1, MAX_ARGS).value.z, Cut(z, 1, MAX_ARGS).value.starts, [cmd] + args)
  {
    hide Cut, Tokens, SingleQuoted, HoldsLine, HoldTexts, PlainWord, SingleFree;
    var s := [46] + cmd + SingleQuoted(args);
    SingleQuotesKeep(cmd, args);
    LineLength(z, s, 1);
    CutTokens(z, s, 1, MAX_ARGS);
  }

  // ------------------------------------------------------------------ an instance

  /** The line `.cd "\n\" xyz`, with its terminator. */
  function EatingLine(): seq<byte> { [46, 99, 100, 32, 34, 92, 110, 92, 34, 32, 120, 121, 122, 0] }

  /** The same once the command is cut. */
  function CommandCut(): seq<byte> { [46, 99, 100, 0, 34, 92, 110, 92, 34, 32, 120, 121, 122, 0] }

  /** And once the quoted argument is resolved: the rest of the line has moved two characters to the front. */
  function ArgumentCut(): seq<byte> { [46, 99, 100, 0, 34, 10, 0, 32, 120, 121, 122, 0, 122, 0] }

  lemma {:induction false} Puts(z: seq<byte>, i: nat, n: nat, out: seq<byte>)
    requires i < |z| && z[i] != 0 && out != [] && EscapeIn(z, i) == Some((out[0], n))
    requires Unescape(z, i + n).Some? && Unescape(z, i + n).value == out[1..]
    ensures Unescape(z, i) == Some(out)
  {
    hide EscapeIn;
    assert [out[0]] + out[1..] == out;
  }

  lemma {:induction false} Starts(z: seq<byte>, i: nat, room: nat, z': seq<byte>, line: Line)
    requires i < |z| && z[i] != 0 && room > 0
    requires var j := SkipSpaces(z, i);
             && j < |z| && z[j] != 0
             && var raw := TokenIn(z, j);
             && CutOne(z, raw) == Some(z')
             && var rest := Cut(z', raw.next, room - 1);
             rest.Some? && rest.value.z == line.z && [raw.start] + rest.value.starts == line.starts
    ensures Cut(z, i, room) == Some(line)
  {
    hide SkipSpaces, TokenIn, CutOne;
  }

  lemma {:induction false} CutCommand()
    ensures TokenIn(EatingLine(), 1) == Raw(1, 3, 4, true) && SkipSpaces(EatingLine(), 1) == 1
    ensures CutOne(EatingLine(), Raw(1, 3, 4, true)) == Some(CommandCut())
  {
    hide Unescape, EscapeIn;
    var z, cut := EatingLine(), CommandCut();
    assert FindBreak(z, 3) == 3 && FindBreak(z, 2) == 3;
    CommandResolved(cut);
    assert z[3 := 0] == cut && Blit(cut, 1, [99, 100] + [0]) == cut;
  }

  lemma {:induction false} CommandResolved(cut: seq<byte>)
    requires cut == CommandCut()
    ensures Unescape(cut, 1) == Some([99, 100])
  {
    hide Unescape;
    UnescapeEnd(cut, 3);
    Puts(cut, 2, 1, [100]);
    Puts(cut, 1, 1, [99, 100]);
  }

  lemma {:induction false} ArgumentScanned()
    ensures TokenIn(CommandCut(), 4) == Raw(5, 8, 9, true) && SkipSpaces(CommandCut(), 4) == 4
  {
    var z := CommandCut();
    assert FindDelimiter(z, 8, 34) == 8 && FindDelimiter(z, 7, 34) == 8 && FindDelimiter(z, 6, 34) == 8;
    assert FindDelimiter(z, 5, 34) == 8;
  }

  lemma {:induction false} ArgumentResolved(cut: seq<byte>)
    requires cut == CommandCut()[8 := 0]
    ensures Unescape(cut, 5) == Some([10, 0, 32, 120, 121, 122])
  {
    hide Unescape;
    UnescapeEnd(cut, 13);
    Puts(cut, 12, 1, [122]);
    Puts(cut, 11, 1, [121, 122]);
    Puts(cut, 10, 1, [120, 121, 122]);
    Puts(cut, 9, 1, [32, 120, 121, 122]);
    Puts(cut, 7, 2, [0, 32, 120, 121, 122]);
    Puts(cut, 5, 2, [10, 0, 32, 120, 121, 122]);
  }

  lemma {:induction false} UnescapeEnd(z: seq<byte>, i: nat)
    requires i < |z| && z[i] == 0
    ensures Unescape(z, i) == Some([])
  {
  }

  lemma {:induction false} CutArgument()
    ensures CutOne(CommandCut(), Raw(5, 8, 9, true)) == Some(ArgumentCut())
  {
    hide Unescape;
    var cut := CommandCut()[8 := 0];
    ArgumentResolved(cut);
    assert Blit(cut, 5, [10, 0, 32, 120, 121, 122] + [0]) == ArgumentCut();
  }

  lemma {:induction false} CutRest()
    ensures TokenIn(ArgumentCut(), 9) == Raw(9, 11, 11, true) && SkipSpaces(ArgumentCut(), 9) == 9
    ensures CutOne(ArgumentCut(), Raw(9, 11, 11, true)) == Some(ArgumentCut())
  {
    var z := ArgumentCut();
    assert FindBreak(z, 11) == 11 && FindBreak(z, 10) == 11;
    UnescapeEnd(z, 11);
    Puts(z, 10, 1, [122]);
    Puts(z, 9, 1, [121, 122]);
    assert Blit(z, 9, [121, 122] + [0]) == z;
  }

  lemma {:induction false} CutEnds(z: seq<byte>, i: nat, room: nat)
    requires i < |z| && z[i] == 0
    ensures Cut(z, i, room) == Some(Line(z, []))
  {
  }

  /** A lone backslash in front of the closing quote costs the next argument its first letter: "yz" is left of it. */
  lemma {:induction false} EatsArgument()
    ensures Cut(EatingLine(), 1, MAX_ARGS) == Some(Line(ArgumentCut(), [1, 5, 9]))
    ensures HoldsText(ArgumentCut(), 9, [121, 122])
  {
    hide TokenIn, SkipSpaces, CutOne, Cut;
    CutCommand();
    ArgumentScanned();
    CutArgument();
    CutRest();
    CutEnds(ArgumentCut(), 11, MAX_ARGS - 3);
    Starts(ArgumentCut(), 9, MAX_ARGS - 2, ArgumentCut(), Line(ArgumentCut(), [9]));
    Starts(CommandCut(), 4, MAX_ARGS - 1, ArgumentCut(), Line(ArgumentCut(), [5, 9]));
    Starts(EatingLine(), 1, MAX_ARGS, CommandCut(), Line(ArgumentCut(), [1, 5, 9]));
  }
}
