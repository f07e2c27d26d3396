/** Whole-input theorems about the STOMP codec: exact round trip, stability of parsing when more
    bytes arrive, and what every parsed frame satisfies. */
module StompProofs {
  import opened Prelude
  import opened Bytes
  import opened Stomp

  // ------------------------------------------------------------- escaping

  lemma {:induction false} UnescapeEscape(s: Bytes)
    ensures Unescape(Escape(s)) == s
  {
    if s != [] {
      var e, t := EscapeByte(s[0]), Escape(s[1..]);
      UnescapeEscape(s[1..]);
      assert (e + t)[|e|..] == t;
      assert (e + t)[..|e|] == e;
    }
  }

  lemma {:induction false} EscapeClean(s: Bytes)
    ensures LF !in Escape(s) && CR !in Escape(s) && COLON !in Escape(s)
  {
    if s != [] {
      EscapeClean(s[1..]);
    }
  }

  lemma {:induction false} EscapeConcat(a: Bytes, b: Bytes)
    ensures Escape(a + b) == Escape(a) + Escape(b)
  {
    if a == [] {
      assert a + b == b;
    } else {
      assert (a + b)[1..] == a[1..] + b;
      EscapeConcat(a[1..], b);
    }
  }

  lemma {:induction false} EscapeHigh(s: Bytes)
    requires forall i :: 0 <= i < |s| ==> s[i] >= 0x80
    ensures Escape(s) == s
  {
    if s != [] {
      EscapeHigh(s[1..]);
    }
  }

  /** Escaping a `String` gives a `String`: only ASCII characters are rewritten. */
  lemma {:induction false} EscapeValid(s: Bytes)
    requires ValidUtf8(s)
    ensures ValidUtf8(Escape(s))
    decreases |s|
  {
    if s != [] {
      var n := CharLen(s);
      var c, t := s[..n], s[n..];
      assert s == c + t;
      EscapeConcat(c, t);
      EscapeValid(t);
      EscapeCharValid(s);
      Utf8Concat(Escape(c), Escape(t));
    }
  }

  lemma EscapeCharValid(s: Bytes)
    requires CharLen(s) > 0
    ensures ValidUtf8(Escape(s[..CharLen(s)]))
  {
    var c := s[..CharLen(s)];
    if |c| == 1 {
      assert Escape(c) == EscapeByte(c[0]) + Escape(c[1..]);
      AsciiIsUtf8(Escape(c));
    } else {
      EscapeHigh(c);
      WholeChar(s);
    }
  }

  /** The first character of a string is itself a valid string. */
  lemma WholeChar(s: Bytes)
    requires CharLen(s) > 0
    ensures CharLen(s[..CharLen(s)]) == CharLen(s) && ValidUtf8(s[..CharLen(s)])
  {
    var n := CharLen(s);
    var c := s[..n];
    assert forall i :: 0 <= i < n ==> c[i] == s[i];
    assert c[n..] == [];
  }

  /** `Unescape` copies any bytes that are not backslashes. */
  lemma {:induction false} UnescapeCopies(c: Bytes, t: Bytes)
    requires BACKSLASH !in c
    ensures Unescape(c + t) == c + Unescape(t)
  {
    if c == [] {
      assert c + t == t;
    } else {
      assert (c + t)[1..] == c[1..] + t;
      UnescapeCopies(c[1..], t);
    }
  }

  /** Unescaping a `String` gives a `String`, unknown escapes included. */
  lemma {:induction false} UnescapeValid(s: Bytes)
    requires ValidUtf8(s)
    ensures ValidUtf8(Unescape(s))
    decreases |s|
  {
    if s == [] {
    } else if s[0] != BACKSLASH {
      var n := CharLen(s);
      WholeChar(s);
      assert s == s[..n] + s[n..];
      UnescapeCopies(s[..n], s[n..]);
      UnescapeValid(s[n..]);
      Utf8Concat(s[..n], Unescape(s[n..]));
    } else if |s| > 1 {
      UnescapeValidPair(s);
    } else {
      AsciiIsUtf8([BACKSLASH]);
    }
  }

  /** The case of `UnescapeValid` where a backslash is followed by a character, of any length. */
  lemma {:induction false} UnescapeValidPair(s: Bytes)
    requires ValidUtf8(s) && |s| > 1 && s[0] == BACKSLASH
    ensures ValidUtf8(Unescape(s))
    decreases |s|, 0
  {
    var t := s[1..];
    var n := CharLen(t);
    UnescapeValid(t[n..]);
    assert s == [BACKSLASH, t[0]] + t[1..n] + t[n..];
    PairSplits(t[0], t[1..n], t[n..]);
    PairHead(t);
    Utf8Concat(UnescapePair(t[0]) + t[1..n], Unescape(t[n..]));
  }

  lemma PairSplits(b: Byte, mid: Bytes, rest: Bytes)
    requires BACKSLASH !in mid
    ensures Unescape([BACKSLASH, b] + mid + rest) == UnescapePair(b) + mid + Unescape(rest)
  {
    var s := [BACKSLASH, b] + mid + rest;
    assert s[2..] == mid + rest;
    UnescapeCopies(mid, rest);
  }

  lemma PairHead(t: Bytes)
    requires CharLen(t) > 0
    ensures ValidUtf8(UnescapePair(t[0]) + t[1..CharLen(t)])
  {
    var n := CharLen(t);
    if n == 1 {
      AsciiIsUtf8(UnescapePair(t[0]) + t[1..n]);
    } else {
      assert UnescapePair(t[0]) + t[1..n] == [BACKSLASH] + t[..n];
      WholeChar(t);
      AsciiIsUtf8([BACKSLASH]);
      Utf8Concat([BACKSLASH], t[..n]);
    }
  }

  // -------------------------------------------- what every parsed frame satisfies

  /** The body agrees with the headers: the first content-length denotes its length, or there is
      none and the body has no NUL. */
  predicate BodyFits(f: Frame) {
    match Lookup(f.headers, CONTENT_LENGTH)
    case Some(v) => ParseUsize(v) == Some(|f.body|)
    case None => NUL !in f.body
  }

  predicate LengthReadable(hs: seq<Header>) {
    match Lookup(hs, CONTENT_LENGTH)
    case Some(v) => ParseUsize(v).Some?
    case None => true
  }

  lemma EntryTyped(text: Bytes)
    requires ParseHeader(text).Entry?
    ensures ValidUtf8(ParseHeader(text).h.key) && ValidUtf8(ParseHeader(text).h.value)
  {
    var colon := IndexOf(COLON, text).value;
    UnescapeValid(text[..colon]);
    UnescapeValid(text[colon + 1..]);
  }

  lemma {:induction false} HeadersSound(c: Bytes, acc: seq<Header>)
    requires TypedHeaders(acc) && LengthReadable(acc)
    ensures var r := ParseHeaders(c, acc);
            r.HeadersDone? ==> TypedHeaders(r.headers) && LengthReadable(r.headers)
    decreases |c|
  {
    match NextLine(c)
    case None =>
    case Some(Line(text, rest)) =>
      if text != [] && ParseHeader(text).Entry? {
        var h := ParseHeader(text).h;
        EntryTyped(text);
        LookupAppend(acc, h, CONTENT_LENGTH);
        if LengthReadable(acc + [h]) {
          HeadersSound(rest, acc + [h]);
        }
      }
  }

  /** A parsed frame is well typed, its command is not empty and holds no line feed, its body
      agrees with its headers, and command and body were all paid for by consumed bytes. */
  lemma ParsedSound(input: Bytes)
    requires ParseFrame(input).Parsed?
    ensures var r := ParseFrame(input);
            && r.frame.Typed() && BodyFits(r.frame)
            && r.frame.command != [] && LF !in r.frame.command
            && |r.frame.command| + |r.frame.body| + 3 + |r.rest| <= |SkipHeartbeats(input)|
  {
    var c := SkipHeartbeats(input);
    LineSound(c);
    var line := NextLine(c).value;
    HeadersSound(line.rest, []);
    var block := ParseHeaders(line.rest, []);
    BodySound(line.text, block.headers, block.rest);
  }

  lemma LineSound(c: Bytes)
    requires NextLine(c).Some?
    ensures LF !in NextLine(c).value.text
  {
    var e := IndexOf(LF, c).value;
    var text := NextLine(c).value.text;
    assert forall i :: 0 <= i < |text| ==> text[i] == c[..e][i];
  }

  lemma BodySound(command: Bytes, headers: seq<Header>, c: Bytes)
    requires LengthReadable(headers) && ParseBody(command, headers, c).Parsed?
    ensures var r := ParseBody(command, headers, c);
            r.frame.command == command && r.frame.headers == headers && BodyFits(r.frame)
  {
  }

  /** The "empty command line" error of the parser can never be reported. */
  lemma EmptyCommandUnreachable(input: Bytes)
    ensures ParseFrame(input) != Failed(Malformed("empty command line"))
  {
    SkippedStart(input);
    var c := SkipHeartbeats(input);
    if c != [] && NextLine(c).Some? {
      CommandNotEmpty(c);
      HeaderErrors(NextLine(c).value.rest, []);
    }
  }

  predicate NoHeartbeatFirst(c: Bytes) {
    c != [] ==> c[0] != LF && !(|c| > 1 && c[0] == CR && c[1] == LF)
  }

  lemma CommandNotEmpty(c: Bytes)
    requires NoHeartbeatFirst(c) && NextLine(c).Some?
    ensures NextLine(c).value.text != []
  {
    var e := IndexOf(LF, c).value;
    assert e > 0;
    if e == 1 {
      assert c[..e] == [c[0]];
    }
  }

  lemma {:induction false} SkippedStart(s: Bytes)
    ensures NoHeartbeatFirst(SkipHeartbeats(s))
    decreases |s|
  {
    if |s| >= 1 && s[0] == LF {
      SkippedStart(s[1..]);
    } else if |s| >= 2 && s[0] == CR && s[1] == LF {
      SkippedStart(s[2..]);
    }
  }

  lemma {:induction false} HeaderErrors(c: Bytes, acc: seq<Header>)
    ensures ParseHeaders(c, acc) != HeadersFailed(Malformed("empty command line"))
    decreases |c|
  {
    match NextLine(c)
    case None =>
    case Some(Line(text, rest)) =>
      if text != [] && ParseHeader(text).Entry? {
        HeaderErrors(rest, acc + [ParseHeader(text).h]);
      }
      assert "header line missing ':'"[0] != "empty command line"[0];
  }

  lemma {:induction false} SkipSuffix(s: Bytes)
    ensures Suffix(SkipHeartbeats(s), s)
    decreases |s|
  {
    if |s| >= 1 && s[0] == LF {
      SkipSuffix(s[1..]);
      SuffixTrans(SkipHeartbeats(s), s[1..], s);
    } else if |s| >= 2 && s[0] == CR && s[1] == LF {
      SkipSuffix(s[2..]);
      SuffixTrans(SkipHeartbeats(s), s[2..], s);
    }
  }

  lemma {:induction false} HeadersSuffix(c: Bytes, acc: seq<Header>)
    ensures ParseHeaders(c, acc).HeadersDone? ==> Suffix(ParseHeaders(c, acc).rest, c)
    decreases |c|
  {
    if ParseHeaders(c, acc).HeadersDone? {
      var line := NextLine(c).value;
      assert Suffix(line.rest, c);
      if line.text != [] {
        HeadersSuffix(line.rest, acc + [ParseHeader(line.text).h]);
        SuffixTrans(ParseHeaders(c, acc).rest, line.rest, c);
      }
    }
  }

  /** Where the parts of a parsed frame come from. */
  lemma ParsedParts(input: Bytes)
    requires ParseFrame(input).Parsed?
    ensures NextLine(SkipHeartbeats(input)).Some?
    ensures var line := NextLine(SkipHeartbeats(input)).value;
            var block := ParseHeaders(line.rest, []);
            block.HeadersDone? && ParseFrame(input) == ParseBody(line.text, block.headers, block.rest)
  {
  }

  lemma LineSuffix(c: Bytes)
    requires NextLine(c).Some?
    ensures Suffix(NextLine(c).value.rest, c)
  {
  }

  /** The remainder of a parse is the unread end of the input. */
  lemma ParsedSuffix(input: Bytes)
    requires ParseFrame(input).Parsed?
    ensures Suffix(ParseFrame(input).rest, input)
  {
    var c := SkipHeartbeats(input);
    ParsedParts(input);
    var line := NextLine(c).value;
    var block := ParseHeaders(line.rest, []);
    BodySuffix(line.text, block.headers, block.rest);
    HeadersSuffix(line.rest, []);
    LineSuffix(c);
    SkipSuffix(input);
    SuffixChain(ParseFrame(input).rest, block.rest, line.rest, c, input);
  }

  lemma SuffixChain(a: Bytes, b: Bytes, c: Bytes, d: Bytes, e: Bytes)
    requires Suffix(a, b) && Suffix(b, c) && Suffix(c, d) && Suffix(d, e)
    ensures Suffix(a, e)
  {
    SuffixTrans(a, b, c);
    SuffixTrans(a, c, d);
    SuffixTrans(a, d, e);
  }

  lemma BodySuffix(command: Bytes, headers: seq<Header>, c: Bytes)
    requires ParseBody(command, headers, c).Parsed?
    ensures Suffix(ParseBody(command, headers, c).rest, c)
  {
  }

  // -------------------------------------------------- stability under extension

  lemma NextLineExtend(c: Bytes, x: Bytes)
    requires NextLine(c).Some?
    ensures NextLine(c + x) == Some(Line(NextLine(c).value.text, NextLine(c).value.rest + x))
  {
    var e := IndexOf(LF, c).value;
    assert (c + x)[..e] == c[..e];
    IndexOfUnique(LF, c + x, e);
    assert (c + x)[e + 1..] == c[e + 1..] + x;
  }

  function ExtendBlock(r: HeaderBlock, x: Bytes): HeaderBlock {
    if r.HeadersDone? then HeadersDone(r.headers, r.rest + x) else r
  }

  function ExtendResult(r: ParseResult, x: Bytes): ParseResult {
    if r.Parsed? then Parsed(r.frame, r.rest + x) else r
  }

  lemma {:induction false} HeadersExtend(c: Bytes, acc: seq<Header>, x: Bytes)
    requires !ParseHeaders(c, acc).MoreHeaders?
    ensures ParseHeaders(c + x, acc) == ExtendBlock(ParseHeaders(c, acc), x)
    decreases |c|
  {
    NextLineExtend(c, x);
    var line := NextLine(c).value;
    if line.text != [] && ParseHeader(line.text).Entry? {
      var h := ParseHeader(line.text).h;
      if !ParseHeaders(line.rest, acc + [h]).MoreHeaders? {
        HeadersExtend(line.rest, acc + [h], x);
      }
    }
  }

  lemma BodyExtend(command: Bytes, headers: seq<Header>, c: Bytes, x: Bytes)
    requires !ParseBody(command, headers, c).Incomplete?
    ensures ParseBody(command, headers, c + x) == ExtendResult(ParseBody(command, headers, c), x)
  {
    match DeclaredLength(headers)
    case Some(n) =>
      assert (c + x)[..n] == c[..n] && (c + x)[n + 1..] == c[n + 1..] + x;
    case None =>
      var i := IndexOf(NUL, c).value;
      assert (c + x)[..i] == c[..i] && (c + x)[i + 1..] == c[i + 1..] + x;
      IndexOfUnique(NUL, c + x, i);
  }

  lemma SkipNone(c: Bytes)
    requires NoHeartbeatFirst(c)
    ensures SkipHeartbeats(c) == c
  {
  }

  lemma {:induction false} SkipExtend(s: Bytes, x: Bytes)
    requires NextLine(SkipHeartbeats(s)).Some?
    ensures SkipHeartbeats(s + x) == SkipHeartbeats(s) + x
    decreases |s|
  {
    if |s| >= 1 && s[0] == LF {
      assert (s + x)[1..] == s[1..] + x;
      SkipExtend(s[1..], x);
    } else if |s| >= 2 && s[0] == CR && s[1] == LF {
      assert (s + x)[2..] == s[2..] + x;
      SkipExtend(s[2..], x);
    } else {
      var c := s + x;
      assert s[IndexOf(LF, s).value] == LF;
      assert |s| >= 2 && c[0] == s[0] && c[1] == s[1];
      SkipNone(c);
    }
  }

  /** Parsing is stable: once a prefix of the stream parses or fails, every longer input gives the
      same frame (the extra bytes stay in the remainder) or the same error. */
  lemma ParseExtend(input: Bytes, x: Bytes)
    requires !ParseFrame(input).Incomplete?
    ensures ParseFrame(input + x) == ExtendResult(ParseFrame(input), x)
  {
    var c := SkipHeartbeats(input);
    var line := NextLine(c).value;
    SkipExtend(input, x);
    NextLineExtend(c, x);
    if line.text != [] && ValidUtf8(line.text) {
      HeadersExtend(line.rest, [], x);
      var block := ParseHeaders(line.rest, []);
      if block.HeadersDone? {
        BodyExtend(line.text, block.headers, block.rest, x);
      }
    }
  }

  // -------------------------------------------------------------- round trip

  /** Bytes a peer may send between frames: any run of LF and CR LF. */
  predicate Heartbeats(hb: Bytes)
    decreases |hb|
  {
    || hb == []
    || (hb[0] == LF && Heartbeats(hb[1..]))
    || (|hb| > 1 && hb[0] == CR && hb[1] == LF && Heartbeats(hb[2..]))
  }

  lemma {:induction false} SkipLeading(hb: Bytes, x: Bytes)
    requires Heartbeats(hb)
    ensures SkipHeartbeats(hb + x) == SkipHeartbeats(x)
    decreases |hb|
  {
    if hb == [] {
      assert hb + x == x;
    } else if hb[0] == LF {
      assert (hb + x)[1..] == hb[1..] + x;
      SkipLeading(hb[1..], x);
    } else {
      assert (hb + x)[2..] == hb[2..] + x;
      SkipLeading(hb[2..], x);
    }
  }

  lemma NextLineOf(text: Bytes, rest: Bytes)
    requires LF !in text
    ensures NextLine(text + [LF] + rest) == Some(Line(StripCr(text), rest))
  {
    var c := text + [LF] + rest;
    assert c[..|text|] == text && c[|text| + 1..] == rest;
    IndexOfUnique(LF, c, |text|);
  }

  function HeaderText(h: Header): Bytes {
    Escape(h.key) + [COLON] + Escape(h.value)
  }

  lemma HeaderTextParses(h: Header)
    requires ValidUtf8(h.key) && ValidUtf8(h.value)
    ensures ParseHeader(HeaderText(h)) == Entry(h)
    ensures LF !in HeaderText(h) && HeaderText(h) != [] && StripCr(HeaderText(h)) == HeaderText(h)
    ensures NoHeartbeatFirst(HeaderText(h) + [LF]) && CR !in HeaderText(h)
  {
    var k, v := Escape(h.key), Escape(h.value);
    EscapeClean(h.key);
    EscapeClean(h.value);
    EscapeValid(h.key);
    EscapeValid(h.value);
    UnescapeEscape(h.key);
    UnescapeEscape(h.value);
    var line := HeaderText(h);
    assert line[..|k|] == k && line[|k| + 1..] == v;
    IndexOfUnique(COLON, line, |k|);
  }

  lemma {:induction false} HeadersRoundTrip(hs: seq<Header>, acc: seq<Header>, rest: Bytes)
    requires TypedHeaders(hs) && LengthReadable(acc) && LengthReadable(acc + hs)
    ensures ParseHeaders(HeaderBytes(hs) + [LF] + rest, acc) == HeadersDone(acc + hs, rest)
    decreases |hs|
  {
    if hs == [] {
      NoHeaders(acc, rest);
      assert acc + hs == acc;
    } else {
      var h, tail := hs[0], HeaderBytes(hs[1..]) + [LF] + rest;
      FirstHeader(hs, rest);
      MoveFirst(acc, hs);
      ReadablePrefix(acc + [h], hs[1..]);
      HeaderStep(acc, h, tail);
      HeadersRoundTrip(hs[1..], acc + [h], rest);
    }
  }

  lemma NoHeaders(acc: seq<Header>, rest: Bytes)
    ensures ParseHeaders([] + [LF] + rest, acc) == HeadersDone(acc, rest)
  {
    NextLineOf([], rest);
  }

  lemma MoveFirst(acc: seq<Header>, hs: seq<Header>)
    requires hs != []
    ensures acc + hs == (acc + [hs[0]]) + hs[1..]
  {
  }

  lemma HeaderStep(acc: seq<Header>, h: Header, tail: Bytes)
    requires ValidUtf8(h.key) && ValidUtf8(h.value)
    requires LengthReadable(acc) && LengthReadable(acc + [h])
    ensures ParseHeaders(HeaderText(h) + [LF] + tail, acc) == ParseHeaders(tail, acc + [h])
  {
    HeaderTextParses(h);
    NextLineOf(HeaderText(h), tail);
    LookupAppend(acc, h, CONTENT_LENGTH);
  }

  lemma FirstHeader(hs: seq<Header>, rest: Bytes)
    requires hs != []
    ensures HeaderBytes(hs) + [LF] + rest == HeaderText(hs[0]) + [LF] + (HeaderBytes(hs[1..]) + [LF] + rest)
  {
  }

  lemma {:induction false} ReadablePrefix(a: seq<Header>, b: seq<Header>)
    requires LengthReadable(a + b)
    ensures LengthReadable(a)
  {
    if a != [] {
      assert (a + b)[0] == a[0] && (a + b)[1..] == a[1..] + b;
      if a[0].key != CONTENT_LENGTH {
        ReadablePrefix(a[1..], b);
      }
    }
  }

  lemma BodyRoundTrip(f: Frame, tail: Bytes)
    requires BodyFits(f)
    ensures ParseBody(f.command, f.headers, f.body + [NUL] + tail) == Parsed(f, tail)
  {
    var c := f.body + [NUL] + tail;
    var n := |f.body|;
    assert c[..n] == f.body && c[n] == NUL && c[n + 1..] == tail;
    if Lookup(f.headers, CONTENT_LENGTH).None? {
      IndexOfUnique(NUL, c, n);
    }
  }

  /** A command line that comes back as it was printed. */
  predicate PrintableCommand(c: Bytes) {
    c != [] && LF !in c && c[|c| - 1] != CR
  }

  /** What follows the command line of a printed frame. */
  function AfterCommand(f: Frame, tail: Bytes): Bytes {
    HeaderBytes(f.headers) + [LF] + (f.body + [NUL] + tail)
  }

  lemma PrintedParts(f: Frame, hb: Bytes, tail: Bytes)
    ensures hb + ToBytes(f) + tail == hb + (f.command + [LF] + AfterCommand(f, tail))
  {
    var h, b := HeaderBytes(f.headers) + [LF], f.body + [NUL];
    assert h + b + tail == h + (b + tail);
    assert hb + (f.command + [LF] + (h + b)) + tail == hb + (f.command + [LF] + (h + b + tail));
  }

  lemma AfterCommandParses(f: Frame, tail: Bytes)
    requires f.Typed() && BodyFits(f)
    ensures ParseHeaders(AfterCommand(f, tail), []) == HeadersDone(f.headers, f.body + [NUL] + tail)
  {
    assert [] + f.headers == f.headers;
    HeadersRoundTrip(f.headers, [], f.body + [NUL] + tail);
  }

  lemma RoundTripForward(f: Frame, hb: Bytes, tail: Bytes)
    requires Sendable(f) && Heartbeats(hb)
    ensures ParseFrame(hb + ToBytes(f) + tail) == Parsed(f, tail)
  {
    var rest := AfterCommand(f, tail);
    var c := f.command + [LF] + rest;
    PrintedParts(f, hb, tail);
    SkipLeading(hb, c);
    CommandLine(f.command, rest);
    AfterCommandParses(f, tail);
    ParseByParts(hb + c, c, f.command, rest, f.headers, f.body + [NUL] + tail);
    BodyRoundTrip(f, tail);
  }

  lemma ParseByParts(input: Bytes, c: Bytes, command: Bytes, rest: Bytes, headers: seq<Header>, rest': Bytes)
    requires SkipHeartbeats(input) == c && NextLine(c) == Some(Line(command, rest))
    requires command != [] && ValidUtf8(command) && ParseHeaders(rest, []) == HeadersDone(headers, rest')
    ensures ParseFrame(input) == ParseBody(command, headers, rest')
  {
  }

  lemma CommandLine(command: Bytes, rest: Bytes)
    requires command != [] && LF !in command && command != [CR]
    ensures var c := command + [LF] + rest;
            SkipHeartbeats(c) == c && NextLine(c) == Some(Line(StripCr(command), rest))
  {
    var c := command + [LF] + rest;
    assert c[0] == command[0] && (|command| > 1 ==> c[1] == command[1]);
    SkipNone(c);
    NextLineOf(command, rest);
  }

  /** A command that ends in CR never comes back: the parser strips it, or, when the command is a
      lone CR, takes the line for a heartbeat. */
  lemma FinalCrLost(f: Frame, hb: Bytes, tail: Bytes)
    requires f.Typed() && Heartbeats(hb) && LF !in f.command
    requires f.command != [] && f.command[|f.command| - 1] == CR
    ensures ParseFrame(hb + ToBytes(f) + tail) != Parsed(f, tail)
  {
    var rest := AfterCommand(f, tail);
    var c := f.command + [LF] + rest;
    PrintedParts(f, hb, tail);
    SkipLeading(hb, c);
    if |f.command| > 1 {
      CommandLine(f.command, rest);
      if ParseFrame(hb + c).Parsed? {
        CommandComesFromLine(hb + c);
      }
    } else {
      assert Heartbeats(f.command + [LF]) by {
        assert (f.command + [LF])[2..] == [];
      }
      SkipLeading(f.command + [LF], rest);
      LoneCr(f, hb + c, tail);
    }
  }

  lemma CommandComesFromLine(input: Bytes)
    requires ParseFrame(input).Parsed?
    ensures NextLine(SkipHeartbeats(input)).Some?
    ensures ParseFrame(input).frame.command == NextLine(SkipHeartbeats(input)).value.text
  {
    ParsedParts(input);
  }

  lemma LoneCr(f: Frame, input: Bytes, tail: Bytes)
    requires f.Typed() && f.command == [CR]
    requires SkipHeartbeats(input) == SkipHeartbeats(AfterCommand(f, tail))
    ensures ParseFrame(input) != Parsed(f, tail)
  {
    if ParseFrame(input) == Parsed(f, tail) {
      if f.headers == [] {
        assert AfterCommand(f, tail)[0] == LF;
        assert |SkipHeartbeats(AfterCommand(f, tail))| <= |f.body| + 1 + |tail|;
        ParsedSound(input);
      } else {
        var h := f.headers[0];
        CommandComesFromLine(input);
        FirstHeader(f.headers, f.body + [NUL] + tail);
        HeaderTextParses(h);
        CommandLine(HeaderText(h), HeaderBytes(f.headers[1..]) + [LF] + (f.body + [NUL] + tail));
      }
    }
  }

  /** A typed frame the other end can read back: see `RoundTrip`. */
  predicate Sendable(f: Frame) {
    f.Typed() && PrintableCommand(f.command) && BodyFits(f)
  }

  /** The exact round trip: a printed frame, after any heartbeats and before any further bytes,
      comes back with those bytes as remainder if and only if its command is not empty, holds no
      line feed and does not end in CR, and its body agrees with its headers. Header keys and
      values are arbitrary strings. */
  lemma RoundTrip(f: Frame, hb: Bytes, tail: Bytes)
    requires f.Typed() && Heartbeats(hb)
    ensures ParseFrame(hb + ToBytes(f) + tail) == Parsed(f, tail)
            <==> PrintableCommand(f.command) && BodyFits(f)
  {
    if PrintableCommand(f.command) && BodyFits(f) {
      RoundTripForward(f, hb, tail);
    } else if LF !in f.command && f.command != [] && f.command[|f.command| - 1] == CR {
      FinalCrLost(f, hb, tail);
    } else if ParseFrame(hb + ToBytes(f) + tail) == Parsed(f, tail) {
      OnlyFitting(hb + ToBytes(f) + tail, f, tail);
    }
  }

  lemma OnlyFitting(input: Bytes, f: Frame, tail: Bytes)
    requires ParseFrame(input) == Parsed(f, tail)
    ensures f.command != [] && LF !in f.command && BodyFits(f)
  {
    ParsedSound(input);
  }

  // ------------------------------------------------------- streams of frames

  datatype Drained = Drained(frames: seq<Frame>, end: ParseResult, rest: Bytes)

  /** Every frame a reader takes from `input`, and where it stops. */
  function Drain(input: Bytes): Drained
    decreases |input|
  {
    match ParseFrame(input)
    case Parsed(f, rest) =>
      var d := Drain(rest);
      Drained([f] + d.frames, d.end, d.rest)
    case r => Drained([], r, input)
  }

  /** Reading `whole` gives the frames `fs`, then whatever reading `tail` alone gives. */
  ghost predicate DrainsTo(whole: Bytes, fs: seq<Frame>, tail: Bytes) {
    Drain(whole) == Drained(fs + Drain(tail).frames, Drain(tail).end, Drain(tail).rest)
  }

  datatype Beat = Beat(gap: Bytes, frame: Frame)

  predicate SendableAll(bs: seq<Beat>) {
    forall i :: 0 <= i < |bs| ==> Heartbeats(bs[i].gap) && Sendable(bs[i].frame)
  }

  function WireOf(bs: seq<Beat>): seq<Bytes> {
    seq(|bs|, i requires 0 <= i < |bs| => bs[i].gap + ToBytes(bs[i].frame))
  }

  function FramesOf(bs: seq<Beat>): seq<Frame> {
    seq(|bs|, i requires 0 <= i < |bs| => bs[i].frame)
  }

  lemma WireFirst(bs: seq<Beat>, tail: Bytes)
    requires bs != []
    ensures Join(WireOf(bs)) + tail == bs[0].gap + ToBytes(bs[0].frame) + (Join(WireOf(bs[1..])) + tail)
    ensures FramesOf(bs) == [bs[0].frame] + FramesOf(bs[1..])
  {
    assert WireOf(bs)[1..] == WireOf(bs[1..]);
  }

  lemma WireParses(bs: seq<Beat>, tail: Bytes)
    requires bs != [] && SendableAll(bs)
    ensures ParseFrame(Join(WireOf(bs)) + tail) == Parsed(bs[0].frame, Join(WireOf(bs[1..])) + tail)
    ensures FramesOf(bs) == [bs[0].frame] + FramesOf(bs[1..])
  {
    WireFirst(bs, tail);
    RoundTripForward(bs[0].frame, bs[0].gap, Join(WireOf(bs[1..])) + tail);
  }

  lemma DrainFirst(whole: Bytes, f: Frame, rest: Bytes, fs: seq<Frame>, tail: Bytes)
    requires ParseFrame(whole) == Parsed(f, rest) && DrainsTo(rest, fs, tail)
    ensures DrainsTo(whole, [f] + fs, tail)
  {
    assert [f] + (fs + Drain(tail).frames) == [f] + fs + Drain(tail).frames;
  }

  lemma DrainNone(tail: Bytes)
    ensures DrainsTo([] + tail, [], tail)
  {
    assert [] + tail == tail;
    assert [] + Drain(tail).frames == Drain(tail).frames;
  }

  /** Any sequence of sendable frames, with heartbeats between them, is read back frame by frame;
      what follows is read as if it stood alone. */
  lemma {:induction false} StreamRoundTrip(bs: seq<Beat>, tail: Bytes)
    requires SendableAll(bs)
    ensures DrainsTo(Join(WireOf(bs)) + tail, FramesOf(bs), tail)
    decreases |bs|
  {
    if bs == [] {
      DrainNone(tail);
    } else {
      var rest := Join(WireOf(bs[1..])) + tail;
      WireParses(bs, tail);
      StreamRoundTrip(bs[1..], tail);
      DrainFirst(Join(WireOf(bs)) + tail, bs[0].frame, rest, FramesOf(bs[1..]), tail);
    }
  }

  function Beats(fs: seq<Frame>): seq<Beat> {
    seq(|fs|, i requires 0 <= i < |fs| => Beat([], fs[i]))
  }

  lemma BeatsPrint(fs: seq<Frame>)
    ensures WireOf(Beats(fs)) == Prints(fs) && FramesOf(Beats(fs)) == fs
  {
    forall i | 0 <= i < |fs| ensures WireOf(Beats(fs))[i] == Prints(fs)[i] {
      assert [] + ToBytes(fs[i]) == ToBytes(fs[i]);
    }
  }

  predicate AllSendable(fs: seq<Frame>) {
    forall i :: 0 <= i < |fs| ==> Sendable(fs[i])
  }

  lemma BeatsSendable(fs: seq<Frame>)
    requires AllSendable(fs)
    ensures SendableAll(Beats(fs))
  {
  }

  lemma FramesReadBack(fs: seq<Frame>)
    requires AllSendable(fs)
    ensures Drain(Join(Prints(fs))) == Drained(fs, Incomplete, [])
  {
    BeatsPrint(fs);
    BeatsSendable(fs);
    StreamRoundTrip(Beats(fs), []);
    assert Join(Prints(fs)) + [] == Join(Prints(fs)) && fs + [] == fs;
  }

  /** A frame whose end is missing is never taken for a frame, nor for a malformed one. */
  lemma CutFrameWaits(f: Frame, u: Bytes)
    requires Sendable(f) && u < ToBytes(f)
    ensures ParseFrame(u).Incomplete?
  {
    var whole := ToBytes(f);
    assert [] + whole + [] == whole;
    RoundTripForward(f, [], []);
    CutWaits(whole, f, u);
  }

  lemma CutWaits(whole: Bytes, f: Frame, u: Bytes)
    requires ParseFrame(whole) == Parsed(f, []) && u < whole
    ensures ParseFrame(u).Incomplete?
  {
    if !ParseFrame(u).Incomplete? {
      assert u + whole[|u|..] == whole;
      ParseExtend(u, whole[|u|..]);
    }
  }

  /** A stream cut inside a frame: the whole frames before it are read back, the rest waits. */
  lemma CutStreamReadsBack(fs: seq<Frame>, f: Frame, u: Bytes, wire: Bytes)
    requires Sendable(f) && u < ToBytes(f) && AllSendable(fs) && wire == Join(Prints(fs)) + u
    ensures Drain(wire) == Drained(fs, Incomplete, u)
  {
    BeatsPrint(fs);
    BeatsSendable(fs);
    StreamRoundTrip(Beats(fs), u);
    CutFrameWaits(f, u);
    assert fs + [] == fs;
  }
}
