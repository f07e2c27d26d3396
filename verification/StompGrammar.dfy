/** The wire format said without the parser: which bytes are a frame, which are malformed and how, line
    by line, with either line ending. `Stomp.ParseFrame` is proved to agree in both directions. */
module StompGrammar {
  import opened Prelude
  import opened Bytes
  import opened Stomp
  import opened StompProofs

  // -------------------------------------------------------------------- lines

  /** A line as it is sent: its text, and whether CR LF or LF ends it. */
  datatype RawLine = RawLine(text: Bytes, cr: bool)

  function LineBytes(l: RawLine): Bytes {
    l.text + (if l.cr then [13] else []) + [10]
  }

  function LinesBytes(ls: seq<RawLine>): Bytes {
    if ls == [] then [] else LineBytes(ls[0]) + LinesBytes(ls[1..])
  }

  /** The text holds no line feed, and a final CR belongs to the line ending. */
  predicate IsLine(l: RawLine) {
    10 !in l.text && (!l.cr ==> l.text == [] || l.text[|l.text| - 1] != 13)
  }

  /** The text splits at its first colon. */
  predicate SplitsAt(text: Bytes, k: Bytes, v: Bytes) {
    text == k + [58] + v && 58 !in k
  }

  /** The line is the header `h`. */
  ghost predicate IsHeader(text: Bytes, h: Header) {
    exists k, v :: SplitsAt(text, k, v) && ValidUtf8(k) && ValidUtf8(v) && h == Header(Unescape(k), Unescape(v))
  }

  ghost predicate LineByLine(ls: seq<RawLine>, hs: seq<Header>) {
    |ls| == |hs| && forall i :: 0 <= i < |ls| ==> IsLine(ls[i]) && IsHeader(ls[i].text, hs[i])
  }

  /** The lines are the headers `hs`, and their first content-length, if any, is a number. */
  ghost predicate AreHeaders(ls: seq<RawLine>, hs: seq<Header>) {
    LineByLine(ls, hs) && LengthReadable(hs)
  }

  // ------------------------------------------------------------ what is malformed

  /** What is wrong with a header line after the headers `hs`. */
  ghost predicate LineError(hs: seq<Header>, text: Bytes, e: ParseError) {
    || (text != [] && 58 !in text && e == Malformed("header line missing ':'"))
    || (exists k, v :: SplitsAt(text, k, v) && PartError(hs, k, v, e))
  }

  predicate PartError(hs: seq<Header>, k: Bytes, v: Bytes, e: ParseError) {
    || (!ValidUtf8(k) && e == Utf8Error(k))
    || (ValidUtf8(k) && !ValidUtf8(v) && e == Utf8Error(v))
    || (&& ValidUtf8(k) && ValidUtf8(v) && Unescape(k) == Ascii("content-length")
        && (forall i :: 0 <= i < |hs| ==> hs[i].key != Ascii("content-length"))
        && ParseUsize(Unescape(v)).None? && e == BadContentLength(Unescape(v)))
  }

  /** The first content-length of `hs` says `n`. */
  ghost predicate Declares(hs: seq<Header>, n: nat) {
    exists i :: 0 <= i < |hs| && DeclaresAt(hs, i, n)
  }

  ghost predicate DeclaresAt(hs: seq<Header>, i: nat, n: nat)
    requires i < |hs|
  {
    && hs[i].key == Ascii("content-length") && ParseUsize(hs[i].value) == Some(n)
    && forall j :: 0 <= j < i ==> hs[j].key != Ascii("content-length")
  }

  /** The byte after a body of the declared length is there and is not NUL; the error tells the length
      and the first NUL within it, if any. */
  ghost predicate BodyError(hs: seq<Header>, rest: Bytes, e: ParseError) {
    && e.ContentLengthMismatch? && Declares(hs, e.declared) && e.declared < |rest| && rest[e.declared] != 0
    && e.actual <= e.declared && 0 !in rest[..e.actual] && (e.actual < e.declared ==> rest[e.actual] == 0)
  }

  /** How an input is malformed: after heartbeats, in its command line, in the header line after `lines`,
      or in its body. */
  datatype Fault =
    | InCommand(hb: Bytes, command: RawLine, rest: Bytes)
    | InHeader(hb: Bytes, command: RawLine, lines: seq<RawLine>, headers: seq<Header>, line: RawLine, rest: Bytes)
    | InBody(hb: Bytes, command: RawLine, lines: seq<RawLine>, headers: seq<Header>, blank: RawLine, rest: Bytes)

  /** A command line that is not taken for a heartbeat. */
  predicate IsCommand(l: RawLine) {
    IsLine(l) && l.text != []
  }

  function Head(hb: Bytes, command: RawLine, lines: seq<RawLine>): Bytes {
    hb + (LineBytes(command) + LinesBytes(lines))
  }

  ghost predicate Explains(input: Bytes, x: Fault, e: ParseError) {
    && Heartbeats(x.hb) && IsCommand(x.command)
    && match x
       case InCommand(hb, command, rest) =>
         input == hb + (LineBytes(command) + rest) && !ValidUtf8(command.text) && e == Utf8Error(command.text)
       case InHeader(hb, command, lines, headers, line, rest) =>
         && input == Head(hb, command, lines) + (LineBytes(line) + rest) && ValidUtf8(command.text)
         && AreHeaders(lines, headers) && IsLine(line) && LineError(headers, line.text, e)
       case InBody(hb, command, lines, headers, blank, rest) =>
         && input == Head(hb, command, lines) + (LineBytes(blank) + rest) && ValidUtf8(command.text)
         && AreHeaders(lines, headers) && blank.text == [] && BodyError(headers, rest, e)
  }

  // ---------------------------------------------------------------- what is a frame

  datatype Layout = Layout(hb: Bytes, command: RawLine, lines: seq<RawLine>, blank: RawLine)

  /** `input` is heartbeats, the lines of `f` with any line endings, a blank line, the body of `f` and a
      NUL, and then `tail`. */
  ghost predicate LaidOut(input: Bytes, x: Layout, f: Frame, tail: Bytes) {
    && Heartbeats(x.hb) && IsCommand(x.command) && ValidUtf8(f.command) && x.command.text == f.command
    && AreHeaders(x.lines, f.headers) && x.blank.text == [] && BodyFits(f)
    && input == Head(x.hb, x.command, x.lines) + (LineBytes(x.blank) + (f.body + [0] + tail))
  }

  // --------------------------------------------------------- the parser reads lines

  lemma LineReads(l: RawLine, rest: Bytes)
    requires IsLine(l)
    ensures NextLine(LineBytes(l) + rest) == Some(Line(l.text, rest))
  {
    var raw := l.text + if l.cr then [13] else [];
    assert LineBytes(l) + rest == raw + [LF] + rest;
    NextLineOf(raw, rest);
    assert l.cr ==> raw[..|raw| - 1] == l.text;
    assert !l.cr ==> raw == l.text;
  }

  lemma ColonSplits(text: Bytes, k: Bytes, v: Bytes)
    requires SplitsAt(text, k, v)
    ensures IndexOf(COLON, text) == Some(|k|) && text[..|k|] == k && text[|k| + 1..] == v
  {
    assert text[..|k|] == k;
    IndexOfUnique(COLON, text, |k|);
  }

  lemma HeaderReads(text: Bytes, h: Header)
    requires IsHeader(text, h)
    ensures text != [] && ParseHeader(text) == Entry(h)
  {
    var k, v :| SplitsAt(text, k, v) && ValidUtf8(k) && ValidUtf8(v) && h == Header(Unescape(k), Unescape(v));
    ColonSplits(text, k, v);
  }

  /** A header line, whichever way it ends, is one more header. */
  lemma HeaderLineReads(l: RawLine, h: Header, acc: seq<Header>, rest: Bytes)
    requires IsLine(l) && IsHeader(l.text, h) && LengthReadable(acc) && LengthReadable(acc + [h])
    ensures ParseHeaders(LineBytes(l) + rest, acc) == ParseHeaders(rest, acc + [h])
  {
    LineReads(l, rest);
    HeaderReads(l.text, h);
    LookupAppend(acc, h, CONTENT_LENGTH);
  }

  lemma {:induction false} HeaderLinesRead(ls: seq<RawLine>, hs: seq<Header>, acc: seq<Header>, rest: Bytes)
    requires LineByLine(ls, hs) && LengthReadable(acc) && LengthReadable(acc + hs)
    ensures ParseHeaders(LinesBytes(ls) + rest, acc) == ParseHeaders(rest, acc + hs)
    decreases |ls|
  {
    if ls == [] {
      assert LinesBytes(ls) + rest == rest && acc + hs == acc;
    } else {
      MoveFirst(acc, hs);
      ReadablePrefix(acc + [hs[0]], hs[1..]);
      assert LinesBytes(ls) + rest == LineBytes(ls[0]) + (LinesBytes(ls[1..]) + rest);
      HeaderLineReads(ls[0], hs[0], acc, LinesBytes(ls[1..]) + rest);
      HeaderLinesRead(ls[1..], hs[1..], acc + [hs[0]], rest);
    }
  }

  lemma CommandReads(hb: Bytes, command: RawLine, rest: Bytes)
    requires Heartbeats(hb) && IsCommand(command)
    ensures var c := LineBytes(command) + rest;
            SkipHeartbeats(hb + c) == c && NextLine(c) == Some(Line(command.text, rest))
  {
    var c := LineBytes(command) + rest;
    SkipLeading(hb, c);
    assert c[0] == command.text[0];
    assert |command.text| > 1 ==> c[1] == command.text[1];
    SkipNone(c);
    LineReads(command, rest);
  }

  // ----------------------------------------------------- what is malformed fails so

  lemma {:induction false} FirstLookup(hs: seq<Header>, i: nat, n: nat)
    requires i < |hs| && DeclaresAt(hs, i, n)
    ensures DeclaredLength(hs) == Some(n)
    decreases i
  {
    if i > 0 {
      assert hs[0].key != CONTENT_LENGTH;
      assert DeclaresAt(hs[1..], i - 1, n);
      FirstLookup(hs[1..], i - 1, n);
    }
  }

  lemma {:induction false} NoLookup(hs: seq<Header>)
    requires forall i :: 0 <= i < |hs| ==> hs[i].key != Ascii("content-length")
    ensures Lookup(hs, CONTENT_LENGTH).None?
  {
    if hs != [] {
      assert hs[0].key != CONTENT_LENGTH;
      NoLookup(hs[1..]);
    }
  }

  lemma BadLineFails(hs: seq<Header>, line: RawLine, rest: Bytes, e: ParseError)
    requires IsLine(line) && LineError(hs, line.text, e)
    ensures ParseHeaders(LineBytes(line) + rest, hs) == HeadersFailed(e)
  {
    LineReads(line, rest);
    if 58 !in line.text {
      assert IndexOf(COLON, line.text).None?;
    } else {
      var k, v :| SplitsAt(line.text, k, v) && PartError(hs, k, v, e);
      BadPartFails(hs, line.text, k, v, e);
    }
  }

  lemma BadPartFails(hs: seq<Header>, text: Bytes, k: Bytes, v: Bytes, e: ParseError)
    requires SplitsAt(text, k, v) && PartError(hs, k, v, e)
    ensures ParseHeader(text).BadHeader? ==> ParseHeader(text).error == e
    ensures ParseHeader(text).Entry? ==>
              var h := ParseHeader(text).h;
              h.key == CONTENT_LENGTH && Lookup(hs, CONTENT_LENGTH).None? && ParseUsize(h.value).None?
              && e == BadContentLength(h.value)
    ensures text != []
  {
    ColonSplits(text, k, v);
    if ValidUtf8(k) && ValidUtf8(v) {
      NoLookup(hs);
    }
  }

  lemma BadBodyFails(command: Bytes, hs: seq<Header>, rest: Bytes, e: ParseError)
    requires BodyError(hs, rest, e)
    ensures ParseBody(command, hs, rest) == Failed(e)
  {
    var n := e.declared;
    var i :| 0 <= i < |hs| && DeclaresAt(hs, i, n);
    FirstLookup(hs, i, n);
    assert rest[..n][..e.actual] == rest[..e.actual];
    if e.actual < n {
      IndexOfUnique(NUL, rest[..n], e.actual);
    } else {
      assert rest[..e.actual] == rest[..n];
    }
  }

  lemma HeadReads(hb: Bytes, command: RawLine, lines: seq<RawLine>, headers: seq<Header>, c: Bytes)
    requires Heartbeats(hb) && IsCommand(command) && AreHeaders(lines, headers)
    ensures var input := Head(hb, command, lines) + c;
            && SkipHeartbeats(input) != []
            && NextLine(SkipHeartbeats(input)) == Some(Line(command.text, LinesBytes(lines) + c))
            && ParseHeaders(LinesBytes(lines) + c, []) == ParseHeaders(c, headers)
  {
    var rest := LinesBytes(lines) + c;
    HeadParts(hb, command, lines, c);
    CommandReads(hb, command, rest);
    assert [] + headers == headers;
    HeaderLinesRead(lines, headers, [], c);
  }

  lemma BlankReads(blank: RawLine, hs: seq<Header>, rest: Bytes)
    requires blank.text == []
    ensures ParseHeaders(LineBytes(blank) + rest, hs) == HeadersDone(hs, rest)
  {
    LineReads(blank, rest);
  }

  lemma ExplainedFails(input: Bytes, x: Fault, e: ParseError)
    requires Explains(input, x, e)
    ensures ParseFrame(input) == Failed(e)
  {
    match x
    case InCommand(hb, command, rest) =>
      CommandReads(hb, command, rest);
    case InHeader(hb, command, lines, headers, line, rest) =>
      HeadReads(hb, command, lines, headers, LineBytes(line) + rest);
      BadLineFails(headers, line, rest, e);
    case InBody(hb, command, lines, headers, blank, rest) =>
      HeadReads(hb, command, lines, headers, LineBytes(blank) + rest);
      BlankReads(blank, headers, rest);
      BadBodyFails(command.text, headers, rest, e);
  }

  lemma LaidOutParses(input: Bytes, x: Layout, f: Frame, tail: Bytes)
    requires LaidOut(input, x, f, tail)
    ensures ParseFrame(input) == Parsed(f, tail)
  {
    var rest := f.body + [0] + tail;
    HeadReads(x.hb, x.command, x.lines, f.headers, LineBytes(x.blank) + rest);
    BlankReads(x.blank, f.headers, rest);
    BodyRoundTrip(f, tail);
  }

  // --------------------------------------------- and what fails or parses is of that form

  /** The line the parser reads next, as it was sent. */
  lemma LineSent(c: Bytes) returns (l: RawLine)
    requires NextLine(c).Some?
    ensures IsLine(l) && l.text == NextLine(c).value.text && c == LineBytes(l) + NextLine(c).value.rest
  {
    var e := IndexOf(LF, c).value;
    var raw := c[..e];
    var cr := raw != [] && raw[|raw| - 1] == CR;
    l := RawLine(StripCr(raw), cr);
    assert forall i :: 0 <= i < |l.text| ==> l.text[i] == raw[i];
    assert raw == l.text + if cr then [13] else [];
    assert c == raw + [10] + c[e + 1..];
  }

  lemma HeaderSent(text: Bytes)
    requires ParseHeader(text).Entry?
    ensures IsHeader(text, ParseHeader(text).h)
  {
    var i := IndexOf(COLON, text).value;
    assert SplitsAt(text, text[..i], text[i + 1..]);
  }

  /** Heartbeats are what is skipped. */
  lemma {:induction false} HeartbeatsSent(s: Bytes) returns (hb: Bytes)
    ensures Heartbeats(hb) && s == hb + SkipHeartbeats(s)
    decreases |s|
  {
    if |s| >= 1 && s[0] == LF {
      var more := HeartbeatsSent(s[1..]);
      hb := [LF] + more;
      assert hb[1..] == more && s == [LF] + s[1..];
    } else if |s| >= 2 && s[0] == CR && s[1] == LF {
      var more := HeartbeatsSent(s[2..]);
      hb := [CR, LF] + more;
      assert hb[2..] == more && s == [CR, LF] + s[2..];
    } else {
      hb := [];
    }
  }

  /** `c` is where reading headers, with `hs` read, stops: at a blank line or a bad one. */
  ghost predicate StopsAt(c: Bytes, hs: seq<Header>, r: HeaderBlock) {
    && NextLine(c).Some? && ParseHeaders(c, hs) == r
    && (NextLine(c).value.text == [] || (r.HeadersFailed? && LineError(hs, NextLine(c).value.text, r.error)))
  }

  lemma {:induction false} HeadersSent(c: Bytes, acc: seq<Header>)
    returns (ls: seq<RawLine>, hs: seq<Header>, stop: Bytes)
    requires !ParseHeaders(c, acc).MoreHeaders? && LengthReadable(acc)
    ensures LineByLine(ls, hs) && LengthReadable(acc + hs) && c == LinesBytes(ls) + stop
    ensures StopsAt(stop, acc + hs, ParseHeaders(c, acc))
    decreases |c|
  {
    var line := NextLine(c).value;
    if line.text != [] && ParseHeader(line.text).Entry? && LengthReadable(acc + [ParseHeader(line.text).h]) {
      var h := ParseHeader(line.text).h;
      var l := LineSent(c);
      OneMoreHeader(c, acc);
      ls, hs, stop := HeadersSent(line.rest, acc + [h]);
      HeaderSent(line.text);
      PrependLine(l, h, ls, hs);
      MoreSent(acc, h, hs, l, ls, stop);
      ls, hs := [l] + ls, [h] + hs;
    } else {
      ls, hs, stop := [], [], c;
      assert acc + [] == acc && [] + c == c;
      StopSent(c, acc);
    }
  }

  lemma OneMoreHeader(c: Bytes, acc: seq<Header>)
    requires NextLine(c).Some? && NextLine(c).value.text != [] && ParseHeader(NextLine(c).value.text).Entry?
    requires LengthReadable(acc) && LengthReadable(acc + [ParseHeader(NextLine(c).value.text).h])
    ensures ParseHeaders(c, acc) == ParseHeaders(NextLine(c).value.rest, acc + [ParseHeader(NextLine(c).value.text).h])
  {
    LookupAppend(acc, ParseHeader(NextLine(c).value.text).h, CONTENT_LENGTH);
  }

  lemma StopSent(c: Bytes, acc: seq<Header>)
    requires !ParseHeaders(c, acc).MoreHeaders? && LengthReadable(acc)
    requires var text := NextLine(c).value.text;
             text == [] || ParseHeader(text).BadHeader? || !LengthReadable(acc + [ParseHeader(text).h])
    ensures StopsAt(c, acc, ParseHeaders(c, acc))
  {
    var text := NextLine(c).value.text;
    if text != [] {
      if ParseHeader(text).Entry? {
        LookupAppend(acc, ParseHeader(text).h, CONTENT_LENGTH);
      }
      BadLineSent(acc, text, ParseHeaders(c, acc).error);
    }
  }

  lemma PrependLine(l: RawLine, h: Header, ls: seq<RawLine>, hs: seq<Header>)
    requires IsLine(l) && IsHeader(l.text, h) && LineByLine(ls, hs)
    ensures LineByLine([l] + ls, [h] + hs)
  {
  }

  lemma MoreSent(acc: seq<Header>, h: Header, hs: seq<Header>, l: RawLine, ls: seq<RawLine>, stop: Bytes)
    ensures acc + [h] + hs == acc + ([h] + hs)
    ensures LinesBytes([l] + ls) + stop == LineBytes(l) + (LinesBytes(ls) + stop)
  {
    assert ([l] + ls)[1..] == ls;
  }

  lemma BadLineSent(hs: seq<Header>, text: Bytes, e: ParseError)
    requires text != []
    requires match ParseHeader(text)
             case BadHeader(e') => e' == e
             case Entry(h) => h.key == CONTENT_LENGTH && Lookup(hs, CONTENT_LENGTH).None?
                              && ParseUsize(h.value).None? && e == BadContentLength(h.value)
    ensures LineError(hs, text, e)
  {
    var colon := IndexOf(COLON, text);
    if colon.Some? {
      var k, v := text[..colon.value], text[colon.value + 1..];
      assert SplitsAt(text, k, v);
      BadPartSent(hs, k, v, e);
    }
  }

  lemma BadPartSent(hs: seq<Header>, k: Bytes, v: Bytes, e: ParseError)
    requires if !ValidUtf8(k) then e == Utf8Error(k)
             else if !ValidUtf8(v) then e == Utf8Error(v)
             else Unescape(k) == CONTENT_LENGTH && Lookup(hs, CONTENT_LENGTH).None?
                  && ParseUsize(Unescape(v)).None? && e == BadContentLength(Unescape(v))
    ensures PartError(hs, k, v, e)
  {
    if Lookup(hs, CONTENT_LENGTH).None? {
      KeysWithout(hs);
    }
  }

  lemma {:induction false} KeysWithout(hs: seq<Header>)
    requires Lookup(hs, CONTENT_LENGTH).None?
    ensures forall i :: 0 <= i < |hs| ==> hs[i].key != Ascii("content-length")
  {
    if hs != [] {
      KeysWithout(hs[1..]);
      assert forall i :: 1 <= i < |hs| ==> hs[i] == hs[1..][i - 1];
    }
  }

  lemma {:induction false} LookupDeclares(hs: seq<Header>, n: nat)
    requires DeclaredLength(hs) == Some(n)
    ensures Declares(hs, n)
  {
    if hs[0].key == CONTENT_LENGTH {
      assert DeclaresAt(hs, 0, n);
    } else {
      LookupDeclares(hs[1..], n);
      var i :| 0 <= i < |hs[1..]| && DeclaresAt(hs[1..], i, n);
      assert forall j :: 1 <= j < |hs| ==> hs[j] == hs[1..][j - 1];
      assert DeclaresAt(hs, i + 1, n);
    }
  }

  lemma BadBodySent(command: Bytes, hs: seq<Header>, rest: Bytes, e: ParseError)
    requires ParseBody(command, hs, rest) == Failed(e)
    ensures BodyError(hs, rest, e)
  {
    var n := DeclaredLength(hs).value;
    LookupDeclares(hs, n);
    assert forall i :: 0 <= i <= n ==> rest[..n][..i] == rest[..i];
  }

  lemma CommandSent(input: Bytes) returns (hb: Bytes, command: RawLine)
    requires NextLine(SkipHeartbeats(input)).Some?
    ensures Heartbeats(hb) && IsCommand(command)
    ensures var line := NextLine(SkipHeartbeats(input)).value;
            command.text == line.text && input == hb + (LineBytes(command) + line.rest)
  {
    var c := SkipHeartbeats(input);
    hb := HeartbeatsSent(input);
    SkippedStart(input);
    CommandNotEmpty(c);
    command := LineSent(c);
  }

  /** The parts of an input that is decided beyond its command line. */
  lemma HeadSent(input: Bytes)
    returns (hb: Bytes, command: RawLine, lines: seq<RawLine>, headers: seq<Header>, stop: Bytes)
    requires NextLine(SkipHeartbeats(input)).Some?
    requires !ParseHeaders(NextLine(SkipHeartbeats(input)).value.rest, []).MoreHeaders?
    ensures Heartbeats(hb) && IsCommand(command) && command.text == NextLine(SkipHeartbeats(input)).value.text
    ensures AreHeaders(lines, headers) && input == Head(hb, command, lines) + stop
    ensures StopsAt(stop, headers, ParseHeaders(NextLine(SkipHeartbeats(input)).value.rest, []))
  {
    var rest := NextLine(SkipHeartbeats(input)).value.rest;
    hb, command := CommandSent(input);
    lines, headers, stop := HeadersSent(rest, []);
    assert [] + headers == headers;
    HeadParts(hb, command, lines, stop);
  }

  lemma HeadParts(hb: Bytes, command: RawLine, lines: seq<RawLine>, stop: Bytes)
    ensures hb + (LineBytes(command) + (LinesBytes(lines) + stop)) == Head(hb, command, lines) + stop
  {
    var a, b := LineBytes(command), LinesBytes(lines);
    assert a + (b + stop) == (a + b) + stop;
  }

  lemma FailedExplained(input: Bytes) returns (x: Fault)
    requires ParseFrame(input).Failed?
    ensures Explains(input, x, ParseFrame(input).error)
  {
    var c := SkipHeartbeats(input);
    var line, e := NextLine(c).value, ParseFrame(input).error;
    EmptyCommandUnreachable(input);
    if !ValidUtf8(line.text) {
      var hb, command := CommandSent(input);
      x := InCommand(hb, command, line.rest);
    } else {
      var hb, command, lines, headers, stop := HeadSent(input);
      var l := LineSent(stop);
      if l.text == [] {
        BlankReads(l, headers, NextLine(stop).value.rest);
        BadBodySent(command.text, headers, NextLine(stop).value.rest, e);
        x := InBody(hb, command, lines, headers, l, NextLine(stop).value.rest);
      } else {
        x := InHeader(hb, command, lines, headers, l, NextLine(stop).value.rest);
      }
    }
  }

  lemma ParsedLaidOut(input: Bytes) returns (x: Layout)
    requires ParseFrame(input).Parsed?
    ensures LaidOut(input, x, ParseFrame(input).frame, ParseFrame(input).rest)
  {
    var f, tail := ParseFrame(input).frame, ParseFrame(input).rest;
    ParsedParts(input);
    ParsedSound(input);
    var hb, command, lines, headers, stop := HeadSent(input);
    var l := LineSent(stop);
    var rest := NextLine(stop).value.rest;
    BlankReads(l, headers, rest);
    BodySent(command.text, headers, rest);
    x := Layout(hb, command, lines, l);
  }

  lemma BodySent(command: Bytes, hs: seq<Header>, c: Bytes)
    requires ParseBody(command, hs, c).Parsed?
    ensures var r := ParseBody(command, hs, c);
            r.frame.command == command && r.frame.headers == hs && c == r.frame.body + [0] + r.rest
  {
  }

  // -------------------------------------------------------------- the theorems

  /** Exactly the malformed inputs fail, and with exactly the error that says what is wrong. */
  lemma FailsExactly(input: Bytes, e: ParseError)
    ensures ParseFrame(input) == Failed(e) <==> exists x :: Explains(input, x, e)
  {
    if ParseFrame(input) == Failed(e) {
      var x := FailedExplained(input);
    }
    if x :| Explains(input, x, e) {
      ExplainedFails(input, x, e);
    }
  }

  /** Exactly the inputs that start with a frame laid out in the format parse to that frame, the rest
      remaining; CR LF ends a line as LF does. */
  lemma ParsesExactly(input: Bytes, f: Frame, tail: Bytes)
    ensures ParseFrame(input) == Parsed(f, tail) <==> exists x :: LaidOut(input, x, f, tail)
  {
    if ParseFrame(input) == Parsed(f, tail) {
      var x := ParsedLaidOut(input);
    }
    if x :| LaidOut(input, x, f, tail) {
      LaidOutParses(input, x, f, tail);
    }
  }

  /** Header texts by the standard, section "Value Encoding" of STOMP 1.2: four escapes, every other one
      passed through, and a dangling backslash kept. */
  lemma StandardEscapes(b: Byte, t: Bytes)
    ensures Unescape(Ascii("\\n") + t) == [10] + Unescape(t)
    ensures Unescape(Ascii("\\r") + t) == [13] + Unescape(t)
    ensures Unescape(Ascii("\\c") + t) == Ascii(":") + Unescape(t)
    ensures Unescape(Ascii("\\\\") + t) == Ascii("\\") + Unescape(t)
    ensures b !in Ascii("nrc\\") ==> Unescape(Ascii("\\") + [b] + t) == Ascii("\\") + [b] + Unescape(t)
    ensures b !in Ascii("\\") ==> Unescape([b] + t) == [b] + Unescape(t)
    ensures Unescape(Ascii("\\")) == Ascii("\\") && Unescape([]) == []
  {
    EscapePair(110, t);
    EscapePair(114, t);
    EscapePair(99, t);
    EscapePair(92, t);
    EscapePair(b, t);
    assert ([b] + t)[1..] == t;
    assert Ascii("\\n") == [92, 110] && Ascii("\\r") == [92, 114] && Ascii("\\c") == [92, 99];
    assert Ascii("\\\\") == [92, 92] && Ascii("\\") == [92] && Ascii(":") == [58];
    assert Ascii("nrc\\") == [110, 114, 99, 92];
    assert [92] + [b] == [92, b];
  }

  lemma EscapePair(b: Byte, t: Bytes)
    ensures Unescape([92, b] + t) == UnescapePair(b) + Unescape(t)
  {
    assert ([92, b] + t)[2..] == t;
  }

  /** One or more of the digits '0' to '9' that stand for `n`. */
  predicate Numeral(s: Bytes, n: nat) {
    s != [] && AllDigits(s) && DecimalValue(s) == n
  }

  /** The texts a content-length is read from: a numeral, with or without one leading plus sign, of a
      number that fits in 64 bits. */
  lemma LengthNumerals(s: Bytes, n: nat)
    ensures ParseUsize(s) == Some(n) <==>
            n < 0x1_0000_0000_0000_0000 && (Numeral(s, n) || (s != [] && s[0] == '+' as int && Numeral(s[1..], n)))
    ensures forall b: Byte :: IsDigit(b) <==> '0' as int <= b <= '9' as int
  {
    assert s != [] && s[0] == 43 ==> !AllDigits(s);
  }
}
