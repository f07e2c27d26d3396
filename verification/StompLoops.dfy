/** The loops of crates/vdsm-rpc/src/stomp.rs, each proved to compute its specification in `Stomp`. */
module StompLoops {
  import opened Prelude
  import opened Bytes
  import opened Stomp

  method EscapeHeader(s: Bytes) returns (out: Bytes)
    ensures out == Escape(s)
  {
    out := [];
    for i := 0 to |s|
      invariant out + Escape(s[i..]) == Escape(s)
    {
      var c := s[i];
      var piece: Bytes := if c == BACKSLASH then [BACKSLASH, BACKSLASH]
                          else if c == CR then [BACKSLASH, 114]
                          else if c == LF then [BACKSLASH, 110]
                          else if c == COLON then [BACKSLASH, 99]
                          else [c];
      assert s[i..][1..] == s[i + 1..];
      Regroup(out, piece, Escape(s[i + 1..]));
      out := out + piece;
    }
  }

  method UnescapeHeader(s: Bytes) returns (out: Bytes)
    ensures out == Unescape(s)
  {
    out := [];
    var i := 0;
    while i < |s|
      invariant 0 <= i <= |s|
      invariant out + Unescape(s[i..]) == Unescape(s)
    {
      if s[i] == BACKSLASH && i + 1 < |s| {
        var piece := UnescapePair(s[i + 1]);
        assert s[i..][2..] == s[i + 2..];
        Regroup(out, piece, Unescape(s[i + 2..]));
        out := out + piece;
        i := i + 2;
      } else {
        // an ordinary byte, or a backslash with nothing after it
        assert s[i..][1..] == s[i + 1..];
        Regroup(out, [s[i]], Unescape(s[i + 1..]));
        out := out + [s[i]];
        i := i + 1;
      }
    }
  }

  /** Index of the first byte after the leading heartbeats. */
  method HeartbeatEnd(input: Bytes) returns (i: nat)
    ensures i <= |input| && input[i..] == SkipHeartbeats(input)
  {
    i := 0;
    while i < |input|
      invariant i <= |input|
      invariant SkipHeartbeats(input[i..]) == SkipHeartbeats(input)
    {
      assert input[i..][1..] == input[i + 1..];
      if input[i] == LF {
        i := i + 1;
      } else if input[i] == CR && i + 1 < |input| && input[i + 1] == LF {
        assert input[i..][2..] == input[i + 2..];
        i := i + 2;
      } else {
        break;
      }
    }
  }

  method PrintFrame(f: Frame) returns (out: Bytes)
    ensures out == ToBytes(f)
  {
    out := f.command + [LF];
    for i := 0 to |f.headers|
      invariant out + HeaderBytes(f.headers[i..]) == f.command + [LF] + HeaderBytes(f.headers)
    {
      var k := EscapeHeader(f.headers[i].key);
      var v := EscapeHeader(f.headers[i].value);
      var line := k + [COLON] + v + [LF];
      assert HeaderBytes(f.headers[i..]) == line + HeaderBytes(f.headers[i + 1..]) by {
        assert f.headers[i..][1..] == f.headers[i + 1..];
      }
      Regroup(out, line, HeaderBytes(f.headers[i + 1..]));
      out := out + line;
    }
    assert out == f.command + [LF] + HeaderBytes(f.headers);
    out := out + [LF] + f.body + [NUL];
    assert out == f.command + [LF] + (HeaderBytes(f.headers) + [LF] + (f.body + [NUL]));
  }

  /** The header loop of `parse_frame`; `declared` is the first content-length seen. */
  method HeaderLoop(input: Bytes) returns (r: HeaderBlock, declared: Option<nat>)
    ensures r == ParseHeaders(input, [])
    ensures r.HeadersDone? ==> declared == DeclaredLength(r.headers)
  {
    var cursor := input;
    var headers: seq<Header> := [];
    declared := None;
    while true
      invariant ParseHeaders(cursor, headers) == ParseHeaders(input, [])
      invariant declared == DeclaredLength(headers)
      invariant declared.None? <==> Lookup(headers, CONTENT_LENGTH).None?
      decreases |cursor|
    {
      var lineEnd := IndexOf(LF, cursor);
      if lineEnd.None? {
        return MoreHeaders, declared;
      }
      var rawLine := StripCr(cursor[..lineEnd.value]);
      var rest := cursor[lineEnd.value + 1..];
      assert NextLine(cursor) == Some(Line(rawLine, rest));
      if rawLine == [] {
        return HeadersDone(headers, rest), declared;
      }
      var h := HeaderOf(rawLine);
      if h.BadHeader? {
        return HeadersFailed(h.error), declared;
      }
      if h.h.key == CONTENT_LENGTH && declared.None? {
        declared := ParseUsize(h.h.value);
        if declared.None? {
          return HeadersFailed(BadContentLength(h.h.value)), declared;
        }
      }
      LookupAppend(headers, h.h, CONTENT_LENGTH);
      cursor, headers := rest, headers + [h.h];
    }
  }

  method HeaderOf(rawLine: Bytes) returns (r: HeaderLine)
    ensures r == ParseHeader(rawLine)
  {
    var colon := IndexOf(COLON, rawLine);
    if colon.None? {
      return BadHeader(Malformed("header line missing ':'"));
    }
    var keyRaw, valRaw := rawLine[..colon.value], rawLine[colon.value + 1..];
    if !ValidUtf8(keyRaw) {
      return BadHeader(Utf8Error(keyRaw));
    }
    var key := UnescapeHeader(keyRaw);
    if !ValidUtf8(valRaw) {
      return BadHeader(Utf8Error(valRaw));
    }
    var val := UnescapeHeader(valRaw);
    return Entry(Header(key, val));
  }

  method ParseFrameLoop(input: Bytes) returns (r: ParseResult)
    ensures r == ParseFrame(input)
  {
    var start := HeartbeatEnd(input);
    var cursor := input[start..];
    if cursor == [] {
      return Incomplete;
    }
    var lineEnd := IndexOf(LF, cursor);
    if lineEnd.None? {
      return Incomplete;
    }
    var command := StripCr(cursor[..lineEnd.value]);
    if command == [] {
      return Failed(Malformed("empty command line"));
    }
    if !ValidUtf8(command) {
      return Failed(Utf8Error(command));
    }
    assert NextLine(cursor) == Some(Line(command, cursor[lineEnd.value + 1..]));
    var block, declared := HeaderLoop(cursor[lineEnd.value + 1..]);
    match block {
      case MoreHeaders => return Incomplete;
      case HeadersFailed(e) => return Failed(e);
      case HeadersDone(headers, rest) =>
        r := BodyOf(command, headers, declared, rest);
    }
  }

  method BodyOf(command: Bytes, headers: seq<Header>, declared: Option<nat>, cursor: Bytes)
    returns (r: ParseResult)
    requires declared == DeclaredLength(headers)
    ensures r == ParseBody(command, headers, cursor)
  {
    match declared {
      case Some(n) =>
        if |cursor| < n + 1 {
          return Incomplete;
        }
        if cursor[n] != NUL {
          var actual := IndexOf(NUL, cursor[..n]);
          return Failed(ContentLengthMismatch(n, if actual.Some? then actual.value else n));
        }
        return Parsed(Frame(command, headers, cursor[..n]), cursor[n + 1..]);
      case None =>
        var nul := IndexOf(NUL, cursor);
        if nul.None? {
          return Incomplete;
        }
        return Parsed(Frame(command, headers, cursor[..nul.value]), cursor[nul.value + 1..]);
    }
  }
}
