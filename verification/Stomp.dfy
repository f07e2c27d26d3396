/** The STOMP 1.2 codec: frames, the printer and the incremental parser
    (crates/vdsm-rpc/src/stomp.rs). Rust `String`s are their UTF-8 bytes. */
module Stomp {
  import opened Prelude
  import opened Bytes

  datatype Header = Header(key: Bytes, value: Bytes)
  datatype Frame = Frame(command: Bytes, headers: seq<Header>, body: Bytes) {

    /** What the Rust types guarantee: command, keys and values are `String`s. */
    predicate Typed() {
      ValidUtf8(command) && TypedHeaders(headers)
    }
  }

  predicate TypedHeaders(hs: seq<Header>) {
    forall i :: 0 <= i < |hs| ==> ValidUtf8(hs[i].key) && ValidUtf8(hs[i].value)
  }

  datatype ParseError =
    | Malformed(what: string)
    | Utf8Error(slice: Bytes)
    | ContentLengthMismatch(declared: nat, actual: nat)
    | BadContentLength(text: Bytes)

  datatype ParseResult = Incomplete | Parsed(frame: Frame, rest: Bytes) | Failed(error: ParseError)

  /** First value stored under `name`: the first entry wins. */
  function Lookup(hs: seq<Header>, name: Bytes): Option<Bytes> {
    if hs == [] then None
    else if hs[0].key == name then Some(hs[0].value)
    else Lookup(hs[1..], name)
  }

  lemma {:induction false} LookupAppend(hs: seq<Header>, h: Header, name: Bytes)
    ensures Lookup(hs + [h], name) ==
            if Lookup(hs, name).Some? then Lookup(hs, name)
            else if h.key == name then Some(h.value) else None
  {
    if hs != [] {
      assert (hs + [h])[1..] == hs[1..] + [h];
      LookupAppend(hs[1..], h, name);
    }
  }

  const CONTENT_LENGTH: Bytes := Ascii("content-length")

  // ------------------------------------------------------------- escaping

  function EscapeByte(b: Byte): Bytes {
    if b == BACKSLASH then [BACKSLASH, BACKSLASH]
    else if b == CR then [BACKSLASH, 114]
    else if b == LF then [BACKSLASH, 110]
    else if b == COLON then [BACKSLASH, 99]
    else [b]
  }

  function Escape(s: Bytes): Bytes {
    if s == [] then [] else EscapeByte(s[0]) + Escape(s[1..])
  }

  /** What `\` followed by `b` stands for; unknown escapes pass through. */
  function UnescapePair(b: Byte): Bytes {
    if b == BACKSLASH then [BACKSLASH]
    else if b == 114 then [CR]
    else if b == 110 then [LF]
    else if b == 99 then [COLON]
    else [BACKSLASH, b]
  }

  function Unescape(s: Bytes): Bytes
    decreases |s|
  {
    if s == [] then []
    else if s[0] != BACKSLASH then [s[0]] + Unescape(s[1..])
    else if |s| == 1 then [BACKSLASH]
    else UnescapePair(s[1]) + Unescape(s[2..])
  }

  // -------------------------------------------------------------- printing

  function HeaderBytes(hs: seq<Header>): Bytes {
    if hs == [] then []
    else Escape(hs[0].key) + [COLON] + Escape(hs[0].value) + [LF] + HeaderBytes(hs[1..])
  }

  function ToBytes(f: Frame): Bytes {
    f.command + [LF] + (HeaderBytes(f.headers) + [LF] + (f.body + [NUL]))
  }

  function Join(ws: seq<Bytes>): Bytes {
    if ws == [] then [] else ws[0] + Join(ws[1..])
  }

  lemma {:induction false} JoinAppend(ws: seq<Bytes>, w: Bytes)
    ensures Join(ws + [w]) == Join(ws) + w
  {
    if ws == [] {
      assert ([w])[1..] == [] && ws + [w] == [w];
    } else {
      assert (ws + [w])[1..] == ws[1..] + [w];
      JoinAppend(ws[1..], w);
    }
  }

  function Prints(fs: seq<Frame>): seq<Bytes> {
    seq(|fs|, i requires 0 <= i < |fs| => ToBytes(fs[i]))
  }

  // --------------------------------------------------------------- parsing

  function SkipHeartbeats(s: Bytes): (r: Bytes)
    ensures |r| <= |s|
    decreases |s|
  {
    if |s| >= 1 && s[0] == LF then SkipHeartbeats(s[1..])
    else if |s| >= 2 && s[0] == CR && s[1] == LF then SkipHeartbeats(s[2..])
    else s
  }

  function StripCr(line: Bytes): Bytes {
    if |line| > 0 && line[|line| - 1] == CR then line[..|line| - 1] else line
  }

  datatype Line = Line(text: Bytes, rest: Bytes)

  /** The text up to the next line feed, less one final CR, and what follows it. */
  function NextLine(c: Bytes): (r: Option<Line>)
    ensures r.Some? ==> |r.value.text| + |r.value.rest| < |c|
  {
    match IndexOf(LF, c)
    case None => None
    case Some(e) => Some(Line(StripCr(c[..e]), c[e + 1..]))
  }

  datatype HeaderLine = Entry(h: Header) | BadHeader(error: ParseError)

  function ParseHeader(line: Bytes): HeaderLine {
    match IndexOf(COLON, line)
    case None => BadHeader(Malformed("header line missing ':'"))
    case Some(colon) =>
      var keyRaw, valRaw := line[..colon], line[colon + 1..];
      if !ValidUtf8(keyRaw) then BadHeader(Utf8Error(keyRaw))
      else if !ValidUtf8(valRaw) then BadHeader(Utf8Error(valRaw))
      else Entry(Header(Unescape(keyRaw), Unescape(valRaw)))
  }

  datatype HeaderBlock =
    | MoreHeaders
    | HeadersFailed(error: ParseError)
    | HeadersDone(headers: seq<Header>, rest: Bytes)

  /** Header lines up to the blank one, after the headers `acc`. */
  function ParseHeaders(c: Bytes, acc: seq<Header>): (r: HeaderBlock)
    ensures r.HeadersDone? ==> |r.rest| < |c|
    decreases |c|
  {
    match NextLine(c)
    case None => MoreHeaders
    case Some(Line(text, rest)) =>
      if text == [] then HeadersDone(acc, rest)
      else
        match ParseHeader(text)
        case BadHeader(e) => HeadersFailed(e)
        case Entry(h) =>
          if h.key == CONTENT_LENGTH && Lookup(acc, CONTENT_LENGTH).None? && ParseUsize(h.value).None? then
            HeadersFailed(BadContentLength(h.value))
          else
            ParseHeaders(rest, acc + [h])
  }

  /** The declared body length: the first content-length entry, when it denotes a number. */
  function DeclaredLength(hs: seq<Header>): Option<nat> {
    match Lookup(hs, CONTENT_LENGTH)
    case None => None
    case Some(v) => ParseUsize(v)
  }

  function ParseBody(command: Bytes, headers: seq<Header>, c: Bytes): (r: ParseResult)
    ensures r.Parsed? ==> |r.rest| + |r.frame.body| + 1 == |c|
  {
    match DeclaredLength(headers)
    case Some(n) =>
      if |c| < n + 1 then Incomplete
      else if c[n] != NUL then
        Failed(ContentLengthMismatch(n, match IndexOf(NUL, c[..n]) case Some(i) => i case None => n))
      else Parsed(Frame(command, headers, c[..n]), c[n + 1..])
    case None =>
      match IndexOf(NUL, c)
      case None => Incomplete
      case Some(i) => Parsed(Frame(command, headers, c[..i]), c[i + 1..])
  }

  /** `parse_frame`. Every frame takes at least four bytes. */
  function ParseFrame(input: Bytes): (r: ParseResult)
    ensures r.Parsed? ==> |r.rest| + 4 <= |input|
  {
    var c := SkipHeartbeats(input);
    if c == [] then Incomplete
    else
      match NextLine(c)
      case None => Incomplete
      case Some(Line(text, rest)) =>
        if text == [] then Failed(Malformed("empty command line"))
        else if !ValidUtf8(text) then Failed(Utf8Error(text))
        else
          match ParseHeaders(rest, [])
          case MoreHeaders => Incomplete
          case HeadersFailed(e) => Failed(e)
          case HeadersDone(headers, rest') => ParseBody(text, headers, rest')
  }
}
