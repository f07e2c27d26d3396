/** What a whole session writes, from the bytes it receives: every reply, which ERROR answers which
    refusal, what a failing write takes away, and one session from end to end. */
module Sessions {
  import opened Prelude
  import opened Bytes
  import opened Stomp
  import opened StompProofs
  import opened Server
  import opened ServerProofs

  // ---------------------------------------------------------- said of the frames alone

  /** After the handshake, a frame that ends the connection. */
  predicate Ends(f: Frame) {
    IsConnect(f) || IsDisconnect(f)
  }

  function UpToEnd(fs: seq<Frame>): seq<Frame> {
    if fs == [] then [] else if Ends(fs[0]) then [fs[0]] else [fs[0]] + UpToEnd(fs[1..])
  }

  /** The frames accepted of those received. */
  function Accepted(fs: seq<Frame>): seq<Frame> {
    if fs != [] && IsConnect(fs[0]) then [fs[0]] + UpToEnd(fs[1..]) else []
  }

  /** The reply that ends the connection, if any: after the frames `t`, when what follows the frames
      received reads as `end`. */
  function EndReply(env: Env, t: seq<Frame>, end: ParseResult): seq<Reply> {
    if t != [] && IsConnect(t[|t| - 1]) then [Error(Ascii("already connected"), [])]
    else if t != [] && IsDisconnect(t[|t| - 1]) then ReceiptFor(t[|t| - 1])
    else if end.Failed? then [Error(Ascii("malformed frame"), env.describe(end.error))]
    else []
  }

  predicate Closes(t: seq<Frame>, end: ParseResult) {
    (t != [] && Ends(t[|t| - 1])) || end.Failed?
  }

  function Replies(env: Env, fs: seq<Frame>, end: ParseResult): seq<Reply> {
    if fs == [] then EndReply(env, [], end)
    else if !IsConnect(fs[0]) then [Error(Ascii("expected CONNECT"), [])]
    else [Connected] + Messages(env, Accepted(fs)) + EndReply(env, UpToEnd(fs[1..]), end)
  }

  // ------------------------------------------------------------------ after the handshake

  /** The state reached from `s` when `t` is accepted and the connection then stands as `end` says. */
  predicate Reaches(env: Env, s: State, t: seq<Frame>, end: ParseResult, s': State) {
    && s'.handled == s.handled + t && s'.closed == Closes(t, end)
    && s'.out == [Connected] + Messages(env, s.handled + t) + EndReply(env, t, end)
  }

  lemma EndStep(env: Env, s: State, f: Frame, end: ParseResult)
    requires Inv(env, s) && s.connected && !s.closed && Ends(f)
    ensures Reaches(env, s, [f], end, Handle(env, s, f)) && Handle(env, s, f).closed
  {
    KindsByName(f);
    HandleQuiet(env, s, f);
    HistoryStep(env, s.handled, f);
  }

  lemma GoOn(env: Env, s: State, f: Frame)
    requires Inv(env, s) && s.connected && !s.closed && !Ends(f)
    ensures var s' := Handle(env, s, f);
            Inv(env, s') && s'.connected && !s'.closed && s'.handled == s.handled + [f]
  {
    InvStep(env, s, f);
    if IsSend(f) {
      HandleSends(env, s, f);
    } else {
      HandleQuiet(env, s, f);
    }
  }

  lemma ReachOn(env: Env, s: State, f: Frame, s1: State, t: seq<Frame>, end: ParseResult, s': State)
    requires s1.handled == s.handled + [f] && !Ends(f) && Reaches(env, s1, t, end, s')
    ensures Reaches(env, s, [f] + t, end, s')
  {
    assert s.handled + [f] + t == s.handled + ([f] + t);
    assert t != [] ==> ([f] + t)[|t|] == t[|t| - 1];
  }

  lemma {:induction false} PumpReaches(env: Env, s: State, buf: Bytes)
    requires env.accepts.None? && Inv(env, s) && s.connected && !s.closed
    ensures Reaches(env, s, UpToEnd(Drain(buf).frames), Drain(buf).end, Pump(env, s, buf).state)
    decreases |buf|
  {
    match ParseFrame(buf)
    case Incomplete => Stands(env, s, Drain(buf).end);
    case Failed(e) => Stands(env, s, Drain(buf).end);
    case Parsed(f, rest) =>
      var d := Drain(rest);
      assert Drain(buf).frames[0] == f && Drain(buf).frames[1..] == d.frames;
      if Ends(f) {
        EndStep(env, s, f, d.end);
      } else {
        var s1 := Handle(env, s, f);
        GoOn(env, s, f);
        PumpReaches(env, s1, rest);
        ReachOn(env, s, f, s1, UpToEnd(d.frames), d.end, Pump(env, s1, rest).state);
      }
  }

  lemma Stands(env: Env, s: State, end: ParseResult)
    requires Inv(env, s) && s.connected && !s.closed && !end.Parsed?
    ensures Reaches(env, s, [], end,
                    if end.Failed? then Close(s, Error(MALFORMED, env.describe(end.error))) else s)
  {
    assert s.handled + [] == s.handled;
    assert MALFORMED == Ascii("malformed frame");
  }

  // ------------------------------------------------------------------- whole sessions

  lemma Greeted(env: Env, f: Frame)
    requires IsConnect(f)
    ensures var s := Handle(env, START, f);
            Inv(env, s) && s.connected && !s.closed && s.handled == [f]
  {
    KindsByName(f);
    InvOpen(env, START, f);
    assert [] + [f] == [f];
  }

  lemma Refused(env: Env, f: Frame)
    requires !IsConnect(f)
    ensures var s := Handle(env, START, f);
            s.closed && s.handled == [] && s.out == [Error(Ascii("expected CONNECT"), [])]
  {
    KindsByName(f);
    assert EXPECTED_CONNECT == Ascii("expected CONNECT");
  }

  lemma NoFrameYet(env: Env, whole: Bytes)
    requires !ParseFrame(whole).Parsed?
    ensures var s := Pump(env, START, whole).state;
            s.handled == [] && s.out == EndReply(env, [], ParseFrame(whole))
  {
    assert MALFORMED == Ascii("malformed frame");
  }

  lemma FirstDrained(whole: Bytes, f: Frame, rest: Bytes)
    requires ParseFrame(whole) == Parsed(f, rest)
    ensures Drain(whole).frames != [] && Drain(whole).frames[0] == f
    ensures Drain(whole).frames[1..] == Drain(rest).frames && Drain(whole).end == Drain(rest).end
  {
  }

  lemma AfterGreeting(env: Env, f: Frame, rest: Bytes)
    requires env.accepts.None? && IsConnect(f)
    ensures var s, t := Pump(env, Handle(env, START, f), rest).state, UpToEnd(Drain(rest).frames);
            s.handled == [f] + t && s.out == [Connected] + Messages(env, [f] + t) + EndReply(env, t, Drain(rest).end)
  {
    Greeted(env, f);
    PumpReaches(env, Handle(env, START, f), rest);
  }

  lemma PumpExactly(env: Env, whole: Bytes)
    requires env.accepts.None?
    ensures var s, d := Pump(env, START, whole).state, Drain(whole);
            s.handled == Accepted(d.frames) && s.out == Replies(env, d.frames, d.end)
  {
    if ParseFrame(whole).Parsed? {
      var f, rest := ParseFrame(whole).frame, ParseFrame(whole).rest;
      FirstDrained(whole, f, rest);
      if IsConnect(f) {
        AfterGreeting(env, f, rest);
      } else {
        Refused(env, f);
      }
    } else {
      NoFrameYet(env, whole);
    }
  }

  /** Everything a connection accepts and replies, from the frames in the bytes it received and from how
      these bytes go on. */
  lemma OutputExactly(env: Env, chunks: seq<Bytes>)
    requires NonEmpty(chunks) && env.accepts.None?
    ensures var s, d := Serve(env, chunks).state, Drain(Join(chunks));
            s.handled == Accepted(d.frames) && s.out == Replies(env, d.frames, d.end)
  {
    RunIsPump(env, Conn(START, []), chunks);
    assert [] + Join(chunks) == Join(chunks);
    PumpExactly(env, Join(chunks));
  }

  // --------------------------------------------------------------- when a write fails

  lemma HandleFree(env: Env, s: State, f: Frame)
    ensures Handle(env.(accepts := None), s, f) == Handle(env, s, f)
  {
  }

  lemma {:induction false} JoinPrefix(a: seq<Bytes>, b: seq<Bytes>)
    requires a <= b
    ensures |Join(a)| <= |Join(b)|
    decreases |a|
  {
    if a != [] {
      JoinPrefix(a[1..], b[1..]);
    }
  }

  lemma BrokenGrows(env: Env, a: seq<Reply>, b: seq<Reply>)
    requires a <= b && Broken(env, a)
    ensures Broken(env, b)
  {
    JoinPrefix(Prints(Built(env, a)), Prints(Built(env, b)));
  }

  /** `a` is `b`, or was cut short by a failed write on the way there. */
  predicate CutOf(env: Env, a: State, b: State) {
    a == b || (a.closed && Broken(env, a.out) && a.out <= b.out && a.calls <= b.calls && a.handled <= b.handled)
  }

  lemma {:induction false} PumpCut(env: Env, s: State, buf: Bytes)
    ensures CutOf(env, Pump(env, s, buf).state, Pump(env.(accepts := None), s, buf).state)
    decreases |buf|
  {
    if !s.closed && ParseFrame(buf).Parsed? {
      var free, rest := env.(accepts := None), ParseFrame(buf).rest;
      var s' := Handle(env, s, ParseFrame(buf).frame);
      HandleFree(env, s, ParseFrame(buf).frame);
      if Broken(env, s'.out) {
        PumpGrows(free, s', rest);
      } else {
        PumpCut(env, s', rest);
      }
    }
  }

  /** A failing write only cuts a session short: what was accepted, called and begun is a prefix of what
      it would have been, and unless some reply really did not fit, nothing differs. */
  lemma FailureOnlyCuts(env: Env, chunks: seq<Bytes>)
    requires NonEmpty(chunks)
    ensures var a, b := Serve(env, chunks).state, Serve(env.(accepts := None), chunks).state;
            && a.out <= b.out && a.calls <= b.calls && a.handled <= b.handled
            && (!Broken(env, b.out) ==> a == b)
  {
    var free := env.(accepts := None);
    RunIsPump(env, Conn(START, []), chunks);
    RunIsPump(free, Conn(START, []), chunks);
    PumpCut(env, START, [] + Join(chunks));
    var a, b := Serve(env, chunks).state, Serve(free, chunks).state;
    if a != b {
      BrokenGrows(env, a.out, b.out);
    }
  }

  /** An empty read is the peer closing: nothing after it is looked at. */
  lemma PeerCloses(env: Env, a: seq<Bytes>, b: seq<Bytes>)
    requires NonEmpty(a)
    ensures Serve(env, a + ([[]] + b)) == Serve(env, a)
  {
    RunAppend(env, Conn(START, []), a, [[]] + b);
  }

  // -------------------------------------------------------- one session from end to end

  function SubscribeFrame(id: Bytes, dest: Bytes): Frame {
    Frame(Ascii("SUBSCRIBE"), [Header(Ascii("id"), id), Header(Ascii("destination"), dest)], [])
  }

  function SendFrame(body: Bytes): Frame {
    Frame(Ascii("SEND"), [Header(Ascii("content-length"), ToDecimal(|body|))], body)
  }

  function DisconnectFrame(receipt: Bytes): Frame {
    Frame(Ascii("DISCONNECT"), [Header(Ascii("receipt"), receipt)], [])
  }

  lemma SubscribeSendable(id: Bytes, dest: Bytes)
    requires ValidUtf8(id) && ValidUtf8(dest)
    ensures Sendable(SubscribeFrame(id, dest))
  {
    PlainLiteral("SUBSCRIBE");
    PlainLiteral("id");
    PlainLiteral("destination");
    TwoPlain(Ascii("id"), id, Ascii("destination"), dest);
    BareSendable(Ascii("SUBSCRIBE"), [Header(Ascii("id"), id), Header(Ascii("destination"), dest)]);
  }

  lemma DisconnectSendable(receipt: Bytes)
    requires ValidUtf8(receipt)
    ensures Sendable(DisconnectFrame(receipt))
  {
    PlainLiteral("DISCONNECT");
    PlainLiteral("receipt");
    OnePlain(Ascii("receipt"), receipt);
    BareSendable(Ascii("DISCONNECT"), [Header(Ascii("receipt"), receipt)]);
  }

  lemma OnePlain(k: Bytes, v: Bytes)
    requires Plain(k) && ValidUtf8(v)
    ensures PlainKeys([Header(k, v)])
  {
    PlainTyped(k);
  }

  lemma SendSendable(body: Bytes)
    requires |body| <= USIZE_MAX
    ensures Sendable(SendFrame(body))
  {
    var f := SendFrame(body);
    PlainLiteral("SEND");
    LengthReads(f.headers[0], |body|);
    LengthOnlySendable(f.command, f.headers[0], body);
  }

  lemma LengthReads(h: Header, n: nat)
    requires h == Header(CONTENT_LENGTH, ToDecimal(n)) && n <= USIZE_MAX
    ensures ValidUtf8(h.key) && ValidUtf8(h.value) && ParseUsize(h.value) == Some(n)
  {
    LengthTyped(n);
    ParsePrinted(n);
  }

  lemma LengthOnlySendable(command: Bytes, h: Header, body: Bytes)
    requires Plain(command) && h.key == CONTENT_LENGTH && ValidUtf8(h.key) && ValidUtf8(h.value)
    requires ParseUsize(h.value) == Some(|body|)
    ensures Sendable(Frame(command, [h], body))
  {
    PlainTyped(command);
    assert Lookup([h], CONTENT_LENGTH) == Some(h.value);
  }

  /** Subscribe, ask, disconnect: whoever does so is answered with CONNECTED, with one MESSAGE to the
      destination and the subscription it named, holding the response to its request, and with the
      RECEIPT it asked for, however its bytes arrive. */
  lemma SessionAnswered(env: Env, hello: Frame, id: Bytes, dest: Bytes, body: Bytes, receipt: Bytes, chunks: seq<Bytes>)
    requires env.Valid() && env.accepts.None? && Sendable(hello) && IsConnect(hello)
    requires ValidUtf8(id) && ValidUtf8(dest) && ValidUtf8(receipt) && ValidUtf8(body) && |body| <= USIZE_MAX
    requires env.decode(body).Some? && env.decode(body).value.id.Some?
    requires NonEmpty(chunks)
    requires Join(chunks) ==
             Join(Prints([hello, SubscribeFrame(id, dest), SendFrame(body), DisconnectFrame(receipt)]))
    ensures var req := env.decode(body).value;
            var outcome := env.invoke([], Call(req.verb, req.params));
            Serve(env, chunks).state.out ==
            [Connected, Message(dest, id, env.encode(Response(req.id, outcome))), Receipt(receipt)]
  {
    SessionDrained(hello, id, dest, body, receipt);
    SessionServed(env, hello, id, dest, body, receipt, chunks);
  }

  lemma SessionServed(env: Env, hello: Frame, id: Bytes, dest: Bytes, body: Bytes, receipt: Bytes, chunks: seq<Bytes>)
    requires env.Valid() && env.accepts.None? && NonEmpty(chunks) && IsConnect(hello) && ValidUtf8(body)
    requires env.decode(body).Some? && env.decode(body).value.id.Some?
    requires Drain(Join(chunks)) ==
             Drained([hello, SubscribeFrame(id, dest), SendFrame(body), DisconnectFrame(receipt)], Incomplete, [])
    ensures var req := env.decode(body).value;
            var outcome := env.invoke([], Call(req.verb, req.params));
            Serve(env, chunks).state.out ==
            [Connected, Message(dest, id, env.encode(Response(req.id, outcome))), Receipt(receipt)]
  {
    var bye := DisconnectFrame(receipt);
    SessionMessage(env, hello, id, dest, body, bye);
    FourServed(env, hello, SubscribeFrame(id, dest), SendFrame(body), bye, chunks);
    ReceiptAsked(receipt);
  }

  lemma ReceiptAsked(receipt: Bytes)
    ensures ReceiptFor(DisconnectFrame(receipt)) == [Receipt(receipt)]
  {
  }

  lemma SessionDrained(hello: Frame, id: Bytes, dest: Bytes, body: Bytes, receipt: Bytes)
    requires Sendable(hello) && ValidUtf8(id) && ValidUtf8(dest) && ValidUtf8(receipt) && |body| <= USIZE_MAX
    ensures var fs := [hello, SubscribeFrame(id, dest), SendFrame(body), DisconnectFrame(receipt)];
            Drain(Join(Prints(fs))) == Drained(fs, Incomplete, [])
  {
    SubscribeSendable(id, dest);
    SendSendable(body);
    DisconnectSendable(receipt);
    FourReadBack(hello, SubscribeFrame(id, dest), SendFrame(body), DisconnectFrame(receipt));
  }

  lemma FourReadBack(a: Frame, b: Frame, c: Frame, d: Frame)
    requires Sendable(a) && Sendable(b) && Sendable(c) && Sendable(d)
    ensures Drain(Join(Prints([a, b, c, d]))) == Drained([a, b, c, d], Incomplete, [])
  {
    FramesReadBack([a, b, c, d]);
  }

  lemma FourServed(env: Env, hello: Frame, sub: Frame, send: Frame, bye: Frame, chunks: seq<Bytes>)
    requires env.accepts.None? && NonEmpty(chunks)
    requires Drain(Join(chunks)) == Drained([hello, sub, send, bye], Incomplete, [])
    requires IsConnect(hello) && IsSubscribe(sub) && IsSend(send) && IsDisconnect(bye)
    ensures Serve(env, chunks).state.out == [Connected] + Messages(env, [hello, sub, send, bye]) + ReceiptFor(bye)
  {
    OutputExactly(env, chunks);
    SessionReplies(env, hello, sub, send, bye);
  }

  lemma SessionReplies(env: Env, hello: Frame, sub: Frame, send: Frame, bye: Frame)
    requires IsConnect(hello) && IsSubscribe(sub) && IsSend(send) && IsDisconnect(bye)
    ensures var fs := [hello, sub, send, bye];
            Replies(env, fs, Incomplete) == [Connected] + Messages(env, fs) + ReceiptFor(bye)
  {
    SessionAccepted(hello, sub, send, bye);
    KindsByName(bye);
  }

  lemma SessionAccepted(hello: Frame, sub: Frame, send: Frame, bye: Frame)
    requires IsConnect(hello) && IsSubscribe(sub) && IsSend(send) && IsDisconnect(bye)
    ensures UpToEnd([sub, send, bye]) == [sub, send, bye]
    ensures [hello, sub, send, bye][1..] == [sub, send, bye]
    ensures Accepted([hello, sub, send, bye]) == [hello, sub, send, bye]
  {
    KindsByName(sub);
    KindsByName(send);
    assert [sub, send, bye][1..] == [send, bye] && [send, bye][1..] == [bye] && [bye][1..] == [];
    assert UpToEnd([send, bye]) == [send] + UpToEnd([bye]);
  }

  lemma SessionMessage(env: Env, hello: Frame, id: Bytes, dest: Bytes, body: Bytes, bye: Frame)
    requires env.Valid() && IsConnect(hello) && IsDisconnect(bye) && ValidUtf8(body)
    requires env.decode(body).Some? && env.decode(body).value.id.Some?
    ensures var req := env.decode(body).value;
            var outcome := env.invoke([], Call(req.verb, req.params));
            Messages(env, [hello, SubscribeFrame(id, dest), SendFrame(body), bye]) ==
            [Message(dest, id, env.encode(Response(req.id, outcome)))]
  {
    var sub, send := SubscribeFrame(id, dest), SendFrame(body);
    SubscribedOnce(env, hello, id, dest);
    OneMessage(env, [hello] + [sub], send, bye, id, dest);
    assert [hello] + [sub] + [send] + [bye] == [hello, sub, send, bye];
  }

  lemma OneMessage(env: Env, h: seq<Frame>, send: Frame, bye: Frame, id: Bytes, dest: Bytes)
    requires env.Valid() && IsSend(send) && IsDisconnect(bye) && Lookup(send.headers, Ascii("reply-to")).None?
    requires SubsOf(h) == map[id := dest] && CallsOf(env, h) == [] && Messages(env, h) == []
    requires ValidUtf8(send.body) && env.decode(send.body).Some? && env.decode(send.body).value.id.Some?
    ensures var req := env.decode(send.body).value;
            var outcome := env.invoke([], Call(req.verb, req.params));
            Messages(env, h + [send] + [bye]) == [Message(dest, id, env.encode(Response(req.id, outcome)))]
  {
    KindsByName(bye);
    HistoryStep(env, h, send);
    HistoryStep(env, h + [send], bye);
    assert (h + [send])[..|h|] == h;
    OnlyRoute(env, h, send, id, dest, env.encode(ResponseDue(env, h + [send]).value));
  }

  lemma SubscribedOnce(env: Env, hello: Frame, id: Bytes, dest: Bytes)
    requires IsConnect(hello)
    ensures var h := [hello] + [SubscribeFrame(id, dest)];
            SubsOf(h) == map[id := dest] && CallsOf(env, h) == [] && Messages(env, h) == []
  {
    var sub := SubscribeFrame(id, dest);
    FirstFrame(env, hello);
    HistoryStep(env, [hello], sub);
    KindsByName(sub);
    assert ID == Ascii("id") && DESTINATION == Ascii("destination");
    assert sub.headers[1..][0].key == Ascii("destination") && |Ascii("id")| == 2 && |Ascii("destination")| == 11;
    assert Lookup(sub.headers, DESTINATION) == Lookup(sub.headers[1..], DESTINATION);
  }

  /** With one subscription there is only one way to route. */
  lemma OnlyRoute(env: Env, h: seq<Frame>, f: Frame, id: Bytes, dest: Bytes, body: Bytes)
    requires env.Valid() && SubsOf(h) == map[id := dest] && Lookup(f.headers, Ascii("reply-to")).None?
    ensures RouteReply(env.order(h, SubsOf(h)), SubsOf(h), f, body) == Message(dest, id, body)
  {
    var subs := SubsOf(h);
    var keys := env.order(h, subs);
    assert id in subs && id in keys && keys[0] in keys;
    assert REPLY_TO == Ascii("reply-to");
  }
}
