/** Theorems over every run of a STOMP connection. */
module ServerProofs {
  import opened Prelude
  import opened Bytes
  import opened Stomp
  import opened StompProofs
  import opened Server

  // ------------------------------------------------ chunking does not matter

  predicate NonEmpty(chunks: seq<Bytes>) {
    forall i :: 0 <= i < |chunks| ==> chunks[i] != []
  }

  /** Pumping more bytes continues from where pumping fewer of them stopped. */
  lemma {:induction false} PumpExtend(env: Env, s: State, buf: Bytes, x: Bytes)
    ensures var c := Pump(env, s, buf);
            Pump(env, s, buf + x) == Pump(env, c.state, c.buf + x)
    decreases |buf|
  {
    if !s.closed && !ParseFrame(buf).Incomplete? {
      ParseExtend(buf, x);
      if ParseFrame(buf).Parsed? {
        var f, rest := ParseFrame(buf).frame, ParseFrame(buf).rest;
        PumpExtend(env, Cut(env, Handle(env, s, f)), rest, x);
      }
    }
  }

  lemma PumpSettles(env: Env, s: State, buf: Bytes)
    ensures var c := Pump(env, s, buf);
            Pump(env, c.state, c.buf) == c
  {
    PumpExtend(env, s, buf, []);
    assert buf + [] == buf && Pump(env, s, buf).buf + [] == Pump(env, s, buf).buf;
  }

  lemma {:induction false} RunIsPump(env: Env, c: Conn, chunks: seq<Bytes>)
    requires NonEmpty(chunks) && Pump(env, c.state, c.buf) == c
    ensures var whole := Pump(env, c.state, c.buf + Join(chunks));
            && Run(env, c, chunks).state == whole.state
            && (!whole.state.closed ==> Run(env, c, chunks) == whole)
    decreases |chunks|
  {
    if chunks == [] {
      assert c.buf + [] == c.buf;
    } else if !c.state.closed {
      var buf, rest := c.buf + chunks[0], Join(chunks[1..]);
      assert c.buf + Join(chunks) == buf + rest;
      PumpExtend(env, c.state, buf, rest);
      PumpSettles(env, c.state, buf);
      RunIsPump(env, Pump(env, c.state, buf), chunks[1..]);
    }
  }

  /** Chunking does not matter: however the same bytes are cut into non-empty reads, the connection
      accepts the same frames, makes the same calls, reaches the same state and writes the same
      bytes; if it is still open, the same bytes wait in its buffer. */
  lemma ChunkingIrrelevant(env: Env, a: seq<Bytes>, b: seq<Bytes>)
    requires NonEmpty(a) && NonEmpty(b) && Join(a) == Join(b)
    ensures Serve(env, a).state == Serve(env, b).state
    ensures Wire(env, Serve(env, a).state.out) == Wire(env, Serve(env, b).state.out)
    ensures !Serve(env, a).state.closed ==> Serve(env, a).buf == Serve(env, b).buf
  {
    RunIsPump(env, Conn(START, []), a);
    RunIsPump(env, Conn(START, []), b);
  }

  // --------------------------------------- the frames handled, the bytes consumed

  lemma HandleRecords(env: Env, s: State, f: Frame)
    ensures var s' := Handle(env, s, f);
            s'.handled == s.handled + [f] || (s'.closed && s'.handled == s.handled)
  {
  }

  lemma {:induction false} PumpSuffix(env: Env, s: State, buf: Bytes)
    ensures Suffix(Pump(env, s, buf).buf, buf)
    decreases |buf|
  {
    if !s.closed && ParseFrame(buf).Parsed? {
      var rest := ParseFrame(buf).rest;
      PumpSuffix(env, Cut(env, Handle(env, s, ParseFrame(buf).frame)), rest);
      ParsedSuffix(buf);
      SuffixTrans(Pump(env, s, buf).buf, rest, buf);
    }
  }

  ghost predicate Drains(s: State, buf: Bytes, c: Conn) {
    && c.state.handled <= s.handled + Drain(buf).frames
    && (!c.state.closed ==>
          c.state.handled == s.handled + Drain(buf).frames && c.buf == Drain(buf).rest)
  }

  lemma {:induction false} PumpDrains(env: Env, s: State, buf: Bytes)
    ensures Drains(s, buf, Pump(env, s, buf))
    decreases |buf|
  {
    if !s.closed && ParseFrame(buf).Parsed? {
      var f, rest := ParseFrame(buf).frame, ParseFrame(buf).rest;
      var s' := Cut(env, Handle(env, s, f));
      HandleRecords(env, s, f);
      PumpDrains(env, s', rest);
      DrainsStep(s, f, s', buf, Pump(env, s', rest));
    }
  }

  lemma DrainsStep(s: State, f: Frame, s': State, buf: Bytes, c: Conn)
    requires ParseFrame(buf).Parsed? && ParseFrame(buf).frame == f
    requires s'.handled == s.handled + [f] || (s'.closed && s'.handled == s.handled)
    requires s'.closed ==> c.state == s'
    requires Drains(s', ParseFrame(buf).rest, c)
    ensures Drains(s, buf, c)
  {
    var fs := Drain(ParseFrame(buf).rest).frames;
    assert Drain(buf).frames == [f] + fs;
    PrependFrame(s.handled, f, fs);
  }

  lemma PrependFrame(hs: seq<Frame>, f: Frame, fs: seq<Frame>)
    ensures hs + [f] + fs == hs + ([f] + fs)
    ensures hs <= hs + ([f] + fs)
  {
  }

  /** Consumed and buffered bytes are together the received ones, and an open connection has
      handled exactly the frames the codec finds in what it received. */
  lemma ServeDrains(env: Env, chunks: seq<Bytes>)
    requires NonEmpty(chunks)
    ensures var c := Serve(env, chunks);
            var received := Join(chunks);
            && c.state.handled <= Drain(received).frames
            && (!c.state.closed ==>
                  && c.state.handled == Drain(received).frames
                  && c.buf == Drain(received).rest
                  && Suffix(c.buf, received))
  {
    RunIsPump(env, Conn(START, []), chunks);
    assert [] + Join(chunks) == Join(chunks);
    PumpDrains(env, START, Join(chunks));
    PumpSuffix(env, START, Join(chunks));
    assert [] + Drain(Join(chunks)).frames == Drain(Join(chunks)).frames;
  }

  // ------------------------------------------------------- frames by their commands

  predicate IsConnect(f: Frame) { f.command == Ascii("CONNECT") || f.command == Ascii("STOMP") }
  predicate IsSubscribe(f: Frame) { f.command == Ascii("SUBSCRIBE") }
  predicate IsUnsubscribe(f: Frame) { f.command == Ascii("UNSUBSCRIBE") }
  predicate IsSend(f: Frame) { f.command == Ascii("SEND") }
  predicate IsDisconnect(f: Frame) { f.command == Ascii("DISCONNECT") }

  lemma KindsByName(f: Frame)
    ensures KindOf(f) == Connect <==> IsConnect(f)
    ensures KindOf(f) == Subscribe <==> IsSubscribe(f)
    ensures KindOf(f) == Unsubscribe <==> IsUnsubscribe(f)
    ensures KindOf(f) == Send <==> IsSend(f)
    ensures KindOf(f) == Disconnect <==> IsDisconnect(f)
  {
    // no two of the six commands have the same length
  }

  // ------------------------------------------------- what a history determines

  /** The subscriptions left by a history. */
  function SubsOf(hs: seq<Frame>): Subs {
    if hs == [] then map[] else Apply(SubsOf(hs[..|hs| - 1]), hs[|hs| - 1])
  }

  /** The dispatcher calls made by a history: one for each SEND that is a readable request. */
  function CallsOf(env: Env, hs: seq<Frame>): seq<Call> {
    if hs == [] then []
    else
      var f := hs[|hs| - 1];
      CallsOf(env, hs[..|hs| - 1])
      + if IsSend(f) && ValidUtf8(f.body) && env.decode(f.body).Some?
        then [Call(env.decode(f.body).value.verb, env.decode(f.body).value.params)] else []
  }

  /** The answer due to the last frame of a history: none unless it is a SEND that is valid UTF-8
      and is unreadable, carries an id or failed. */
  function ResponseDue(env: Env, hs: seq<Frame>): Option<Response>
    requires hs != []
  {
    var f := hs[|hs| - 1];
    if IsSend(f) then Dispatch(env, CallsOf(env, hs[..|hs| - 1]), f).response else None
  }

  /** The MESSAGE due to the last frame of a history. */
  function MessageDue(env: Env, hs: seq<Frame>): Reply
    requires hs != [] && ResponseDue(env, hs).Some?
  {
    var before := hs[..|hs| - 1];
    var subs := SubsOf(before);
    RouteReply(env.order(before, subs), subs, hs[|hs| - 1], env.encode(ResponseDue(env, hs).value))
  }

  function Messages(env: Env, hs: seq<Frame>): (out: seq<Reply>)
    ensures forall i :: 0 <= i < |out| ==> out[i].Message?
  {
    if hs == [] then []
    else
      var before := Messages(env, hs[..|hs| - 1]);
      if ResponseDue(env, hs).Some? then before + [MessageDue(env, hs)] else before
  }

  // ------------------------------------------------------ the run invariant

  /** The RECEIPT a DISCONNECT asks for. */
  function ReceiptFor(f: Frame): seq<Reply> {
    match Lookup(f.headers, Ascii("receipt"))
    case Some(id) => [Receipt(id)]
    case None => []
  }

  /** What may follow the MESSAGEs when `last` is the last frame accepted: after a DISCONNECT exactly
      its receipt, and the connection is closed; otherwise nothing, or one ERROR that closes it. */
  predicate Closing(last: Frame, end: seq<Reply>, closed: bool) {
    if IsDisconnect(last) then closed && end == ReceiptFor(last)
    else end == [] || (closed && |end| == 1 && end[0].Error?)
  }

  predicate OutIs(env: Env, s: State, end: seq<Reply>) {
    && s.out == [Connected] + Messages(env, s.handled) + end
    && s.handled != [] && Closing(s.handled[|s.handled| - 1], end, s.closed)
  }

  /** What holds of every state of every connection: before the handshake nothing was accepted,
      called or written but perhaps one closing ERROR; after it, subscriptions, calls and output
      are those of the accepted history. */
  ghost predicate Inv(env: Env, s: State) {
    if !s.connected then
      && s.handled == [] && s.calls == [] && s.subs == map[]
      && (s.out == [] || (s.closed && |s.out| == 1 && s.out[0].Error?))
    else
      && s.handled != [] && IsConnect(s.handled[0])
      && s.calls == CallsOf(env, s.handled)
      && s.subs == SubsOf(s.handled)
      && (exists end :: OutIs(env, s, end))
      && (!s.closed ==> OutIs(env, s, []))
  }

  lemma HistoryStep(env: Env, hs: seq<Frame>, f: Frame)
    ensures SubsOf(hs + [f]) == Apply(SubsOf(hs), f)
    ensures CallsOf(env, hs + [f]) ==
            CallsOf(env, hs) + (if IsSend(f) then Dispatch(env, CallsOf(env, hs), f).calls else [])
    ensures ResponseDue(env, hs + [f]) ==
            if IsSend(f) then Dispatch(env, CallsOf(env, hs), f).response else None
    ensures Messages(env, hs + [f]) ==
            Messages(env, hs) + (if ResponseDue(env, hs + [f]).Some? then [MessageDue(env, hs + [f])] else [])
  {
    assert (hs + [f])[..|hs|] == hs;
  }

  lemma HandleSends(env: Env, s: State, f: Frame)
    requires s.connected && IsSend(f)
    ensures Handle(env, s, f) == HandleSend(env, s, f)
  {
    KindsByName(f);
  }

  lemma SendStep(env: Env, s: State, f: Frame)
    requires Inv(env, s) && s.connected && !s.closed && IsSend(f)
    ensures Inv(env, Handle(env, s, f))
  {
    HandleSends(env, s, f);
    HistoryStep(env, s.handled, f);
    SendReplies(env, s, f);
    assert OutIs(env, HandleSend(env, s, f), []);
  }

  /** The reply to a SEND is the MESSAGE due to it. */
  lemma SendReplies(env: Env, s: State, f: Frame)
    requires IsSend(f) && s.calls == CallsOf(env, s.handled) && s.subs == SubsOf(s.handled)
    ensures var s' := HandleSend(env, s, f);
            && s'.calls == CallsOf(env, s.handled + [f])
            && s'.out == s.out + (if ResponseDue(env, s.handled + [f]).Some? then [MessageDue(env, s.handled + [f])] else [])
  {
    HistoryStep(env, s.handled, f);
    assert (s.handled + [f])[..|s.handled|] == s.handled;
  }

  /** A frame accepted after the handshake that is not a SEND: it may change the subscriptions,
      and may close the connection with at most one more frame. */
  lemma QuietStep(env: Env, s: State, f: Frame, subs: Subs, end: seq<Reply>, closed: bool)
    requires Inv(env, s) && s.connected && !s.closed && !IsSend(f)
    requires subs == Apply(s.subs, f) && Closing(f, end, closed) && (!closed ==> end == [])
    ensures Inv(env, s.(handled := s.handled + [f], subs := subs, out := s.out + end, closed := closed))
  {
    var s' := s.(handled := s.handled + [f], subs := subs, out := s.out + end, closed := closed);
    HistoryStep(env, s.handled, f);
    assert OutIs(env, s', end);
  }

  /** What a non-SEND frame writes after the handshake. */
  function Farewell(f: Frame): seq<Reply> {
    if IsConnect(f) then [Error(Ascii("already connected"), [])]
    else if IsDisconnect(f) then ReceiptFor(f)
    else []
  }

  lemma HandleQuiet(env: Env, s: State, f: Frame)
    requires s.connected && !s.closed && !IsSend(f)
    ensures Handle(env, s, f) ==
            s.(handled := s.handled + [f], subs := Apply(s.subs, f), out := s.out + Farewell(f),
               closed := IsConnect(f) || IsDisconnect(f))
  {
    KindsByName(f);
  }

  lemma InvOpen(env: Env, s: State, f: Frame)
    requires Inv(env, s) && !s.closed && !s.connected
    ensures Inv(env, Handle(env, s, f))
  {
    KindsByName(f);
    if IsConnect(f) {
      FirstFrame(env, f);
      assert [] + [f] == [f];
      assert OutIs(env, Handle(env, s, f), []);
    }
  }

  lemma InvStep(env: Env, s: State, f: Frame)
    requires Inv(env, s) && !s.closed
    ensures Inv(env, Handle(env, s, f))
  {
    if !s.connected {
      InvOpen(env, s, f);
    } else if IsSend(f) {
      SendStep(env, s, f);
    } else {
      HandleQuiet(env, s, f);
      QuietStep(env, s, f, Apply(s.subs, f), Farewell(f), IsConnect(f) || IsDisconnect(f));
    }
  }

  lemma FirstFrame(env: Env, f: Frame)
    requires IsConnect(f)
    ensures SubsOf([f]) == map[] && CallsOf(env, [f]) == [] && Messages(env, [f]) == []
  {
    KindsByName(f);
    HistoryStep(env, [], f);
    assert [] + [f] == [f];
  }

  lemma MalformedStep(env: Env, s: State, r: Reply)
    requires Inv(env, s) && !s.closed && r.Error?
    ensures Inv(env, Close(s, r))
  {
    if s.connected {
      assert OutIs(env, Close(s, r), [r]);
    }
  }

  lemma CutInv(env: Env, s: State)
    requires Inv(env, s)
    ensures Inv(env, Cut(env, s))
  {
    if s.connected {
      var end :| OutIs(env, s, end);
      assert OutIs(env, s.(closed := true), end);
    }
  }

  lemma {:induction false} InvPump(env: Env, s: State, buf: Bytes)
    requires Inv(env, s)
    ensures Inv(env, Pump(env, s, buf).state)
    decreases |buf|
  {
    if !s.closed {
      match ParseFrame(buf)
      case Incomplete =>
      case Failed(e) =>
        MalformedStep(env, s, Error(MALFORMED, env.describe(e)));
      case Parsed(f, rest) =>
        InvStep(env, s, f);
        CutInv(env, Handle(env, s, f));
        InvPump(env, Cut(env, Handle(env, s, f)), rest);
    }
  }

  lemma {:induction false} InvRun(env: Env, c: Conn, chunks: seq<Bytes>)
    requires Inv(env, c.state)
    ensures Inv(env, Run(env, c, chunks).state)
    decreases |chunks|
  {
    if !(c.state.closed || chunks == [] || chunks[0] == []) {
      InvPump(env, c.state, c.buf + chunks[0]);
      InvRun(env, Pump(env, c.state, c.buf + chunks[0]), chunks[1..]);
    }
  }

  /** Every state a connection can be in after any sequence of reads. */
  lemma ServeInv(env: Env, chunks: seq<Bytes>)
    ensures Inv(env, Serve(env, chunks).state)
  {
    InvRun(env, Conn(START, []), chunks);
  }

  // ------------------------------------------------------- order of the output

  predicate Ordered(out: seq<Reply>) {
    || out == []
    || (|out| == 1 && out[0].Error?)
    || (out[0].Connected? && forall i :: 1 <= i < |out| ==> out[i].Message? || Last(out, i))
  }

  predicate Last(out: seq<Reply>, i: int)
    requires 0 <= i < |out|
  {
    i == |out| - 1 && (out[i].Error? || out[i].Receipt?)
  }

  /** Every run writes a prefix of a single ERROR, or of CONNECTED, then MESSAGEs, then at most one
      ERROR or RECEIPT; ERROR and RECEIPT leave the connection closed; and the dispatcher is called
      only once CONNECTED was written. */
  lemma OutputOrdered(env: Env, chunks: seq<Bytes>)
    ensures var s := Serve(env, chunks).state;
            && Ordered(s.out)
            && (forall i :: 0 <= i < |s.out| && (s.out[i].Error? || s.out[i].Receipt?) ==> s.closed)
            && (s.calls != [] ==> s.out != [] && s.out[0].Connected?)
  {
    ServeInv(env, chunks);
  }

  /** A RECEIPT is written exactly when the last accepted frame is a DISCONNECT that asked for one, and
      it carries the id asked for; a DISCONNECT always ends the connection. */
  lemma DisconnectAnswered(env: Env, chunks: seq<Bytes>, id: Bytes)
    ensures var s := Serve(env, chunks).state;
            && (Receipt(id) in s.out <==> EndsWith(s, id))
            && (s.handled != [] && IsDisconnect(s.handled[|s.handled| - 1]) ==> s.closed)
  {
    var s := Serve(env, chunks).state;
    ServeInv(env, chunks);
    if s.connected {
      var end :| OutIs(env, s, end);
      ReceiptInEnd(s.out, Messages(env, s.handled), end, id);
    }
  }

  predicate EndsWith(s: State, id: Bytes) {
    && s.handled != []
    && var last := s.handled[|s.handled| - 1];
       IsDisconnect(last) && Lookup(last.headers, Ascii("receipt")) == Some(id)
  }

  lemma ReceiptInEnd(out: seq<Reply>, ms: seq<Reply>, end: seq<Reply>, id: Bytes)
    requires out == [Connected] + ms + end && forall i :: 0 <= i < |ms| ==> ms[i].Message?
    ensures Receipt(id) in out <==> Receipt(id) in end
  {
    assert forall i :: 0 <= i < |end| ==> out[1 + |ms| + i] == end[i];
  }

  lemma {:induction false} RunAppend(env: Env, c: Conn, a: seq<Bytes>, b: seq<Bytes>)
    requires NonEmpty(a)
    ensures Run(env, c, a + b) == Run(env, Run(env, c, a), b)
    decreases |a|
  {
    if a == [] {
      assert a + b == b;
    } else if !c.state.closed {
      assert (a + b)[0] == a[0] && (a + b)[1..] == a[1..] + b;
      RunAppend(env, Pump(env, c.state, c.buf + a[0]), a[1..], b);
    }
  }

  lemma HandleGrows(env: Env, s: State, f: Frame)
    ensures s.out <= Handle(env, s, f).out && s.calls <= Handle(env, s, f).calls
    ensures s.handled <= Handle(env, s, f).handled
  {
  }

  lemma {:induction false} PumpGrows(env: Env, s: State, buf: Bytes)
    ensures s.out <= Pump(env, s, buf).state.out && s.calls <= Pump(env, s, buf).state.calls
    ensures s.handled <= Pump(env, s, buf).state.handled
    decreases |buf|
  {
    if !s.closed && ParseFrame(buf).Parsed? {
      var s' := Cut(env, Handle(env, s, ParseFrame(buf).frame));
      HandleGrows(env, s, ParseFrame(buf).frame);
      PumpGrows(env, s', ParseFrame(buf).rest);
    }
  }

  lemma {:induction false} RunGrows(env: Env, c: Conn, chunks: seq<Bytes>)
    ensures c.state.out <= Run(env, c, chunks).state.out
    ensures c.state.calls <= Run(env, c, chunks).state.calls
    decreases |chunks|
  {
    if !(c.state.closed || chunks == [] || chunks[0] == []) {
      var next := Pump(env, c.state, c.buf + chunks[0]);
      PumpGrows(env, c.state, c.buf + chunks[0]);
      RunGrows(env, next, chunks[1..]);
    }
  }

  /** Output and calls only ever grow, and nothing at all follows once the connection is closed:
      further reads are not even looked at. */
  lemma NothingAfterClose(env: Env, a: seq<Bytes>, b: seq<Bytes>)
    requires NonEmpty(a)
    ensures Serve(env, a).state.out <= Serve(env, a + b).state.out
    ensures Serve(env, a).state.calls <= Serve(env, a + b).state.calls
    ensures Serve(env, a).state.closed ==> Serve(env, a + b) == Serve(env, a)
  {
    RunAppend(env, Conn(START, []), a, b);
    RunGrows(env, Serve(env, a), b);
  }

  // ----------------------------------------------------- which SENDs are answered

  /** The frame at `i` is a readable request that carries an id or fails, or an unreadable one. */
  predicate Answered(env: Env, hs: seq<Frame>, i: nat)
    requires i < |hs|
  {
    && IsSend(hs[i])
    && ValidUtf8(hs[i].body)
    && match env.decode(hs[i].body)
       case None => true
       case Some(req) =>
         req.id.Some? || env.invoke(CallsOf(env, hs[..i]), Call(req.verb, req.params)).Fault?
  }

  /** The positions of the answered frames, in order. */
  function AnsweredAt(env: Env, hs: seq<Frame>): (r: seq<nat>)
    ensures forall k :: 0 <= k < |r| ==> r[k] < |hs|
    ensures forall j, k :: 0 <= j < k < |r| ==> r[j] < r[k]
  {
    if hs == [] then []
    else
      var n := |hs| - 1;
      AnsweredAt(env, hs[..n]) + if Answered(env, hs, n) then [n] else []
  }

  lemma {:induction false} AnsweredExactly(env: Env, hs: seq<Frame>, i: nat)
    requires i < |hs|
    ensures i in AnsweredAt(env, hs) <==> Answered(env, hs, i)
    decreases |hs|
  {
    var n := |hs| - 1;
    if i < n {
      AnsweredExactly(env, hs[..n], i);
      assert hs[..n][..i] == hs[..i];
    }
  }

  /** The response a request must get: its own id, with the outcome of its call; an unreadable
      envelope gets an error with no id. */
  function OwnResponse(env: Env, hs: seq<Frame>, i: nat): Response
    requires i < |hs|
  {
    match env.decode(hs[i].body)
    case None => Response(None, Fault(env.parseFault(hs[i].body)))
    case Some(req) => Response(req.id, env.invoke(CallsOf(env, hs[..i]), Call(req.verb, req.params)))
  }

  /** `m` is what the history up to `i` makes the connection answer to its frame `i`. */
  predicate DueAt(env: Env, hs: seq<Frame>, i: nat, m: Reply)
    requires i < |hs|
  {
    && ResponseDue(env, hs[..i + 1]) == Some(OwnResponse(env, hs, i))
    && m == MessageDue(env, hs[..i + 1])
  }

  predicate AllDue(env: Env, hs: seq<Frame>, at: seq<nat>, ms: seq<Reply>) {
    && |at| == |ms|
    && forall k :: 0 <= k < |at| ==> at[k] < |hs| && DueAt(env, hs, at[k], ms[k])
  }

  lemma DuePrefix(env: Env, hs: seq<Frame>, n: nat, i: nat, m: Reply)
    requires i < n <= |hs| && DueAt(env, hs[..n], i, m)
    ensures DueAt(env, hs, i, m)
  {
    assert hs[..n][..i + 1] == hs[..i + 1] && hs[..n][..i] == hs[..i];
  }

  lemma LastDue(env: Env, hs: seq<Frame>)
    requires hs != []
    ensures var n := |hs| - 1;
            && (ResponseDue(env, hs).Some? <==> Answered(env, hs, n))
            && (Answered(env, hs, n) ==> DueAt(env, hs, n, MessageDue(env, hs)))
  {
    assert hs[..|hs|] == hs;
  }

  lemma {:induction false} MessagesAt(env: Env, hs: seq<Frame>)
    ensures AllDue(env, hs, AnsweredAt(env, hs), Messages(env, hs))
    decreases |hs|
  {
    if hs != [] {
      var n := |hs| - 1;
      MessagesAt(env, hs[..n]);
      var at, ms := AnsweredAt(env, hs[..n]), Messages(env, hs[..n]);
      forall k | 0 <= k < |at| ensures DueAt(env, hs, at[k], ms[k]) {
        DuePrefix(env, hs, n, at[k], ms[k]);
      }
      LastDue(env, hs);
    }
  }

  // -------------------------------------------------------------- reply routing

  function HeaderOr(f: Frame, name: string, default: string): Bytes
    requires forall i :: 0 <= i < |name| ==> name[i] as int < 128
    requires forall i :: 0 <= i < |default| ==> default[i] as int < 128
  {
    match Lookup(f.headers, Ascii(name))
    case Some(v) => v
    case None => Ascii(default)
  }

  /** SUBSCRIBE and UNSUBSCRIBE frames that name the subscription `id`. */
  predicate Touches(f: Frame, id: Bytes) {
    || (IsSubscribe(f) && HeaderOr(f, "id", "0") == id)
    || (IsUnsubscribe(f) && Lookup(f.headers, Ascii("id")) == Some(id))
  }

  /** By the history `hs`, subscription `id` stands and listens on `dest`: the last frame that
      names it is a SUBSCRIBE to `dest`. */
  ghost predicate Live(hs: seq<Frame>, id: Bytes, dest: Bytes) {
    exists j :: 0 <= j < |hs| && SubscribesAt(hs, j, id, dest)
  }

  ghost predicate SubscribesAt(hs: seq<Frame>, j: nat, id: Bytes, dest: Bytes)
    requires j < |hs|
  {
    && SubscribesTo(hs[j], id, dest)
    && forall l :: j < l < |hs| ==> !Touches(hs[l], id)
  }

  predicate SubscribesTo(f: Frame, id: Bytes, dest: Bytes) {
    && IsSubscribe(f) && HeaderOr(f, "id", "0") == id
    && HeaderOr(f, "destination", "/queue/_local/vdsm/responses") == dest
  }

  /** What one frame does to the subscriptions. */
  lemma AppliedByName(m: Subs, f: Frame, id: Bytes, dest: Bytes)
    ensures var m' := Apply(m, f);
            && (SubscribesTo(f, id, dest) ==> id in m' && m'[id] == dest)
            && (Touches(f, id) && !SubscribesTo(f, id, dest) ==> !(id in m' && m'[id] == dest))
            && (!Touches(f, id) ==> (id in m' <==> id in m) && (id in m ==> m'[id] == m[id]))
  {
    KindsByName(f);
    assert ID == Ascii("id") && DESTINATION == Ascii("destination");
    assert NO_SUB == Ascii("0") && RESPONSES == Ascii("/queue/_local/vdsm/responses");
  }

  lemma {:induction false} SubsAreLive(hs: seq<Frame>, id: Bytes, dest: Bytes)
    ensures id in SubsOf(hs) && SubsOf(hs)[id] == dest <==> Live(hs, id, dest)
    decreases |hs|
  {
    if hs != [] {
      var n := |hs| - 1;
      SubsAreLive(hs[..n], id, dest);
      AppliedByName(SubsOf(hs[..n]), hs[n], id, dest);
      if Touches(hs[n], id) {
        if SubscribesTo(hs[n], id, dest) {
          assert SubscribesAt(hs, n, id, dest);
        }
      } else {
        LiveKept(hs, id, dest);
      }
    }
  }

  lemma LiveKept(hs: seq<Frame>, id: Bytes, dest: Bytes)
    requires hs != [] && !Touches(hs[|hs| - 1], id)
    ensures Live(hs, id, dest) <==> Live(hs[..|hs| - 1], id, dest)
  {
    var before := hs[..|hs| - 1];
    if Live(before, id, dest) {
      var j :| 0 <= j < |before| && SubscribesAt(before, j, id, dest);
      assert SubscribesAt(hs, j, id, dest);
    }
    if Live(hs, id, dest) {
      var j :| 0 <= j < |hs| && SubscribesAt(hs, j, id, dest);
      assert SubscribesAt(before, j, id, dest);
    }
  }

  /** A reply goes to `reply-to`, else to the destination of some live subscription, else to the
      default queue; it names a live subscription to that destination if there is one, else "0". */
  ghost predicate Routed(before: seq<Frame>, f: Frame, m: Reply)
    requires m.Message?
  {
    SentTo(before, f, m.destination) && NamesLive(before, m.destination, m.subscription)
  }

  ghost predicate SentTo(before: seq<Frame>, f: Frame, dest: Bytes) {
    match Lookup(f.headers, Ascii("reply-to"))
    case Some(d) => dest == d
    case None =>
      if exists id, d :: Live(before, id, d) then exists id :: Live(before, id, dest)
      else dest == Ascii("/queue/_local/vdsm/responses")
  }

  ghost predicate NamesLive(before: seq<Frame>, dest: Bytes, sub: Bytes) {
    if exists id :: Live(before, id, dest) then Live(before, sub, dest) else sub == Ascii("0")
  }

  /** The map holds exactly the live subscriptions. */
  ghost predicate HoldsLive(subs: Subs, before: seq<Frame>) {
    forall id, dest :: Live(before, id, dest) <==> id in subs && subs[id] == dest
  }

  lemma SubsHoldLive(before: seq<Frame>)
    ensures HoldsLive(SubsOf(before), before)
  {
    forall id, dest ensures Live(before, id, dest) <==> id in SubsOf(before) && SubsOf(before)[id] == dest {
      SubsAreLive(before, id, dest);
    }
  }

  lemma RouteSentTo(keys: seq<Bytes>, subs: Subs, before: seq<Frame>, f: Frame)
    requires HoldsLive(subs, before) && forall k :: k in keys <==> k in subs
    ensures SentTo(before, f, ReplyDestination(keys, subs, f))
  {
    assert REPLY_TO == Ascii("reply-to") && RESPONSES == Ascii("/queue/_local/vdsm/responses");
    if Lookup(f.headers, REPLY_TO).None? {
      if keys != [] {
        assert keys[0] in keys;
        assert Live(before, keys[0], subs[keys[0]]);
      } else {
        assert forall k :: k !in subs;
      }
    }
  }

  lemma RouteNamesLive(keys: seq<Bytes>, subs: Subs, before: seq<Frame>, dest: Bytes)
    requires HoldsLive(subs, before) && forall k :: k in keys <==> k in subs
    ensures NamesLive(before, dest, SubscriptionTo(keys, subs, dest))
  {
    assert NO_SUB == Ascii("0");
    if id :| Live(before, id, dest) {
      assert id in keys && id in subs && subs[id] == dest;
    }
  }

  lemma MessageRouted(env: Env, hs: seq<Frame>)
    requires env.Valid() && hs != [] && ResponseDue(env, hs).Some?
    ensures Routed(hs[..|hs| - 1], hs[|hs| - 1], MessageDue(env, hs))
  {
    var before, f := hs[..|hs| - 1], hs[|hs| - 1];
    var subs := SubsOf(before);
    var keys := env.order(before, subs);
    SubsHoldLive(before);
    RouteSentTo(keys, subs, before, f);
    RouteNamesLive(keys, subs, before, ReplyDestination(keys, subs, f));
  }

  /** Over every run, the MESSAGEs written are, in order and without omission or repetition, the
      answers to exactly the accepted SENDs that are answered; each carries the response with that
      request's own id and is routed by the SUBSCRIBE and UNSUBSCRIBE history before it. */
  lemma MessagesMatchSends(env: Env, chunks: seq<Bytes>)
    requires env.Valid()
    ensures var s := Serve(env, chunks).state;
            var at := AnsweredAt(env, s.handled);
            s.connected ==>
              && 1 + |at| <= |s.out| <= 2 + |at|
              && (forall k :: 0 <= k < |at| ==> AnswerWritten(env, s.handled, at[k], s.out[1 + k]))
              && (forall k :: 1 + |at| <= k < |s.out| ==> Last(s.out, k))
  {
    var s := Serve(env, chunks).state;
    ServeInv(env, chunks);
    if s.connected {
      MessagesWritten(env, s.handled);
      var end :| OutIs(env, s, end);
      OutParts(s.out, Messages(env, s.handled), end);
    }
  }

  lemma OutParts(out: seq<Reply>, ms: seq<Reply>, end: seq<Reply>)
    requires out == [Connected] + ms + end && |end| <= 1 && (end != [] ==> end[0].Error? || end[0].Receipt?)
    ensures 1 + |ms| <= |out| <= 2 + |ms|
    ensures forall k :: 0 <= k < |ms| ==> out[1 + k] == ms[k]
    ensures forall k :: 1 + |ms| <= k < |out| ==> Last(out, k)
  {
    assert forall k :: 1 + |ms| <= k < |out| ==> out[k] == end[k - 1 - |ms|];
  }

  lemma MessagesWritten(env: Env, hs: seq<Frame>)
    requires env.Valid()
    ensures var at, ms := AnsweredAt(env, hs), Messages(env, hs);
            |at| == |ms| && forall k :: 0 <= k < |at| ==> AnswerWritten(env, hs, at[k], ms[k])
  {
    MessagesAt(env, hs);
    var at, ms := AnsweredAt(env, hs), Messages(env, hs);
    forall k | 0 <= k < |at| ensures AnswerWritten(env, hs, at[k], ms[k]) {
      var upTo := hs[..at[k] + 1];
      MessageRouted(env, upTo);
      assert upTo[..|upTo| - 1] == hs[..at[k]];
    }
  }

  ghost predicate AnswerWritten(env: Env, hs: seq<Frame>, i: nat, m: Reply)
    requires i < |hs|
  {
    m.Message? && m.body == env.encode(OwnResponse(env, hs, i)) && Routed(hs[..i], hs[i], m)
  }

  // ---------------------------------------------- the output can be read back

  /** Names that a reader can tell apart where it has to. */
  predicate ApartNames(n: Names) {
    && PlainNames(n) && n.destination != n.subscription && n.contentType != n.destination
    && n.contentType != n.subscription && n.contentType != n.summary
    && n.version != n.server && n.heartBeat != n.version && n.heartBeat != n.server
    && n.session != n.version && n.session != n.server && n.session != n.heartBeat
  }

  lemma {:induction false} LookupSkip(hs: seq<Header>, rest: seq<Header>, name: Bytes)
    requires forall i :: 0 <= i < |hs| ==> hs[i].key != name
    ensures Lookup(hs + rest, name) == Lookup(rest, name)
  {
    if hs == [] {
      assert hs + rest == rest;
    } else {
      assert (hs + rest)[1..] == hs[1..] + rest;
      LookupSkip(hs[1..], rest, name);
    }
  }

  lemma LookupAt(hs: seq<Header>, i: nat)
    requires i < |hs| && forall j :: 0 <= j < i ==> hs[j].key != hs[i].key
    ensures Lookup(hs, hs[i].key) == Some(hs[i].value)
  {
    assert hs == hs[..i] + hs[i..];
    LookupSkip(hs[..i], hs[i..], hs[i].key);
  }

  /** What a reader of each frame finds. */
  predicate Shows(env: Env, r: Reply, f: Frame) {
    match r
    case Connected =>
      && f.command == Ascii("CONNECTED") && f.body == []
      && Lookup(f.headers, Ascii("version")) == Some(Ascii("1.2"))
      && Lookup(f.headers, Ascii("server")) == Some(env.serverId)
      && Lookup(f.headers, Ascii("heart-beat")) == Some(Ascii("0,0"))
      && Lookup(f.headers, Ascii("session")) == Some(env.session)
    case Message(dest, sub, body) =>
      && f.command == Ascii("MESSAGE") && f.body == body
      && Lookup(f.headers, Ascii("destination")) == Some(dest)
      && Lookup(f.headers, Ascii("subscription")) == Some(sub)
      && Lookup(f.headers, Ascii("content-type")) == Some(Ascii("application/json"))
      && SaysLength(f, |body|)
    case Error(message, text) =>
      && f.command == Ascii("ERROR") && f.body == text
      && Lookup(f.headers, Ascii("message")) == Some(message)
      && Lookup(f.headers, Ascii("content-type")) == Some(Ascii("text/plain"))
      && SaysLength(f, |text|)
    case Receipt(id) =>
      f.command == Ascii("RECEIPT") && f.body == [] && Lookup(f.headers, Ascii("receipt-id")) == Some(id)
  }

  predicate SaysLength(f: Frame, n: nat) {
    var v := Lookup(f.headers, Ascii("content-length"));
    v.Some? && ParseUsize(v.value) == Some(n)
  }

  /** The same for any names. */
  predicate ShowsAs(n: Names, env: Env, r: Reply, f: Frame) {
    match r
    case Connected =>
      && f.command == n.connected && f.body == []
      && Lookup(f.headers, n.version) == Some(n.oneTwo) && Lookup(f.headers, n.server) == Some(env.serverId)
      && Lookup(f.headers, n.heartBeat) == Some(n.noBeats) && Lookup(f.headers, n.session) == Some(env.session)
    case Message(dest, sub, body) =>
      && f.command == n.message && f.body == body
      && Lookup(f.headers, n.destination) == Some(dest) && Lookup(f.headers, n.subscription) == Some(sub)
      && Lookup(f.headers, n.contentType) == Some(n.json) && SaysLength(f, |body|)
    case Error(message, text) =>
      && f.command == n.error && f.body == text
      && Lookup(f.headers, n.summary) == Some(message)
      && Lookup(f.headers, n.contentType) == Some(n.plain) && SaysLength(f, |text|)
    case Receipt(id) =>
      f.command == n.receipt && f.body == [] && Lookup(f.headers, n.receiptId) == Some(id)
  }

  lemma BuildShows(env: Env, r: Reply)
    requires env.names == NAMES && TypedReply(r)
    ensures Shows(env, r, Build(env, r))
  {
    NamesApart();
    BuildShowsAs(env, r);
    NamesSpelt();
  }

  lemma NamesSpelt()
    ensures NAMES == Names(
      Ascii("CONNECTED"), Ascii("version"), Ascii("1.2"), Ascii("server"), Ascii("heart-beat"), Ascii("0,0"),
      Ascii("session"), Ascii("MESSAGE"), Ascii("destination"), Ascii("subscription"), Ascii("content-type"),
      Ascii("application/json"), Ascii("ERROR"), Ascii("message"), Ascii("text/plain"), Ascii("RECEIPT"),
      Ascii("receipt-id"))
  {
  }

  lemma BuildShowsAs(env: Env, r: Reply)
    requires ApartNames(env.names) && TypedReply(r)
    ensures ShowsAs(env.names, env, r, Build(env, r))
  {
    var hs := Build(env, r).headers;
    match r
    case Connected => ConnectedShows(env);
    case Message(_, _, _) => MessageShows(env, r);
    case Error(_, text) =>
      LookupAt(hs, 0);
      LookupAt(hs, 1);
      LookupAt(hs, 2);
      ParsePrinted(|text|);
    case Receipt(id) => LookupAt(hs, 0);
  }

  lemma ConnectedShows(env: Env)
    requires ApartNames(env.names)
    ensures ShowsAs(env.names, env, Connected, Build(env, Connected))
  {
    var hs := Build(env, Connected).headers;
    LookupAt(hs, 0);
    LookupAt(hs, 1);
    LookupAt(hs, 2);
    LookupAt(hs, 3);
  }

  lemma MessageShows(env: Env, r: Reply)
    requires ApartNames(env.names) && r.Message? && TypedReply(r)
    ensures ShowsAs(env.names, env, r, Build(env, r))
  {
    var hs := Build(env, r).headers;
    LookupAt(hs, 0);
    LookupAt(hs, 1);
    LookupAt(hs, 2);
    LookupAt(hs, 3);
    ParsePrinted(|r.body|);
  }

  lemma NamesApart()
    ensures ApartNames(NAMES)
  {
    NamesPlain();
    assert NAMES.session[0] == 's' as int && NAMES.version[0] == 'v' as int;
    assert NAMES.session[2] == 's' as int && NAMES.server[2] == 'r' as int;
    assert |NAMES.destination| == 11 && |NAMES.subscription| == 12 && |NAMES.heartBeat| == 10 && |NAMES.session| == 7;
    assert NAMES.contentType[0] == 'c' as int && NAMES.subscription[0] == 's' as int && |NAMES.contentType| == 12;
  }

  predicate TypedReply(r: Reply) {
    match r
    case Connected => true
    case Message(dest, sub, body) => ValidUtf8(dest) && ValidUtf8(sub) && |body| <= USIZE_MAX
    case Error(message, text) => ValidUtf8(message) && |text| <= USIZE_MAX
    case Receipt(id) => ValidUtf8(id)
  }

  ghost predicate TypedState(s: State) {
    && (forall k :: k in s.subs ==> ValidUtf8(k) && ValidUtf8(s.subs[k]))
    && (forall i :: 0 <= i < |s.out| ==> TypedReply(s.out[i]))
  }

  lemma {:induction false} LookupTyped(hs: seq<Header>, name: Bytes)
    requires TypedHeaders(hs)
    ensures Lookup(hs, name).Some? ==> ValidUtf8(Lookup(hs, name).value)
  {
    if hs != [] {
      LookupTyped(hs[1..], name);
    }
  }

  lemma RouteTyped(keys: seq<Bytes>, subs: Subs, f: Frame, body: Bytes)
    requires forall k :: k in subs ==> ValidUtf8(k) && ValidUtf8(subs[k])
    requires f.Typed() && |body| <= USIZE_MAX
    ensures TypedReply(RouteReply(keys, subs, f, body))
  {
    LiteralIsUtf8("/queue/_local/vdsm/responses");
    LiteralIsUtf8("0");
    LookupTyped(f.headers, REPLY_TO);
  }

  lemma SendTyped(env: Env, s: State, f: Frame)
    requires env.Valid() && TypedState(s) && f.Typed()
    ensures TypedState(HandleSend(env, s, f))
  {
    var effect := Dispatch(env, s.calls, f);
    if effect.response.Some? {
      RouteTyped(env.order(s.handled, s.subs), s.subs, f, env.encode(effect.response.value));
    }
  }

  lemma SubscribeTyped(s: State, f: Frame)
    requires TypedState(s) && f.Typed()
    ensures forall k :: k in Apply(s.subs, f) ==> ValidUtf8(k) && ValidUtf8(Apply(s.subs, f)[k])
  {
    LiteralIsUtf8("/queue/_local/vdsm/responses");
    LiteralIsUtf8("0");
    LookupTyped(f.headers, ID);
    LookupTyped(f.headers, DESTINATION);
  }

  lemma FarewellTyped(f: Frame)
    requires f.Typed()
    ensures forall i :: 0 <= i < |Farewell(f)| ==> TypedReply(Farewell(f)[i])
  {
    LiteralIsUtf8("already connected");
    LookupTyped(f.headers, RECEIPT);
  }

  lemma HandleTyped(env: Env, s: State, f: Frame)
    requires env.Valid() && TypedState(s) && f.Typed() && !s.closed
    ensures TypedState(Handle(env, s, f))
  {
    if s.connected && IsSend(f) {
      HandleSends(env, s, f);
      SendTyped(env, s, f);
    } else if s.connected {
      HandleQuiet(env, s, f);
      SubscribeTyped(s, f);
      FarewellTyped(f);
    } else {
      OpenTyped(env, s, f);
    }
  }

  lemma OpenTyped(env: Env, s: State, f: Frame)
    requires TypedState(s) && !s.connected
    ensures TypedState(Handle(env, s, f))
  {
    KindsByName(f);
    if IsConnect(f) {
      ReplyTyped(s, s.(handled := s.handled + [f], connected := true, out := s.out + [Connected]), Connected);
    } else {
      LiteralIsUtf8("expected CONNECT");
      ReplyTyped(s, Close(s, Error(EXPECTED_CONNECT, [])), Error(EXPECTED_CONNECT, []));
    }
  }

  lemma ReplyTyped(s: State, s': State, r: Reply)
    requires TypedState(s) && TypedReply(r) && s'.subs == s.subs && s'.out == s.out + [r]
    ensures TypedState(s')
  {
  }

  lemma ParsedTyped(buf: Bytes)
    requires ParseFrame(buf).Parsed?
    ensures ParseFrame(buf).frame.Typed()
  {
    ParsedSound(buf);
  }

  lemma {:induction false} PumpTyped(env: Env, s: State, buf: Bytes)
    requires env.Valid() && TypedState(s)
    ensures TypedState(Pump(env, s, buf).state)
    decreases |buf|
  {
    if !s.closed {
      match ParseFrame(buf)
      case Incomplete =>
      case Failed(e) =>
        LiteralIsUtf8("malformed frame");
        ReplyTyped(s, Pump(env, s, buf).state, Error(MALFORMED, env.describe(e)));
      case Parsed(f, rest) =>
        ParsedTyped(buf);
        HandleTyped(env, s, f);
        PumpTyped(env, Cut(env, Handle(env, s, f)), rest);
    }
  }

  lemma {:induction false} RunTyped(env: Env, c: Conn, chunks: seq<Bytes>)
    requires env.Valid() && TypedState(c.state)
    ensures TypedState(Run(env, c, chunks).state)
    decreases |chunks|
  {
    if !(c.state.closed || chunks == [] || chunks[0] == []) {
      PumpTyped(env, c.state, c.buf + chunks[0]);
      RunTyped(env, Pump(env, c.state, c.buf + chunks[0]), chunks[1..]);
    }
  }

  /** A non-empty text of visible ASCII characters, not the name of the length header. */
  predicate Plain(s: Bytes) {
    s != [] && s != CONTENT_LENGTH && forall i :: 0 <= i < |s| ==> 0x20 < s[i] < 0x7F
  }

  predicate PlainNames(n: Names) {
    && Plain(n.connected) && Plain(n.version) && Plain(n.oneTwo) && Plain(n.server) && Plain(n.heartBeat)
    && Plain(n.noBeats) && Plain(n.session) && Plain(n.message) && Plain(n.destination)
    && Plain(n.subscription) && Plain(n.contentType) && Plain(n.json) && Plain(n.error)
    && Plain(n.summary) && Plain(n.plain) && Plain(n.receipt) && Plain(n.receiptId)
  }

  lemma PlainTyped(s: Bytes)
    requires Plain(s)
    ensures ValidUtf8(s) && PrintableCommand(s)
  {
    AsciiIsUtf8(s);
  }

  lemma LengthTyped(n: nat)
    ensures ValidUtf8(CONTENT_LENGTH) && ValidUtf8(ToDecimal(n))
  {
    LiteralIsUtf8("content-length");
    assert AllDigits(ToDecimal(n));
    AsciiIsUtf8(ToDecimal(n));
  }

  lemma {:induction false} LookupNone(hs: seq<Header>)
    requires forall i :: 0 <= i < |hs| ==> hs[i].key != CONTENT_LENGTH
    ensures Lookup(hs, CONTENT_LENGTH).None?
  {
    if hs != [] {
      LookupNone(hs[1..]);
    }
  }

  predicate PlainKeys(hs: seq<Header>) {
    TypedHeaders(hs) && forall i :: 0 <= i < |hs| ==> hs[i].key != CONTENT_LENGTH
  }

  lemma BareSendable(command: Bytes, hs: seq<Header>)
    requires Plain(command) && PlainKeys(hs)
    ensures Sendable(Frame(command, hs, []))
  {
    PlainTyped(command);
    LookupNone(hs);
  }

  lemma LengthSendable(command: Bytes, hs: seq<Header>, body: Bytes)
    requires Plain(command) && PlainKeys(hs) && |body| <= USIZE_MAX
    ensures Sendable(Frame(command, hs + [Header(CONTENT_LENGTH, ToDecimal(|body|))], body))
  {
    PlainTyped(command);
    LengthTyped(|body|);
    ParsePrinted(|body|);
    LengthFits(command, hs, Header(CONTENT_LENGTH, ToDecimal(|body|)), body);
  }

  lemma LengthFits(command: Bytes, hs: seq<Header>, h: Header, body: Bytes)
    requires PlainKeys(hs) && ValidUtf8(h.key) && ValidUtf8(h.value)
    requires h.key == CONTENT_LENGTH && ParseUsize(h.value) == Some(|body|)
    ensures TypedHeaders(hs + [h]) && BodyFits(Frame(command, hs + [h], body))
  {
    LookupNone(hs);
    LookupAppend(hs, h, CONTENT_LENGTH);
  }

  lemma ConnectedSendable(env: Env)
    requires PlainNames(env.names) && env.Valid()
    ensures Sendable(Build(env, Connected))
  {
    var n := env.names;
    PlainTyped(n.oneTwo);
    PlainTyped(n.noBeats);
    TwoPlain(n.version, n.oneTwo, n.server, env.serverId);
    TwoPlain(n.heartBeat, n.noBeats, n.session, env.session);
    var a, b := [Header(n.version, n.oneTwo), Header(n.server, env.serverId)],
                [Header(n.heartBeat, n.noBeats), Header(n.session, env.session)];
    PlainKeysConcat(a, b);
    BareSendable(n.connected, a + b);
    assert Build(env, Connected).headers == a + b;
  }

  lemma TwoPlain(k: Bytes, v: Bytes, k': Bytes, v': Bytes)
    requires Plain(k) && ValidUtf8(v) && Plain(k') && ValidUtf8(v')
    ensures PlainKeys([Header(k, v), Header(k', v')])
  {
    PlainTyped(k);
    PlainTyped(k');
  }

  lemma PlainKeysConcat(a: seq<Header>, b: seq<Header>)
    requires PlainKeys(a) && PlainKeys(b)
    ensures PlainKeys(a + b)
  {
  }

  lemma MessageSendable(env: Env, r: Reply)
    requires PlainNames(env.names) && r.Message? && TypedReply(r)
    ensures Sendable(Build(env, r))
  {
    var n := env.names;
    var a, b := [Header(n.destination, r.destination), Header(n.subscription, r.subscription)],
                [Header(n.contentType, n.json)];
    TwoPlain(n.destination, r.destination, n.subscription, r.subscription);
    PlainTyped(n.contentType);
    PlainTyped(n.json);
    PlainKeysConcat(a, b);
    LengthSendable(n.message, a + b, r.body);
    assert Build(env, r).headers == a + b + [Header(CONTENT_LENGTH, ToDecimal(|r.body|))];
  }

  lemma ErrorSendable(env: Env, r: Reply)
    requires PlainNames(env.names) && r.Error? && TypedReply(r)
    ensures Sendable(Build(env, r))
  {
    var n := env.names;
    PlainTyped(n.summary);
    PlainTyped(n.contentType);
    PlainTyped(n.plain);
    LengthSendable(n.error, [Header(n.summary, r.message), Header(n.contentType, n.plain)], r.text);
  }

  /** Every frame the server builds can be read back. */
  lemma BuildSendable(env: Env, r: Reply)
    requires PlainNames(env.names) && env.Valid() && TypedReply(r)
    ensures Sendable(Build(env, r))
  {
    var n := env.names;
    match r
    case Connected => ConnectedSendable(env);
    case Message(_, _, _) => MessageSendable(env, r);
    case Error(_, _) => ErrorSendable(env, r);
    case Receipt(id) =>
      PlainTyped(n.receiptId);
      BareSendable(n.receipt, [Header(n.receiptId, id)]);
  }

  lemma PlainLiteral(s: string)
    requires s != "" && |s| != |CONTENT_LENGTH|
    requires forall i :: 0 <= i < |s| ==> 0x20 < s[i] as int < 0x7F
    ensures Plain(Ascii(s))
  {
  }

  lemma NamesPlain()
    ensures PlainNames(NAMES)
  {
    PlainLiteral("CONNECTED");
    PlainLiteral("version");
    PlainLiteral("1.2");
    PlainLiteral("server");
    PlainLiteral("heart-beat");
    PlainLiteral("0,0");
    PlainLiteral("session");
    MoreNamesPlain();
  }

  lemma MoreNamesPlain()
    ensures Plain(NAMES.message) && Plain(NAMES.destination) && Plain(NAMES.subscription)
    ensures Plain(NAMES.contentType) && Plain(NAMES.json) && Plain(NAMES.error) && Plain(NAMES.summary)
    ensures Plain(NAMES.plain) && Plain(NAMES.receipt) && Plain(NAMES.receiptId)
  {
    PlainLiteral("MESSAGE");
    PlainLiteral("destination");
    PlainLiteral("subscription");
    PlainLiteral("content-type");
    PlainLiteral("application/json");
    PlainLiteral("ERROR");
    PlainLiteral("message");
    PlainLiteral("text/plain");
    PlainLiteral("RECEIPT");
    PlainLiteral("receipt-id");
  }

  // ------------------------------------------------------- when a write fails

  /** Only the last reply can be cut short: a connection still open has written all of its replies,
      and one whose write failed had written all but the last. */
  predicate Whole(env: Env, s: State) {
    && (!s.closed ==> !Broken(env, s.out))
    && (Broken(env, s.out) ==> s.out != [] && !Broken(env, s.out[..|s.out| - 1]))
  }

  lemma OneReplyWhole(env: Env, s: State, s': State)
    requires !Broken(env, s.out)
    requires s'.out == s.out || (|s'.out| == |s.out| + 1 && s'.out[..|s.out|] == s.out)
    ensures Whole(env, Cut(env, s'))
    ensures s'.closed ==> Whole(env, s')
  {
  }

  lemma HandleRepliesOnce(env: Env, s: State, f: Frame)
    ensures var out := Handle(env, s, f).out;
            out == s.out || (|out| == |s.out| + 1 && out[..|s.out|] == s.out)
  {
  }

  lemma {:induction false} PumpWhole(env: Env, s: State, buf: Bytes)
    requires Whole(env, s)
    ensures Whole(env, Pump(env, s, buf).state)
    decreases |buf|
  {
    if !s.closed {
      match ParseFrame(buf)
      case Incomplete =>
      case Failed(e) => OneReplyWhole(env, s, Pump(env, s, buf).state);
      case Parsed(f, rest) =>
        HandleRepliesOnce(env, s, f);
        OneReplyWhole(env, s, Handle(env, s, f));
        PumpWhole(env, Cut(env, Handle(env, s, f)), rest);
    }
  }

  lemma {:induction false} RunWhole(env: Env, c: Conn, chunks: seq<Bytes>)
    requires Whole(env, c.state)
    ensures Whole(env, Run(env, c, chunks).state)
    decreases |chunks|
  {
    if !(c.state.closed || chunks == [] || chunks[0] == []) {
      PumpWhole(env, c.state, c.buf + chunks[0]);
      RunWhole(env, Pump(env, c.state, c.buf + chunks[0]), chunks[1..]);
    }
  }

  lemma ServeWhole(env: Env, chunks: seq<Bytes>)
    ensures Whole(env, Serve(env, chunks).state)
  {
    assert Built(env, []) == [] && Prints([]) == [];
    RunWhole(env, Conn(START, []), chunks);
  }

  /** The replies that reach the peer whole. */
  function Delivered(env: Env, s: State): seq<Reply>
    requires Whole(env, s)
  {
    if Broken(env, s.out) then s.out[..|s.out| - 1] else s.out
  }

  lemma WireReadsBack(env: Env, s: State)
    requires env.Valid() && PlainNames(env.names) && Whole(env, s)
    requires forall i :: 0 <= i < |s.out| ==> TypedReply(s.out[i])
    ensures Drain(Wire(env, s.out)).frames == Built(env, Delivered(env, s))
    ensures Drain(Wire(env, s.out)).end == Incomplete
    ensures !Broken(env, s.out) ==> Drain(Wire(env, s.out)).rest == []
  {
    if Broken(env, s.out) {
      var front, last := Delivered(env, s), s.out[|s.out| - 1];
      BuiltSendable(env, front);
      BuildSendable(env, last);
      assert front + [last] == s.out;
      CutWireReadsBack(env, front, last);
    } else {
      WholeWireReadsBack(env, s.out);
    }
  }

  lemma WholeWireReadsBack(env: Env, out: seq<Reply>)
    requires env.Valid() && PlainNames(env.names) && !Broken(env, out)
    requires forall i :: 0 <= i < |out| ==> TypedReply(out[i])
    ensures Drain(Wire(env, out)) == Drained(Built(env, out), Incomplete, [])
  {
    BuiltSendable(env, out);
    FramesReadBack(Built(env, out));
  }

  lemma CutWireReadsBack(env: Env, front: seq<Reply>, last: Reply)
    requires !Broken(env, front) && Broken(env, front + [last])
    requires AllSendable(Built(env, front)) && Sendable(Build(env, last))
    ensures Drain(Wire(env, front + [last])).frames == Built(env, front)
    ensures Drain(Wire(env, front + [last])).end == Incomplete
  {
    var u := CutWire(env, front, last);
    CutStreamReadsBack(Built(env, front), Build(env, last), u, Wire(env, front + [last]));
  }

  lemma CutWire(env: Env, front: seq<Reply>, last: Reply) returns (u: Bytes)
    requires !Broken(env, front) && Broken(env, front + [last])
    ensures u < ToBytes(Build(env, last)) && Wire(env, front + [last]) == Written(env, front) + u
  {
    WireAppend(env, front, last);
    u := ToBytes(Build(env, last))[..env.accepts.value - |Wire(env, front)|];
  }

  /** End to end: whatever bytes arrive, in whatever chunks, and wherever writing fails, a peer that
      reads what reaches it finds exactly the frames the connection meant to send; only the reply whose
      write failed is missing, and what is there of it is never misread. */
  lemma OutputReadsBack(env: Env, chunks: seq<Bytes>)
    requires env.Valid() && env.names == NAMES
    ensures var s := Serve(env, chunks).state;
            && Whole(env, s)
            && var sent, d := Delivered(env, s), Drain(Wire(env, s.out));
               && d.frames == Built(env, sent) && d.end == Incomplete
               && (!Broken(env, s.out) ==> sent == s.out && d.rest == [])
               && forall i :: 0 <= i < |sent| ==> Shows(env, sent[i], d.frames[i])
  {
    var s := Serve(env, chunks).state;
    NamesApart();
    ServeWhole(env, chunks);
    RunTyped(env, Conn(START, []), chunks);
    WireReadsBack(env, s);
    BuiltShows(env, Delivered(env, s));
  }

  lemma BuiltShows(env: Env, out: seq<Reply>)
    requires env.names == NAMES && forall i :: 0 <= i < |out| ==> TypedReply(out[i])
    ensures forall i :: 0 <= i < |out| ==> Shows(env, out[i], Built(env, out)[i])
  {
    forall i | 0 <= i < |out| ensures Shows(env, out[i], Built(env, out)[i]) {
      BuildShows(env, out[i]);
    }
  }

  lemma BuiltSendable(env: Env, out: seq<Reply>)
    requires PlainNames(env.names) && env.Valid() && forall i :: 0 <= i < |out| ==> TypedReply(out[i])
    ensures AllSendable(Built(env, out))
  {
    forall i | 0 <= i < |out| ensures Sendable(Built(env, out)[i]) {
      BuildSendable(env, out[i]);
    }
  }
}
