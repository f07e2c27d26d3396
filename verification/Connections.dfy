/** The connection handler as it runs: mutable buffer, subscription map and handshake flag, nested
    read and drain loops, bytes written as they are produced
    (`serve_stomp` and `handle_stomp_send` in crates/vdsm-rpc/src/server.rs). */
module Connections {
  import opened Prelude
  import opened Bytes
  import opened Stomp
  import opened StompLoops
  import StompProofs
  import opened Server

  class Connection {
    const env: Env
    var buf: Bytes
    var subscriptions: Subs
    var connected: bool
    var closed: bool
    /** What reached the peer, and whether a write has failed. */
    var written: Bytes
    var broken: bool
    /** What the dispatcher and the map order may depend on. */
    var handled: seq<Frame>
    var calls: seq<Call>
    ghost var out: seq<Reply>

    ghost function Abs(): State
      reads this
    {
      State(connected, subscriptions, closed, handled, calls, out)
    }

    /** What reached the peer is the printed form of the replies so far, as far as the peer took it. */
    ghost predicate Valid()
      reads this
    {
      written == Wire(env, out) && broken == Broken(env, out)
    }

    constructor (env: Env)
      ensures this.env == env && Valid() && !broken && Abs() == START && buf == []
    {
      this.env := env;
      buf, subscriptions, connected, closed, written, broken := [], map[], false, false, [], false;
      handled, calls, out := [], [], [];
      new;
      assert Built(env, []) == [] && Prints([]) == [];
    }

    /** Writes as much of the reply as the peer takes. */
    method Write(r: Reply)
      requires Valid() && !broken
      modifies this`written, this`broken, this`out
      ensures Valid() && out == old(out) + [r]
    {
      var bytes := PrintFrame(Build(env, r));
      WireAppend(env, out, r);
      if env.accepts.Some? && |written| + |bytes| > env.accepts.value {
        written := written + bytes[..env.accepts.value - |written|];
        broken := true;
      } else {
        written := written + bytes;
      }
      out := out + [r];
    }

    method HandleStompSend(frame: Frame)
      requires Valid() && !broken
      modifies this
      ensures Valid() && buf == old(buf) && Abs() == HandleSend(env, old(Abs()), frame)
    {
      var response := Answer(frame);
      if response.Some? {
        RouteResponse(frame, env.order(handled, subscriptions), env.encode(response.value));
      }
      handled := handled + [frame];
    }

    /** The response due to a SEND; `None` when there is none. */
    method Answer(frame: Frame) returns (response: Option<Response>)
      modifies this`calls
      ensures old(calls) <= calls
      ensures SendEffect(calls[|old(calls)|..], response) == Dispatch(env, old(calls), frame)
    {
      if !ValidUtf8(frame.body) {
        return None;
      }
      var parsed := env.decode(frame.body);
      if parsed.None? {
        return Some(Response(None, Fault(env.parseFault(frame.body))));
      }
      var req := parsed.value;
      var call := Call(req.verb, req.params);
      var outcome := env.invoke(calls, call);
      calls := calls + [call];
      if req.id.None? && outcome.Done? {
        return None;
      }
      return Some(Response(req.id, outcome));
    }

    /** Writes the MESSAGE for `frame`, with the subscriptions visited in the order `keys`. */
    method RouteResponse(frame: Frame, keys: seq<Bytes>, body: Bytes)
      requires Valid() && !broken
      modifies this`written, this`broken, this`out
      ensures Valid() && out == old(out) + [RouteReply(keys, subscriptions, frame, body)]
    {
      var replyTo := Lookup(frame.headers, REPLY_TO);
      var dest := if replyTo.Some? then replyTo.value
                  else if keys != [] && keys[0] in subscriptions then subscriptions[keys[0]]
                  else RESPONSES;
      var sub := FindSubscription(keys, subscriptions, dest);
      Write(Message(dest, sub, body));
    }

    static method FindSubscription(keys: seq<Bytes>, subs: Subs, dest: Bytes) returns (id: Bytes)
      ensures id == SubscriptionTo(keys, subs, dest)
    {
      for i := 0 to |keys|
        invariant SubscriptionTo(keys[i..], subs, dest) == SubscriptionTo(keys, subs, dest)
      {
        if keys[i] in subs && subs[keys[i]] == dest {
          return keys[i];
        }
        assert keys[i..][1..] == keys[i + 1..];
      }
      return NO_SUB;
    }

    method Refuse(r: Reply)
      requires Valid() && !broken
      modifies this
      ensures Valid() && buf == old(buf) && Abs() == Close(old(Abs()), r)
    {
      Write(r);
      closed := true;
    }

    method HandleFrame(frame: Frame)
      requires Valid() && !closed && !broken
      modifies this
      ensures Valid() && buf == old(buf) && Abs() == Handle(env, old(Abs()), frame)
    {
      var kind := KindOf(frame);
      if !connected && kind != Connect {
        Refuse(Error(EXPECTED_CONNECT, []));
      } else if kind == Send {
        HandleStompSend(frame);
      } else {
        HandleControl(frame, kind);
      }
    }

    /** Every accepted frame but SEND. */
    method HandleControl(frame: Frame, kind: Kind)
      requires Valid() && !closed && !broken && kind == KindOf(frame) && kind != Send
      requires connected || kind == Connect
      modifies this
      ensures Valid() && buf == old(buf) && Abs() == Handle(env, old(Abs()), frame)
    {
      handled := handled + [frame];
      match kind {
        case Connect =>
          HandleConnect();
        case Subscribe =>
          Resubscribe(frame);
        case Unsubscribe =>
          Resubscribe(frame);
        case Disconnect =>
          var receipt := Lookup(frame.headers, RECEIPT);
          if receipt.Some? {
            Write(Receipt(receipt.value));
          }
          closed := true;
        case _ =>
      }
    }

    method HandleConnect()
      requires Valid() && !closed && !broken
      modifies this
      ensures Valid() && buf == old(buf)
      ensures Abs() == if old(connected) then Close(old(Abs()), Error(ALREADY_CONNECTED, []))
                       else old(Abs()).(connected := true, out := old(out) + [Connected])
    {
      if connected {
        Refuse(Error(ALREADY_CONNECTED, []));
      } else {
        Write(Connected);
        connected := true;
      }
    }

    method Resubscribe(frame: Frame)
      requires KindOf(frame) == Subscribe || KindOf(frame) == Unsubscribe
      modifies this`subscriptions
      ensures subscriptions == Apply(old(subscriptions), frame)
    {
      var id := Lookup(frame.headers, ID);
      if KindOf(frame) == Subscribe {
        var key := if id.Some? then id.value else NO_SUB;
        subscriptions := subscriptions[key := GetOr(frame, DESTINATION, RESPONSES)];
      } else if id.Some? {
        subscriptions := subscriptions - {id.value};
      }
    }

    /** The inner loop: parse as many complete frames as the buffer holds. */
    method DrainBuffer()
      requires Valid() && (!closed ==> !broken)
      modifies this
      ensures Valid() && (!closed ==> !broken) && Conn(Abs(), buf) == Pump(env, old(Abs()), old(buf))
    {
      var more := true;
      while more && !closed
        invariant Valid() && (!closed ==> !broken)
        invariant Pump(env, Abs(), buf) == Pump(env, old(Abs()), old(buf))
        invariant !more ==> ParseFrame(buf).Incomplete?
        decreases more, !closed, |buf|
      {
        more := NextFrame();
      }
    }

    /** One turn of the inner loop; `more` is false when the buffer holds no complete frame. */
    method NextFrame() returns (more: bool)
      requires Valid() && !closed && !broken
      modifies this
      ensures Valid() && (!closed ==> !broken) && Pump(env, Abs(), buf) == Pump(env, old(Abs()), old(buf))
      ensures if more then closed || |buf| < |old(buf)| else ParseFrame(buf).Incomplete?
    {
      var r := ParseFrameLoop(buf);
      match r {
        case Incomplete =>
          return false;
        case Failed(e) =>
          Refuse(Error(MALFORMED, env.describe(e)));
          return true;
        case Parsed(frame, rest) =>
          TakeFrame(frame, |rest|);
          return true;
      }
    }

    /** Drops the bytes of the frame just parsed, all but the last `left`, and handles it; a write that
        failed meanwhile ends the connection. */
    method TakeFrame(frame: Frame, left: nat)
      requires Valid() && !closed && !broken
      requires ParseFrame(buf).Parsed? && ParseFrame(buf).frame == frame && |ParseFrame(buf).rest| == left
      modifies this
      ensures Valid() && (!closed ==> !broken) && |buf| < |old(buf)|
      ensures Pump(env, Abs(), buf) == Pump(env, old(Abs()), old(buf))
    {
      StompProofs.ParsedSuffix(buf);
      var consumed := |buf| - left;
      buf := buf[consumed..];
      HandleFrame(frame);
      if broken {
        closed := true;
      }
    }

    /** Buffers what one read gave, then drains. */
    method TakeChunk(chunk: Bytes)
      requires Valid() && !closed && !broken
      modifies this
      ensures Valid() && (!closed ==> !broken) && Conn(Abs(), buf) == Pump(env, old(Abs()), old(buf) + chunk)
    {
      buf := buf + chunk;
      DrainBuffer();
    }

    /** The connection from its current state over the given reads; an empty read is the peer closing. */
    method ServeStomp(chunks: seq<Bytes>)
      requires Valid() && (!closed ==> !broken)
      modifies this
      ensures Valid() && Conn(Abs(), buf) == Run(env, old(Conn(Abs(), buf)), chunks)
    {
      var i := 0;
      while i < |chunks| && !closed && chunks[i] != []
        invariant 0 <= i <= |chunks| && Valid() && (!closed ==> !broken)
        invariant Run(env, Conn(Abs(), buf), chunks[i..]) == Run(env, old(Conn(Abs(), buf)), chunks)
      {
        assert chunks[i..][1..] == chunks[i + 1..];
        TakeChunk(chunks[i]);
        i := i + 1;
      }
    }
  }
}
