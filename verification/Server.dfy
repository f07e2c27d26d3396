/** One STOMP connection as a state machine over parsed frames and received bytes
    (`serve_stomp` and `handle_stomp_send` in crates/vdsm-rpc/src/server.rs). */
module Server {
  import opened Prelude
  import opened Bytes
  import opened Stomp

  /** JSON values and error objects stay uninterpreted texts. */
  type Json = Bytes

  datatype Request = Request(verb: Bytes, params: Json, id: Option<Json>)
  datatype Call = Call(verb: Bytes, params: Json)
  datatype Outcome = Done(value: Json) | Fault(error: Json)
  datatype Response = Response(id: Option<Json>, outcome: Outcome)

  type Subs = map<Bytes, Bytes>

  /** What the connection handler calls but does not define: the JSON codec, the dispatcher (its
      answer may depend on every call made so far), the iteration order of the subscription map
      (it may depend on everything handled so far), the texts it prints, and how many bytes the peer
      takes before writing to it fails, if it ever does. */
  datatype Env = Env(
    decode: Bytes -> Option<Request>,
    parseFault: Bytes -> Json,
    invoke: (seq<Call>, Call) -> Outcome,
    encode: Response -> Bytes,
    order: (seq<Frame>, Subs) -> seq<Bytes>,
    describe: ParseError -> Bytes,
    names: Names,
    serverId: Bytes,
    session: Bytes,
    accepts: Option<nat>)
  {
    /** Map iteration visits exactly the keys; printed texts are strings that fit in memory. */
    ghost predicate Valid() {
      && (forall h, m, k :: k in order(h, m) <==> k in m)
      && (forall r :: |encode(r)| <= USIZE_MAX)
      && (forall e :: |describe(e)| <= USIZE_MAX)
      && ValidUtf8(serverId) && ValidUtf8(session)
    }
  }

  const RESPONSES: Bytes := Ascii("/queue/_local/vdsm/responses")
  const ID: Bytes := Ascii("id")
  const DESTINATION: Bytes := Ascii("destination")
  const REPLY_TO: Bytes := Ascii("reply-to")
  const RECEIPT: Bytes := Ascii("receipt")
  const NO_SUB: Bytes := Ascii("0")
  const MALFORMED: Bytes := Ascii("malformed frame")
  const EXPECTED_CONNECT: Bytes := Ascii("expected CONNECT")
  const ALREADY_CONNECTED: Bytes := Ascii("already connected")

  // ------------------------------------------------------------ inbound frames

  datatype Kind = Connect | Subscribe | Unsubscribe | Send | Disconnect | Other

  function KindOf(f: Frame): Kind {
    if f.command == Ascii("CONNECT") || f.command == Ascii("STOMP") then Connect
    else if f.command == Ascii("SUBSCRIBE") then Subscribe
    else if f.command == Ascii("UNSUBSCRIBE") then Unsubscribe
    else if f.command == Ascii("SEND") then Send
    else if f.command == Ascii("DISCONNECT") then Disconnect
    else Other
  }

  function GetOr(f: Frame, name: Bytes, default: Bytes): Bytes {
    match Lookup(f.headers, name)
    case Some(v) => v
    case None => default
  }

  // ----------------------------------------------------------- outbound frames

  datatype Reply =
    | Connected
    | Message(destination: Bytes, subscription: Bytes, body: Bytes)
    | Error(message: Bytes, text: Bytes)
    | Receipt(id: Bytes)

  /** The commands, header names and fixed header values of outgoing frames; the source's are `NAMES`. */
  datatype Names = Names(
    connected: Bytes, version: Bytes, oneTwo: Bytes, server: Bytes, heartBeat: Bytes, noBeats: Bytes, session: Bytes,
    message: Bytes, destination: Bytes, subscription: Bytes, contentType: Bytes, json: Bytes,
    error: Bytes, summary: Bytes, plain: Bytes,
    receipt: Bytes, receiptId: Bytes)

  const NAMES: Names := Names(
    Ascii("CONNECTED"), Ascii("version"), Ascii("1.2"), Ascii("server"), Ascii("heart-beat"), Ascii("0,0"),
    Ascii("session"),
    Ascii("MESSAGE"), DESTINATION, Ascii("subscription"), Ascii("content-type"), Ascii("application/json"),
    Ascii("ERROR"), Ascii("message"), Ascii("text/plain"),
    Ascii("RECEIPT"), Ascii("receipt-id"))

  /** `stomp::build`: the frame written for each reply. */
  function Build(env: Env, r: Reply): Frame {
    var n := env.names;
    match r
    case Connected =>
      Frame(n.connected,
            [Header(n.version, n.oneTwo), Header(n.server, env.serverId),
             Header(n.heartBeat, n.noBeats), Header(n.session, env.session)], [])
    case Message(dest, sub, body) =>
      Frame(n.message,
            [Header(n.destination, dest), Header(n.subscription, sub), Header(n.contentType, n.json)]
            + [Header(CONTENT_LENGTH, ToDecimal(|body|))], body)
    case Error(message, text) =>
      Frame(n.error,
            [Header(n.summary, message), Header(n.contentType, n.plain)]
            + [Header(CONTENT_LENGTH, ToDecimal(|text|))], text)
    case Receipt(id) =>
      Frame(n.receipt, [Header(n.receiptId, id)], [])
  }

  function Built(env: Env, out: seq<Reply>): seq<Frame> {
    seq(|out|, i requires 0 <= i < |out| => Build(env, out[i]))
  }

  /** The bytes of a sequence of replies. */
  function Written(env: Env, out: seq<Reply>): Bytes {
    Join(Prints(Built(env, out)))
  }

  lemma WrittenAppend(env: Env, out: seq<Reply>, r: Reply)
    ensures Written(env, out + [r]) == Written(env, out) + ToBytes(Build(env, r))
  {
    var fs, f := Built(env, out), Build(env, r);
    assert Built(env, out + [r]) == fs + [f];
    PrintsAppend(fs, f);
    JoinAppend(Prints(fs), ToBytes(f));
  }

  /** Some byte of the replies could not be written. */
  predicate Broken(env: Env, out: seq<Reply>) {
    env.accepts.Some? && |Written(env, out)| > env.accepts.value
  }

  /** The bytes that reach the peer. */
  function Wire(env: Env, out: seq<Reply>): Bytes {
    if Broken(env, out) then Written(env, out)[..env.accepts.value] else Written(env, out)
  }

  /** One more reply: the peer takes all of it, or what it has room for. */
  lemma WireAppend(env: Env, out: seq<Reply>, r: Reply)
    requires !Broken(env, out)
    ensures var bytes, sent := ToBytes(Build(env, r)), Wire(env, out);
            if env.accepts.Some? && |sent| + |bytes| > env.accepts.value
            then Broken(env, out + [r]) && Wire(env, out + [r]) == sent + bytes[..env.accepts.value - |sent|]
            else !Broken(env, out + [r]) && Wire(env, out + [r]) == sent + bytes
  {
    WrittenAppend(env, out, r);
  }

  lemma PrintsAppend(fs: seq<Frame>, f: Frame)
    ensures Prints(fs + [f]) == Prints(fs) + [ToBytes(f)]
  {
  }

  // ------------------------------------------------------------ the connection

  /** `handled` is every frame accepted, `calls` every dispatcher call made and `out` every reply begun
      so far. */
  datatype State = State(
    connected: bool, subs: Subs, closed: bool,
    handled: seq<Frame>, calls: seq<Call>, out: seq<Reply>)

  const START: State := State(false, map[], false, [], [], [])

  function Close(s: State, r: Reply): State {
    s.(closed := true, out := s.out + [r])
  }

  /** The first listed subscription to `dest`. */
  function SubscriptionTo(keys: seq<Bytes>, subs: Subs, dest: Bytes): (r: Bytes)
    ensures if exists k :: k in keys && k in subs && subs[k] == dest
            then r in keys && r in subs && subs[r] == dest
            else r == NO_SUB
  {
    if keys == [] then NO_SUB
    else if keys[0] in subs && subs[keys[0]] == dest then keys[0]
    else SubscriptionTo(keys[1..], subs, dest)
  }

  function ReplyDestination(keys: seq<Bytes>, subs: Subs, f: Frame): Bytes {
    match Lookup(f.headers, REPLY_TO)
    case Some(d) => d
    case None => if keys != [] && keys[0] in subs then subs[keys[0]] else RESPONSES
  }

  function RouteReply(keys: seq<Bytes>, subs: Subs, f: Frame, body: Bytes): Reply {
    var dest := ReplyDestination(keys, subs, f);
    Message(dest, SubscriptionTo(keys, subs, dest), body)
  }

  datatype SendEffect = SendEffect(calls: seq<Call>, response: Option<Response>)

  /** What a SEND asks of the dispatcher, after the calls `before`, and what it answers. */
  function Dispatch(env: Env, before: seq<Call>, f: Frame): SendEffect {
    if !ValidUtf8(f.body) then SendEffect([], None)
    else
      match env.decode(f.body)
      case None => SendEffect([], Some(Response(None, Fault(env.parseFault(f.body)))))
      case Some(req) =>
        var call := Call(req.verb, req.params);
        var outcome := env.invoke(before, call);
        SendEffect([call], if req.id.None? && outcome.Done? then None else Some(Response(req.id, outcome)))
  }

  function HandleSend(env: Env, s: State, f: Frame): State {
    var effect := Dispatch(env, s.calls, f);
    var reply := match effect.response
      case None => []
      case Some(resp) => [RouteReply(env.order(s.handled, s.subs), s.subs, f, env.encode(resp))];
    s.(handled := s.handled + [f], calls := s.calls + effect.calls, out := s.out + reply)
  }

  function Apply(m: Subs, f: Frame): Subs {
    match KindOf(f)
    case Subscribe => m[GetOr(f, ID, NO_SUB) := GetOr(f, DESTINATION, RESPONSES)]
    case Unsubscribe =>
      (match Lookup(f.headers, ID)
       case Some(id) => m - {id}
       case None => m)
    case _ => m
  }

  /** One frame. */
  function Handle(env: Env, s: State, f: Frame): State {
    var kind := KindOf(f);
    var s' := s.(handled := s.handled + [f]);
    if !s.connected && kind != Connect then
      Close(s, Error(EXPECTED_CONNECT, []))
    else
      match kind
      case Connect =>
        if s.connected then Close(s', Error(ALREADY_CONNECTED, []))
        else s'.(connected := true, out := s.out + [Connected])
      case Subscribe => s'.(subs := Apply(s.subs, f))
      case Unsubscribe => s'.(subs := Apply(s.subs, f))
      case Send => HandleSend(env, s, f)
      case Disconnect =>
        (match Lookup(f.headers, RECEIPT)
         case Some(id) => Close(s', Receipt(id))
         case None => s'.(closed := true))
      case Other => s'
  }

  /** A failed write ends the connection. */
  function Cut(env: Env, s: State): State {
    if Broken(env, s.out) then s.(closed := true) else s
  }

  datatype Conn = Conn(state: State, buf: Bytes)

  /** Take frames from the buffer until it holds no complete one or the connection is closed. */
  function Pump(env: Env, s: State, buf: Bytes): Conn
    decreases |buf|
  {
    if s.closed then Conn(s, buf)
    else
      match ParseFrame(buf)
      case Incomplete => Conn(s, buf)
      case Failed(e) => Conn(Close(s, Error(MALFORMED, env.describe(e))), buf)
      case Parsed(f, rest) => Pump(env, Cut(env, Handle(env, s, f)), rest)
  }

  /** A whole connection over the results of successive reads; an empty read is the peer closing. */
  function Run(env: Env, c: Conn, chunks: seq<Bytes>): Conn
    decreases |chunks|
  {
    if c.state.closed || chunks == [] || chunks[0] == [] then c
    else Run(env, Pump(env, c.state, c.buf + chunks[0]), chunks[1..])
  }

  function Serve(env: Env, chunks: seq<Bytes>): Conn {
    Run(env, Conn(START, []), chunks)
  }
}
