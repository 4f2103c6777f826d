/** The websocket signalling channel (`ws.rs`): role detection from the
    server's first frame, text sending, dispatch of incoming frames with the
    ping/pong keepalive of section 5.5 of RFC 6455, and the mapping of
    websocket library errors into `SignalingError`. The socket is a log of
    sent frames plus the error a send would fail with. */
module Ws {
  import opened Base
  import S = Signalling
  import Ping

  /** Text the server sends first to the peer that dials. */
  const DIALER: string := "DIALER"

  /** What the role frame was expected to be, as reported on a mismatch. */
  const ROLE_DESCRIPTION: string := "DIALER or LISTENER"

  /** `tungstenite::Error`, by variant. */
  datatype TungsteniteError =
    | ConnectionClosed
    | AlreadyClosed
    | Io(io: S.IoError)
    | Tls
    | Capacity
    | Protocol(detail: string)
    | SendQueueFull
    | Utf8
    | Url
    | Http
    | HttpFormat

  /** `From<TungsteniteError> for SignalingError`. */
  function FromTungstenite(e: TungsteniteError): (r: S.SignalingError)
    ensures !r.Timeout?
    ensures r.ProtocolError? <==> e.Protocol?
    ensures r.ProtocolError? ==> r.cause == S.LibraryProtocol(e.detail)
    ensures e.Io? ==> r == S.Io(e.io)
    ensures !e.Io? && !e.Protocol? ==>
              r.Io? && r.io.kind == (
                if e.ConnectionClosed? || e.AlreadyClosed? then S.ConnectionReset
                else if e.Capacity? || e.SendQueueFull? then S.OutOfMemory
                else if e.Utf8? || e.Http? || e.HttpFormat? then S.InvalidData
                else if e.Url? then S.InvalidInput
                else S.OtherKind)
  {
    match e
    case ConnectionClosed => S.Io(S.IoError(S.ConnectionReset))
    case AlreadyClosed => S.Io(S.IoError(S.ConnectionReset))
    case Io(io) => S.Io(io)
    case Tls => S.Io(S.IoError(S.OtherKind))
    case Capacity => S.Io(S.IoError(S.OutOfMemory))
    case Protocol(detail) => S.ProtocolError(S.LibraryProtocol(detail))
    case SendQueueFull => S.Io(S.IoError(S.OutOfMemory))
    case Utf8 => S.Io(S.IoError(S.InvalidData))
    case Url => S.Io(S.IoError(S.InvalidInput))
    case Http => S.Io(S.IoError(S.InvalidData))
    case HttpFormat => S.Io(S.IoError(S.InvalidData))
  }

  /** `WebsocketError`. */
  datatype WebsocketError =
    | ProtocolError(cause: S.ProtocolCause)
    | WebsocketError(library: TungsteniteError)
    | Timeout

  /** `From<WebsocketError> for SignalingError`. */
  function IntoSignaling(e: WebsocketError): (r: S.SignalingError)
    ensures r.Timeout? <==> e.Timeout?
    ensures e.ProtocolError? ==> r == S.ProtocolError(e.cause)
    ensures e.WebsocketError? ==> r == FromTungstenite(e.library)
  {
    match e
    case ProtocolError(cause) => S.ProtocolError(cause)
    case WebsocketError(t) => FromTungstenite(t)
    case Timeout => S.Timeout
  }

  /** The websocket layer's own errors stay apart in the signalling layer:
      two timeouts or rejected frames that convert alike were alike. */
  lemma IntoSignalingSeparatesOwnErrors(a: WebsocketError, b: WebsocketError)
    requires !a.WebsocketError? && !b.WebsocketError?
    requires IntoSignaling(a) == IntoSignaling(b)
    ensures a == b
  {
  }

  /** What the socket yields when read: a frame, a library error, or the end
      of the stream. */
  datatype Read = Frame(msg: S.Message) | ReadError(error: TungsteniteError) | EndOfStream

  /** A connected websocket: the keepalive state, the frames sent so far, and
      the error every send fails with once the socket is broken. */
  datatype Websocket = Websocket(ping: Ping.Ping, sent: seq<S.Message>, broken: Option<TungsteniteError>)

  /** `Websocket::new` after the connection is made: the first frame decides
      the role. A connection failure is passed as a read error. */
  function New(first: Read, now: nat): (r: Result<(Websocket, bool), WebsocketError>)
    ensures r.Ok? <==> first.Frame? && first.msg.Text?
    ensures r.Ok? ==> (r.value.1 <==> first.msg.text == DIALER)
    ensures r.Ok? ==> r.value.0 == Websocket(Ping.New(now), [], None)
    ensures first == EndOfStream ==> r == Err(WebsocketError(ConnectionClosed))
    ensures first.Frame? && !first.msg.Text? ==>
              r == Err(ProtocolError(S.Unexpected(first.msg, S.MessageText(ROLE_DESCRIPTION))))
  {
    match first
    case EndOfStream => Err(WebsocketError(ConnectionClosed))
    case ReadError(e) => Err(WebsocketError(e))
    case Frame(Text(msg)) => Ok((Websocket(Ping.New(now), [], None), msg == DIALER))
    case Frame(x) => Err(ProtocolError(S.Unexpected(x, S.MessageText(ROLE_DESCRIPTION))))
  }

  /** Sends one frame, failing with the socket's error once it is broken. */
  function SendFrame(ws: Websocket, msg: S.Message): (r: Result<Websocket, WebsocketError>)
    ensures r.Ok? <==> ws.broken.None?
    ensures r.Ok? ==> r.value == ws.(sent := ws.sent + [msg])
    ensures r.Err? ==> r.error == WebsocketError(ws.broken.value)
  {
    match ws.broken
    case Some(e) => Err(WebsocketError(e))
    case None => Ok(ws.(sent := ws.sent + [msg]))
  }

  /** `Signalling::send`: one text frame. */
  function Send(ws: Websocket, msg: string): (r: Result<Websocket, WebsocketError>)
    ensures r.Ok? ==> r.value.sent == ws.sent + [S.Text(msg)] && r.value.ping == ws.ping
    ensures r.Err? <==> ws.broken.Some?
  {
    SendFrame(ws, S.Text(msg))
  }

  /** What `wait` yields: an incoming frame, or the keepalive asking for a ping. */
  datatype Value = Incoming(msg: S.Message) | MustPing

  /** `wait` when a read completed before the keepalive fired. */
  function WaitRead(read: Read): (r: Result<Value, WebsocketError>)
    ensures r.Ok? <==> read.Frame?
    ensures r.Ok? ==> r.value == Incoming(read.msg)
    ensures read == EndOfStream ==> r == Err(WebsocketError(ConnectionClosed))
  {
    match read
    case Frame(msg) => Ok(Incoming(msg))
    case ReadError(e) => Err(WebsocketError(e))
    case EndOfStream => Err(WebsocketError(ConnectionClosed))
  }

  /** `wait` when the keepalive fired first with one of its alarms. */
  function WaitAlarm(ws: Websocket, now: nat, alarm: Ping.Alarm): (r: Result<Value, WebsocketError>)
    requires alarm in Ping.Wait(ws.ping, now).alarms
    ensures r.Ok? <==> alarm == Ping.MustPing
    ensures r.Ok? ==> r.value == MustPing
    ensures r.Err? ==> r.error == Timeout && ws.ping.lastPong + Ping.PONG_TIMEOUT <= Ping.Wait(ws.ping, now).at
  {
    match alarm
    case MustPing => Ok(MustPing)
    case PongTimeout => Err(Timeout)
  }

  /** `WaitThen::then` at clock reading `now`. */
  function Then(ws: Websocket, v: Value, now: nat): (r: Result<(Websocket, Option<string>), WebsocketError>)
    ensures v.Incoming? && v.msg.Text? ==> r == Ok((ws, Some(v.msg.text)))
    ensures v.Incoming? && v.msg.Ping? ==>
              (r.Ok? <==> ws.broken.None?)
              && (r.Ok? ==> r.value == (ws.(ping := Ping.ReceivedPong(ws.ping, now), sent := ws.sent + [S.Pong(v.msg.payload)]), None))
    ensures v.Incoming? && v.msg.Pong? ==> r == Ok((ws.(ping := Ping.ReceivedPong(ws.ping, now)), None))
    ensures v.Incoming? && !(v.msg.Text? || v.msg.Ping? || v.msg.Pong?) ==>
              r == Err(ProtocolError(S.Unexpected(v.msg, S.MessageTextOrPong)))
    ensures v == MustPing ==>
              (r.Ok? <==> ws.broken.None?)
              && (r.Ok? ==> r.value == (ws.(ping := Ping.SentPing(ws.ping, now), sent := ws.sent + [S.Ping([])]), None))
    ensures r.Ok? && r.value.1.Some? ==> r.value.0 == ws
    ensures r.Err? && r.error.WebsocketError? ==> ws.broken == Some(r.error.library)
  {
    match v
    case Incoming(Text(text)) => Ok((ws, Some(text)))
    case Incoming(Ping(payload)) =>
      var ws1 := ws.(ping := Ping.ReceivedPong(ws.ping, now));
      (match SendFrame(ws1, S.Pong(payload))
       case Err(e) => Err(e)
       case Ok(ws2) => Ok((ws2, None)))
    case Incoming(Pong(_)) => Ok((ws.(ping := Ping.ReceivedPong(ws.ping, now)), None))
    case Incoming(x) => Err(ProtocolError(S.Unexpected(x, S.MessageTextOrPong)))
    case MustPing =>
      var ws1 := ws.(ping := Ping.SentPing(ws.ping, now));
      match SendFrame(ws1, S.Ping([]))
      case Err(e) => Err(e)
      case Ok(ws2) => Ok((ws2, None))
  }

  /** Every frame `then` sends is a control frame answering the input: the
      pong echoes the ping's payload, and the keepalive ping is empty. Text
      frames are only ever sent by `send`. */
  lemma ThenSendsOnlyControl(ws: Websocket, v: Value, now: nat)
    ensures var r := Then(ws, v, now);
            r.Ok? ==> r.value.0.sent == ws.sent
                      || (v.Incoming? && v.msg.Ping? && r.value.0.sent == ws.sent + [S.Pong(v.msg.payload)])
                      || (r.value.0.sent == ws.sent + [S.Ping([])] && v == MustPing)
  {
  }

  /** After answering a ping or taking a pong, the keepalive cannot time out
      before asking for the next ping. */
  lemma NoTimeoutAfterPeerTraffic(ws: Websocket, payload: Bytes, now: nat)
    requires ws.broken.None?
    ensures Then(ws, Incoming(S.Ping(payload)), now).Ok?
    ensures Ping.Wait(Then(ws, Incoming(S.Ping(payload)), now).value.0.ping, now).alarms == {Ping.MustPing}
    ensures Ping.Wait(Then(ws, Incoming(S.Pong(payload)), now).value.0.ping, now).alarms == {Ping.MustPing}
  {
    Ping.NoTimeoutAfterPong(ws.ping, now);
  }
}
