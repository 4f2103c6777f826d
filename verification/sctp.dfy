/** The SCTP transport over the connected ICE path (`sctp.rs`): role-based
    setup of the association and its single stream, classification of what a
    read yields, and the closed predicate. The association itself is
    foreign; its outcomes are parameters. */
module Sctp {
  import opened Base
  import S = Signalling
  import P = PipeStream

  /** Size `wait` gives the read buffer before every read. */
  const READ_BUFFER_LEN: nat := 8096

  /** Identifier of the stream the dialer opens. */
  const STREAM_ID: nat := 1

  /** The one-byte payload each side writes once its stream exists. */
  const SETUP_MARKER: Bytes := [0]

  /** The connection state of the ICE agent, as the transport watches it. */
  datatype ConnectionState = Unspecified | New | Checking | Connected | Completed | Failed | Disconnected | Closed

  /** The payload protocol identifier a message is sent and received with. */
  datatype Ppid = Dcep | String | Binary | StringEmpty | BinaryEmpty | Unknown

  /** The transport state: the last connection state seen, the latch set
      by an empty read, and the read buffer. */
  datatype Sctp = Sctp(connection: ConnectionState, rxClosed: bool, buf: Bytes)

  /** `connection_closed`: the states from which the path no longer carries data. */
  function ConnectionClosed(s: Sctp): (r: bool)
    ensures r <==> s.connection in {Completed, Failed, Disconnected, Closed}
    ensures !r <==> s.connection in {Unspecified, New, Checking, Connected}
  {
    match s.connection
    case Unspecified => false
    case New => false
    case Checking => false
    case Connected => false
    case Completed => true
    case Failed => true
    case Disconnected => true
    case Closed => true
  }

  /** `rx_closed`. */
  function RxClosed(s: Sctp): (r: bool)
    ensures r <==> s.rxClosed || s.connection in {Completed, Failed, Disconnected, Closed}
  {
    s.rxClosed || ConnectionClosed(s)
  }

  datatype SctpError =
    | Io(io: S.IoError)
    | Timeout
    | SignalingError(signaling: S.SignalingError)
    | StreamError(stream: P.StreamError)
    | AssociationClosedWithoutStream
    | WebrtcSctpError(engine: P.EngineError)

  /** `From<SignalingError> for SctpError`. */
  function FromSignaling(e: S.SignalingError): (r: SctpError)
    ensures e.Io? <==> r.Io?
    ensures e.Timeout? <==> r.Timeout?
    ensures e.ProtocolError? <==> r == SignalingError(e)
  {
    match e
    case Io(io) => Io(io)
    case Timeout => Timeout
    case ProtocolError(_) => SignalingError(e)
  }

  /** `From<StreamError> for SctpError`: only boxed errors stay stream errors. */
  function FromStream(e: P.StreamError): (r: SctpError)
    ensures r.StreamError? <==> e.Other?
    ensures r.StreamError? ==> r.stream == e
    ensures !r.AssociationClosedWithoutStream? && !r.WebrtcSctpError?
    ensures r.SignalingError? ==> r.signaling.ProtocolError?
  {
    match e
    case Io(io) => Io(io)
    case Timeout => Timeout
    case SignalingError(s) => FromSignaling(s)
    case Other(_) => StreamError(e)
  }

  /** `From<SctpError> for StreamError`: the transport's own errors are boxed. */
  function IntoStream(e: SctpError): (r: P.StreamError)
    ensures e.StreamError? ==> r == e.stream
    ensures e.AssociationClosedWithoutStream? ==> r == P.Other(P.AssociationClosedWithoutStream)
    ensures e.WebrtcSctpError? ==> r == P.Other(P.SctpEngine(e.engine))
    ensures e.SignalingError? ==> r == P.FromSignaling(e.signaling)
  {
    match e
    case Io(io) => P.Io(io)
    case Timeout => P.Timeout
    case SignalingError(s) => P.FromSignaling(s)
    case StreamError(s) => s
    case AssociationClosedWithoutStream => P.Other(P.AssociationClosedWithoutStream)
    case WebrtcSctpError(x) => P.Other(P.SctpEngine(x))
  }

  /** Through `SctpError` and back, a stream error comes out in normal form:
      unchanged for I/O, timeouts, boxed errors and protocol errors. */
  lemma StreamErrorRoundTrip(e: P.StreamError)
    ensures IntoStream(FromStream(e)) == P.Normalize(e)
    ensures P.Normal(e) ==> IntoStream(FromStream(e)) == e
  {
  }

  /** One step of the setup, in the order it is taken. */
  datatype SetupAction =
    | StartClient
    | StartServer
    | OpenStream(id: nat, ppid: Ppid)
    | AcceptStream
    | Write(data: Bytes, ppid: Ppid)

  /** `Sctp::new`. The dialer starts the association as client and opens
      stream 1; the listener starts it as server and accepts a stream.
      `associated` is the association's start-up error, `openFailure` the
      dialer's stream-opening error, `accepted` whether the listener got a
      stream before the association ended, and `writeFailure` the error of
      writing the marker. The result lists the steps taken. */
  function Setup(dialer: bool, associated: Option<P.EngineError>, openFailure: Option<P.EngineError>,
                 accepted: bool, writeFailure: Option<P.EngineError>, connection: ConnectionState)
    : (r: (seq<SetupAction>, Result<Sctp, SctpError>))
    ensures |r.0| >= 1 && r.0[0] == (if dialer then StartClient else StartServer)
    ensures associated.Some? ==> r == ([r.0[0]], Err(WebrtcSctpError(associated.value)))
    ensures associated.None? ==> |r.0| >= 2 && r.0[1] == (if dialer then OpenStream(STREAM_ID, Binary) else AcceptStream)
    ensures associated.None? && !dialer && !accepted ==> r.1 == Err(AssociationClosedWithoutStream)
    ensures r.1.Ok? ==> r.0 == [r.0[0], r.0[1], Write(SETUP_MARKER, StringEmpty)]
                        && r.1.value == Sctp(connection, false, [])
    ensures r.1.Ok? <==> associated.None? && (if dialer then openFailure.None? else accepted) && writeFailure.None?
  {
    var start := if dialer then StartClient else StartServer;
    match associated
    case Some(e) => ([start], Err(WebrtcSctpError(e)))
    case None =>
      var streamStep := if dialer then OpenStream(STREAM_ID, Binary) else AcceptStream;
      var stream: Result<(), SctpError> :=
        if dialer then (match openFailure case Some(e) => Err(WebrtcSctpError(e)) case None => Ok(()))
        else if accepted then Ok(())
        else Err(AssociationClosedWithoutStream);
      match stream
      case Err(e) => ([start, streamStep], Err(e))
      case Ok(_) =>
        var steps := [start, streamStep, Write(SETUP_MARKER, StringEmpty)];
        match writeFailure
        case Some(e) => (steps, Err(WebrtcSctpError(e)))
        case None => (steps, Ok(Sctp(connection, false, [])))
  }

  /** What `wait` yields: a connection state change, or the length and
      identifier of a message read into the buffer. */
  datatype Value = StateChanged(state: ConnectionState) | Read(n: nat, ppid: Ppid)

  /** What completes a `wait`: the agent's state changes, a message arrives,
      or the read fails. */
  datatype Arrival = StateChange(state: ConnectionState) | Message(payload: Bytes, ppid: Ppid) | ReadFailed(error: P.EngineError)

  /** The buffer resized to `len` bytes: truncated, or padded with zeros. */
  function Resize(buf: Bytes, len: nat): (r: Bytes)
    ensures |r| == len
    ensures forall i :: 0 <= i < len ==> r[i] == if i < |buf| then buf[i] else 0
  {
    if |buf| >= len then buf[..len] else buf + seq(len - |buf|, _ => 0)
  }

  /** `WaitThen::wait`: the buffer is resized first; a message is read into
      its front. A message longer than the buffer fails the read, which is
      passed as `ReadFailed`. */
  function Wait(s: Sctp, arrival: Arrival): (r: Result<(Sctp, Value), SctpError>)
    requires arrival.Message? ==> |arrival.payload| <= READ_BUFFER_LEN
    ensures r.Ok? <==> !arrival.ReadFailed?
    ensures r.Ok? ==> |r.value.0.buf| == READ_BUFFER_LEN && r.value.0.rxClosed == s.rxClosed
    ensures arrival.StateChange? ==> r.Ok? && r.value.1 == StateChanged(arrival.state) && r.value.0.connection == arrival.state
    ensures arrival.Message? ==> r.Ok? && r.value.1 == Read(|arrival.payload|, arrival.ppid)
                                 && r.value.0.buf[..|arrival.payload|] == arrival.payload
                                 && r.value.0.connection == s.connection
    ensures arrival.ReadFailed? ==> r == Err(WebrtcSctpError(arrival.error))
  {
    var buf := Resize(s.buf, READ_BUFFER_LEN);
    match arrival
    case StateChange(state) => Ok((s.(connection := state, buf := buf), StateChanged(state)))
    case Message(payload, ppid) =>
      var filled := payload + buf[|payload|..];
      assert filled[..|payload|] == payload;
      Ok((s.(buf := filled), Read(|payload|, ppid)))
    case ReadFailed(e) => Err(WebrtcSctpError(e))
  }

  /** `WaitThen::then`: a state change yields nothing; an empty read latches
      `rx_closed`; a message that is not binary is dropped; a binary message
      is the first `n` bytes of the buffer. */
  function Then(s: Sctp, v: Value): (r: (Sctp, Option<Bytes>))
    requires v.Read? ==> v.n <= |s.buf|
    ensures v.StateChanged? ==> r == (s, None)
    ensures v.Read? && v.n == 0 ==> r == (s.(rxClosed := true), None)
    ensures v.Read? && v.n > 0 && v.ppid != Binary ==> r == (s, None)
    ensures r.1.Some? <==> v.Read? && v.n > 0 && v.ppid == Binary
    ensures r.1.Some? ==> r.1.value == s.buf[..v.n] && r.0 == s
  {
    match v
    case StateChanged(_) => (s, None)
    case Read(n, ppid) =>
      if n == 0 then (s.(rxClosed := true), None)
      else if ppid != Binary then (s, None)
      else (s, Some(s.buf[..n]))
  }

  /** A binary message comes out of a wait-then round exactly as it was
      read, at most one buffer long; the setup marker, sent with another
      identifier, never comes out. */
  lemma DeliversBinaryPayloads(s: Sctp, payload: Bytes, ppid: Ppid)
    requires |payload| <= READ_BUFFER_LEN
    ensures var (s1, v) := Wait(s, Message(payload, ppid)).value;
            var out := Then(s1, v).1;
            && (out.Some? <==> ppid == Binary && |payload| > 0)
            && (out.Some? ==> out.value == payload && |out.value| <= READ_BUFFER_LEN)
    ensures Then(Wait(s, Message(SETUP_MARKER, StringEmpty)).value.0, Wait(s, Message(SETUP_MARKER, StringEmpty)).value.1).1 == None
  {
  }

  /** Wait-then rounds driven by `arrivals` in order, stopping at the first
      failed read; the result is the final state and the payloads
      delivered. */
  function Rounds(s: Sctp, arrivals: seq<Arrival>): Result<(Sctp, seq<Bytes>), SctpError>
    requires forall i :: 0 <= i < |arrivals| && arrivals[i].Message? ==> |arrivals[i].payload| <= READ_BUFFER_LEN
    decreases |arrivals|
  {
    if |arrivals| == 0 then Ok((s, []))
    else
      match Wait(s, arrivals[0])
      case Err(e) => Err(e)
      case Ok((s1, v)) =>
        var (s2, out) := Then(s1, v);
        match Rounds(s2, arrivals[1..])
        case Err(e) => Err(e)
        case Ok((s3, outs)) =>
          Ok((s3, (if out.Some? then [out.value] else []) + outs))
  }

  /** Once an empty read has closed the transport for reading, it stays
      closed through any number of wait-then rounds, whatever states the
      connection passes through. */
  lemma {:induction false} RxClosedLatches(s: Sctp, arrivals: seq<Arrival>)
    requires s.rxClosed
    requires forall i :: 0 <= i < |arrivals| && arrivals[i].Message? ==> |arrivals[i].payload| <= READ_BUFFER_LEN
    ensures Rounds(s, arrivals).Ok? ==> Rounds(s, arrivals).value.0.rxClosed && RxClosed(Rounds(s, arrivals).value.0)
    decreases |arrivals|
  {
    if |arrivals| > 0 {
      match Wait(s, arrivals[0])
      case Err(_) =>
      case Ok((s1, v)) =>
        var s2 := Then(s1, v).0;
        assert s2.rxClosed;
        RxClosedLatches(s2, arrivals[1..]);
    }
  }
}
