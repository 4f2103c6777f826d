/** The candidate exchange of the connectivity layer (`ice.rs`): a start
    handshake on the signalling channel, forwarding of local candidates,
    delivery of remote candidates to the agent, and the close handshake with
    its two latches. The agent itself is foreign; it appears only as the
    function that accepts or rejects a remote candidate. */
module Ice {
  import opened Base
  import S = Signalling
  import P = PipeStream

  /** First message of each side; the peer must answer with the same text. */
  const PROTOCOL_START: string := "Icepipe"

  /** The message that shuts the exchange down in one direction. */
  const PROTOCOL_CLOSE: string := "Close"

  datatype IceError =
    | Io(io: S.IoError)
    | Timeout
    | SignalingError(signaling: S.SignalingError)
    | BadHandshake(got: string)
    | IceError(engine: P.EngineError)

  /** `From<SignalingError> for IceError`. */
  function FromSignaling(e: S.SignalingError): (r: IceError)
    ensures e.Io? <==> r.Io?
    ensures r.Io? ==> r.io == e.io
    ensures e.Timeout? <==> r.Timeout?
    ensures e.ProtocolError? <==> r == SignalingError(e)
  {
    match e
    case Io(io) => Io(io)
    case Timeout => Timeout
    case ProtocolError(_) => SignalingError(e)
  }

  /** `From<webrtc_ice::Error> for IceError`: the engine's I/O errors are
      unwrapped, every other engine error is kept. */
  function FromEngine(e: P.EngineError): (r: IceError)
    ensures e.EngineIo? <==> r.Io?
    ensures r.Io? ==> r.io == e.io
    ensures !e.EngineIo? ==> r == IceError(e)
  {
    match e
    case EngineIo(io) => Io(io)
    case EngineFault(_) => IceError(e)
  }

  /** `From<IceError> for StreamError`: the errors without a stream variant
      of their own are boxed. */
  function IntoStream(e: IceError): (r: P.StreamError)
    ensures P.Normal(r)
    ensures r.Other? <==> e.BadHandshake? || e.IceError?
    ensures e.BadHandshake? ==> r == P.Other(P.BadHandshake(e.got))
    ensures e.IceError? ==> r == P.Other(P.IceEngine(e.engine))
  {
    match e
    case Io(io) => P.Io(io)
    case Timeout => P.Timeout
    case SignalingError(s) => P.FromSignaling(s)
    case BadHandshake(got) => P.Other(P.BadHandshake(got))
    case IceError(x) => P.Other(P.IceEngine(x))
  }

  /** Converting a signalling error through this layer lands where the
      direct conversion does, and an engine error never reaches the stream
      as a boxed engine I/O error. */
  lemma ConversionsCommute(s: S.SignalingError, x: P.EngineError, io: S.IoError)
    ensures IntoStream(FromSignaling(s)) == P.FromSignaling(s)
    ensures IntoStream(FromEngine(x)) != P.Other(P.IceEngine(P.EngineIo(io)))
    ensures x.EngineIo? ==> IntoStream(FromEngine(x)) == P.Io(x.io)
  {
  }

  /** The state of `CandidateExchange`. Local candidates reach it as events,
      so the candidate queue is not part of the state. */
  datatype Exchange = Exchange(signalling: S.Channel, txShut: bool, rxShut: bool)

  /** `rx_closed`. */
  function RxClosed(ex: Exchange): bool {
    ex.rxShut
  }

  /** `CandidateExchange::new`: sends the start message, then the first text
      that arrives must be the start message too. */
  function New(ch: S.Channel): (r: Run<Exchange, IceError>)
    ensures ch.broken.Some? ==> r == Aborted(FromSignaling(ch.broken.value))
    ensures r.Finished? ==> !r.value.txShut && !r.value.rxShut
                            && r.value.signalling.outbox == ch.outbox + [PROTOCOL_START]
    ensures r.Finished? ==> exists k :: 0 <= k < |ch.inbox| && S.Quiet(ch.inbox[..k])
                                       && ch.inbox[k] == S.Arrived(Some(PROTOCOL_START))
                                       && r.value.signalling.inbox == ch.inbox[k + 1..]
    ensures r.Aborted? && r.error.BadHandshake? ==>
              r.error.got != PROTOCOL_START
              && exists k :: 0 <= k < |ch.inbox| && S.Quiet(ch.inbox[..k])
                             && ch.inbox[k] == S.Arrived(Some(r.error.got))
  {
    match S.Send(ch, PROTOCOL_START)
    case Err(e) => Aborted(FromSignaling(e))
    case Ok(ch1) =>
      match S.NextText(ch1)
      case Pending => Pending
      case Aborted(e) => Aborted(FromSignaling(e))
      case Finished((recv, ch2)) =>
        if recv != PROTOCOL_START then Aborted(BadHandshake(recv))
        else Finished(Exchange(ch2, false, false))
  }

  /** The handshake outcome is decided by the first text after control
      traffic: the start message opens the exchange, anything else is a bad
      handshake carrying that text. */
  lemma {:induction false} NewDecidedByFirstText(ch: S.Channel, quiet: seq<S.Delivery>, t: string, rest: seq<S.Delivery>)
    requires ch.broken.None?
    requires S.Quiet(quiet) && ch.inbox == quiet + [S.Arrived(Some(t))] + rest
    ensures t == PROTOCOL_START ==>
              New(ch) == Finished(Exchange(S.Channel(rest, ch.outbox + [PROTOCOL_START], None), false, false))
    ensures t != PROTOCOL_START ==> New(ch) == Aborted(BadHandshake(t))
  {
    S.NextTextSkipsQuiet(ch.(outbox := ch.outbox + [PROTOCOL_START]), quiet, t, rest);
  }

  /** What `wait` can yield: a local candidate to forward, or one completed
      wait-then round of the signalling channel. */
  datatype Event = Local(candidate: string) | Remote(delivery: S.Delivery)

  /** The agent's handling of a remote candidate: `None` when it was
      unmarshalled and added, the engine error otherwise. */
  type Agent = string -> Option<P.EngineError>

  /** The exchange after one `then`, and the remote candidate handed to the
      agent, if any. */
  datatype Step = Step(exchange: Exchange, added: Option<string>)

  /** `CandidateExchange::then`. */
  function Then(ex: Exchange, agent: Option<Agent>, ev: Event): (r: Result<Step, IceError>)
    ensures ev.Local? ==> (r.Ok? <==> ex.signalling.broken.None?)
    ensures ev.Local? && r.Ok? ==>
              r.value == Step(ex.(signalling := ex.signalling.(outbox := ex.signalling.outbox + [ev.candidate])), None)
    ensures ev.Local? && r.Err? ==> r.error == FromSignaling(ex.signalling.broken.value)
    ensures ev == Remote(S.Arrived(None)) ==> r == Ok(Step(ex, None))
    ensures ev == Remote(S.Arrived(Some(PROTOCOL_CLOSE))) ==> r == Ok(Step(ex.(rxShut := true), None))
    ensures ev.Remote? && ev.delivery.Raised? ==> r == Err(FromSignaling(ev.delivery.error))
    ensures r.Ok? && r.value.added.Some? ==>
              agent.Some? && r.value.added.value != PROTOCOL_CLOSE
              && ev == Remote(S.Arrived(Some(r.value.added.value)))
              && r.value.exchange == ex
    ensures agent.None? && r.Ok? ==> r.value.added.None?
    ensures r.Ok? ==> r.value.exchange.txShut == ex.txShut && (ex.rxShut ==> r.value.exchange.rxShut)
  {
    match ev
    case Local(c) =>
      (match S.Send(ex.signalling, c)
       case Err(e) => Err(FromSignaling(e))
       case Ok(ch) => Ok(Step(ex.(signalling := ch), None)))
    case Remote(Raised(e)) => Err(FromSignaling(e))
    case Remote(Arrived(None)) => Ok(Step(ex, None))
    case Remote(Arrived(Some(text))) =>
      if text == PROTOCOL_CLOSE then Ok(Step(ex.(rxShut := true), None))
      else
        match agent
        case None => Ok(Step(ex, None))
        case Some(accept) =>
          match accept(text)
          case Some(err) => Err(FromEngine(err))
          case None => Ok(Step(ex, Some(text)))
  }

  /** A remote text other than the close message is a candidate: it goes to
      the agent when there is one and is discarded otherwise. */
  lemma RemoteCandidateRouting(ex: Exchange, agent: Option<Agent>, text: string)
    requires text != PROTOCOL_CLOSE
    ensures agent.None? ==> Then(ex, agent, Remote(S.Arrived(Some(text)))) == Ok(Step(ex, None))
    ensures agent.Some? && agent.value(text).None? ==>
              Then(ex, agent, Remote(S.Arrived(Some(text)))) == Ok(Step(ex, Some(text)))
    ensures agent.Some? && agent.value(text).Some? ==>
              Then(ex, agent, Remote(S.Arrived(Some(text)))) == Err(FromEngine(agent.value(text).value))
  {
  }

  /** How a `close` call ended, the exchange it left behind, and the events
      it did not consume. */
  datatype Closing = Closing(exchange: Exchange, status: Run<(), IceError>, rest: seq<Event>)

  /** The loop of `close`: handle events without an agent until the peer's
      close message has arrived. */
  function Drain(ex: Exchange, events: seq<Event>): (r: Closing)
    decreases |events|
    ensures r.status.Finished? <==> r.exchange.rxShut
    ensures r.status.Pending? ==> r.rest == []
    ensures r.exchange.txShut == ex.txShut && (ex.rxShut ==> r.exchange == ex && r.rest == events)
    ensures |r.rest| <= |events| && r.rest == events[|events| - |r.rest|..]
  {
    if ex.rxShut then Closing(ex, Finished(()), events)
    else if |events| == 0 then Closing(ex, Pending, [])
    else
      match Then(ex, None, events[0])
      case Err(e) => Closing(ex, Aborted(e), events[1..])
      case Ok(step) =>
        var r := Drain(step.exchange, events[1..]);
        assert events[1..][|events| - 1 - |r.rest|..] == events[|events| - |r.rest|..];
        r
  }

  /** `CandidateExchange::close`: send the close message unless already sent,
      then drain until the peer's close message arrives. */
  function Close(ex: Exchange, events: seq<Event>): (r: Closing)
    ensures r.status.Finished? ==> r.exchange.rxShut
    ensures r.status.Pending? ==> !r.exchange.rxShut && r.rest == []
    ensures ex.txShut ==> r.exchange.txShut
    ensures ex.rxShut ==> r.exchange.rxShut
    ensures !r.exchange.txShut ==> ex.signalling.broken.Some? && r == Closing(ex, Aborted(FromSignaling(ex.signalling.broken.value)), events)
    ensures ex.txShut && ex.rxShut ==> r == Closing(ex, Finished(()), events)
    ensures |r.rest| <= |events| && r.rest == events[|events| - |r.rest|..]
  {
    if !ex.txShut then
      match S.Send(ex.signalling, PROTOCOL_CLOSE)
      case Err(e) => Closing(ex, Aborted(FromSignaling(e)), events)
      case Ok(ch) => Drain(ex.(signalling := ch, txShut := true), events)
    else
      Drain(ex, events)
  }

  /** Number of close messages in a list of sent messages. */
  function Closes(sent: seq<string>): nat {
    if |sent| == 0 then 0
    else Closes(sent[..|sent| - 1]) + (if sent[|sent| - 1] == PROTOCOL_CLOSE then 1 else 0)
  }

  /** No local candidate is the close message: a marshalled candidate
      always carries its attributes, so it never reads "Close". */
  predicate NoCloseCandidates(events: seq<Event>) {
    forall i :: 0 <= i < |events| ==> events[i].Local? ==> events[i].candidate != PROTOCOL_CLOSE
  }

  /** The close message has been sent exactly when the `tx_shut` latch is
      set: `base` counts those sent before the exchange existed. */
  predicate Latched(ex: Exchange, base: nat) {
    Closes(ex.signalling.outbox) == base + (if ex.txShut then 1 else 0)
  }

  lemma ThenKeepsLatched(ex: Exchange, base: nat, agent: Option<Agent>, ev: Event)
    requires Latched(ex, base)
    requires ev.Local? ==> ev.candidate != PROTOCOL_CLOSE
    ensures Then(ex, agent, ev).Ok? ==> Latched(Then(ex, agent, ev).value.exchange, base)
  {
    if ev.Local? && Then(ex, agent, ev).Ok? {
      var out := ex.signalling.outbox + [ev.candidate];
      assert out[..|out| - 1] == ex.signalling.outbox;
    }
  }

  lemma {:induction false} DrainKeepsLatched(ex: Exchange, base: nat, events: seq<Event>)
    requires Latched(ex, base) && NoCloseCandidates(events)
    ensures Latched(Drain(ex, events).exchange, base)
    decreases |events|
  {
    if !ex.rxShut && |events| > 0 {
      ThenKeepsLatched(ex, base, None, events[0]);
      var step := Then(ex, None, events[0]);
      if step.Ok? {
        DrainKeepsLatched(step.value.exchange, base, events[1..]);
      }
    }
  }

  /** A `close` call keeps the latch invariant: it sends the close message
      only when the latch was not set, and sets it when it does. */
  lemma CloseKeepsLatched(ex: Exchange, base: nat, events: seq<Event>)
    requires Latched(ex, base) && NoCloseCandidates(events)
    ensures Latched(Close(ex, events).exchange, base)
  {
    if !ex.txShut && ex.signalling.broken.None? {
      var out := ex.signalling.outbox + [PROTOCOL_CLOSE];
      assert out[..|out| - 1] == ex.signalling.outbox;
      DrainKeepsLatched(ex.(signalling := ex.signalling.(outbox := out), txShut := true), base, events);
    } else {
      DrainKeepsLatched(ex, base, events);
    }
  }

  /** One call on the exchange: `then` with or without an agent, or `close`. */
  datatype Op = Handle(agent: Option<Agent>, event: Event) | CloseCall(events: seq<Event>)

  predicate NoCloseCandidateOps(ops: seq<Op>) {
    forall i :: 0 <= i < |ops| ==>
      match ops[i]
      case Handle(_, ev) => ev.Local? ==> ev.candidate != PROTOCOL_CLOSE
      case CloseCall(events) => NoCloseCandidates(events)
  }

  /** The exchange after a sequence of calls; a failed `then` leaves it as it was. */
  function Session(ex: Exchange, ops: seq<Op>): Exchange
    decreases |ops|
  {
    if |ops| == 0 then ex
    else
      var next := match ops[0]
        case Handle(agent, ev) =>
          (match Then(ex, agent, ev)
           case Ok(step) => step.exchange
           case Err(_) => ex)
        case CloseCall(events) => Close(ex, events).exchange;
      Session(next, ops[1..])
  }

  /** Across any sequence of calls, the close message is sent at most once,
      exactly when `tx_shut` gets set, and neither latch is ever reset. */
  lemma {:induction false} CloseSentAtMostOnce(ex: Exchange, base: nat, ops: seq<Op>)
    requires Latched(ex, base) && NoCloseCandidateOps(ops)
    ensures Latched(Session(ex, ops), base)
    ensures Closes(Session(ex, ops).signalling.outbox) <= base + 1
    ensures ex.txShut ==> Session(ex, ops).txShut
    ensures RxClosed(ex) ==> RxClosed(Session(ex, ops))
    decreases |ops|
  {
    if |ops| > 0 {
      var next: Exchange;
      match ops[0] {
        case Handle(agent, ev) =>
          ThenKeepsLatched(ex, base, agent, ev);
          next := match Then(ex, agent, ev)
            case Ok(step) => step.exchange
            case Err(_) => ex;
        case CloseCall(events) =>
          CloseKeepsLatched(ex, base, events);
          next := Close(ex, events).exchange;
      }
      assert NoCloseCandidateOps(ops[1..]) by {
        forall i | 0 <= i < |ops| - 1
          ensures match ops[1..][i]
                  case Handle(_, ev) => ev.Local? ==> ev.candidate != PROTOCOL_CLOSE
                  case CloseCall(events) => NoCloseCandidates(events)
        {
          assert ops[1..][i] == ops[i + 1];
        }
      }
      assert Session(ex, ops) == Session(next, ops[1..]);
      CloseSentAtMostOnce(next, base, ops[1..]);
    }
  }

  /** `rx_closed` never goes back to false: no call on the exchange clears
      the `rx_shut` latch, whatever candidates it carries. */
  lemma {:induction false} RxClosedNeverReopens(ex: Exchange, ops: seq<Op>)
    requires RxClosed(ex)
    ensures RxClosed(Session(ex, ops))
    decreases |ops|
  {
    if |ops| > 0 {
      var next := match ops[0]
        case Handle(agent, ev) =>
          (match Then(ex, agent, ev)
           case Ok(step) => step.exchange
           case Err(_) => ex)
        case CloseCall(events) => Close(ex, events).exchange;
      assert Session(ex, ops) == Session(next, ops[1..]);
      RxClosedNeverReopens(next, ops[1..]);
    }
  }

  /** `get_local`: the ICE username fragment and password of a role. */
  function GetLocal(dialer: bool): string {
    if dialer then "locallocallocallocal" else "remoteremoteremoteremote"
  }

  /** `get_remote`: the credentials expected of the peer. */
  function GetRemote(dialer: bool): (r: string)
    ensures r != GetLocal(dialer)
  {
    GetLocal(!dialer)
  }

  /** The credentials pair up: what each side expects of its peer is what
      the peer uses itself, and the two roles use different credentials. */
  lemma CredentialsPairUp(dialer: bool)
    ensures GetRemote(dialer) == GetLocal(!dialer)
    ensures GetRemote(!dialer) == GetLocal(dialer)
    ensures GetLocal(true) != GetLocal(false)
    ensures GetRemote(dialer) != GetLocal(dialer)
  {
  }
}
