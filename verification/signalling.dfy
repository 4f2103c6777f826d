/** The signalling channel as the rest of the core sees it: text messages out,
    optional text messages in, and the `SignalingError` every layer converts
    from. The transport behind it (a websocket) lives in module `Ws`. */
module Signalling {
  import opened Base

  /** The `std::io::ErrorKind` of an I/O error; `Kind(name)` stands for any
      kind this core only passes through. */
  datatype IoKind =
    | ConnectionReset
    | OutOfMemory
    | InvalidData
    | InvalidInput
    | TimedOut
    | OtherKind
    | Kind(name: string)

  /** A `std::io::Error`, identified by its kind. */
  datatype IoError = IoError(kind: IoKind)

  /** `From<TimeoutError> for std::io::Error`: a timeout becomes a `TimedOut` I/O error. */
  const TIMEOUT_AS_IO: IoError := IoError(TimedOut)

  /** A websocket frame (`tungstenite::Message`). */
  datatype Message =
    | Text(text: string)
    | Binary(data: Bytes)
    | Ping(payload: Bytes)
    | Pong(payload: Bytes)
    | Close(code: Option<nat>)
    | RawFrame(data: Bytes)

  /** What the websocket layer expected when it rejected a frame. */
  datatype Expected = MessageText(description: string) | MessageTextOrPong

  /** The boxed error inside `SignalingError::ProtocolError`: either a frame of
      the wrong kind, rejected by the websocket layer, or a protocol violation
      reported by the websocket library itself. */
  datatype ProtocolCause =
    | Unexpected(got: Message, expected: Expected)
    | LibraryProtocol(detail: string)

  datatype SignalingError =
    | Io(io: IoError)
    | Timeout
    | ProtocolError(cause: ProtocolCause)

  /** One completed wait-then round on the signalling channel: the text it
      yielded (`None` for control traffic such as pings), or the error raised
      by either step. */
  datatype Delivery = Arrived(text: Option<string>) | Raised(error: SignalingError)

  /** A signalling channel: the deliveries still to come, the messages sent so
      far, and whether sending is broken (every send then fails with that error). */
  datatype Channel = Channel(inbox: seq<Delivery>, outbox: seq<string>, broken: Option<SignalingError>)

  /** `Signalling::send`. */
  function Send(ch: Channel, msg: string): (r: Result<Channel, SignalingError>)
    ensures ch.broken.None? <==> r.Ok?
    ensures r.Ok? ==> r.value == ch.(outbox := ch.outbox + [msg])
    ensures r.Err? ==> r.error == ch.broken.value
  {
    match ch.broken
    case Some(e) => Err(e)
    case None => Ok(ch.(outbox := ch.outbox + [msg]))
  }

  /** Deliveries that carry neither text nor error. */
  predicate Quiet(ds: seq<Delivery>) {
    forall i :: 0 <= i < |ds| ==> ds[i] == Arrived(None)
  }

  /** How many wait-then rounds the receive loop skips: the length of the
      run of `None` deliveries at the front of `ds`. */
  function FirstLoud(ds: seq<Delivery>): (k: nat)
    ensures k <= |ds| && Quiet(ds[..k])
    ensures k < |ds| ==> ds[k] != Arrived(None)
  {
    if |ds| == 0 || ds[0] != Arrived(None) then 0
    else
      var k := FirstLoud(ds[1..]);
      assert ds[..k + 1] == [ds[0]] + ds[1..][..k];
      k + 1
  }

  /** The receive loop shared by key agreement and the candidate exchange
      handshake: repeat wait-then, skipping `None`, until a text arrives.
      The skipped rounds are counted by `FirstLoud`. */
  function NextText(ch: Channel): (r: Run<(string, Channel), SignalingError>)
    ensures r.Finished? ==> exists k :: 0 <= k < |ch.inbox| && Quiet(ch.inbox[..k])
                                       && ch.inbox[k] == Arrived(Some(r.value.0))
                                       && r.value.1 == ch.(inbox := ch.inbox[k + 1..])
    ensures r.Aborted? ==> exists k :: 0 <= k < |ch.inbox| && Quiet(ch.inbox[..k])
                                      && ch.inbox[k] == Raised(r.error)
    ensures r.Pending? <==> Quiet(ch.inbox)
  {
    var k := FirstLoud(ch.inbox);
    if k == |ch.inbox| then
      assert ch.inbox[..k] == ch.inbox;
      Pending
    else
      match ch.inbox[k]
      case Raised(e) => Aborted(e)
      case Arrived(Some(t)) => Finished((t, ch.(inbox := ch.inbox[k + 1..])))
  }

  /** `FirstLoud` counts exactly the `None` deliveries in front of the first
      other one. */
  lemma {:induction false} FirstLoudAfterQuiet(quiet: seq<Delivery>, d: Delivery, rest: seq<Delivery>)
    requires Quiet(quiet) && d != Arrived(None)
    ensures FirstLoud(quiet + [d] + rest) == |quiet|
    decreases |quiet|
  {
    var ds := quiet + [d] + rest;
    if |quiet| == 0 {
      assert ds[0] == d;
    } else {
      assert ds[0] == Arrived(None);
      assert ds[1..] == quiet[1..] + [d] + rest;
      FirstLoudAfterQuiet(quiet[1..], d, rest);
    }
  }

  /** Quiet deliveries in front of a text are skipped: the text is what the
      loop returns, and everything after it is left for later. */
  lemma NextTextSkipsQuiet(ch: Channel, quiet: seq<Delivery>, t: string, rest: seq<Delivery>)
    requires Quiet(quiet)
    requires ch.inbox == quiet + [Arrived(Some(t))] + rest
    ensures NextText(ch) == Finished((t, ch.(inbox := rest)))
  {
    FirstLoudAfterQuiet(quiet, Arrived(Some(t)), rest);
    assert ch.inbox[|quiet|] == Arrived(Some(t));
    assert ch.inbox[|quiet| + 1..] == rest;
  }
}
