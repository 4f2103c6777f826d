/** The error every pipe stream layer funnels into (`StreamError`) and its
    conversion from `SignalingError`. */
module PipeStream {
  import opened Base
  import opened Signalling

  /** An error raised inside the connectivity or transport engine; `EngineIo`
      is the engine's own I/O error variant. */
  datatype EngineError = EngineIo(io: IoError) | EngineFault(name: string)

  /** The concrete error behind a `StreamError::Other(Box<dyn Error>)`: every
      layer boxes the errors that have no `StreamError` variant of their own. */
  datatype Boxed =
    | CryptoFailure
    | BadHandshake(got: string)
    | IceEngine(ice: EngineError)
    | AssociationClosedWithoutStream
    | SctpEngine(sctp: EngineError)

  datatype StreamError =
    | Io(io: IoError)
    | Timeout
    | SignalingError(signaling: SignalingError)
    | Other(boxed: Boxed)

  /** `From<SignalingError> for StreamError`. */
  function FromSignaling(e: SignalingError): (r: StreamError)
    ensures e.Io? <==> r.Io?
    ensures e.Timeout? <==> r.Timeout?
    ensures e.ProtocolError? <==> r.SignalingError?
    ensures !r.Other?
    ensures Normal(r)
  {
    match e
    case Io(io) => StreamError.Io(io)
    case Timeout => StreamError.Timeout
    case ProtocolError(_) => StreamError.SignalingError(e)
  }

  /** The conversion loses nothing: distinct signalling errors stay distinct. */
  lemma FromSignalingInjective(a: SignalingError, b: SignalingError)
    requires FromSignaling(a) == FromSignaling(b)
    ensures a == b
  {
  }

  /** The only stream errors `FromSignaling` produces are the normal ones, and
      each of them comes from exactly one signalling error. */
  lemma FromSignalingOnto(s: StreamError)
    requires Normal(s) && !s.Other?
    ensures exists e :: FromSignaling(e) == s
  {
    match s
    case Io(io) => assert FromSignaling(SignalingError.Io(io)) == s;
    case Timeout => assert FromSignaling(SignalingError.Timeout) == s;
    case SignalingError(e) => assert FromSignaling(e) == s;
  }

  /** A stream error in the shape the conversions produce: a wrapped
      signalling error is always a protocol error, since I/O errors and
      timeouts have variants of their own. */
  predicate Normal(s: StreamError) {
    s.SignalingError? ==> s.signaling.ProtocolError?
  }

  /** The normal form of a stream error: a wrapped signalling error is
      re-converted with `FromSignaling`. */
  function Normalize(s: StreamError): (r: StreamError)
    ensures Normal(r)
    ensures Normal(s) ==> r == s
    ensures r.Other? <==> s.Other?
  {
    match s
    case SignalingError(e) => FromSignaling(e)
    case _ => s
  }

  lemma NormalizeIdempotent(s: StreamError)
    ensures Normalize(Normalize(s)) == Normalize(s)
  {
  }
}
