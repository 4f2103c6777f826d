/** Connection options (`connect.rs`): the signalling server and the
    STUN/TURN servers are taken from the caller when given, from the
    built-in defaults otherwise, and the channel text becomes the name of the
    signalling room. The websocket, agreement, ICE and SCTP stages that
    follow are modelled in their own modules. */
module Connect {
  import opened Base
  import opened Primitives
  import C = Constants
  import A = Agreement

  const NO_SIGNALING: string := "No default value available for signaling, must provide one"
  const NO_ICE: string := "No default value available for ice, must provide one"

  /** Salt under which the room name is derived from the channel text. */
  const CHANNEL_SALT: string := "channel"

  /** `Optional::into_option`: an empty list counts as absent. */
  function IntoOption<T>(v: seq<T>): (r: Option<seq<T>>)
    ensures r.None? <==> |v| == 0
    ensures r.Some? ==> r.value == v
  {
    if |v| == 0 then None else Some(v)
  }

  /** The signalling server: the caller's, else the default, else an
      error. The default's own error is replaced by `NO_SIGNALING`. */
  function SelectSignaling(supplied: Option<string>, env: Option<string>): (r: Result<string, string>)
    ensures supplied.Some? ==> r == Ok(supplied.value)
    ensures supplied.None? && C.BytesToStr("SIGNAL", env, C.SIGNAL_DEFAULT).Ok? ==> r == C.BytesToStr("SIGNAL", env, C.SIGNAL_DEFAULT)
    ensures r.Err? <==> supplied.None? && C.BytesToStr("SIGNAL", env, C.SIGNAL_DEFAULT).Err?
    ensures r.Err? ==> r.error == NO_SIGNALING
  {
    match supplied
    case Some(url) => Ok(url)
    case None =>
      match C.BytesToStr("SIGNAL", env, C.SIGNAL_DEFAULT)
      case Ok(url) => Ok(url)
      case Err(_) => Err(NO_SIGNALING)
  }

  /** The ICE servers: the caller's entries when there are any, each parsed
      as `url&username&password`; else the default list when it parses and
      is not empty; else an error. */
  function SelectIce<U>(supplied: seq<string>, env: Option<string>, parse: string -> Result<U, string>)
    : (r: Result<seq<C.IceUrl<U>>, string>)
    ensures |supplied| > 0 ==> r == C.ParseAll(supplied, parse)
    ensures |supplied| == 0 ==> (r.Ok? <==> C.IceUrls(env, parse).Ok?)
    ensures |supplied| == 0 && r.Ok? ==> r == C.IceUrls(env, parse)
    ensures |supplied| == 0 && r.Err? ==> r.error == NO_ICE
    ensures r.Ok? ==> |r.value| >= 1
  {
    match IntoOption(supplied)
    case Some(entries) => C.ParseAll(entries, parse)
    case None =>
      match C.IceUrls(env, parse)
      case Ok(urls) => (match IntoOption(urls) case Some(u) => Ok(u) case None => Err(NO_ICE))
      case Err(_) => Err(NO_ICE)
  }

  /** The room name: the channel text derived as a dialer would, so that
      both peers compute it before they know their roles. */
  function ChannelName(suite: Suite, channel: string): (r: string)
    ensures Pbkdf2Length(suite) ==> exists key: Bytes :: |key| == A.PSK_KEY_LEN && r == suite.base64UrlNoPad(key)
  {
    A.DeriveText(suite, channel, true, CHANNEL_SALT)
  }

  /** What `connect` settles before it opens the websocket: the parsed
      signalling URL, the ICE servers, the room name and the password. */
  datatype Plan<V, U> = Plan(signaling: V, ice: seq<C.IceUrl<U>>, room: string, password: string)

  /** `connect`, up to the websocket: the signalling server is selected and
      parsed as a URL by `parseSignaling`, then the ICE servers are selected,
      then the room is named. The channel text is also the password of the
      agreement. */
  function Connect<V, U>(suite: Suite, channel: string, signaling: Option<string>, ice: seq<string>,
                         signalEnv: Option<string>, stunEnv: Option<string>,
                         parseSignaling: string -> Result<V, string>, parse: string -> Result<U, string>)
    : (r: Result<Plan<V, U>, string>)
    ensures SelectSignaling(signaling, signalEnv).Err? ==> r == Err(NO_SIGNALING)
    ensures SelectSignaling(signaling, signalEnv).Ok? && parseSignaling(SelectSignaling(signaling, signalEnv).value).Err? ==>
              r == Err(parseSignaling(SelectSignaling(signaling, signalEnv).value).error)
    ensures SelectSignaling(signaling, signalEnv).Ok? && parseSignaling(SelectSignaling(signaling, signalEnv).value).Ok?
            && SelectIce(ice, stunEnv, parse).Err? ==>
              r == Err(SelectIce(ice, stunEnv, parse).error)
    ensures r.Ok? <==> && SelectSignaling(signaling, signalEnv).Ok?
                       && parseSignaling(SelectSignaling(signaling, signalEnv).value).Ok?
                       && SelectIce(ice, stunEnv, parse).Ok?
    ensures r.Ok? ==> r.value == Plan(parseSignaling(SelectSignaling(signaling, signalEnv).value).value,
                                     SelectIce(ice, stunEnv, parse).value, ChannelName(suite, channel), channel)
  {
    match SelectSignaling(signaling, signalEnv)
    case Err(e) => Err(e)
    case Ok(server) =>
      match parseSignaling(server)
      case Err(e) => Err(e)
      case Ok(url) =>
        match SelectIce(ice, stunEnv, parse)
        case Err(e) => Err(e)
        case Ok(urls) => Ok(Plan(url, urls, ChannelName(suite, channel), channel))
  }

  /** Two peers given the same channel text meet in the same room whatever
      servers each was told to use, and with neither option supplied both
      fall back to the same servers. */
  lemma PeersMeet<V, U>(suite: Suite, channel: string, sigA: Option<string>, sigB: Option<string>,
                        iceA: seq<string>, iceB: seq<string>, env: Option<string>, stun: Option<string>,
                        parseSignaling: string -> Result<V, string>, parse: string -> Result<U, string>)
    requires Connect(suite, channel, sigA, iceA, env, stun, parseSignaling, parse).Ok?
    requires Connect(suite, channel, sigB, iceB, env, stun, parseSignaling, parse).Ok?
    ensures Connect(suite, channel, sigA, iceA, env, stun, parseSignaling, parse).value.room
         == Connect(suite, channel, sigB, iceB, env, stun, parseSignaling, parse).value.room
    ensures sigA.None? && sigB.None? && |iceA| == 0 && |iceB| == 0 ==>
              Connect(suite, channel, sigA, iceA, env, stun, parseSignaling, parse)
              == Connect(suite, channel, sigB, iceB, env, stun, parseSignaling, parse)
  {
  }

  /** An unparsable signalling URL fails `connect` before the ICE servers
      are looked at, whatever they are. */
  lemma BadSignalingUrlFirst<V, U>(suite: Suite, channel: string, signaling: string, iceA: seq<string>, iceB: seq<string>,
                                   stun: Option<string>, parseSignaling: string -> Result<V, string>,
                                   parse: string -> Result<U, string>)
    requires parseSignaling(signaling).Err?
    ensures Connect(suite, channel, Some(signaling), iceA, None, stun, parseSignaling, parse)
         == Connect(suite, channel, Some(signaling), iceB, None, stun, parseSignaling, parse)
         == Err(parseSignaling(signaling).error)
  {
  }

  /** With no environment variables, the signalling default is the public
      server. */
  lemma DefaultSignaling()
    ensures SelectSignaling(None, None) == Ok("wss://icepipe.fly.dev/signaling/")
  {
    C.SignalDefault();
  }

  /** With no environment variable and no servers given, the ICE default is
      Google's STUN server without credentials. */
  lemma DefaultIce<U>(parse: string -> Result<U, string>)
    requires parse("stun:stun.l.google.com:19302").Ok?
    ensures SelectIce([], None, parse) == Ok([C.IceUrl(parse("stun:stun.l.google.com:19302").value, "", "")])
  {
    C.StunDefault();
    StunAddressHasNoSeparators();
    SingleDefaultEntry("stun:stun.l.google.com:19302", parse);
  }

  lemma StunAddressHasNoSeparators()
    ensures ';' !in "stun:stun.l.google.com:19302" && '&' !in "stun:stun.l.google.com:19302"
  {
  }

  lemma SingleDefaultEntry<U>(url: string, parse: string -> Result<U, string>)
    requires C.BytesToStr("STUN", None, C.STUN_DEFAULT) == Ok(url)
    requires ';' !in url && '&' !in url && parse(url).Ok?
    ensures SelectIce([], None, parse) == Ok([C.IceUrl(parse(url).value, "", "")])
  {
    C.SplitJoin([url], ';');
    C.SingleEntry(url, parse);
    assert C.IceUrls(None, parse) == C.ParseAll([url], parse);
  }
}
