/** Authenticated X25519 key agreement over the signalling channel
    (`agreement.rs`): each peer announces its ephemeral public key and an
    authentication tag of it, receives the peer's pair, checks the tag and
    derives the shared secret. */
module Agreement {
  import opened Base
  import opened Primitives
  import S = Signalling

  /** PBKDF2 iteration count of the PSK derivation. */
  const PBKDF2_ITERATIONS: nat := 4096

  /** Salt label of the keys that authenticate the exchanged public keys. */
  const KEY_CHECK_LABEL: string := "keymaterial_check"

  /** Length of every key derived from the pre-shared key. */
  const PSK_KEY_LEN: nat := 32

  datatype AgreementError =
    | Io(io: S.IoError)
    | Timeout
    | SignalingError(signaling: S.SignalingError)
    | Base64Error
    | CryptoError
    | BadAuth(inner: AgreementError)

  /** `From<SignalingError> for AgreementError`: I/O errors and timeouts get
      their own variants, protocol errors are wrapped. */
  function FromSignaling(e: S.SignalingError): (r: AgreementError)
    ensures e.Io? <==> r.Io?
    ensures r.Io? ==> r.io == e.io
    ensures e.Timeout? <==> r.Timeout?
    ensures e.ProtocolError? <==> r == SignalingError(e)
  {
    match e
    case Io(io) => Io(io)
    case Timeout => Timeout
    case ProtocolError(_) => SignalingError(e)
  }

  lemma FromSignalingInjective(a: S.SignalingError, b: S.SignalingError)
    requires FromSignaling(a) == FromSignaling(b)
    ensures a == b
  {
  }

  /** The PBKDF2 salt of a role: the role name, a colon, the caller's salt. */
  function PskSalt(dialer: bool, salt: string): string {
    RoleName(dialer) + ":" + salt
  }

  /** `PskAuthentication::derive_len`: `len` bytes of PBKDF2-HMAC-SHA512 over
      the pre-shared key, salted with the role and the label. */
  function DeriveLen(suite: Suite, basekey: string, dialer: bool, salt: string, len: nat): (r: Bytes)
    ensures Pbkdf2Length(suite) ==> |r| == len
  {
    suite.pbkdf2(PBKDF2_ITERATIONS, Utf8(PskSalt(dialer, salt)), Utf8(basekey), len)
  }

  /** `PskAuthentication::derive_text`: 32 derived bytes in URL-safe base64. */
  function DeriveText(suite: Suite, basekey: string, dialer: bool, salt: string): (r: string)
    ensures Pbkdf2Length(suite) ==> exists key: Bytes :: |key| == PSK_KEY_LEN && r == suite.base64UrlNoPad(key)
  {
    var key := DeriveLen(suite, basekey, dialer, salt, PSK_KEY_LEN);
    assert Pbkdf2Length(suite) ==> |key| == PSK_KEY_LEN && suite.base64UrlNoPad(key) == suite.base64UrlNoPad(key);
    suite.base64UrlNoPad(key)
  }

  /** The two roles never share a PBKDF2 salt, whatever labels they use: the
      encoded salts already differ in their first byte. */
  lemma PskSaltsSeparateRoles(s1: string, s2: string)
    ensures Utf8(PskSalt(true, s1)) != Utf8(PskSalt(false, s2))
  {
    var d, l := PskSalt(true, s1), PskSalt(false, s2);
    assert d[0] == 'd' && l[0] == 'l';
    Utf8Head(d);
    Utf8Head(l);
  }

  /** An encoding starts with the byte of its first character when that
      character is ASCII. */
  lemma Utf8Head(s: string)
    requires |s| > 0 && s[0] as int < 128
    ensures |Utf8(s)| > 0 && Utf8(s)[0] == s[0] as int
  {
    assert Utf8(s) == Utf8Char(s[0]) + Utf8(s[1..]);
  }

  /** How a peer authenticates its public key: with a key derived from a
      pre-shared secret, or with its own Ed25519 key pair (given by its seed)
      and the peer's Ed25519 public key. */
  datatype Authentication =
    | Psk(psk: string, dialer: bool)
    | Ed25519PairAndPeer(seed: Bytes, peer: Bytes)

  datatype HmacKeyPurpose = Signing | Verifying

  /** `PskAuthentication::key`: a signing key is derived for the own role, a
      verifying key for the opposite role. */
  function PskKey(suite: Suite, psk: string, dialer: bool, purpose: HmacKeyPurpose): (r: Bytes)
    ensures Pbkdf2Length(suite) ==> |r| == PSK_KEY_LEN
  {
    var role := match purpose
      case Signing => dialer
      case Verifying => !dialer;
    DeriveLen(suite, psk, role, KEY_CHECK_LABEL, PSK_KEY_LEN)
  }

  /** `Authentication::sign`. */
  function Sign(suite: Suite, auth: Authentication, data: Bytes): (r: Bytes)
    ensures HmacVerifiesSign(suite) && auth.Psk? ==>
              suite.hmacVerify(PskKey(suite, auth.psk, auth.dialer, Signing), data, r)
    ensures Ed25519VerifiesSign(suite) && auth.Ed25519PairAndPeer? ==>
              suite.ed25519Verify(suite.ed25519Public(auth.seed), data, r)
  {
    match auth
    case Psk(psk, dialer) => suite.hmacSign(PskKey(suite, psk, dialer, Signing), data)
    case Ed25519PairAndPeer(seed, _) => suite.ed25519Sign(seed, data)
  }

  /** `Authentication::check_peer`: a rejected tag is a crypto error. */
  function CheckPeer(suite: Suite, auth: Authentication, data: Bytes, tag: Bytes): (r: Result<(), AgreementError>)
    ensures r.Err? ==> r.error == CryptoError
    ensures r.Ok? <==> match auth
                       case Psk(psk, dialer) => suite.hmacVerify(PskKey(suite, psk, !dialer, Signing), data, tag)
                       case Ed25519PairAndPeer(_, peer) => suite.ed25519Verify(peer, data, tag)
  {
    var valid := match auth
      case Psk(psk, dialer) => suite.hmacVerify(PskKey(suite, psk, dialer, Verifying), data, tag)
      case Ed25519PairAndPeer(_, peer) => suite.ed25519Verify(peer, data, tag);
    if valid then Ok(()) else Err(CryptoError)
  }

  /** `a` accepts every tag `b` produces. */
  ghost predicate Accepts(suite: Suite, a: Authentication, b: Authentication) {
    forall data: Bytes :: CheckPeer(suite, a, data, Sign(suite, b, data)).Ok?
  }

  /** Two PSK peers of opposite roles accept each other's tags, in both directions. */
  lemma PskPeersAccept(suite: Suite, psk: string, dialer: bool)
    requires HmacVerifiesSign(suite)
    ensures Accepts(suite, Psk(psk, !dialer), Psk(psk, dialer))
    ensures Accepts(suite, Psk(psk, dialer), Psk(psk, !dialer))
  {
  }

  /** Two Ed25519 peers that each hold the other's public key accept each other's tags. */
  lemma Ed25519PeersAccept(suite: Suite, seedA: Bytes, seedB: Bytes)
    requires Ed25519VerifiesSign(suite)
    ensures Accepts(suite, Ed25519PairAndPeer(seedA, suite.ed25519Public(seedB)),
                           Ed25519PairAndPeer(seedB, suite.ed25519Public(seedA)))
  {
  }

  /** A PSK peer verifies with the key the opposite role signs with, and that
      key comes from a different salt than its own signing key. */
  lemma PskVerifyingKeyIsPeerSigningKey(suite: Suite, psk: string, dialer: bool)
    ensures PskKey(suite, psk, dialer, Verifying) == PskKey(suite, psk, !dialer, Signing)
    ensures Utf8(PskSalt(dialer, KEY_CHECK_LABEL)) != Utf8(PskSalt(!dialer, KEY_CHECK_LABEL))
  {
    PskSaltsSeparateRoles(KEY_CHECK_LABEL, KEY_CHECK_LABEL);
  }

  /** The two messages a peer sends: its public key, then the tag of that key,
      both in standard base64. */
  function Announcement(suite: Suite, auth: Authentication, publicKey: Bytes): (r: seq<string>)
    ensures |r| == 2
    ensures Base64RoundTrip(suite) ==> suite.base64Decode(r[0]) == Some(publicKey)
    ensures Base64RoundTrip(suite) ==> suite.base64Decode(r[1]) == Some(Sign(suite, auth, publicKey))
  {
    [suite.base64Encode(publicKey), suite.base64Encode(Sign(suite, auth, publicKey))]
  }

  /** Sends the announcement: the public key, then its tag. */
  function Announce(suite: Suite, ch: S.Channel, auth: Authentication, publicKey: Bytes): (r: Result<S.Channel, AgreementError>)
    ensures r.Ok? <==> ch.broken.None?
    ensures r.Ok? ==> r.value == ch.(outbox := ch.outbox + Announcement(suite, auth, publicKey))
    ensures r.Err? ==> r.error == FromSignaling(ch.broken.value)
  {
    var msgs := Announcement(suite, auth, publicKey);
    match S.Send(ch, msgs[0])
    case Err(e) => Err(FromSignaling(e))
    case Ok(ch1) =>
      match S.Send(ch1, msgs[1])
      case Err(e) => Err(FromSignaling(e))
      case Ok(ch2) => Ok(ch2)
  }

  /** Receives the peer's public key and tag, each decoded as soon as it
      arrives. */
  function ReceivePeer(suite: Suite, ch: S.Channel): (r: Run<(Bytes, Bytes, S.Channel), AgreementError>)
    ensures r.Finished? ==> r.value.2.outbox == ch.outbox && r.value.2.broken == ch.broken
    ensures r.Finished? ==> |r.value.2.inbox| + 2 <= |ch.inbox|
    ensures r.Pending? ==> S.Quiet(ch.inbox)
                           || exists k, t :: 0 <= k < |ch.inbox| && S.Quiet(ch.inbox[..k])
                                             && ch.inbox[k] == S.Arrived(Some(t)) && S.Quiet(ch.inbox[k + 1..])
  {
    match S.NextText(ch)
    case Pending =>
      assert ch.inbox[0..] == ch.inbox;
      Pending
    case Aborted(e) => Aborted(FromSignaling(e))
    case Finished((keyText, ch1)) =>
      match suite.base64Decode(keyText)
      case None => Aborted(Base64Error)
      case Some(peerKey) =>
        match S.NextText(ch1)
        case Pending =>
          assert ch1.inbox == ch.inbox[|ch.inbox| - |ch1.inbox|..];
          Pending
        case Aborted(e) => Aborted(FromSignaling(e))
        case Finished((tagText, ch2)) =>
          match suite.base64Decode(tagText)
          case None => Aborted(Base64Error)
          case Some(tag) => Finished((peerKey, tag, ch2))
  }

  /** Checks the peer's tag and only then computes the shared secret. */
  function Conclude(suite: Suite, auth: Authentication, privateKey: Bytes, peerKey: Bytes, tag: Bytes): (r: Result<Bytes, AgreementError>)
    ensures CheckPeer(suite, auth, peerKey, tag).Err? ==> r == Err(BadAuth(CryptoError))
    ensures r.Ok? ==> CheckPeer(suite, auth, peerKey, tag).Ok?
                      && suite.x25519Agree(privateKey, peerKey) == Some(r.value)
    ensures r.Err? && CheckPeer(suite, auth, peerKey, tag).Ok? ==> r.error == CryptoError
  {
    match CheckPeer(suite, auth, peerKey, tag)
    case Err(e) => Err(BadAuth(e))
    case Ok(_) =>
      match suite.x25519Agree(privateKey, peerKey)
      case None => Err(CryptoError)
      case Some(secret) => Ok(secret)
  }

  /** `Agreement::agree`. `ephemeral` is the freshly generated private key,
      `None` when the system random generator failed. The result is the
      shared secret and the signalling channel handed back. */
  function Agree(suite: Suite, ch: S.Channel, auth: Authentication, ephemeral: Option<Bytes>): (r: Run<(Bytes, S.Channel), AgreementError>)
    ensures ephemeral.None? ==> r == Aborted(CryptoError)
    ensures ephemeral.Some? && ch.broken.Some? ==> r == Aborted(FromSignaling(ch.broken.value))
    ensures r.Finished? ==> r.value.1.outbox == ch.outbox + Announcement(suite, auth, suite.x25519Public(ephemeral.value))
    ensures r.Finished? ==> r.value.1.broken == ch.broken && |r.value.1.inbox| + 2 <= |ch.inbox|
    ensures r.Finished? ==> exists peerKey: Bytes, tag: Bytes :: CheckPeer(suite, auth, peerKey, tag).Ok?
                              && suite.x25519Agree(ephemeral.value, peerKey) == Some(r.value.0)
    ensures r.Aborted? && r.error.BadAuth? ==> r.error.inner == CryptoError
  {
    match ephemeral
    case None => Aborted(CryptoError)
    case Some(privateKey) =>
      match Announce(suite, ch, auth, suite.x25519Public(privateKey))
      case Err(e) => Aborted(e)
      case Ok(ch1) =>
        match ReceivePeer(suite, ch1)
        case Pending => Pending
        case Aborted(e) => Aborted(e)
        case Finished((peerKey, tag, ch2)) =>
          match Conclude(suite, auth, privateKey, peerKey, tag)
          case Err(e) => Aborted(e)
          case Ok(secret) =>
            assert CheckPeer(suite, auth, peerKey, tag).Ok? && suite.x25519Agree(privateKey, peerKey) == Some(secret);
            Finished((secret, ch2))
  }

  /** An inbox whose next two texts, after skipped control traffic, are the
      announcement of a peer with public key `peerKey` and authentication `peer`. */
  predicate Announces(suite: Suite, inbox: seq<S.Delivery>, peer: Authentication, peerKey: Bytes,
                      q1: seq<S.Delivery>, q2: seq<S.Delivery>, rest: seq<S.Delivery>)
  {
    var msgs := Announcement(suite, peer, peerKey);
    S.Quiet(q1) && S.Quiet(q2)
    && inbox == q1 + [S.Arrived(Some(msgs[0]))] + q2 + [S.Arrived(Some(msgs[1]))] + rest
  }

  /** Against an inbox carrying a peer's announcement, agreement runs to the
      end of the check: its outcome is the outcome of `Conclude` on the
      peer's key and tag. */
  lemma {:induction false} AgreeOnAnnouncement(suite: Suite, ch: S.Channel, auth: Authentication, privateKey: Bytes,
                                              peer: Authentication, peerKey: Bytes,
                                              q1: seq<S.Delivery>, q2: seq<S.Delivery>, rest: seq<S.Delivery>)
    requires Base64RoundTrip(suite)
    requires ch.broken.None?
    requires Announces(suite, ch.inbox, peer, peerKey, q1, q2, rest)
    ensures var r := Agree(suite, ch, auth, Some(privateKey));
            var sent := ch.outbox + Announcement(suite, auth, suite.x25519Public(privateKey));
            match Conclude(suite, auth, privateKey, peerKey, Sign(suite, peer, peerKey))
            case Ok(secret) => r == Finished((secret, ch.(inbox := rest, outbox := sent)))
            case Err(e) => r == Aborted(e)
  {
    var ch1 := Announce(suite, ch, auth, suite.x25519Public(privateKey)).value;
    ReceivePeerOnAnnouncement(suite, ch1, peer, peerKey, q1, q2, rest);
  }

  /** An announcement in the inbox is received as the peer's key and the
      tag of that key, and the inbox is left with what follows it. */
  lemma ReceivePeerOnAnnouncement(suite: Suite, ch: S.Channel, peer: Authentication, peerKey: Bytes,
                                  q1: seq<S.Delivery>, q2: seq<S.Delivery>, rest: seq<S.Delivery>)
    requires Base64RoundTrip(suite)
    requires Announces(suite, ch.inbox, peer, peerKey, q1, q2, rest)
    ensures ReceivePeer(suite, ch) == Finished((peerKey, Sign(suite, peer, peerKey), ch.(inbox := rest)))
  {
    var msgs := Announcement(suite, peer, peerKey);
    var tail := q2 + [S.Arrived(Some(msgs[1]))] + rest;
    assert ch.inbox == q1 + [S.Arrived(Some(msgs[0]))] + tail;
    S.NextTextSkipsQuiet(ch, q1, msgs[0], tail);
    var ch1 := ch.(inbox := tail);
    S.NextTextSkipsQuiet(ch1, q2, msgs[1], rest);
  }

  /** A peer's first text that is not base64 aborts the exchange before
      anything more is read. */
  lemma ReceivePeerRejectsBadKey(suite: Suite, ch: S.Channel, q1: seq<S.Delivery>, keyText: string, rest: seq<S.Delivery>)
    requires S.Quiet(q1) && ch.inbox == q1 + [S.Arrived(Some(keyText))] + rest
    requires suite.base64Decode(keyText).None?
    ensures ReceivePeer(suite, ch) == Aborted(Base64Error)
  {
    S.NextTextSkipsQuiet(ch, q1, keyText, rest);
  }

  /** On the first two texts, whatever they hold: either one that is not
      base64 aborts with `Base64Error`; otherwise the decoded key and tag
      are received and the rest of the input is left. */
  lemma ReceivePeerOnTexts(suite: Suite, ch: S.Channel, q1: seq<S.Delivery>, keyText: string,
                           q2: seq<S.Delivery>, tagText: string, rest: seq<S.Delivery>)
    requires S.Quiet(q1) && S.Quiet(q2)
    requires ch.inbox == q1 + [S.Arrived(Some(keyText))] + q2 + [S.Arrived(Some(tagText))] + rest
    ensures suite.base64Decode(keyText).None? || suite.base64Decode(tagText).None? ==>
              ReceivePeer(suite, ch) == Aborted(Base64Error)
    ensures suite.base64Decode(keyText).Some? && suite.base64Decode(tagText).Some? ==>
              ReceivePeer(suite, ch) == Finished((suite.base64Decode(keyText).value, suite.base64Decode(tagText).value,
                                                  ch.(inbox := rest)))
  {
    var tail := q2 + [S.Arrived(Some(tagText))] + rest;
    assert ch.inbox == q1 + [S.Arrived(Some(keyText))] + tail;
    S.NextTextSkipsQuiet(ch, q1, keyText, tail);
    S.NextTextSkipsQuiet(ch.(inbox := tail), q2, tagText, rest);
  }

  /** Two peers that accept each other's authentication and each receive
      the other's announcement end with the same secret, or both fail to
      compute it. */
  lemma PeersAgree(suite: Suite, a: Authentication, b: Authentication, privA: Bytes, privB: Bytes,
                   chA: S.Channel, qa1: seq<S.Delivery>, qa2: seq<S.Delivery>, restA: seq<S.Delivery>,
                   chB: S.Channel, qb1: seq<S.Delivery>, qb2: seq<S.Delivery>, restB: seq<S.Delivery>)
    requires Base64RoundTrip(suite) && DhSymmetric(suite)
    requires Accepts(suite, a, b) && Accepts(suite, b, a)
    requires chA.broken.None? && chB.broken.None?
    requires Announces(suite, chA.inbox, b, suite.x25519Public(privB), qa1, qa2, restA)
    requires Announces(suite, chB.inbox, a, suite.x25519Public(privA), qb1, qb2, restB)
    ensures var ra := Agree(suite, chA, a, Some(privA));
            var rb := Agree(suite, chB, b, Some(privB));
            && (ra.Finished? <==> rb.Finished?)
            && (ra.Finished? ==> ra.value.0 == rb.value.0 && ra.value.1.inbox == restA && rb.value.1.inbox == restB)
            && (!ra.Finished? ==> ra == rb == Aborted(CryptoError))
  {
    var pubA, pubB := suite.x25519Public(privA), suite.x25519Public(privB);
    AgreeOnAnnouncement(suite, chA, a, privA, b, pubB, qa1, qa2, restA);
    AgreeOnAnnouncement(suite, chB, b, privB, a, pubA, qb1, qb2, restB);
    assert CheckPeer(suite, a, pubB, Sign(suite, b, pubB)).Ok?;
    assert CheckPeer(suite, b, pubA, Sign(suite, a, pubA)).Ok?;
    assert suite.x25519Agree(privA, pubB) == suite.x25519Agree(privB, pubA);
  }
}
