/** The encrypted stream (`src/crypto_stream.rs`): per-direction keys and
    starting counters derived with HKDF-SHA512 from the agreed secret, a
    96-bit nonce taken from a 128-bit counter, and ChaCha20-Poly1305 sealing
    of every frame sent and opening of every frame received. */
module CryptoStream {
  import opened Base
  import opened ByteOrder
  import opened Primitives
  import S = Signalling
  import P = PipeStream

  /** Key length of ChaCha20-Poly1305. */
  const KEY_LEN: nat := 32
  /** Output length `Sequential` requests as an HKDF key type. */
  const SEQ_LEN: nat := 16
  /** Nonce length of ChaCha20-Poly1305 (section 2.8 of RFC 8439). */
  const NONCE_LEN: nat := 12
  /** `u128` values are the residues modulo 2^128. */
  const COUNTER_MODULUS: nat := Pow(256, SEQ_LEN)
  /** The nonce keeps the low 96 bits of the counter. */
  const NONCE_MODULUS: nat := Pow(256, NONCE_LEN)

  type u128 = x: nat | x < COUNTER_MODULUS

  /** The nonce sequence: a 128-bit counter. */
  datatype Sequential = Sequential(counter: u128)

  lemma CounterModulusSplit()
    ensures COUNTER_MODULUS == NONCE_MODULUS * Pow(256, 4)
  {
    PowAdd(256, NONCE_LEN, 4);
  }

  /** `NonceSequence::advance`: the nonce is the counter's low 96 bits in
      big-endian order, and the counter then moves on by one (wrapping at 2^128). */
  function Advance(s: Sequential): (r: (Bytes, Sequential))
    ensures |r.0| == NONCE_LEN
    ensures FromBigEndian(r.0) == s.counter % NONCE_MODULUS
    ensures r.0 == ToBigEndian(s.counter % NONCE_MODULUS, NONCE_LEN)
    ensures r.1.counter == (s.counter + 1) % COUNTER_MODULUS
  {
    var be := ToBigEndian(s.counter, SEQ_LEN);
    ToBigEndianSplit(s.counter, 4, NONCE_LEN);
    assert be[4..16] == ToBigEndian(s.counter, NONCE_LEN);
    FromToBigEndian(s.counter, NONCE_LEN);
    assert FromBigEndian(be[4..16]) == s.counter % NONCE_MODULUS;
    ToBigEndianMod(s.counter, NONCE_LEN);
    (be[4..16], Sequential((s.counter + 1) % COUNTER_MODULUS))
  }

  lemma ModAddOfMod(x: nat, j: nat, m: nat, k: nat)
    requires m > 0 && k > 0
    ensures (x % (m * k) + j) % m == (x + j) % m
  {
    var q, r := x / (m * k), x % (m * k);
    assert x + j == (q * k) * m + (r + j) by {
      assert q * (m * k) == (q * k) * m;
    }
    var q', r' := (r + j) / m, (r + j) % m;
    assert x + j == (q * k + q') * m + r' by {
      assert (q * k) * m + q' * m == (q * k + q') * m;
    }
    DivModUnique(x + j, m, q * k + q', r');
  }

  /** The nonces of `k` consecutive calls to `Advance` starting from `s`:
      the i-th is the counter plus i, reduced to 96 bits. */
  function Nonces(s: Sequential, k: nat): (r: seq<Bytes>)
    decreases k
    ensures |r| == k
    ensures forall i :: 0 <= i < k ==> |r[i]| == NONCE_LEN && FromBigEndian(r[i]) == (s.counter + i) % NONCE_MODULUS
  {
    if k == 0 then []
    else
      var (nonce, next) := Advance(s);
      var rest := Nonces(next, k - 1);
      CounterModulusSplit();
      assert forall i :: 0 < i < k ==> FromBigEndian(([nonce] + rest)[i]) == (s.counter + i) % NONCE_MODULUS by {
        forall i | 0 < i < k
          ensures FromBigEndian(([nonce] + rest)[i]) == (s.counter + i) % NONCE_MODULUS
        {
          assert ([nonce] + rest)[i] == rest[i - 1];
          ModAddOfMod(s.counter + 1, i - 1, NONCE_MODULUS, Pow(256, 4));
        }
      }
      [nonce] + rest
  }

  /** Any 2^96 consecutive nonces are pairwise distinct, as section 2.8 of
      RFC 8439 requires of the nonces used under one key. */
  lemma NoncesDistinct(s: Sequential, k: nat, i: nat, j: nat)
    requires k <= NONCE_MODULUS
    requires i < j < k
    ensures Nonces(s, k)[i] != Nonces(s, k)[j]
  {
    ModDistinct(s.counter, i, j, NONCE_MODULUS);
  }

  /** `Chacha20Stream::derive`: HKDF-SHA512 with the label as salt, the base
      key as input key material and the role as info. */
  function Derive(suite: Suite, basekey: Bytes, dialer: bool, salt: string, len: nat): (r: Bytes)
    requires HkdfLength(suite) && len <= HKDF_MAX_LEN
    ensures |r| == len
    ensures Some(r) == suite.hkdfExpand(suite.hkdfExtract(Utf8(salt), basekey), Utf8(RoleName(dialer)), len)
  {
    suite.hkdfExpand(suite.hkdfExtract(Utf8(salt), basekey), Utf8(RoleName(dialer)), len).value
  }

  datatype Chacha20Error =
    | Io(io: S.IoError)
    | Timeout
    | SignalingError(signaling: S.SignalingError)
    | StreamError(stream: P.StreamError)
    | CryptoError

  /** `UnboundKey::new` for ChaCha20-Poly1305: only a 32-byte key is accepted. */
  function UnboundKey(bytes: Bytes): (r: Result<Bytes, Chacha20Error>)
    ensures r.Ok? <==> |bytes| == KEY_LEN
    ensures r.Ok? ==> r.value == bytes
    ensures r.Err? ==> r.error == CryptoError
  {
    if |bytes| == KEY_LEN then Ok(bytes) else Err(CryptoError)
  }

  /** `Chacha20Stream::get_key`: the 32 bytes derived with label "key". */
  function GetKey(suite: Suite, basekey: Bytes, dialer: bool): (r: Result<Bytes, Chacha20Error>)
    requires HkdfLength(suite)
    ensures r == Ok(Derive(suite, basekey, dialer, "key", KEY_LEN))
  {
    UnboundKey(Derive(suite, basekey, dialer, "key", KEY_LEN))
  }

  /** `Chacha20Stream::get_seq`: the starting counter whose big-endian bytes
      are the 16 bytes derived with label "seq". */
  function GetSeq(suite: Suite, basekey: Bytes, dialer: bool): (r: Sequential)
    requires HkdfLength(suite)
    ensures ToBigEndian(r.counter, SEQ_LEN) == Derive(suite, basekey, dialer, "seq", SEQ_LEN)
  {
    var bytes := Derive(suite, basekey, dialer, "seq", SEQ_LEN);
    ToFromBigEndian(bytes);
    Sequential(FromBigEndian(bytes))
  }

  /** Both directions of an encrypted stream: the key and nonce sequence
      used to seal what this side sends and to open what it receives. */
  datatype Chacha20Stream = Chacha20Stream(sealingKey: Bytes, sealing: Sequential,
                                           openingKey: Bytes, opening: Sequential)

  /** `Chacha20Stream::new`: the sealing side uses the own role, the opening
      side the peer's role. */
  function New(suite: Suite, basekey: Bytes, dialer: bool): (r: Result<Chacha20Stream, Chacha20Error>)
    requires HkdfLength(suite)
    ensures r.Ok?
    ensures r.value.sealingKey == Derive(suite, basekey, dialer, "key", KEY_LEN)
    ensures r.value.openingKey == Derive(suite, basekey, !dialer, "key", KEY_LEN)
    ensures ToBigEndian(r.value.sealing.counter, SEQ_LEN) == Derive(suite, basekey, dialer, "seq", SEQ_LEN)
    ensures ToBigEndian(r.value.opening.counter, SEQ_LEN) == Derive(suite, basekey, !dialer, "seq", SEQ_LEN)
  {
    match (GetKey(suite, basekey, dialer), GetKey(suite, basekey, !dialer))
    case (Err(e), _) => Err(e)
    case (_, Err(e)) => Err(e)
    case (Ok(sealing), Ok(opening)) =>
      Ok(Chacha20Stream(sealing, GetSeq(suite, basekey, dialer), opening, GetSeq(suite, basekey, !dialer)))
  }

  /** What `a` seals, `b` opens: same key and same next nonce. */
  predicate Feeds(a: Chacha20Stream, b: Chacha20Stream) {
    a.sealingKey == b.openingKey && a.sealing == b.opening
  }

  /** Two streams built from the same base key with opposite roles pair up:
      each side's sealing key and counter are the other side's opening key
      and counter. */
  lemma NewPairsUp(suite: Suite, basekey: Bytes, dialer: bool)
    requires HkdfLength(suite)
    ensures Feeds(New(suite, basekey, dialer).value, New(suite, basekey, !dialer).value)
    ensures Feeds(New(suite, basekey, !dialer).value, New(suite, basekey, dialer).value)
  {
    var a := New(suite, basekey, dialer).value;
    var b := New(suite, basekey, !dialer).value;
    FromToBigEndian(a.sealing.counter, SEQ_LEN);
    FromToBigEndian(b.opening.counter, SEQ_LEN);
    FromToBigEndian(a.opening.counter, SEQ_LEN);
    FromToBigEndian(b.sealing.counter, SEQ_LEN);
  }

  /** Sealing one frame: the nonce advances whether or not sealing succeeds
      (the bound key asks its nonce sequence first). */
  function Seal(suite: Suite, st: Chacha20Stream, data: Bytes): (r: (Chacha20Stream, Option<Bytes>))
    ensures r.0 == st.(sealing := Advance(st.sealing).1)
    ensures r.1 == suite.seal(st.sealingKey, Advance(st.sealing).0, data)
  {
    var (nonce, next) := Advance(st.sealing);
    (st.(sealing := next), suite.seal(st.sealingKey, nonce, data))
  }

  /** Opening one frame, symmetric to `Seal`. */
  function Open(suite: Suite, st: Chacha20Stream, frame: Bytes): (r: (Chacha20Stream, Option<Bytes>))
    ensures r.0 == st.(opening := Advance(st.opening).1)
    ensures r.1 == suite.open(st.openingKey, Advance(st.opening).0, frame)
  {
    var (nonce, next) := Advance(st.opening);
    (st.(opening := next), suite.open(st.openingKey, nonce, frame))
  }

  /** The effect of `send`: the new state, the bytes handed to the underlying
      stream (if it was called) and the result returned. */
  datatype SendEffect = SendEffect(stream: Chacha20Stream, forwarded: Option<Bytes>, result: Result<(), Chacha20Error>)

  /** `PipeStream::send`: seal, then forward ciphertext and tag to the
      underlying stream, whose failure (if any) is `underlying`. */
  function Send(suite: Suite, st: Chacha20Stream, data: Bytes, underlying: Option<P.StreamError>): (r: SendEffect)
    ensures r.stream.sealing.counter == (st.sealing.counter + 1) % COUNTER_MODULUS
    ensures r.stream.opening == st.opening && r.stream.openingKey == st.openingKey
    ensures r.forwarded.None? <==> suite.seal(st.sealingKey, Advance(st.sealing).0, data).None?
    ensures r.forwarded.None? ==> r.result == Err(CryptoError)
    ensures r.forwarded.Some? ==> r.forwarded.value == suite.seal(st.sealingKey, Advance(st.sealing).0, data).value
    ensures r.forwarded.Some? ==> (r.result.Ok? <==> underlying.None?)
    ensures r.forwarded.Some? && underlying.Some? ==> r.result == Err(FromStream(underlying.value))
  {
    var (next, sealed) := Seal(suite, st, data);
    match sealed
    case None => SendEffect(next, None, Err(CryptoError))
    case Some(frame) =>
      match underlying
      case None => SendEffect(next, Some(frame), Ok(()))
      case Some(e) => SendEffect(next, Some(frame), Err(FromStream(e)))
  }

  /** `WaitThen::then`: what the underlying stream produced (a frame, nothing,
      or an error) becomes the opened payload, nothing, or an error. */
  function Then(suite: Suite, st: Chacha20Stream, incoming: Result<Option<Bytes>, P.StreamError>)
    : (r: (Chacha20Stream, Result<Option<Bytes>, Chacha20Error>))
    ensures incoming.Err? ==> r == (st, Err(FromStream(incoming.error)))
    ensures incoming == Ok(None) ==> r == (st, Ok(None))
    ensures incoming.Ok? && incoming.value.Some? ==>
      && r.0 == st.(opening := Advance(st.opening).1)
      && (var plain := suite.open(st.openingKey, Advance(st.opening).0, incoming.value.value);
          && (plain.Some? ==> r.1 == Ok(Some(plain.value)))
          && (plain.None? ==> r.1 == Err(CryptoError)))
  {
    match incoming
    case Err(e) => (st, Err(FromStream(e)))
    case Ok(None) => (st, Ok(None))
    case Ok(Some(frame)) =>
      var (next, plain) := Open(suite, st, frame);
      match plain
      case Some(m) => (next, Ok(Some(m)))
      case None => (next, Err(CryptoError))
  }

  /** Sends `msgs` one after another over a working underlying stream,
      stopping at the first sealing failure; returns the frames forwarded. */
  function SendAll(suite: Suite, st: Chacha20Stream, msgs: seq<Bytes>): (r: (Chacha20Stream, seq<Bytes>))
    ensures |r.1| <= |msgs|
    ensures r.0.opening == st.opening && r.0.openingKey == st.openingKey
    decreases |msgs|
  {
    if |msgs| == 0 then (st, [])
    else
      var eff := Send(suite, st, msgs[0], None);
      match eff.forwarded
      case None => (eff.stream, [])
      case Some(frame) =>
        var (last, frames) := SendAll(suite, eff.stream, msgs[1..]);
        (last, [frame] + frames)
  }

  /** Receives `frames` one after another, stopping at the first frame that
      fails to open; returns the payloads delivered. */
  function ReceiveAll(suite: Suite, st: Chacha20Stream, frames: seq<Bytes>): (r: (Chacha20Stream, seq<Bytes>))
    ensures |r.1| <= |frames|
    decreases |frames|
  {
    if |frames| == 0 then (st, [])
    else
      var (next, result) := Then(suite, st, Ok(Some(frames[0])));
      match result
      case Ok(Some(plain)) =>
        var (last, payloads) := ReceiveAll(suite, next, frames[1..]);
        (last, [plain] + payloads)
      case _ => (next, [])
  }

  /** The transport theorem: when `a` feeds `b`, whatever `a` manages to send
      `b` receives, in order and verbatim; when every message was sent, the
      two are still paired afterwards. */
  lemma {:induction false} SendReceiveInOrder(suite: Suite, a: Chacha20Stream, b: Chacha20Stream, msgs: seq<Bytes>)
    requires AeadRoundTrip(suite)
    requires Feeds(a, b)
    ensures var (a', frames) := SendAll(suite, a, msgs);
            var (b', got) := ReceiveAll(suite, b, frames);
            got == msgs[..|frames|] && (|frames| == |msgs| ==> Feeds(a', b'))
    decreases |msgs|
  {
    if |msgs| > 0 {
      var eff := Send(suite, a, msgs[0], None);
      if eff.forwarded.Some? {
        var frame := eff.forwarded.value;
        var nonce := Advance(a.sealing).0;
        assert suite.open(b.openingKey, nonce, frame) == Some(msgs[0]);
        var (b1, res) := Then(suite, b, Ok(Some(frame)));
        assert res == Ok(Some(msgs[0]));
        assert Feeds(eff.stream, b1);
        SendReceiveInOrder(suite, eff.stream, b1, msgs[1..]);
        var (a', frames) := SendAll(suite, eff.stream, msgs[1..]);
        assert SendAll(suite, a, msgs).1 == [frame] + frames;
        assert [frame] + frames == ([frame] + frames)[..1] + ([frame] + frames)[1..];
        assert msgs[..|frames| + 1] == [msgs[0]] + msgs[1..][..|frames|];
      }
    }
  }

  /** Two peers with the same base key and opposite roles: everything one
      side sends, the other side receives in order with its plaintext intact. */
  lemma PeersExchangeInOrder(suite: Suite, basekey: Bytes, dialer: bool, msgs: seq<Bytes>)
    requires HkdfLength(suite) && AeadRoundTrip(suite)
    ensures var frames := SendAll(suite, New(suite, basekey, dialer).value, msgs).1;
            ReceiveAll(suite, New(suite, basekey, !dialer).value, frames).1 == msgs[..|frames|]
  {
    NewPairsUp(suite, basekey, dialer);
    SendReceiveInOrder(suite, New(suite, basekey, dialer).value, New(suite, basekey, !dialer).value, msgs);
  }

  /** `From<SignalingError> for Chacha20Error`. */
  function FromSignaling(e: S.SignalingError): (r: Chacha20Error)
    ensures e.Io? <==> r.Io?
    ensures e.Timeout? <==> r.Timeout?
    ensures e.ProtocolError? <==> r == SignalingError(e)
  {
    match e
    case Io(io) => Io(io)
    case Timeout => Timeout
    case ProtocolError(_) => SignalingError(e)
  }

  /** `From<StreamError> for Chacha20Error`: never a crypto error, and a
      wrapped stream error is always one of the boxed `Other` errors. */
  function FromStream(e: P.StreamError): (r: Chacha20Error)
    ensures !r.CryptoError?
    ensures r.StreamError? <==> e.Other?
    ensures r.StreamError? ==> r.stream == e
    ensures r.SignalingError? ==> r.signaling.ProtocolError?
  {
    match e
    case Io(io) => Io(io)
    case Timeout => Timeout
    case SignalingError(s) => FromSignaling(s)
    case Other(_) => StreamError(e)
  }

  /** `From<Chacha20Error> for StreamError`: a crypto error is boxed. */
  function IntoStream(e: Chacha20Error): (r: P.StreamError)
    ensures e.CryptoError? ==> r == P.Other(P.CryptoFailure)
    ensures e.StreamError? ==> r == e.stream
    ensures e.SignalingError? ==> r == P.FromSignaling(e.signaling)
  {
    match e
    case Io(io) => P.Io(io)
    case Timeout => P.Timeout
    case SignalingError(s) => P.FromSignaling(s)
    case StreamError(s) => s
    case CryptoError => P.Other(P.CryptoFailure)
  }

  /** Through `Chacha20Error` and back, a stream error comes out in normal
      form: unchanged for I/O, timeouts, boxed errors and protocol errors. */
  lemma StreamErrorRoundTrip(e: P.StreamError)
    ensures IntoStream(FromStream(e)) == P.Normalize(e)
    ensures P.Normal(e) ==> IntoStream(FromStream(e)) == e
  {
  }
}
