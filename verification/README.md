# icepipe, modelled in Dafny

icepipe connects two peers through NAT and pipes bytes between them. It is
a chain of layers, and this project models the sequential glue between them:

- A websocket signalling channel carries text messages. It has a ping/pong
  keepalive, and the server's first frame decides the role (dialer or
  listener).
- An authenticated X25519 key agreement runs over that channel. Each peer
  authenticates with a pre-shared key (PSK) or with Ed25519 keys, which are
  converted to X25519 for the room name.
- A candidate-exchange state machine feeds the ICE agent. It has a start
  handshake and a latched close handshake.
- An SCTP transport classifies what it reads.
- A ChaCha20-Poly1305 stream encrypts the transport. Its keys and nonce
  counters come from HKDF.
- Around these sit the built-in configuration defaults, the connection
  options, the `icepipe-cat` hex codec and its input/output option table,
  and the error conversions every layer funnels into `StreamError`.

Every cryptographic, base64, curve and URL primitive is a function-valued
field of `Primitives.Suite`. The property each proof relies on is a
predicate on the suite, taken as a precondition:

- `HkdfLength`: HKDF output has the requested length.
- `Pbkdf2Length`: PBKDF2 output has the requested length.
- `HmacVerifiesSign`: an HMAC tag verifies under its own key.
- `Ed25519VerifiesSign`: an Ed25519 signature verifies under the signer's
  public key.
- `AeadRoundTrip`: opening a sealed frame under the same key and nonce
  returns the plaintext.
- `DhSymmetric`: X25519 gives both peers the same secret.
- `Base64RoundTrip`: base64 decoding undoes encoding.
- `Curve25519Conversion.ConversionConsistent`: converting an Ed25519 public
  key gives the X25519 public key of the converted seed.

I/O is replaced by scripts:

- A signalling channel (`Signalling.Channel`) is a list of deliveries still
  to come, a log of sent messages, and the error every send fails with once
  the channel is broken.
- An operation that reads scripted input returns `Base.Run`: finished,
  aborted with an error, or pending when the script runs out and the
  program would go on waiting.
- Clocks are integer parameters in milliseconds.
- Random values arrive as `Option` parameters; `None` means the generator
  failed.
- Foreign engines (the ICE agent, the SCTP association, the websocket
  library) appear only through the outcomes they report, as parameters.

Modules follow the source files:

| module | source |
|---|---|
| `Base` | shared types |
| `ByteOrder` | `u128` big-endian encoding |
| `Signalling` | the channel and `SignalingError` |
| `PipeStream` | `pipe_stream.rs` |
| `Primitives` | the abstract primitives |
| `CryptoStream` | `crypto_stream.rs` |
| `Agreement` | `agreement.rs` |
| `Curve25519Conversion` | `curve25519_conversion.rs` |
| `Ice` | `ice.rs` |
| `Ping` | `ping.rs` |
| `Ws` | `ws.rs` |
| `Sctp` | `sctp.rs` |
| `Constants` | `constants.rs` |
| `Connect` | `connect.rs` |
| `Cat` | `icepipe-cat/src/main.rs` |

`ParseUrl::from_str` in `src/connect.rs:54-71` applies the same
`url&username&password` split as the entries of `ice_urls`. Both are
modelled by `Constants.ParseEntry`.

`src/connect.rs` does not type-check as written, and neither does the
snapshot as a whole:

- `or_else(constants::signalling_server)` passes a function that returns a
  `DynResult` where an `Option` is expected.
- `constants::ice_urls().into_option()` calls `into_option` on a `Result`.

`Connect.SelectSignaling` and `Connect.SelectIce` model the evident intent:

- The default's own error is replaced by the "No default value available"
  message.
- The default ICE entries are parsed once, by `ice_urls`.

## Model

| member | source | states |
|---|---|---|
| PipeStream.FromSignaling | src/pipe_stream.rs:40-48 | I/O errors map to `Io` and timeouts to `Timeout`. A protocol error, and only a protocol error, becomes `StreamError::SignalingError`. The result is never a boxed error. |
| PipeStream.FromSignalingInjective | src/pipe_stream.rs:40-48 | Distinct signalling errors stay distinct after the conversion. |
| PipeStream.FromSignalingOnto | src/pipe_stream.rs:40-48 | Every unboxed stream error in normal form comes from some signalling error. |
| PipeStream.Normalize | src/pipe_stream.rs:40-48 | The normal form keeps errors that are already normal, and keeps boxed errors boxed. |
| PipeStream.NormalizeIdempotent | src/pipe_stream.rs:40-48 | Normalising twice is the same as normalising once. |
| Signalling.Send | src/agreement.rs:40-48 | A send appends exactly the message to the outbox, or fails with the channel's error when the channel is broken. |
| Signalling.NextText | src/agreement.rs:70-79 | The receive loop returns the first text after any run of `None` deliveries, and aborts on the first error. It stays pending exactly when every remaining delivery is `None`. |
| Signalling.FirstLoud | src/agreement.rs:71-77 | The number of rounds the loop skips: every delivery before it is `None`, and the delivery at it, if any, is not. |
| Signalling.FirstLoudAfterQuiet | src/agreement.rs:71-77 | In front of any delivery other than `None`, the loop skips exactly the `None` deliveries that come first. |
| Signalling.NextTextSkipsQuiet | src/agreement.rs:70-79 | With `None` deliveries, then a text, then more input, the loop returns that text and leaves exactly the rest. |
| CryptoStream.Advance | src/crypto_stream.rs:21-29 | The nonce is 12 bytes: bytes 4..16 of the counter's big-endian encoding, so its value is the counter modulo 2^96. The counter grows by one, wrapping at 2^128. |
| CryptoStream.Nonces | src/crypto_stream.rs:21-29 | The i-th of k successive nonces encodes the starting counter plus i, modulo 2^96. |
| CryptoStream.NoncesDistinct | src/crypto_stream.rs:21-29 | Any 2^96 successive nonces are pairwise distinct, as section 2.8 of RFC 8439 requires under one key. |
| CryptoStream.Derive | src/crypto_stream.rs:52-69 | HKDF-SHA512 output of the requested length. The salt is the label, the input key material is the base key, and the info is "dialer" or "listener". |
| CryptoStream.UnboundKey | src/crypto_stream.rs:71-76 | A key is accepted exactly when it is 32 bytes long; otherwise the result is a crypto error. |
| CryptoStream.GetKey | src/crypto_stream.rs:71-76 | The key is the 32 bytes derived under the label "key", and it is always accepted. |
| CryptoStream.GetSeq | src/crypto_stream.rs:32-36 | The starting counter's 16-byte big-endian encoding is the HKDF output under the label "seq". |
| CryptoStream.New | src/crypto_stream.rs:85-98 | The sealing key and counter come from the own role. The opening key and counter come from the opposite role. |
| CryptoStream.NewPairsUp | src/crypto_stream.rs:85-98 | For two streams from the same base key with opposite roles, each side's sealing key and counter are the other side's opening key and counter. |
| CryptoStream.Seal | src/crypto_stream.rs:105-117 | Sealing uses the current nonce, and the sealing counter advances even when sealing fails. |
| CryptoStream.Open | src/crypto_stream.rs:141-143 | Opening uses the current opening nonce, and the opening counter advances. |
| CryptoStream.Send | src/crypto_stream.rs:105-117 | A sealing failure is a crypto error, and nothing is forwarded. Otherwise the sealed frame is forwarded and the result is the underlying stream's outcome, converted. Only the sealing counter moves. |
| CryptoStream.Then | src/crypto_stream.rs:132-151 | Nothing in gives nothing out, with no counter change. An underlying error is converted. A frame is opened with the next nonce: the plaintext, or a crypto error when opening fails. |
| CryptoStream.SendReceiveInOrder | src/crypto_stream.rs:105-151 | When one stream feeds another, every message the first sends, the second receives in order and verbatim. After a complete run the two are still paired. |
| CryptoStream.PeersExchangeInOrder | src/crypto_stream.rs:85-151 | Two peers with the same base key and opposite roles exchange messages in order with their plaintext intact. |
| CryptoStream.FromSignaling | src/crypto_stream.rs:180-188 | I/O and timeout errors get their own variants, and only protocol errors are wrapped. |
| CryptoStream.FromStream | src/crypto_stream.rs:189-198 | A stream error never becomes a crypto error. Only boxed errors stay wrapped stream errors. |
| CryptoStream.IntoStream | src/crypto_stream.rs:201-211 | A crypto error is boxed. A wrapped stream error is unwrapped. A signalling error goes through `From<SignalingError>`. |
| CryptoStream.StreamErrorRoundTrip | src/crypto_stream.rs:180-211 | A stream error taken through `Chacha20Error` and back comes out normalised. An error already in normal form (I/O, timeout, boxed, protocol) comes out unchanged. |
| Agreement.FromSignaling | src/agreement.rs:97-105 | I/O errors and timeouts get their own variants, and protocol errors are wrapped. |
| Agreement.FromSignalingInjective | src/agreement.rs:97-105 | Distinct signalling errors stay distinct after the conversion. |
| Agreement.DeriveLen | src/agreement.rs:123-145 | PBKDF2-HMAC-SHA512 gives exactly the requested length. |
| Agreement.DeriveText | src/agreement.rs:147-149 | The room text is the URL-safe base64 of some 32-byte key. |
| Agreement.PskKey | src/agreement.rs:155-165 | Every HMAC key derived from the pre-shared key is 32 bytes long. |
| Agreement.Sign | src/agreement.rs:168-191 | A PSK tag verifies under the own role's signing key. An Ed25519 tag verifies under the signer's public key. |
| Agreement.PskSaltsSeparateRoles | src/agreement.rs:124-131 | The "dialer:" and "listener:" salts differ for any labels. |
| Agreement.PskVerifyingKeyIsPeerSigningKey | src/agreement.rs:155-165 | A peer verifies with the key the opposite role signs with, and that key comes from a different salt than its own signing key. |
| Agreement.CheckPeer | src/agreement.rs:174-180 | A tag is accepted exactly when it verifies: under the opposite role's PSK key, or under the peer's Ed25519 key. A rejection is a crypto error. |
| Agreement.PskPeersAccept | src/agreement.rs:155-180 | Two PSK peers with the same secret and opposite roles accept each other's tags, in both directions. |
| Agreement.Ed25519PeersAccept | src/agreement.rs:188-197 | Two Ed25519 peers holding each other's public keys accept each other's tags. |
| Agreement.Announcement | src/agreement.rs:40-48 | Two messages: the base64 public key, then the base64 tag of that key. Each decodes back to what was encoded. |
| Agreement.Announce | src/agreement.rs:40-48 | Both messages are sent in that order, or the channel's error is returned converted. |
| Agreement.ReceivePeer | src/agreement.rs:50-53 | It consumes at least two deliveries and leaves the outbox alone. It stays pending only when the input holds nothing but `None` deliveries, or a single text with nothing but `None` deliveries around it. |
| Agreement.ReceivePeerRejectsBadKey | src/agreement.rs:50-51 | A first text that is not base64 aborts with `Base64Error`. |
| Agreement.ReceivePeerOnTexts | src/agreement.rs:50-53 | On the first two texts after `None` deliveries, either one that is not base64 gives `Base64Error`. Otherwise the decoded key and tag are received, and the rest of the input is left. |
| Agreement.ReceivePeerOnAnnouncement | src/agreement.rs:50-53 | When the input holds a peer's announcement, with `None` deliveries before each message, the peer's key and tag are received as sent. The channel is left with the input after the announcement. |
| Agreement.Conclude | src/agreement.rs:54-65 | A rejected tag gives `BadAuth(CryptoError)`. A secret is returned only after the tag checked, and it is the X25519 agreement with the peer's key. |
| Agreement.Agree | src/agreement.rs:35-68 | A failed key generation is a crypto error, and a broken channel fails before anything is read. On success both announcement messages were sent, the secret is an X25519 agreement with a key whose tag checked, and the channel is handed back. |
| Agreement.AgreeOnAnnouncement | src/agreement.rs:35-79 | Given a peer's announcement (with `None` deliveries around it), the outcome of `agree` is the outcome of the tag check and the ECDH on the peer's key. The channel is left after the announcement. |
| Agreement.PeersAgree | src/agreement.rs:35-68 | Two peers that accept each other and receive each other's announcements either both end with the same secret, or both fail with the same crypto error. |
| Curve25519Conversion.ClearLowBits | src/curve25519_conversion.rs:26 | `b & 248` clears the low three bits and keeps the rest. |
| Curve25519Conversion.SetHighBits | src/curve25519_conversion.rs:27-28 | `(b & 127) \| 64` lies in [64, 127] and keeps the low six bits. |
| Curve25519Conversion.Clamp | src/curve25519_conversion.rs:25-28 | The result is clamped (section 5 of RFC 7748). Bytes 1 to 30 are unchanged, and only the masked bits of bytes 0 and 31 change. |
| Curve25519Conversion.ClampFixesClamped | src/curve25519_conversion.rs:25-28 | Clamping leaves a scalar unchanged exactly when it is already clamped. |
| Curve25519Conversion.ClampIdempotent | src/curve25519_conversion.rs:25-28 | Clamping twice equals clamping once. |
| Curve25519Conversion.SeedToX25519 | src/curve25519_conversion.rs:23-31 | The scalar is clamped and keeps bytes 1 to 30 of the seed's SHA-512 digest, as section 5.1.5 of RFC 8032 prescribes. |
| Curve25519Conversion.PublicToX25519 | src/curve25519_conversion.rs:13-21 | The result is `None` exactly when the Edwards point does not decompress. |
| Ice.FromSignaling | src/ice.rs:325-333 | I/O errors and timeouts get their own variants, and protocol errors are wrapped. |
| Ice.FromEngine | src/ice.rs:334-341 | The engine's I/O errors are unwrapped, and every other engine error is kept. |
| Ice.IntoStream | src/ice.rs:344-353 | The result is always normal. Exactly the handshake and engine errors are boxed. |
| Ice.ConversionsCommute | src/ice.rs:325-353 | Converting a signalling error through `IceError` lands where the direct conversion does. An engine I/O error reaches the stream as a plain I/O error. |
| Ice.New | src/ice.rs:42-71 | "Icepipe" is sent before anything is read. Success means the first text after `None` deliveries was "Icepipe", and both latches start clear. A bad handshake carries that first text. |
| Ice.NewDecidedByFirstText | src/ice.rs:42-56 | The first text after `None` deliveries decides: "Icepipe" opens the exchange, and anything else is a bad handshake carrying that text. |
| Ice.Then | src/ice.rs:103-141 | A local candidate is sent verbatim. A `None` changes nothing. "Close" sets `rx_shut` and never reaches the agent. Other text reaches the agent only when one is given. Neither latch is cleared. |
| Ice.RemoteCandidateRouting | src/ice.rs:126-136 | Text other than "Close" is discarded without an agent. With an agent it is added, or the agent's error is returned. |
| Ice.Drain | src/ice.rs:83-86 | The loop finishes exactly when `rx_shut` is set, and stays pending only when the input is used up. |
| Ice.Close | src/ice.rs:73-89 | `close` returns Ok only once `rx_shut` is set. Failing to send "Close" leaves the state unchanged. With both latches set it returns at once. |
| Ice.ThenKeepsLatched | src/ice.rs:103-141 | `then` keeps the invariant "Close was sent exactly when `tx_shut` is set". |
| Ice.DrainKeepsLatched | src/ice.rs:83-86 | The close loop keeps that invariant. |
| Ice.CloseKeepsLatched | src/ice.rs:73-89 | `close` keeps that invariant: it sends "Close" only when `tx_shut` is clear, and then sets it. |
| Ice.CloseSentAtMostOnce | src/ice.rs:64-65 | Over any sequence of `then` and `close` calls, "Close" is sent at most once, and neither `tx_shut` nor `rx_closed` ever goes back to false. |
| Ice.RxClosedNeverReopens | src/ice.rs:295-297 | Once `rx_closed` is true it stays true across any sequence of `then` and `close` calls, whatever candidates they carry. |
| Ice.CredentialsPairUp | src/ice.rs:300-310 | Each side's remote credentials are the peer's local ones, and the two roles use different credentials. |
| Ice.GetRemote | src/ice.rs:308-310 | A side never expects its own credentials from its peer. |
| Ping.New | src/ping.rs:10-15 | A new timer has both timestamps at the current reading (the corrected reading; see Findings). |
| Ping.NewAsWritten | src/ping.rs:10-15 | With one clock reading per field, the two timestamps differ by the gap between the readings. |
| Ping.Wait | src/ping.rs:17-29 | `wait` wakes at the earlier of the two deadlines, or at once when one has passed. It reports a ping exactly when the ping deadline has been reached, and a timeout exactly when the pong deadline has. |
| Ping.SentPing | src/ping.rs:31-33 | Only the ping timestamp moves. |
| Ping.ReceivedPong | src/ping.rs:35-38 | Both timestamps move to the current reading (the corrected reading; see Findings). |
| Ping.ReceivedPongAsWritten | src/ping.rs:35-38 | With one clock reading per field, the pong timestamp is later than the ping timestamp by the gap between the readings. |
| Ping.WaitOnTime | src/ping.rs:17-29 | Called before the ping is due, `wait` can time out exactly when the last ping is at least 45 s after the last pong. It can ask for a ping exactly when the gap is at most 45 s. |
| Ping.NoTimeoutAfterPong | src/ping.rs:17-38 | Right after a pong, `wait` only asks for a ping, 15 s later. |
| Ping.NoTimeoutAfterPongAsWritten | src/ping.rs:17-38 | With the double clock reading the same holds, whatever the gap between the readings. |
| Ping.PongNotAfterPing | src/ping.rs:10-38 | With a monotone clock the last pong is never after the last ping, and neither is after the latest reading. |
| Ping.ReceivedPongAsWrittenBreaksOrder | src/ping.rs:35-38 | With two different readings, the code as written leaves the pong after the ping. |
| Ws.FromTungstenite | src/ws.rs:146-171 | The library error table: ConnectionClosed and AlreadyClosed map to ConnectionReset; Capacity and SendQueueFull to OutOfMemory; Utf8, Http and HttpFormat to InvalidData; Url to InvalidInput; Tls to Other; Io passes through; Protocol is a protocol error. Nothing maps to a timeout. |
| Ws.IntoSignaling | src/ws.rs:135-143 | Exactly the keepalive timeout becomes a signalling timeout. Protocol errors keep their cause. Library errors go through the table. |
| Ws.IntoSignalingSeparatesOwnErrors | src/ws.rs:135-143 | Two websocket-layer errors (timeouts or rejected frames) that convert to the same signalling error were the same error. |
| Ws.New | src/ws.rs:19-37 | Success exactly when the first frame is text. The role is dialer exactly for "DIALER". Any other frame is an `Unexpected` protocol error, and end of stream is ConnectionClosed. |
| Ws.SendFrame | src/ws.rs:49-55 | A send appends exactly one frame, or fails with the socket's error. |
| Ws.Send | src/ws.rs:49-55 | `send` emits the string as one text frame and leaves the keepalive alone. |
| Ws.WaitRead | src/ws.rs:62-68 | A frame read is yielded as incoming. End of stream is ConnectionClosed, and library errors are passed on. |
| Ws.WaitAlarm | src/ws.rs:69-71 | The keepalive's ping alarm yields `MustPing`. Its pong alarm is a timeout, raised only once the pong deadline has passed. |
| Ws.Then | src/ws.rs:77-113 | Text gives `Some(text)` with no effect. Ping records a pong and echoes a Pong with the same payload. Pong records a pong. Any other frame is an `Unexpected` protocol error. `MustPing` records a ping and sends an empty Ping. |
| Ws.ThenSendsOnlyControl | src/ws.rs:77-113 | `then` sends nothing but the echoing Pong or the empty keepalive Ping. |
| Ws.NoTimeoutAfterPeerTraffic | src/ws.rs:87-95 | After a Ping or Pong from the peer, the keepalive cannot time out before it asks for the next ping. |
| Sctp.ConnectionClosed | src/sctp.rs:78-89 | True exactly for Completed, Failed, Disconnected and Closed. False exactly for Unspecified, New, Checking and Connected. |
| Sctp.RxClosed | src/sctp.rs:166-168 | The empty-read latch, or a closed connection. |
| Sctp.FromSignaling | src/sctp.rs:186-194 | I/O and timeout errors get their own variants, and only protocol errors are wrapped. |
| Sctp.FromStream | src/sctp.rs:195-204 | Only boxed errors stay wrapped stream errors, and none becomes an SCTP-specific error. |
| Sctp.IntoStream | src/sctp.rs:205-216 | SCTP-specific errors are boxed, and wrapped stream errors are unwrapped. |
| Sctp.StreamErrorRoundTrip | src/sctp.rs:186-216 | A stream error taken through `SctpError` and back comes out normalised, and unchanged when already normal. |
| Sctp.Setup | src/sctp.rs:32-76 | The dialer starts as client and opens stream 1 as Binary. The listener starts as server and accepts. A listener whose association ends without a stream gets `AssociationClosedWithoutStream`. Success means exactly these steps plus the one-byte marker write, with `rx_closed` clear. |
| Sctp.Resize | src/sctp.rs:111 | The buffer is truncated or zero-padded to the requested length. |
| Sctp.Wait | src/sctp.rs:110-126 | The buffer is 8096 bytes after every wait. A state change is reported and recorded. A message is read into the front of the buffer, and a read failure is an SCTP error. |
| Sctp.Then | src/sctp.rs:128-148 | A state change yields nothing. An empty read latches `rx_closed`. A non-Binary message is dropped. Data comes out exactly for a non-empty Binary read, as the first `n` bytes of the buffer. |
| Sctp.DeliversBinaryPayloads | src/sctp.rs:61-64 | A Binary message comes out of wait-then verbatim and at most 8096 bytes long. The setup marker never comes out. |
| Sctp.RxClosedLatches | src/sctp.rs:110-148 | Once an empty read has closed the read side, it stays closed through any sequence of wait-then rounds, whatever connection states arrive. |
| Constants.Padding | src/constants.rs:8 | `n` NUL characters, as after the stored defaults. |
| Constants.Split | src/constants.rs:14 | `str::split` on one character: at least one piece, no piece contains the separator, and the pieces rejoined give the input. |
| Constants.SplitJoin | src/constants.rs:14-17 | Splitting undoes joining when no piece contains the separator. |
| Constants.CString | src/constants.rs:36 | The C string is everything before the first NUL. |
| Constants.FindPrefixEnd | src/constants.rs:38 | `find("__")`: the first position of "__", or none. |
| Constants.BytesToStr | src/constants.rs:32-50 | A set variable is taken verbatim. Otherwise the stored C string is cut right after its first "__", or kept whole without one. What remains is the value, and an empty remainder is the "Must provide environment variable" error. |
| Constants.CutAfterFirstSeparator | src/constants.rs:38-45 | With the first "__" at position k of the C string, the value is what follows position k + 2, or the error when nothing does. |
| Constants.StoredDefault | src/constants.rs:32-50 | A default stored as `name__value` with NUL padding decodes to `value`. |
| Constants.SignalDefault | src/constants.rs:7-9 | The stored signalling default decodes to "wss://icepipe.fly.dev/signaling/". |
| Constants.StunDefault | src/constants.rs:11-12 | The stored STUN default decodes to "stun:stun.l.google.com:19302". |
| Constants.ParseEntry | src/constants.rs:16-27 | An entry's first '&' field is parsed as the URL, and the next two fields are the username and password ("" when missing). Extra fields are ignored, and the URL parser's error is passed on. The "Empty STUN url" branch cannot be taken. |
| Constants.EntryFields | src/connect.rs:58-70 | An entry written from its three fields gives them back, and a bare URL has empty credentials. |
| Constants.SingleEntry | src/constants.rs:14-29 | A list of one entry without '&' is one server without credentials. |
| Constants.ParseAll | src/constants.rs:29 | On success the servers keep the entries' order and count. One failing entry fails the whole list with that entry's error. |
| Constants.IceUrls | src/constants.rs:11-30 | The variable or the stored default is split on ';' and every entry parsed. A missing value is the variable's error. A result is never empty. |
| Connect.IntoOption | src/connect.rs:48-52 | `None` exactly for an empty list, and the list unchanged otherwise. |
| Connect.SelectSignaling | src/connect.rs:12-17 | The supplied server if any, else the default, else the "No default value available for signaling" error. |
| Connect.SelectIce | src/connect.rs:20-28 | The supplied entries parsed if there are any, else the default list when it parses and is not empty, else the "No default value available for ice" error. A result is never empty. |
| Connect.ChannelName | src/connect.rs:30-31 | The room name is the URL-safe base64 text of a 32-byte key derived from the channel text with the dialer's role, so both peers compute it before they know their roles. |
| Connect.Connect | src/connect.rs:7-31 | The signalling server is selected, then parsed as a URL, then the ICE servers are selected. The first failure is the result. On success the plan holds the parsed URL, the ICE servers and the room derived from the channel text. |
| Connect.PeersMeet | src/connect.rs:30-31 | Two peers with the same channel text land in the same room whatever their servers. With nothing supplied, both use the same servers. |
| Connect.BadSignalingUrlFirst | src/connect.rs:18-24 | An unparsable signalling URL is the error, whatever ICE servers were given. |
| Connect.DefaultSignaling | src/connect.rs:12-17 | With no variable and nothing supplied, the signalling server is the public one. |
| Connect.DefaultIce | src/connect.rs:20-28 | With no variable and nothing supplied, the ICE list is Google's STUN server without credentials. |
| Cat.HexDigit | icepipe-cat/src/main.rs:91 | A value below 16 prints as one lowercase hex digit. |
| Cat.ByteHex | icepipe-cat/src/main.rs:91 | `{:02x}`: exactly two lowercase hex digits. |
| Cat.HexEncode | icepipe-cat/src/main.rs:180-186 | Two lowercase hex digits per byte, so the length is 2n. |
| Cat.HexEncodePair | icepipe-cat/src/main.rs:180 | The i-th pair of the encoding is the i-th byte's two digits. |
| Cat.DigitValue | icepipe-cat/src/main.rs:207 | Base-16 digits in both letter cases have values below 16, and nothing else is a digit. |
| Cat.DigitsValue | icepipe-cat/src/main.rs:207 | A digit string has a value exactly when every character is a digit. |
| Cat.ParseByte | icepipe-cat/src/main.rs:207 | `u8::from_str_radix(_, 16)`: an optional leading '+', then at least one digit, and a value below 256. Empty text and a lone sign are rejected. |
| Cat.DecodePair | icepipe-cat/src/main.rs:207 | A pair that does not parse decodes to 0 (`unwrap_or_default`). |
| Cat.HexDecode | icepipe-cat/src/main.rs:205-208 | A successful decoding gives one byte per two bytes of UTF-8 text. |
| Cat.HexDecodeAscii | icepipe-cat/src/main.rs:205-208 | On ASCII text, decoding succeeds exactly when the length is even, and byte i is pair i, parsed. |
| Cat.HexDecodeSucceedsWhenAligned | icepipe-cat/src/main.rs:205-208 | Decoding succeeds exactly when every even byte offset is a character boundary and the byte length is even. Otherwise a slice panics. |
| Cat.WideTextDecodesToZeros | icepipe-cat/src/main.rs:205-208 | Text of two-byte characters decodes to one zero byte per character. |
| Cat.SlicingPanics | icepipe-cat/src/main.rs:205-208 | An odd byte length, a pair cut through a two-byte character, and a three-byte character each panic. |
| Cat.PairRoundTrip | icepipe-cat/src/main.rs:180-207 | A byte's two digits decode back to the byte. |
| Cat.DigitsRoundTrip | icepipe-cat/src/main.rs:180-207 | Two lowercase digits decode to the byte that prints as them. |
| Cat.HexRoundTrip | icepipe-cat/src/main.rs:180-208 | decode(encode(b)) = b for every byte sequence. |
| Cat.TextPairRoundTrip | icepipe-cat/src/main.rs:180-208 | Each pair of lowercase hexadecimal text comes back unchanged from decoding and re-encoding. |
| Cat.HexRoundTripText | icepipe-cat/src/main.rs:180-208 | encode(decode(s)) = s for lowercase hex text of even length. |
| Cat.LenientPairs | icepipe-cat/src/main.rs:207 | Upper case and a leading '+' are accepted. A '-', a non-digit or a space decodes to 0. |
| Cat.GenKey | icepipe-cat/src/main.rs:176-191 | Two lines, "--private-key " plus the hex seed and "Public key: " plus the hex public key. A failed random generator is `Unspecified`. |
| Cat.GetKeys | icepipe-cat/src/main.rs:193-222 | A slicing panic in the private key comes first, then one in the peer key. Without a panic, the result is Ok exactly when the private key text is 64 bytes and the peer key converts; otherwise it is `Unspecified`. The X25519 secret is the clamped conversion of the decoded seed, and the peer's X25519 key is the conversion of its decoded key. |
| Cat.AccentedPrivateKeyLoads | icepipe-cat/src/main.rs:205-215 | A private key of 32 accented letters is accepted as the all-zero seed. |
| Cat.ChannelHex | icepipe-cat/src/main.rs:87-92 | The room is the static X25519 agreement, two hex digits per byte. |
| Cat.PeersShareChannel | icepipe-cat/src/main.rs:87-92 | Two users who pass each other the keys `gen_key` printed both load their keys and compute the same room. |
| Cat.SelectIo | icepipe-cat/src/main.rs:105-148 | `--tcp-input` excludes `--input`, `--output` and `--tcp-forward`. `--tcp-forward` excludes `--input` and `--output`. A TCP option carries both directions. Otherwise input and output default independently to stdin and stdout. Each violation fails with its own message, in source order. |
| Cat.TcpTakesBothDirections | icepipe-cat/src/main.rs:105-138 | A TCP endpoint is never mixed with a file or a standard stream. |

## Left out

- I/O and its concurrency: the websocket and TLS connection, TCP, files, stdin/stdout, the tokio runtime, and the `select!` races. The scripts and parameters above stand in for them.
- The pump loops in `src/main.rs` and `icepipe-cat/src/main.rs:152-169`. They only shuttle data between two streams.
- The mode dispatch of `main2` (`--gen-key`, `--private-key`, PSK mode) and the parsing of command-line arguments. These are orchestration; the pieces they call are modelled.
- `src/stdio.rs` and `src/async_pipe_stream.rs`: thin tokio adapters. Their one piece of logic, an empty read latching the read side, has the same shape as `Sctp.Then`.
- The ICE agent: candidate gathering, callbacks, dial/accept, and `IceAgent::connect` (`src/ice.rs:144-290`). These are concurrency over a foreign engine. Only the agent's verdict on a remote candidate appears, as `Ice.Agent`.
- The SCTP association internals. This includes the backpressure and drain loops of `send` and `close` (`src/sctp.rs:91-103`, `150-164`), which wait on timers.
- `Chacha20Stream::wait`, `close` and `rx_closed` (`src/crypto_stream.rs:128-130`, `158-164`). They only delegate to the underlying stream and convert its errors with `CryptoStream.FromStream`.
- The real cryptography: ChaCha20-Poly1305, HKDF, PBKDF2, HMAC-SHA512, SHA-512, X25519, Ed25519 and base64. These are uninterpreted functions with the axioms listed above.
- Edwards decompression and the Edwards-to-Montgomery map. These are primitives too.
- `Url::parse_url`, `url::Url::parse` and `Url::join`. URL parsing is a parameter: `parseSignaling` for the signalling server, `parse` for each ICE entry. The join of the signalling URL with the room name is not modelled.
- CryptoStream.Advance: wraps at 2^128 as a release build does; the overflow panic of a debug build is not modelled.
- Agreement.DeriveLen: its length guarantee holds only under `Pbkdf2Length`, because PBKDF2 is abstract.
- Ice.CloseSentAtMostOnce: assumes no local candidate is the literal text "Close". A marshalled candidate always carries its attributes, so it never is.
- Ws.WaitRead and Ws.WaitAlarm: the race between the socket and the keepalive in `wait` is split into its two outcomes. Which one wins is up to the caller.
- Ws.Then: when the Pong echo or the keepalive Ping fails to send, the source has already recorded the pong or ping in the keepalive timer; the model returns the error without that update, which no caller sees since the error ends the connection.
- Ws.New and Ws.Then: they build and update the keepalive timer with the corrected `Ping.New` and `Ping.ReceivedPong` (one clock reading each), not the double clock reading of `src/ping.rs` that `src/ws.rs` calls; the as-written timer and its effect are stated separately under Findings.
- Sctp.RxClosed: `connection_closed` reads the latest value of the agent's state watch, while the model records a state only when `wait` delivers the change.
- Sctp.Wait: a message longer than the 8096-byte buffer is passed in as a read failure; the engine's own check is not modelled.
- Cat.HexDecode and Cat.GetKeys: a slicing panic is the error value `SlicePanic` rather than an abort. Its two cases (a range past the end, an end inside a character) stand for the panic messages of `str` slicing without their text.
- Constants.BytesToStr: requires the stored bytes to hold a NUL, which both stored defaults do. `CStr::to_str`'s UTF-8 check is not modelled, because strings here are sequences of characters.
- Curve25519Conversion.PublicToX25519: whether a key of the wrong length is rejected or makes `CompressedEdwardsY::from_slice` panic depends on the curve library; the model leaves every rejection to the abstract decompression.
- The consistency test at `src/curve25519_conversion.rs:38-52` is the predicate `ConversionConsistent`. It is assumed, not proved, since it needs curve arithmetic.

## Findings

| source | as written | input that shows it | evidently intended | confidence | as-written member | corrected member |
|---|---|---|---|---|---|---|
| src/ping.rs:10-15, 35-38 | `new` and `received_pong` read the clock twice, once per timestamp, so `last_pong` can be later than `last_ping`. | Clock readings 0 then 1 in `received_pong`: last_ping = 0, last_pong = 1. | One reading for both timestamps, so the last pong is never after the last ping. | not executed; the gap is whatever elapses between two `Instant::now()` calls, usually below a microsecond, and only shifts the timeout by that much | Ping.ReceivedPongAsWritten, Ping.NewAsWritten, Ping.ReceivedPongAsWrittenBreaksOrder | Ping.ReceivedPong, Ping.New, Ping.PongNotAfterPing |
