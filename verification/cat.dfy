/** The `icepipe-cat` tool (`icepipe-cat/src/main.rs`): key generation and
    loading in lowercase hexadecimal (the base16 alphabet of section 8 of
    RFC 4648, in lower case), the room name derived from the two static keys,
    and the choice of local input and output. */
module Cat {
  import opened Base
  import opened Primitives
  import X = Curve25519Conversion

  /** Length of an Ed25519 seed. */
  const SEED_LEN: nat := 32

  type Seed = b: Bytes | |b| == SEED_LEN witness seq(SEED_LEN, _ => 0)

  /** `ring::error::Unspecified`. */
  datatype Unspecified = Unspecified

  /** A digit `{:02x}` writes. */
  predicate IsLowerHex(c: char) {
    '0' <= c <= '9' || 'a' <= c <= 'f'
  }

  function HexDigit(n: nat): (c: char)
    requires n < 16
    ensures IsLowerHex(c)
  {
    if n < 10 then ('0' as int + n) as char else ('a' as int + n - 10) as char
  }

  /** `format!("{b:02x}")`: two lowercase digits, high nibble first. */
  function ByteHex(b: byte): (r: string)
    ensures |r| == 2 && IsLowerHex(r[0]) && IsLowerHex(r[1])
  {
    [HexDigit(b / 16), HexDigit(b % 16)]
  }

  /** The bytes formatted one after the other, as `gen_key` prints the keys
      and the keyed mode names the room. */
  function HexEncode(bytes: Bytes): (r: string)
    ensures |r| == 2 * |bytes|
    ensures forall i :: 0 <= i < |r| ==> IsLowerHex(r[i])
    decreases |bytes|
  {
    if |bytes| == 0 then "" else ByteHex(bytes[0]) + HexEncode(bytes[1..])
  }

  /** The `i`-th pair of the encoding is the `i`-th byte's. */
  lemma {:induction false} HexEncodePair(bytes: Bytes, i: nat)
    requires i < |bytes|
    ensures HexEncode(bytes)[2 * i..2 * i + 2] == ByteHex(bytes[i])
    decreases i
  {
    var r := HexEncode(bytes);
    if i > 0 {
      HexEncodePair(bytes[1..], i - 1);
      assert r == ByteHex(bytes[0]) + HexEncode(bytes[1..]);
      assert r[2 * i..2 * i + 2] == HexEncode(bytes[1..])[2 * (i - 1)..2 * (i - 1) + 2];
    }
  }

  /** `char::to_digit(16)`: both letter cases are digits. */
  function DigitValue(c: char): (r: Option<nat>)
    ensures r.Some? ==> r.value < 16
    ensures r.None? <==> !('0' <= c <= '9' || 'a' <= c <= 'f' || 'A' <= c <= 'F')
  {
    if '0' <= c <= '9' then Some(c as int - '0' as int)
    else if 'a' <= c <= 'f' then Some(c as int - 'a' as int + 10)
    else if 'A' <= c <= 'F' then Some(c as int - 'A' as int + 10)
    else None
  }

  /** The value of a string of base-16 digits, most significant first. */
  function DigitsValue(ds: string): (r: Option<nat>)
    ensures r.Some? <==> forall i :: 0 <= i < |ds| ==> DigitValue(ds[i]).Some?
    decreases |ds|
  {
    if |ds| == 0 then Some(0)
    else
      match (DigitsValue(ds[..|ds| - 1]), DigitValue(ds[|ds| - 1]))
      case (Some(high), Some(low)) => Some(high * 16 + low)
      case _ => None
  }

  /** Two digits have the value of a byte. */
  lemma TwoDigits(a: char, c: char)
    requires DigitValue(a).Some? && DigitValue(c).Some?
    ensures DigitsValue([a, c]) == Some(DigitValue(a).value * 16 + DigitValue(c).value)
  {
    var s := [a, c];
    assert s[..1] == [a];
    assert [a][..0] == [];
    assert DigitsValue([a]) == Some(DigitValue(a).value);
    assert s[|s| - 1] == c;
  }

  /** `u8::from_str_radix(s, 16)`: an optional leading `+`, then at least
      one digit, with a value below 256. A `-` is not a digit. */
  function ParseByte(s: string): (r: Option<byte>)
    ensures |s| == 0 ==> r.None?
    ensures |s| == 1 && (s[0] == '+' || s[0] == '-') ==> r.None?
    ensures r.Some? && s[0] != '+' ==> DigitsValue(s) == Some(r.value)
    ensures r.Some? && s[0] == '+' ==> DigitsValue(s[1..]) == Some(r.value)
    ensures |s| > 0 && s[0] != '+' && DigitsValue(s).Some? && DigitsValue(s).value < 256 ==> r == Some(DigitsValue(s).value)
  {
    if |s| == 0 then None
    else if |s| == 1 && (s[0] == '+' || s[0] == '-') then None
    else
      var digits := if s[0] == '+' then s[1..] else s;
      match DigitsValue(digits)
      case Some(v) => if v < 256 then Some(v) else None
      case None => None
  }

  /** One pair of `get_keys`: the parsed byte, or 0 when it does not parse. */
  function DecodePair(pair: string): (r: byte)
    ensures ParseByte(pair).Some? ==> r == ParseByte(pair).value
    ensures ParseByte(pair).None? ==> r == 0
  {
    match ParseByte(pair)
    case Some(b) => b
    case None => 0
  }

  /** Why slicing text panics: the range runs past the end of the text, or
      one of its ends falls inside a multi-byte character. */
  datatype SlicePanic = OutOfRange | NotCharBoundary

  /** The UTF-8 length of a character. */
  function Width(c: char): (n: nat)
    ensures 1 <= n <= 4 && (n == 1 <==> c as int < 128)
  {
    |Utf8Char(c)|
  }

  /** The `i`-th character does not straddle an even byte offset: it is one
      byte long, or two bytes long and starts at an even offset. */
  predicate AlignedAt(s: string, i: nat)
    requires i < |s|
  {
    Width(s[i]) == 1 || (Width(s[i]) == 2 && |Utf8(s[..i])| % 2 == 0)
  }

  /** Text in which every even byte offset is a character boundary and whose
      byte length is even. */
  predicate PairsAligned(s: string) {
    |Utf8(s)| % 2 == 0 && forall i :: 0 <= i < |s| ==> AlignedAt(s, i)
  }

  /** `get_keys`' decoding: `&s[i..][..2]` parsed for every even byte offset
      `i`, from the first. A pair is two ASCII characters, or one two-byte
      character, whose bytes are neither digits nor signs and so decode to
      0. A slice that ends past the text or inside a character panics. */
  function HexDecode(s: string): (r: Result<Bytes, SlicePanic>)
    ensures r.Ok? ==> 2 * |r.value| == |Utf8(s)|
    decreases |s|
  {
    if |s| == 0 then Ok([])
    else if Width(s[0]) > 2 then Err(NotCharBoundary)
    else if Width(s[0]) == 2 then
      assert Utf8(s) == Utf8Char(s[0]) + Utf8(s[1..]);
      match HexDecode(s[1..])
      case Err(e) => Err(e)
      case Ok(rest) => Ok([0] + rest)
    else if |s| == 1 then Err(OutOfRange)
    else if Width(s[1]) > 1 then Err(NotCharBoundary)
    else
      assert Utf8(s) == Utf8Char(s[0]) + Utf8(s[1..]);
      assert Utf8(s[1..]) == Utf8Char(s[1]) + Utf8(s[2..]);
      match HexDecode(s[2..])
      case Err(e) => Err(e)
      case Ok(rest) => Ok([DecodePair(s[..2])] + rest)
  }

  /** On ASCII text, decoding succeeds exactly when the length is even, and
      the `i`-th byte is the `i`-th pair of characters, parsed. */
  lemma {:induction false} HexDecodeAscii(s: string)
    requires IsAscii(s)
    ensures HexDecode(s).Ok? <==> |s| % 2 == 0
    ensures HexDecode(s).Ok? ==> |HexDecode(s).value| == |s| / 2
    ensures HexDecode(s).Ok? ==> forall i :: 0 <= i < |s| / 2 ==> HexDecode(s).value[i] == DecodePair(s[2 * i..2 * i + 2])
    decreases |s|
  {
    Utf8OfAscii(s);
    if |s| >= 2 {
      HexDecodeAscii(s[2..]);
      if |s| % 2 == 0 {
        var rest := HexDecode(s[2..]).value;
        assert HexDecode(s) == Ok([DecodePair(s[..2])] + rest);
        forall i | 1 <= i < |s| / 2
          ensures HexDecode(s).value[i] == DecodePair(s[2 * i..2 * i + 2])
        {
          assert s[2 * i..2 * i + 2] == s[2..][2 * (i - 1)..2 * (i - 1) + 2];
        }
      }
    }
  }

  /** Decoding succeeds exactly on text whose pairs fall on character
      boundaries. */
  lemma {:induction false} HexDecodeSucceedsWhenAligned(s: string)
    ensures HexDecode(s).Ok? <==> PairsAligned(s)
    decreases |s|
  {
    if |s| == 0 {
    } else if Width(s[0]) > 2 {
      assert !AlignedAt(s, 0);
    } else if Width(s[0]) == 2 {
      HexDecodeSucceedsWhenAligned(s[1..]);
      ShiftAlignment(s, 1);
    } else if |s| == 1 {
      assert Utf8(s) == Utf8Char(s[0]) + Utf8(s[1..]);
    } else if Width(s[1]) > 1 {
      assert s[..1] == [s[0]];
      assert Utf8([s[0]]) == Utf8Char(s[0]) + Utf8([s[0]][1..]);
      assert !AlignedAt(s, 1);
    } else {
      HexDecodeSucceedsWhenAligned(s[2..]);
      assert s[..1] == [s[0]] && s[..2] == [s[0], s[1]];
      assert Utf8([s[0]]) == Utf8Char(s[0]) + Utf8([s[0]][1..]);
      assert Utf8([s[0], s[1]]) == Utf8Char(s[0]) + Utf8([s[0], s[1]][1..]);
      assert Utf8([s[0], s[1]][1..]) == Utf8Char(s[1]) + Utf8([s[0], s[1]][2..]);
      assert AlignedAt(s, 0) && AlignedAt(s, 1);
      ShiftAlignment(s, 2);
    }
  }

  /** Dropping a front of two bytes, itself aligned, keeps every alignment
      condition. */
  lemma ShiftAlignment(s: string, k: nat)
    requires 1 <= k <= 2 && k <= |s|
    requires |Utf8(s[..k])| == 2
    requires forall i :: 0 <= i < k ==> AlignedAt(s, i)
    ensures PairsAligned(s) <==> PairsAligned(s[k..])
  {
    assert s == s[..k] + s[k..];
    Utf8Append(s[..k], s[k..]);
    forall j | 0 <= j < |s| - k
      ensures AlignedAt(s, k + j) <==> AlignedAt(s[k..], j)
    {
      ShiftAlignedAt(s, k, j);
    }
    if PairsAligned(s[k..]) {
      forall i | k <= i < |s| ensures AlignedAt(s, i) {
        assert AlignedAt(s, k + (i - k)) <==> AlignedAt(s[k..], i - k);
      }
    }
  }

  lemma ShiftAlignedAt(s: string, k: nat, j: nat)
    requires k + j < |s| && |Utf8(s[..k])| == 2
    ensures AlignedAt(s, k + j) <==> AlignedAt(s[k..], j)
  {
    assert s[k..][j] == s[k + j];
    assert s[..k + j] == s[..k] + s[k..][..j];
    Utf8Append(s[..k], s[k..][..j]);
  }

  /** Text made only of two-byte characters, such as accented Latin
      letters, decodes to one zero byte per character. */
  lemma {:induction false} WideTextDecodesToZeros(s: string)
    requires forall i :: 0 <= i < |s| ==> Width(s[i]) == 2
    ensures HexDecode(s).Ok? && |HexDecode(s).value| == |s|
    ensures forall i :: 0 <= i < |s| ==> HexDecode(s).value[i] == 0
    decreases |s|
  {
    if |s| > 0 {
      WideTextDecodesToZeros(s[1..]);
      assert Width(s[0]) == 2;
      assert HexDecode(s) == Ok([0] + HexDecode(s[1..]).value);
    }
  }

  /** Where slicing panics: an odd byte length, a pair cut through a
      two-byte character, and a character longer than two bytes. */
  lemma SlicingPanics()
    ensures HexDecode("abc") == Err(OutOfRange)
    ensures HexDecode("a\U{E9}") == Err(NotCharBoundary)
    ensures HexDecode("\U{20AC}") == Err(NotCharBoundary)
  {
    assert "abc"[2..] == "c";
  }

  /** A lowercase pair decodes to the byte it encodes. */
  lemma PairRoundTrip(b: byte)
    ensures DecodePair(ByteHex(b)) == b
  {
    var s := ByteHex(b);
    assert DigitValue(s[0]) == Some(b / 16);
    assert DigitValue(s[1]) == Some(b % 16);
    TwoDigits(s[0], s[1]);
    assert s == [s[0], s[1]];
  }

  /** Two lowercase digits decode to the byte that prints as them. */
  lemma DigitsRoundTrip(a: char, c: char)
    requires IsLowerHex(a) && IsLowerHex(c)
    ensures ByteHex(DecodePair([a, c])) == [a, c]
  {
    TwoDigits(a, c);
    var v := DigitValue(a).value * 16 + DigitValue(c).value;
    assert DecodePair([a, c]) == v;
    assert v / 16 == DigitValue(a).value && v % 16 == DigitValue(c).value;
    assert HexDigit(DigitValue(a).value) == a;
    assert HexDigit(DigitValue(c).value) == c;
  }

  lemma LowerHexIsAscii(s: string)
    requires forall i :: 0 <= i < |s| ==> IsLowerHex(s[i])
    ensures IsAscii(s)
  {
  }

  /** Decoding undoes encoding: the keys `gen_key` prints load back. */
  lemma HexRoundTrip(bytes: Bytes)
    ensures HexDecode(HexEncode(bytes)) == Ok(bytes)
  {
    var s := HexEncode(bytes);
    LowerHexIsAscii(s);
    assert |s| % 2 == 0 && |s| / 2 == |bytes|;
    HexDecodeAscii(s);
    var r := HexDecode(s).value;
    forall i | 0 <= i < |bytes| ensures r[i] == bytes[i] {
      EncodedPairDecodes(bytes, i);
    }
    assert |r| == |bytes|;
    assert r == bytes;
  }

  lemma EncodedPairDecodes(bytes: Bytes, i: nat)
    requires i < |bytes|
    ensures 2 * i + 2 <= |HexEncode(bytes)| && DecodePair(HexEncode(bytes)[2 * i..2 * i + 2]) == bytes[i]
  {
    HexEncodePair(bytes, i);
    PairRoundTrip(bytes[i]);
  }

  /** Encoding undoes decoding on lowercase text of even length. */
  lemma HexRoundTripText(s: string)
    requires |s| % 2 == 0 && forall i :: 0 <= i < |s| ==> IsLowerHex(s[i])
    ensures HexDecode(s).Ok? && HexEncode(HexDecode(s).value) == s
  {
    LowerHexIsAscii(s);
    HexDecodeAscii(s);
    var r := HexEncode(HexDecode(s).value);
    assert |r| == |s|;
    forall k | 0 <= k < |s| ensures r[k] == s[k] {
      TextCharRoundTrip(s, k);
    }
    assert r == s;
  }

  /** The `k`-th character of lowercase text comes back from a round trip
      through decoding and encoding. */
  lemma TextCharRoundTrip(s: string, k: nat)
    requires |s| % 2 == 0 && forall j :: 0 <= j < |s| ==> IsLowerHex(s[j])
    requires k < |s|
    ensures HexDecode(s).Ok? && k < |HexEncode(HexDecode(s).value)|
    ensures HexEncode(HexDecode(s).value)[k] == s[k]
  {
    var i := k / 2;
    assert 2 * i <= k < 2 * i + 2;
    TextPairRoundTrip(s, i);
    var r := HexEncode(HexDecode(s).value);
    assert r[k] == r[2 * i..2 * i + 2][k - 2 * i];
    assert s[k] == s[2 * i..2 * i + 2][k - 2 * i];
  }

  /** The `i`-th pair of lowercase text comes back from a round trip
      through decoding and encoding. */
  lemma TextPairRoundTrip(s: string, i: nat)
    requires |s| % 2 == 0 && forall j :: 0 <= j < |s| ==> IsLowerHex(s[j])
    requires i < |s| / 2
    ensures HexDecode(s).Ok? && 2 * i + 2 <= 2 * |HexDecode(s).value|
    ensures HexEncode(HexDecode(s).value)[2 * i..2 * i + 2] == s[2 * i..2 * i + 2]
  {
    LowerHexIsAscii(s);
    HexDecodeAscii(s);
    var b := HexDecode(s).value;
    assert s[2 * i..2 * i + 2] == [s[2 * i], s[2 * i + 1]];
    DigitsRoundTrip(s[2 * i], s[2 * i + 1]);
    HexEncodePair(b, i);
  }

  /** Pairs outside lowercase hexadecimal: upper case and a leading `+`
      are read as Rust reads numbers, and anything else becomes 0. */
  lemma LenientPairs()
    ensures DecodePair("FF") == 255
    ensures DecodePair("+f") == 15
    ensures DecodePair("-1") == 0
    ensures DecodePair("zz") == 0
    ensures DecodePair("f ") == 0
  {
    TwoDigits('F', 'F');
    assert "FF" == ['F', 'F'];
    assert "+f"[1..] == ['f'] && ['f'][..0] == [];
  }

  /** `gen_key`: the two lines printed for a random seed, `None` when the
      system's random source fails. */
  function GenKey(suite: Suite, random: Option<Seed>): (r: Result<seq<string>, Unspecified>)
    ensures r.Ok? <==> random.Some?
    ensures r.Ok? ==> |r.value| == 2
    ensures r.Ok? ==> r.value[0] == "--private-key " + HexEncode(random.value)
    ensures r.Ok? ==> r.value[1] == "Public key: " + HexEncode(suite.ed25519Public(random.value))
  {
    match random
    case None => Err(Unspecified)
    case Some(seed) =>
      Ok(["--private-key " + HexEncode(seed), "Public key: " + HexEncode(suite.ed25519Public(seed))])
  }

  /** What `get_keys` returns: the Ed25519 pair (by its seed), the peer's
      Ed25519 public key, and their X25519 counterparts. */
  datatype Keys = Keys(seed: Bytes, peer: Bytes, secret: Bytes, peerPublic: Bytes)

  /** How `get_keys` fails: decoding either key panics at a slice, or the
      key material is rejected with `Unspecified`. */
  datatype KeysFailure = Panicked(panic: SlicePanic) | Rejected(error: Unspecified)

  /** `get_keys`: the private key is decoded first, then the peer's; a seed
      that is not 32 bytes long is rejected by the Ed25519 key pair, and a
      peer key that is not a curve point is rejected by the conversion. */
  function GetKeys(suite: Suite, privateKey: string, peer: string): (r: Result<Keys, KeysFailure>)
    ensures HexDecode(privateKey).Err? ==> r == Err(Panicked(HexDecode(privateKey).error))
    ensures HexDecode(privateKey).Ok? && HexDecode(peer).Err? ==> r == Err(Panicked(HexDecode(peer).error))
    ensures r.Err? && HexDecode(privateKey).Ok? && HexDecode(peer).Ok? ==> r == Err(Rejected(Unspecified))
    ensures r.Ok? <==> && HexDecode(privateKey).Ok? && HexDecode(peer).Ok?
                       && |Utf8(privateKey)| == 2 * SEED_LEN
                       && X.PublicToX25519(suite, HexDecode(peer).value).Some?
    ensures r.Ok? ==> r.value.seed == HexDecode(privateKey).value && r.value.peer == HexDecode(peer).value
    ensures r.Ok? ==> r.value.secret == X.SeedToX25519(suite, r.value.seed) && X.Clamped(r.value.secret)
    ensures r.Ok? ==> Some(r.value.peerPublic) == X.PublicToX25519(suite, r.value.peer)
  {
    match HexDecode(privateKey)
    case Err(p) => Err(Panicked(p))
    case Ok(seed) =>
      match HexDecode(peer)
      case Err(p) => Err(Panicked(p))
      case Ok(peerKey) =>
        if |seed| != SEED_LEN then Err(Rejected(Unspecified))
        else
          match X.PublicToX25519(suite, peerKey)
          case None => Err(Rejected(Unspecified))
          case Some(peerPublic) => Ok(Keys(seed, peerKey, X.SeedToX25519(suite, seed), peerPublic))
  }

  /** A private key of 32 accented letters is not hexadecimal, yet loads:
      every letter is a two-byte pair that decodes to 0, so the seed is 32
      zero bytes. */
  lemma AccentedPrivateKeyLoads(suite: Suite, peer: string)
    requires HexDecode(peer).Ok? && X.PublicToX25519(suite, HexDecode(peer).value).Some?
    ensures GetKeys(suite, seq(SEED_LEN, _ => '\U{E9}'), peer).Ok?
    ensures GetKeys(suite, seq(SEED_LEN, _ => '\U{E9}'), peer).value.seed == seq(SEED_LEN, _ => 0)
  {
    var key := seq(SEED_LEN, _ => '\U{E9}');
    WideTextDecodesToZeros(key);
    assert HexDecode(key).value == seq(SEED_LEN, _ => 0);
  }

  /** The room of the keyed mode: the static X25519 agreement, in hex. */
  function ChannelHex(suite: Suite, keys: Keys): (r: string)
    ensures |r| == 2 * |suite.x25519Dh(keys.secret, keys.peerPublic)|
  {
    HexEncode(suite.x25519Dh(keys.secret, keys.peerPublic))
  }

  /** Two users who exchanged the keys `gen_key` printed, each passing
      their own private key and the other's public key, load their keys and
      name the same room. */
  lemma PeersShareChannel(suite: Suite, seedA: Seed, seedB: Seed)
    requires DhSymmetric(suite) && X.ConversionConsistent(suite)
    ensures var a := GetKeys(suite, HexEncode(seedA), HexEncode(suite.ed25519Public(seedB)));
            var b := GetKeys(suite, HexEncode(seedB), HexEncode(suite.ed25519Public(seedA)));
            && a.Ok? && b.Ok?
            && a.value.seed == seedA && b.value.seed == seedB
            && ChannelHex(suite, a.value) == ChannelHex(suite, b.value)
  {
    HexRoundTrip(seedA);
    HexRoundTrip(seedB);
    HexRoundTrip(suite.ed25519Public(seedA));
    HexRoundTrip(suite.ed25519Public(seedB));
    var xa := X.SeedToX25519(suite, seedA);
    var xb := X.SeedToX25519(suite, seedB);
    assert X.PublicToX25519(suite, suite.ed25519Public(seedB)) == Some(suite.x25519Public(xb));
    assert X.PublicToX25519(suite, suite.ed25519Public(seedA)) == Some(suite.x25519Public(xa));
    assert suite.x25519Dh(xa, suite.x25519Public(xb)) == suite.x25519Dh(xb, suite.x25519Public(xa));
  }

  /** Where local data comes from or goes to. */
  datatype Endpoint = Standard | File(path: string) | TcpListen(address: string) | TcpConnect(address: string)

  /** The local input and output; the file at `output` is created. */
  datatype Io = Io(input: Endpoint, output: Endpoint)

  /** The option selection of `main2`. An exclusivity violation is a panic
      carrying the message of the first assertion that fails. */
  function SelectIo(input: Option<string>, output: Option<string>, tcpInput: Option<string>, tcpForward: Option<string>)
    : (r: Result<Io, string>)
    ensures r.Ok? <==> && !(tcpInput.Some? && tcpForward.Some?)
                       && ((tcpInput.Some? || tcpForward.Some?) ==> input.None? && output.None?)
    ensures r.Ok? && tcpInput.Some? ==> r.value == Io(TcpListen(tcpInput.value), TcpListen(tcpInput.value))
    ensures r.Ok? && tcpForward.Some? ==> r.value == Io(TcpConnect(tcpForward.value), TcpConnect(tcpForward.value))
    ensures tcpInput.None? && tcpForward.None? ==>
              && r.Ok?
              && r.value.input == (if input.Some? then File(input.value) else Standard)
              && r.value.output == (if output.Some? then File(output.value) else Standard)
    ensures tcpInput.Some? && input.Some? ==> r == Err("--input and --tcp-input are mutually exclusive")
    ensures tcpInput.Some? && input.None? && output.Some? ==> r == Err("--output and --tcp-input are mutually exclusive")
    ensures tcpInput.Some? && input.None? && output.None? && tcpForward.Some? ==>
              r == Err("--tcp-input and --tcp-forward are mutually exclusive")
    ensures tcpInput.None? && tcpForward.Some? && input.Some? ==> r == Err("--input and --tcp-forward are mutually exclusive")
    ensures tcpInput.None? && tcpForward.Some? && input.None? && output.Some? ==>
              r == Err("--output and --tcp-forward are mutually exclusive")
  {
    match tcpInput
    case Some(address) =>
      if input.Some? then Err("--input and --tcp-input are mutually exclusive")
      else if output.Some? then Err("--output and --tcp-input are mutually exclusive")
      else if tcpForward.Some? then Err("--tcp-input and --tcp-forward are mutually exclusive")
      else Ok(Io(TcpListen(address), TcpListen(address)))
    case None =>
      match tcpForward
      case Some(address) =>
        if input.Some? then Err("--input and --tcp-forward are mutually exclusive")
        else if output.Some? then Err("--output and --tcp-forward are mutually exclusive")
        else Ok(Io(TcpConnect(address), TcpConnect(address)))
      case None =>
        var source := match input case Some(path) => File(path) case None => Standard;
        var sink := match output case Some(path) => File(path) case None => Standard;
        Ok(Io(source, sink))
  }

  /** A TCP endpoint carries both directions and is never mixed with a file
      or a standard stream: input and output are either one connection or
      chosen independently from files and the standard streams. */
  lemma TcpTakesBothDirections(input: Option<string>, output: Option<string>, tcpInput: Option<string>, tcpForward: Option<string>)
    requires SelectIo(input, output, tcpInput, tcpForward).Ok?
    ensures var io := SelectIo(input, output, tcpInput, tcpForward).value;
            (io.input.TcpListen? || io.input.TcpConnect? || io.output.TcpListen? || io.output.TcpConnect?) ==> io.input == io.output
  {
  }
}
