/** Conversion of Ed25519 keys to X25519 keys (`curve25519_conversion.rs`):
    a seed becomes a clamped scalar, a public key becomes a Montgomery u
    coordinate. The curve arithmetic stays inside the primitives. */
module Curve25519Conversion {
  import opened Base
  import opened Primitives

  /** Length of an X25519 scalar. */
  const SCALAR_LEN: nat := 32

  /** A clamped X25519 scalar (section 5 of RFC 7748): the low three bits of
      the first byte are clear, and the last byte has its top bit clear and
      the bit below it set. */
  predicate Clamped(k: Bytes) {
    |k| == SCALAR_LEN && k[0] % 8 == 0 && 64 <= k[31] < 128
  }

  /** `b & 248`: the mask keeps bits 3 to 7, so the value loses its
      remainder modulo 8. */
  function ClearLowBits(b: byte): (r: byte)
    ensures r % 8 == 0 && r / 8 == b / 8
  {
    b - b % 8
  }

  /** `(b & 127) | 64`: the mask `127` drops bit 7, which leaves the value
      modulo 128; or-ing `64` then adds bit 6 unless it is already set. */
  function SetHighBits(b: byte): (r: byte)
    ensures 64 <= r < 128 && r % 64 == b % 64
  {
    var low := b % 128;
    if low / 64 == 1 then low else low + 64
  }

  /** Clearing and setting the scalar bits with byte masks, as section 5.1.5
      of RFC 8032 prescribes for the first half of the seed's digest. */
  function Clamp(k: Bytes): (r: Bytes)
    requires |k| == SCALAR_LEN
    ensures Clamped(r)
    ensures r[0] / 8 == k[0] / 8
    ensures r[31] % 64 == k[31] % 64
    ensures r[1..31] == k[1..31]
  {
    [ClearLowBits(k[0])] + k[1..31] + [SetHighBits(k[31])]
  }

  /** Clamping changes exactly the scalars that are not clamped yet. */
  lemma ClampFixesClamped(k: Bytes)
    requires |k| == SCALAR_LEN
    ensures Clamp(k) == k <==> Clamped(k)
  {
    var r := Clamp(k);
    if Clamped(k) {
      assert r[0] == k[0];
      assert r[31] == k[31];
      assert r == [r[0]] + r[1..31] + [r[31]];
      assert k == [k[0]] + k[1..31] + [k[31]];
    }
  }

  lemma ClampIdempotent(k: Bytes)
    requires |k| == SCALAR_LEN
    ensures Clamp(Clamp(k)) == Clamp(k)
  {
    ClampFixesClamped(Clamp(k));
  }

  /** `ed25519_seed_to_x25519`: the first 32 bytes of the seed's SHA-512
      digest, clamped. Bytes 1 to 30 are the digest's own. */
  function SeedToX25519(suite: Suite, seed: Bytes): (r: Bytes)
    ensures Clamped(r)
    ensures r[1..31] == suite.sha512(seed)[1..31]
    ensures r[0] / 8 == suite.sha512(seed)[0] / 8 && r[31] % 64 == suite.sha512(seed)[31] % 64
  {
    Clamp(suite.sha512(seed)[..SCALAR_LEN])
  }

  /** `ed25519_public_key_to_x25519`: the Montgomery form of the decompressed
      Edwards point, or `None` when the bytes do not decompress. */
  function PublicToX25519(suite: Suite, publicKey: Bytes): (r: Option<Bytes>)
    ensures r.None? <==> suite.decompressEdwards(publicKey).None?
  {
    match suite.decompressEdwards(publicKey)
    case None => None
    case Some(point) => Some(suite.edwardsToMontgomery(point))
  }

  /** The two conversions describe the same key pair: converting the Ed25519
      public key of a seed gives the X25519 public key of the converted seed. */
  ghost predicate ConversionConsistent(suite: Suite) {
    forall seed: Bytes | |seed| == 32 ::
      PublicToX25519(suite, suite.ed25519Public(seed)) == Some(suite.x25519Public(SeedToX25519(suite, seed)))
  }
}
