/** The cryptographic, encoding and curve primitives the core calls into
    (`ring`, `base64`, `curve25519-dalek`, `x25519-dalek`). None of them is
    implemented here: a `Suite` is any choice of functions, and each property
    the core relies on is a predicate on the suite, assumed by exactly the
    lemmas that need it. */
module Primitives {
  import opened Base

  /** Output length of SHA-512 in bytes. */
  const SHA512_LEN: nat := 64

  /** Longest output HKDF-Expand can produce (section 2.3 of RFC 5869: 255 hash lengths). */
  const HKDF_MAX_LEN: nat := 255 * SHA512_LEN

  /** A SHA-512 digest. */
  type Digest = b: Bytes | |b| == SHA512_LEN witness seq(SHA512_LEN, _ => 0)

  datatype Suite = Suite(
    /** SHA-512. */
    sha512: Bytes -> Digest,
    /** HKDF-Extract with HMAC-SHA512 (section 2.2 of RFC 5869): salt, input key material to PRK. */
    hkdfExtract: (Bytes, Bytes) -> Bytes,
    /** HKDF-Expand with HMAC-SHA512 (section 2.3 of RFC 5869): PRK, info, length to output
        key material; `None` when the length is out of range. */
    hkdfExpand: (Bytes, Bytes, nat) -> Option<Bytes>,
    /** PBKDF2-HMAC-SHA512 (section 5.2 of RFC 8018): iterations, salt, password, length. */
    pbkdf2: (nat, Bytes, Bytes, nat) -> Bytes,
    /** HMAC-SHA512 tag of data under a key. */
    hmacSign: (Bytes, Bytes) -> Bytes,
    /** Constant-time HMAC-SHA512 check of key, data, tag. */
    hmacVerify: (Bytes, Bytes, Bytes) -> bool,
    /** ChaCha20-Poly1305 sealing (section 2.8 of RFC 8439) of a plaintext under key and
        nonce with empty associated data: ciphertext followed by the 16-byte tag. */
    seal: (Bytes, Bytes, Bytes) -> Option<Bytes>,
    /** ChaCha20-Poly1305 opening of ciphertext-and-tag under key and nonce;
        `None` when the tag does not authenticate. */
    open: (Bytes, Bytes, Bytes) -> Option<Bytes>,
    /** X25519 public key of a private scalar. */
    x25519Public: Bytes -> Bytes,
    /** `ring::agreement::agree_ephemeral`: X25519 of own private key and the
        peer's public key; `None` when the peer key is rejected. */
    x25519Agree: (Bytes, Bytes) -> Option<Bytes>,
    /** `x25519_dalek::StaticSecret::diffie_hellman`: the same function on
        static secrets, which never fails. */
    x25519Dh: (Bytes, Bytes) -> Bytes,
    /** Ed25519 public key of a 32-byte seed. */
    ed25519Public: Bytes -> Bytes,
    /** Ed25519 signature of a message under the key pair of a seed. */
    ed25519Sign: (Bytes, Bytes) -> Bytes,
    /** Ed25519 verification of public key, message, signature. */
    ed25519Verify: (Bytes, Bytes, Bytes) -> bool,
    /** Standard base64 with padding (section 4 of RFC 4648). */
    base64Encode: Bytes -> string,
    base64Decode: string -> Option<Bytes>,
    /** URL-safe base64 without padding (section 5 of RFC 4648). */
    base64UrlNoPad: Bytes -> string,
    /** Decompression of a compressed Edwards Y coordinate into a curve point;
        `None` when the bytes are not a point. */
    decompressEdwards: Bytes -> Option<Bytes>,
    /** The Montgomery u coordinate (32 bytes) of an Edwards point. */
    edwardsToMontgomery: Bytes -> Bytes
  )

  ghost predicate HkdfLength(s: Suite) {
    forall prk: Bytes, info: Bytes, n: nat :: n <= HKDF_MAX_LEN ==>
      s.hkdfExpand(prk, info, n).Some? && |s.hkdfExpand(prk, info, n).value| == n
  }

  ghost predicate Pbkdf2Length(s: Suite) {
    forall iterations: nat, salt: Bytes, password: Bytes, n: nat :: |s.pbkdf2(iterations, salt, password, n)| == n
  }

  /** A tag produced under a key verifies under the same key. */
  ghost predicate HmacVerifiesSign(s: Suite) {
    forall key: Bytes, data: Bytes :: s.hmacVerify(key, data, s.hmacSign(key, data))
  }

  /** What is sealed under a key and nonce opens, under the same key and
      nonce, to the original plaintext. */
  ghost predicate AeadRoundTrip(s: Suite) {
    forall key: Bytes, nonce: Bytes, plain: Bytes | s.seal(key, nonce, plain).Some? ::
      s.open(key, nonce, s.seal(key, nonce, plain).value) == Some(plain)
  }

  /** Diffie-Hellman symmetry of both X25519 entry points. */
  ghost predicate DhSymmetric(s: Suite) {
    && (forall a: Bytes, b: Bytes :: s.x25519Agree(a, s.x25519Public(b)) == s.x25519Agree(b, s.x25519Public(a)))
    && (forall a: Bytes, b: Bytes :: s.x25519Dh(a, s.x25519Public(b)) == s.x25519Dh(b, s.x25519Public(a)))
  }

  /** A signature made with a seed verifies under that seed's public key. */
  ghost predicate Ed25519VerifiesSign(s: Suite) {
    forall seed: Bytes, m: Bytes :: s.ed25519Verify(s.ed25519Public(seed), m, s.ed25519Sign(seed, m))
  }

  ghost predicate Base64RoundTrip(s: Suite) {
    forall b: Bytes :: s.base64Decode(s.base64Encode(b)) == Some(b)
  }
}
