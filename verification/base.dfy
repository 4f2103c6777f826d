/** Shared vocabulary: optional values, results, bytes and the few sequence
    helpers every other module of the icepipe model uses. */
module Base {

  /** Rust's `Option<T>`. */
  datatype Option<+T> = None | Some(value: T)

  /** Rust's `Result<T, E>`. */
  datatype Result<+T, +E> = Ok(value: T) | Err(error: E) {
    predicate IsFailure() { Err? }
    function PropagateFailure<U>(): Result<U, E>
      requires Err?
    {
      Err(error)
    }
    function Extract(): T
      requires Ok?
    {
      value
    }
  }

  /** The outcome of an operation that consumes scripted input: it finished
      with a value, aborted with an error, or is still pending because the
      script ran out while the program would go on waiting. */
  datatype Run<+T, +E> = Finished(value: T) | Aborted(error: E) | Pending

  /** The name of a peer role, as used in key-derivation labels. */
  function RoleName(dialer: bool): string {
    if dialer then "dialer" else "listener"
  }

  /** An unsigned 8-bit value (`u8`). */
  type byte = b: int | 0 <= b < 256

  type Bytes = seq<byte>

  /** `x` raised to the power `n`. */
  function Pow(x: nat, n: nat): (r: nat)
    ensures x > 0 ==> r > 0
  {
    if n == 0 then 1 else x * Pow(x, n - 1)
  }

  lemma {:induction false} PowAdd(x: nat, a: nat, b: nat)
    ensures Pow(x, a + b) == Pow(x, a) * Pow(x, b)
  {
    if a > 0 {
      PowAdd(x, a - 1, b);
      assert Pow(x, a + b) == x * Pow(x, a - 1 + b);
      assert x * (Pow(x, a - 1) * Pow(x, b)) == (x * Pow(x, a - 1)) * Pow(x, b);
    }
  }

  /** `str::as_bytes`: the UTF-8 encoding of a string. */
  function Utf8(s: string): (r: Bytes)
    ensures |r| >= |s|
  {
    if |s| == 0 then [] else Utf8Char(s[0]) + Utf8(s[1..])
  }

  /** The one to four UTF-8 bytes of a single scalar value. */
  function Utf8Char(c: char): (r: Bytes)
    ensures 1 <= |r| <= 4
    ensures (c as int < 128) <==> (|r| == 1)
    ensures |r| == 1 ==> r[0] == c as int
  {
    var v := c as int;
    if v < 0x80 then [v]
    else if v < 0x800 then [0xC0 + v / 64, 0x80 + v % 64]
    else if v < 0x10000 then [0xE0 + v / 4096, 0x80 + (v / 64) % 64, 0x80 + v % 64]
    else [0xF0 + v / 262144, 0x80 + (v / 4096) % 64, 0x80 + (v / 64) % 64, 0x80 + v % 64]
  }

  /** Encoding a concatenation encodes the parts one after the other. */
  lemma {:induction false} Utf8Append(a: string, b: string)
    ensures Utf8(a + b) == Utf8(a) + Utf8(b)
  {
    if |a| > 0 {
      assert (a + b)[1..] == a[1..] + b;
      Utf8Append(a[1..], b);
    } else {
      assert a + b == b;
    }
  }

  predicate IsAscii(s: string) {
    forall i :: 0 <= i < |s| ==> s[i] as int < 128
  }

  /** Text made only of ASCII characters encodes to one byte per character,
      each byte being the character's code. */
  lemma {:induction false} Utf8OfAscii(s: string)
    requires IsAscii(s)
    ensures |Utf8(s)| == |s|
    ensures forall i :: 0 <= i < |s| ==> Utf8(s)[i] == s[i] as int
  {
    if |s| > 0 {
      Utf8OfAscii(s[1..]);
    }
  }
}
