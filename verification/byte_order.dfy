/** Fixed-width big-endian integer encoding (`u128::to_be_bytes`,
    `u128::from_be_bytes`) and the modular facts the nonce sequence needs. */
module ByteOrder {
  import opened Base

  /** The low `n` bytes of `x`, most significant first. */
  function ToBigEndian(x: nat, n: nat): (r: Bytes)
    ensures |r| == n
  {
    if n == 0 then [] else ToBigEndian(x / 256, n - 1) + [x % 256]
  }

  /** The number whose big-endian encoding is `bs`. */
  function FromBigEndian(bs: Bytes): (r: nat)
    ensures r < Pow(256, |bs|)
  {
    if |bs| == 0 then 0
    else
      var hi := FromBigEndian(bs[..|bs| - 1]);
      assert hi * 256 + bs[|bs| - 1] < Pow(256, |bs| - 1) * 256 by {
        assert hi + 1 <= Pow(256, |bs| - 1);
        assert (hi + 1) * 256 <= Pow(256, |bs| - 1) * 256;
      }
      hi * 256 + bs[|bs| - 1]
  }

  /** A positive multiple of a positive number is at least that number. */
  lemma MulAtLeast(k: int, d: int)
    requires k >= 1 && d > 0
    ensures k * d >= d
  {
    assert k * d == (k - 1) * d + d;
  }

  lemma MulSub(a: int, b: int, d: int)
    ensures a * d - b * d == (a - b) * d
  {
  }

  /** Quotient and remainder are determined by `x == q * d + r`, `0 <= r < d`. */
  lemma DivModUnique(x: int, d: int, q: int, r: int)
    requires d > 0 && x == q * d + r && 0 <= r < d
    ensures x / d == q && x % d == r
  {
    var q', r' := x / d, x % d;
    assert x == q' * d + r';
    MulSub(q', q, d);
    MulSub(q, q', d);
    if q' > q {
      MulAtLeast(q' - q, d);
    } else if q' < q {
      MulAtLeast(q - q', d);
    }
  }

  /** Dividing twice divides by the product. */
  lemma DivDiv(x: nat, a: nat, b: nat)
    requires a > 0 && b > 0
    ensures x / a / b == x / (a * b)
    ensures x % (a * b) == (x / a % b) * a + x % a
  {
    var q1, r1 := x / a, x % a;
    var q2, r2 := q1 / b, q1 % b;
    assert x == q2 * (a * b) + (r2 * a + r1) by {
      assert x == q1 * a + r1;
      assert q1 == q2 * b + r2;
      assert q1 * a == (q2 * b + r2) * a == q2 * (a * b) + r2 * a;
    }
    assert r2 * a + r1 < a * b by {
      assert r2 + 1 <= b;
      assert (r2 + 1) * a <= b * a;
    }
    DivModUnique(x, a * b, q2, r2 * a + r1);
  }

  /** Decoding an encoding gives back the number reduced to `n` bytes. */
  lemma {:induction false} FromToBigEndian(x: nat, n: nat)
    ensures FromBigEndian(ToBigEndian(x, n)) == x % Pow(256, n)
  {
    if n > 0 {
      var bs := ToBigEndian(x, n);
      assert bs[..n - 1] == ToBigEndian(x / 256, n - 1);
      FromToBigEndian(x / 256, n - 1);
      DivDiv(x, 256, Pow(256, n - 1));
    }
  }

  /** Encoding a decoded byte string gives the byte string back. */
  lemma {:induction false} ToFromBigEndian(bs: Bytes)
    ensures ToBigEndian(FromBigEndian(bs), |bs|) == bs
  {
    if |bs| > 0 {
      var n := |bs|;
      var hi := FromBigEndian(bs[..n - 1]);
      var x := FromBigEndian(bs);
      DivModUnique(x, 256, hi, bs[n - 1]);
      ToFromBigEndian(bs[..n - 1]);
      assert bs == bs[..n - 1] + [bs[n - 1]];
    }
  }

  /** The encoding into `n` bytes only depends on `x` modulo `256^n`. */
  lemma ToBigEndianMod(x: nat, n: nat)
    ensures ToBigEndian(x, n) == ToBigEndian(x % Pow(256, n), n)
  {
    FromToBigEndian(x, n);
    ToFromBigEndian(ToBigEndian(x, n));
  }

  /** The last `b` bytes of an `a + b` byte encoding are the `b` byte encoding. */
  lemma {:induction false} ToBigEndianSplit(x: nat, a: nat, b: nat)
    ensures ToBigEndian(x, a + b) == ToBigEndian(x / Pow(256, b), a) + ToBigEndian(x, b)
  {
    if b > 0 {
      ToBigEndianSplit(x / 256, a, b - 1);
      DivDiv(x, 256, Pow(256, b - 1));
      assert ToBigEndian(x, a + b) == ToBigEndian(x / 256, a + b - 1) + [x % 256];
    }
  }

  /** Reducing modulo a multiple and then modulo the factor is reducing modulo the factor. */
  lemma ModOfMod(y: nat, m: nat, k: nat)
    requires m > 0 && k > 0
    ensures y % (m * k) % m == y % m
  {
    var q, r := y / (m * k), y % (m * k);
    assert y == (q * k) * m + r by {
      assert q * (m * k) == (q * k) * m;
    }
    var q', r' := r / m, r % m;
    assert y == (q * k + q') * m + r' by {
      assert r == q' * m + r';
      assert (q * k) * m + q' * m == (q * k + q') * m;
    }
    DivModUnique(y, m, q * k + q', r');
  }

  /** Two values less than `m` apart have distinct residues modulo `m`. */
  lemma ModDistinct(c: nat, i: nat, j: nat, m: nat)
    requires 0 <= i < j < m
    ensures (c + i) % m != (c + j) % m
  {
    var q1, r1 := (c + i) / m, (c + i) % m;
    var q2, r2 := (c + j) / m, (c + j) % m;
    assert c + i == q1 * m + r1;
    assert c + j == q2 * m + r2;
    MulSub(q2, q1, m);
    if q2 - q1 >= 1 {
      MulAtLeast(q2 - q1, m);
    } else {
      MulNonPositive(q2 - q1, m);
    }
  }

  lemma MulNonPositive(k: int, d: int)
    requires k <= 0 && d > 0
    ensures k * d <= 0
  {
  }
}
