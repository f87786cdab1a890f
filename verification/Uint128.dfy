/** The 128-bit SMART counters: sixteen bytes, least significant first, and the numbers they stand for. */
module Uint128 {
  import opened Bytes

  const BYTES: nat := 16

  function Pow256(k: nat): nat {
    if k == 0 then 1 else 256 * Pow256(k - 1)
  }

  /** The k low digits of n in base 256. */
  function Digits(n: nat, k: nat): (d: seq<byte>)
    ensures |d| == k
  {
    if k == 0 then [] else [n % 256] + Digits(n / 256, k - 1)
  }

  /** The number a digit string stands for. */
  function Value(d: seq<byte>): nat {
    if d == [] then 0 else d[0] + 256 * Value(d[1..])
  }

  lemma DivByPower(n: nat, k: nat)
    ensures Pow256(k) > 0 && n / Pow256(k) / 256 == n / Pow256(k + 1)
  {
    PowerIsPositive(k);
    HighPart(n, Pow256(k));
  }

  lemma PowerIsPositive(k: nat)
    ensures Pow256(k) > 0
  {
  }

  lemma DivIs(n: nat, d: nat, q: nat, r: nat)
    requires n == d * q + r && r < d
    ensures n / d == q && n % d == r
  {
    var q' := n / d;
    assert n == d * q' + n % d;
    MulMonotone(d, q' + 1, q);
    MulMonotone(d, q + 1, q');
  }

  lemma MulMonotone(d: nat, x: nat, y: nat)
    ensures x <= y ==> d * x <= d * y
  {
    assert x <= y ==> d * (y - x) >= 0;
  }

  /** Dividing by 256 last. */
  lemma HighPart(n: nat, p: nat)
    requires p > 0
    ensures n / p / 256 == n / (256 * p)
  {
    var m := n / p;
    var q, s, r := m / 256, m % 256, n % p;
    assert n == p * m + r;
    assert p * m == p * (256 * q) + p * s;
    assert p * (256 * q) == (256 * p) * q;
    MulMonotone(p, s, 255);
    DivIs(n, 256 * p, q, p * s + r);
  }

  /** Dividing by 256 first. */
  lemma LowPart(n: nat, p: nat)
    requires p > 0
    ensures n / 256 / p == n / (256 * p) && n % (256 * p) == 256 * (n / 256 % p) + n % 256
  {
    var m := n / 256;
    var q, r := m / p, m % p;
    assert m == p * q + r;
    assert 256 * (p * q) == (256 * p) * q;
    DivIs(n, 256 * p, q, 256 * r + n % 256);
  }

  /** Digit i is the i-th base-256 digit. */
  lemma {:induction false} DigitAt(n: nat, k: nat, i: nat)
    requires i < k
    ensures Pow256(i) > 0 && Digits(n, k)[i] == n / Pow256(i) % 256
  {
    PowerIsPositive(i);
    if i > 0 {
      DigitAt(n / 256, k - 1, i - 1);
      DivTwice(n, i - 1);
    }
  }

  lemma DivTwice(n: nat, k: nat)
    ensures Pow256(k) > 0 && n / 256 / Pow256(k) == n / Pow256(k + 1)
  {
    PowerIsPositive(k);
    LowPart(n, Pow256(k));
  }

  /** Writing digits and reading them back keeps the number up to its width. */
  lemma {:induction false} ValueOfDigits(n: nat, k: nat)
    ensures Pow256(k) > 0 && Value(Digits(n, k)) == n % Pow256(k)
  {
    PowerIsPositive(k);
    if k > 0 {
      ValueOfDigits(n / 256, k - 1);
      assert Digits(n, k)[1..] == Digits(n / 256, k - 1);
      LowPart(n, Pow256(k - 1));
    }
  }

  /** Reading digits and writing them back is the identity. */
  lemma {:induction false} DigitsOfValue(d: seq<byte>)
    ensures Digits(Value(d), |d|) == d && Value(d) < Pow256(|d|)
  {
    if d != [] {
      DigitsOfValue(d[1..]);
      DivIs(Value(d), 256, Value(d[1..]), d[0]);
    }
  }

  // The program, with long double taken as an exact real.

  /** fmodl for a value that is not negative. */
  function Fmod256(v: real): (r: real)
    requires v >= 0.0
    ensures 0.0 <= r < 256.0
    ensures r.Floor == v.Floor % 256
  {
    FloorOfQuotient(v);
    v - 256.0 * (v / 256.0).Floor as real
  }

  lemma FloorOfQuotient(v: real)
    requires v >= 0.0
    ensures v.Floor >= 0 && (v / 256.0).Floor == v.Floor / 256
    ensures (v - 256.0 * (v / 256.0).Floor as real).Floor == v.Floor % 256
  {
    var n := v.Floor;
    var q := n / 256;
    assert 256 * q <= n < 256 * (q + 1);
    assert (256 * q) as real <= v;
    assert v < (256 * (q + 1)) as real;
    assert q as real <= v / 256.0 < (q + 1) as real;
    assert 256.0 * q as real == (256 * q) as real;
  }

  /** The digits of a counter: the quotient is carried on as a fraction. */
  method LongDoubleToUint128(v: real, data: array<byte>)
    requires v >= 0.0 && data.Length == BYTES
    modifies data
    ensures v.Floor >= 0 && data[..] == Digits(v.Floor, BYTES)
  {
    var value := v;
    var i := 0;
    ghost var n := v.Floor;
    while i < BYTES
      invariant 0 <= i <= BYTES && value >= 0.0 && n >= 0
      invariant Pow256(i) > 0 && value.Floor == n / Pow256(i)
      invariant forall j :: 0 <= j < i ==> data[j] == Digits(n, BYTES)[j]
    {
      data[i] := Fmod256(value).Floor;
      DigitAt(n, BYTES, i);
      FloorOfQuotient(value);
      DivByPower(n, i);
      PowerIsPositive(i + 1);
      value := value / 256.0;
      i := i + 1;
    }
  }

  /** Horner's rule from the most significant byte. */
  method Uint128ToLongDouble(data: array<byte>) returns (value: real)
    requires data.Length == BYTES
    ensures value == Value(data[..]) as real
  {
    value := 0.0;
    var i := 0;
    while i < BYTES
      invariant 0 <= i <= BYTES
      invariant value == Value(data[BYTES - i..]) as real
    {
      assert data[BYTES - i - 1..][1..] == data[BYTES - i..];
      value := value * 256.0;
      value := value + data[15 - i] as real;
      i := i + 1;
    }
    assert data[0..] == data[..];
  }

  /** Both directions: any real is kept as its floor modulo 2^128, and any sixteen bytes are kept. */
  lemma CounterRoundTrip(v: real, data: seq<byte>)
    requires v >= 0.0 && |data| == BYTES
    ensures v.Floor >= 0 && Value(Digits(v.Floor, BYTES)) == v.Floor % 0x1_0000_0000_0000_0000_0000_0000_0000_0000
    ensures Digits((Value(data) as real).Floor, BYTES) == data
  {
    ValueOfDigits(v.Floor, BYTES);
    DigitsOfValue(data);
    PowerOf16();
  }

  lemma PowerOf16()
    ensures Pow256(BYTES) == 0x1_0000_0000_0000_0000_0000_0000_0000_0000
  {
    assert Pow256(4) == 0x1_0000_0000;
    assert Pow256(8) == 0x1_0000_0000_0000_0000;
    assert Pow256(12) == 0x1_0000_0000_0000_0000_0000_0000;
  }
}
