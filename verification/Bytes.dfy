/** Bytes as integers. */
module Bytes {
  type byte = x: int | 0 <= x < 256

  /** The bytes before the first NUL. */
  function CutAtNul(s: seq<byte>): (t: seq<byte>)
    ensures t <= s && 0 !in t
    ensures 0 !in s <==> t == s
  {
    if s == [] || s[0] == 0 then [] else [s[0]] + CutAtNul(s[1..])
  }

  lemma {:induction false} CutIs(f: seq<byte>, n: nat)
    requires n <= |f| && 0 !in f[..n] && (n < |f| ==> f[n] == 0)
    ensures CutAtNul(f) == f[..n]
    decreases n
  {
    if n > 0 {
      assert f[0] == f[..n][0] && f[1..][..n - 1] == f[..n][1..];
      CutIs(f[1..], n - 1);
    }
  }

  /** White space in the C locale. */
  predicate IsSpace(c: byte) {
    c == 32 || 9 <= c <= 13
  }

  /** The 32-bit number at the front, stored high byte first. */
  function BigEndian(b: seq<byte>): nat
    requires |b| >= 4
  {
    var a, b1, c, d: int := b[0], b[1], b[2], b[3];
    ((a * 256 + b1) * 256 + c) * 256 + d
  }

  /** A 16-bit number stored low byte first. */
  function LittleEndian(low: byte, high: byte): nat {
    var l: int := low;
    l + 256 * high
  }
}
