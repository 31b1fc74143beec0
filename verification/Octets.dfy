// Bytes, and numbers as little-endian bytes.
module Octets {

  type Byte = b: int | 0 <= b < 256

  type Bytes = seq<Byte>

  // A 256-bit hash, and a function that computes one.
  type Digest = h: seq<Byte> | |h| == 32 witness seq(32, _ => 0)

  type HashFunction = seq<Byte> -> Digest

  function Zeros(n: nat): (s: seq<Byte>)
    ensures |s| == n && forall i :: 0 <= i < n ==> s[i] == 0
  {
    seq(n, _ => 0)
  }

  // Four little-endian bytes.
  function FromLe32(b: Bytes): (n: nat)
    requires |b| == 4
  {
    b[0] as int + 0x100 * (b[1] as int + 0x100 * (b[2] as int + 0x100 * b[3] as int))
  }

  function ToLe32(n: nat): (b: Bytes)
    ensures |b| == 4
  {
    [n % 0x100, n / 0x100 % 0x100, n / 0x100 / 0x100 % 0x100, n / 0x100 / 0x100 / 0x100 % 0x100]
  }

  // Storing an unsigned int keeps it modulo 2^32.
  lemma Le32RoundTrip(n: nat)
    ensures FromLe32(ToLe32(n)) == n % 0x1_0000_0000
  {
    var n1 := n / 0x100;
    var n2 := n1 / 0x100;
    var n3 := n2 / 0x100;
    var n4 := n3 / 0x100;
    assert n == n % 0x100 + 0x100 * (n1 % 0x100 + 0x100 * (n2 % 0x100 + 0x100 * (n3 % 0x100))) + 0x1_0000_0000 * n4;
  }
}
