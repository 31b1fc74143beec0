// CBigNum over mathematical integers: OpenSSL's MPI format, byte vectors, and the
// compact form of difficulty targets.
module BigNums {
  import opened Arithmetic
  import opened Radix
  import opened Bits
  import opened Octets
  import opened Options
  import opened Sequences

  // ---------------------------------------------------------------- the MPI format

  function Abs(n: int): nat { if n < 0 then -n else n }

  // The bytes of a number, highest first.
  function Magnitude(n: nat): (r: seq<Byte>)
    ensures (r == [] <==> n == 0) && (r != [] ==> r[0] != 0)
  {
    Digits(n, 256)
  }

  // What follows the length: a sign in the top bit, so a zero byte comes first
  // when the magnitude needs that bit.
  function MpiBody(n: int): (r: seq<Byte>)
    ensures r == [] <==> n == 0
  {
    Signed(Magnitude(Abs(n)), n < 0)
  }

  function Signed(m: seq<Byte>, negative: bool): (r: seq<Byte>)
    ensures r == [] <==> m == []
  {
    if m == [] then []
    else if m[0] >= 0x80 then [if negative then 0x80 else 0] + m
    else if negative then m[0 := m[0] + 0x80]
    else m
  }

  function BodyValue(b: seq<Byte>): int {
    if b == [] then 0
    else if b[0] >= 0x80 then 0 - Value(b[0 := b[0] - 0x80], 256)
    else Value(b, 256)
  }

  function Length4(n: nat): seq<Byte> { [n / 0x1000000 % 256, n / 0x10000 % 256, n / 0x100 % 256, n % 256] }

  function BN_bn2mpi(n: int): seq<Byte> { Length4(|MpiBody(n)|) + MpiBody(n) }

  function BN_mpi2bn(d: seq<Byte>): Option<int> {
    if |d| < 4 || Value(d[..4], 256) != |d| - 4 then None else Some(BodyValue(d[4..]))
  }

  // No byte in front that could be left out.
  ghost predicate Normal(b: seq<Byte>) { b != [] ==> b[0] % 0x80 != 0 || (|b| > 1 && b[1] >= 0x80) }

  // A body is what is written for a number exactly when it is normal and reads as it.
  lemma BodyRoundTrip(n: int)
    ensures Normal(MpiBody(n)) && BodyValue(MpiBody(n)) == n
  {
    ValueOfDigits(Abs(n), 256);
    SignedReads(Magnitude(Abs(n)), n < 0);
  }

  lemma SignedReads(m: seq<Byte>, negative: bool)
    requires m != [] ==> m[0] != 0
    ensures var b := Signed(m, negative);
            Normal(b) && BodyValue(b) == if m == [] then 0 else if negative then 0 - Value(m, 256) else Value(m, 256)
  {
    hide Value;
    if m != [] && m[0] >= 0x80 {
      SignByte(m, negative);
    } else if m != [] {
      SignBit(m, negative);
    }
  }

  lemma SignByte(m: seq<Byte>, negative: bool)
    requires m != [] && m[0] >= 0x80
    ensures var b := Signed(m, negative);
            Normal(b) && BodyValue(b) == if negative then 0 - Value(m, 256) else Value(m, 256)
  {
    hide Value;
    var b := Signed(m, negative);
    ZerosInFront([0], m, 256);
    assert b[0 := 0] == [0] + m;
    assert b[1] == m[0];
  }

  lemma SignBit(m: seq<Byte>, negative: bool)
    requires m != [] && 0 < m[0] < 0x80
    ensures var b := Signed(m, negative);
            Normal(b) && BodyValue(b) == if negative then 0 - Value(m, 256) else Value(m, 256)
  {
    hide Value;
    assert Signed(m, negative)[0 := m[0]] == m;
  }

  lemma BodyIsUnique(b: seq<Byte>)
    requires Normal(b)
    ensures MpiBody(BodyValue(b)) == b
  {
    hide Magnitude, Value, Signed;
    if b != [] {
      var c := b[0 := b[0] % 0x80];
      UnsignedIsUnique(c);
      SignedAgain(b, c);
      assert b[0] < 0x80 ==> c == b;
    }
  }

  lemma SignedAgain(b: seq<Byte>, c: seq<Byte>)
    requires Normal(b) && b != [] && c == b[0 := b[0] % 0x80]
    ensures Signed(if c[0] == 0 then c[1..] else c, b[0] >= 0x80) == b
  {
    if c[0] == 0 {
      assert [b[0]] + c[1..] == b;
    } else {
      assert c[0 := b[0]] == b;
    }
  }

  lemma UnsignedIsUnique(c: seq<Byte>)
    requires Normal(c) && c != [] && c[0] < 0x80
    ensures Value(c, 256) > 0 && Magnitude(Value(c, 256)) == if c[0] == 0 then c[1..] else c
  {
    if c[0] == 0 {
      assert c == [0] + c[1..];
      ZerosInFront([0], c[1..], 256);
      DigitsOfValue(c[1..], 256);
      ValuePositive(c[1..], 256);
    } else {
      DigitsOfValue(c, 256);
      ValuePositive(c, 256);
    }
  }

  // ---------------------------------------------------------------- byte vectors

  lemma Length4Is(n: nat)
    requires n < 0x1_0000_0000
    ensures Value(Length4(n), 256) == n
  {
    var d := Length4(n);
    assert d[..3][..2] == d[..2] && d[..2][..1] == d[..1] && d[..1][..0] == [];
    var q, r, s := n / 0x100, n / 0x10000, n / 0x1000000;
    assert n == 256 * q + n % 256 && q == 256 * r + q % 256 && r == 256 * s + r % 256;
    assert q % 256 == n / 0x100 % 256 && q / 256 == r && r / 256 == s && s % 256 == s;
    OneMore([], d[0], 256);
    assert [] + [d[0]] == d[..1] && d[..1] + [d[1]] == d[..2] && d[..2] + [d[2]] == d[..3] && d[..3] + [d[3]] == d;
    OneMore(d[..1], d[1], 256);
    OneMore(d[..2], d[2], 256);
    OneMore(d[..3], d[3], 256);
  }

  // ---------------------------------------------------------------- the compact form

  // Bytes b keeps in compact form: its first three, the rest zero.
  function Rounded(b: seq<Byte>): (r: seq<Byte>)
    ensures |r| == |b|
  {
    seq(|b|, i requires 0 <= i < |b| => if i < 3 then b[i] else 0)
  }

  function ByteOr0(b: seq<Byte>, i: nat): Byte { if i < |b| then b[i] else 0 }

  function Compact(n: int): nat {
    var b := MpiBody(n);
    |b| % 256 * 0x1000000 + ByteOr0(b, 0) * 0x10000 + ByteOr0(b, 1) * 0x100 + ByteOr0(b, 2)
  }

  // The body that a compact form spells.
  function Expanded(c: nat): (b: seq<Byte>)
    requires c < 0x1_0000_0000
    ensures |b| == c / 0x1000000
  {
    seq(c / 0x1000000, i requires 0 <= i < c / 0x1000000 =>
      if i == 0 then c / 0x10000 % 256 else if i == 1 then c / 0x100 % 256 else if i == 2 then c % 256 else 0)
  }

  function FromCompact(c: nat): int
    requires c < 0x1_0000_0000
  {
    BodyValue(Expanded(c))
  }

  lemma SizeBytes(vch: seq<Byte>, nSize: Byte)
    requires |vch| >= 4 && vch[0] == vch[1] == vch[2] == 0 && vch[3] == nSize
    ensures Value(vch[..4], 256) == nSize
  {
    hide Value;
    assert vch[..4] == [0, 0, 0] + [nSize];
    ZerosInFront([0, 0, 0], [nSize], 256);
    OneByte(nSize);
  }

  lemma CompactBytes(size: nat, x: Byte, y: Byte, z: Byte)
    requires size < 256
    ensures var c := size * 0x1000000 + x * 0x10000 + y * 0x100 + z;
            && c < 0x1_0000_0000 && c / 0x1000000 == size
            && c / 0x10000 % 256 == x && c / 0x100 % 256 == y && c % 256 == z
  {
    var a := size * 0x100 + x;
    var b := a * 0x100 + y;
    DivMod(0x100, b, z);
    DivMod(0x10000, a, y * 0x100 + z);
    DivMod(0x1000000, size, x * 0x10000 + y * 0x100 + z);
    DivMod(0x100, a, y);
    DivMod(0x100, size, x);
  }

  lemma ExpandedCompact(n: int)
    requires |MpiBody(n)| <= 255
    ensures Compact(n) < 0x1_0000_0000 && Expanded(Compact(n)) == Rounded(MpiBody(n))
  {
    hide MpiBody;
    var b := MpiBody(n);
    CompactBytes(|b|, ByteOr0(b, 0), ByteOr0(b, 1), ByteOr0(b, 2));
  }

  lemma CompactFits(n: int)
    ensures Compact(n) < 0x1_0000_0000
  {
    hide MpiBody;
    var b := MpiBody(n);
    CompactBytes(|b| % 256, ByteOr0(b, 0), ByteOr0(b, 1), ByteOr0(b, 2));
  }

  // What a number becomes in compact form and back.
  function Squeezed(n: int): int {
    CompactFits(n);
    FromCompact(Compact(n))
  }

  // A second pass changes nothing.
  lemma CompactTwice(n: int)
    requires |MpiBody(n)| <= 255
    ensures MpiBody(Squeezed(n)) == Rounded(MpiBody(n))
    ensures Compact(Squeezed(n)) == Compact(n) && Squeezed(Squeezed(n)) == Squeezed(n)
  {
    ExpandedCompact(n);
    BodyRoundTrip(n);
    RoundedIsNormal(MpiBody(n));
    BodyIsUnique(Rounded(MpiBody(n)));
    hide MpiBody, BodyValue;
  }

  lemma RoundedIsNormal(b: seq<Byte>)
    requires Normal(b)
    ensures Normal(Rounded(b))
  {
  }

  // The value of a non-negative body: what its first three bytes spell, shifted.
  lemma RoundedValue(b: seq<Byte>)
    requires |b| >= 3
    ensures var p := Pow(256, |b| - 3);
            && p > 0 && Value(Rounded(b), 256) == Value(b[..3], 256) * p
            && Value(b[..3], 256) * p <= Value(b, 256) < (Value(b[..3], 256) + 1) * p
  {
    hide Value;
    var top, low := b[..3], b[3..];
    var zeros := Zeros(|low|);
    PowPositive(256, |b| - 3);
    assert b == top + low && Rounded(b) == top + zeros;
    ValueJoin(top, low, 256);
    ValueJoin(top, zeros, 256);
    ZerosInFront(zeros, [], 256);
    assert zeros + [] == zeros;
    EmptyValue();
    ValueBound(low, 256);
    OneMoreTime(Value(top, 256), Pow(256, |low|));
  }

  lemma EmptyValue()
    ensures Value([], 256) == 0
  {
  }

  lemma OneMoreTime(v: nat, p: nat)
    ensures (v + 1) * p == v * p + p
  {
  }

  lemma TopThree(b: seq<Byte>)
    requires |b| >= 3 && Normal(b) && b[0] < 0x80
    ensures 0x8000 <= Value(b[..3], 256) < 0x80_0000
  {
    var t := b[..3];
    OneMore([], t[0], 256);
    OneMore([t[0]], t[1], 256);
    OneMore([t[0], t[1]], t[2], 256);
    assert [] + [t[0]] == [t[0]] && [t[0]] + [t[1]] == [t[0], t[1]] && [t[0], t[1]] + [t[2]] == t;
  }

  lemma NonNegativeBody(n: nat)
    requires n > 0
    ensures MpiBody(n) != [] && MpiBody(n)[0] < 0x80 && Value(MpiBody(n), 256) == n
  {
    BodyRoundTrip(n);
  }

  // Squeezing keeps numbers of up to three bytes, and otherwise cuts off what is
  // below the top three: never more than one part in 2^15.
  lemma SqueezedIs(n: nat)
    requires n > 0 && |MpiBody(n)| <= 255
    ensures |MpiBody(n)| <= 3 ==> Squeezed(n) == n
    ensures |MpiBody(n)| > 3 ==>
              var p := Pow(256, |MpiBody(n)| - 3);
              && p > 0 && Squeezed(n) == n / p * p
              && 0x8000 <= n / p < 0x80_0000
  {
    hide MpiBody, BodyValue, Value, Rounded, Normal;
    var b := MpiBody(n);
    ExpandedCompact(n);
    BodyRoundTrip(n);
    NonNegativeBody(n);
    if |b| <= 3 {
      ShortIsKept(b);
    } else {
      RoundedReads(b);
      RoundedValue(b);
      TopThree(b);
      QuotientIs(n, Pow(256, |b| - 3), Value(b[..3], 256));
    }
  }

  lemma ShortIsKept(b: seq<Byte>)
    requires |b| <= 3
    ensures Rounded(b) == b
  {
  }

  lemma RoundedReads(b: seq<Byte>)
    requires b != [] && b[0] < 0x80
    ensures BodyValue(Rounded(b)) == Value(Rounded(b), 256)
  {
    hide Value;
  }

  lemma QuotientIs(n: nat, p: nat, q: nat)
    requires p > 0 && q * p <= n < (q + 1) * p
    ensures n / p == q
  {
    var r := n - q * p;
    assert (q + 1) * p == q * p + p;
    assert n == p * q + r;
    DivMod(p, q, r);
  }

  lemma SmallLoss(n: nat)
    requires n > 0 && |MpiBody(n)| <= 255
    ensures 0 < Squeezed(n) <= n && 0x8000 * (n - Squeezed(n)) < n
  {
    SqueezedIs(n);
    if |MpiBody(n)| > 3 {
      var p := Pow(256, |MpiBody(n)| - 3);
      Divided(n, p);
      LossBound(n, p, n / p, n % p);
    }
  }

  lemma LossBound(n: nat, p: nat, q: nat, r: nat)
    requires n == p * q + r && r < p && q >= 0x8000
    ensures 0 < q * p <= n && 0x8000 * (n - q * p) < n
  {
    assert p * q == q * p;
    assert p * q >= p * 0x8000 by { assert p * (q - 0x8000) >= 0; }
  }

  // Larger numbers never have smaller compact forms.
  lemma SqueezeIsMonotone(n: nat, m: nat)
    requires n <= m && |MpiBody(m)| <= 255
    ensures |MpiBody(n)| <= 255 && Squeezed(n) <= Squeezed(m)
  {
    hide MpiBody, Squeezed;
    ZeroSqueezed();
    if n > 0 {
      BodyGrows(n, m);
      SqueezedIs(n);
      SqueezedIs(m);
      var k, l := |MpiBody(n)|, |MpiBody(m)|;
      if k < l {
        BodyBounds(n, m);
        SmallLoss(n);
      } else if k > 3 {
        QuotientGrows(n, m, Pow(256, k - 3));
      }
    } else if m > 0 {
      SmallLoss(m);
    }
  }

  lemma ZeroSqueezed()
    ensures MpiBody(0) == [] && Squeezed(0) == 0
  {
  }

  lemma QuotientGrows(n: nat, m: nat, p: nat)
    requires n <= m && p > 0
    ensures n / p * p <= m / p * p
  {
    Divided(n, p);
    Divided(m, p);
    var k := m / p - n / p;
    NoMultipleBetween(p, k);
    assert p * k == p * (m / p) - p * (n / p);
  }

  // How large a number with a body of a given length is.
  lemma BodyRange(b: seq<Byte>)
    requires Normal(b) && b != [] && b[0] < 0x80
    ensures Pow(256, |b| - 1) <= 2 * Value(b, 256) < Pow(256, |b|)
  {
    hide Value;
    var low := b[1..];
    assert b == [b[0]] + low;
    FirstByte(b[0], low);
    LowEnd(b);
    AtLeast(0x7F, b[0], Pow(256, |low|));
  }

  lemma LowEnd(b: seq<Byte>)
    requires Normal(b) && b != [] && b[0] < 0x80
    ensures Pow(256, |b| - 1) <= 2 * Value(b, 256)
  {
    hide Value;
    var low := b[1..];
    assert b == [b[0]] + low;
    if b[0] == 0 {
      assert low == [low[0]] + low[1..];
      ZerosInFront([0], low, 256);
      FirstByte(low[0], low[1..]);
      AtLeast(low[0], 0x80, Pow(256, |low| - 1));
    } else {
      FirstByte(b[0], low);
      AtLeast(b[0], 1, Pow(256, |low|));
    }
  }

  lemma FirstByte(x: Byte, low: seq<Byte>)
    ensures x * Pow(256, |low|) <= Value([x] + low, 256) < x * Pow(256, |low|) + Pow(256, |low|)
  {
    hide Value, Pow;
    OneByte(x);
    ValueJoin([x], low, 256);
    ValueBound(low, 256);
  }

  lemma OneByte(x: Byte)
    ensures Value([x], 256) == x
  {
    OneMore([], x, 256);
    assert [] + [x] == [x];
  }

  lemma AtLeast(x: nat, y: nat, p: nat)
    requires x >= y
    ensures x * p >= y * p
  {
    assert (x - y) * p >= 0;
  }

  lemma {:induction false} PowGrows(i: nat, j: nat)
    requires i <= j
    ensures Pow(256, i) <= Pow(256, j)
    decreases j
  {
    if i < j {
      PowGrows(i, j - 1);
    }
  }

  lemma BodyGrows(n: nat, m: nat)
    requires 0 < n <= m
    ensures |MpiBody(n)| <= |MpiBody(m)|
  {
    hide MpiBody, Normal;
    NonNegativeBody(n);
    NonNegativeBody(m);
    BodyRoundTrip(n);
    BodyRoundTrip(m);
    BodyRange(MpiBody(n));
    BodyRange(MpiBody(m));
    if |MpiBody(n)| > |MpiBody(m)| {
      PowGrows(|MpiBody(m)|, |MpiBody(n)| - 1);
    }
  }

  lemma BodyBounds(n: nat, m: nat)
    requires 0 < n <= m && |MpiBody(n)| < |MpiBody(m)| <= 255
    ensures n <= Squeezed(m)
  {
    hide MpiBody, Normal, Rounded;
    NonNegativeBody(n);
    NonNegativeBody(m);
    BodyRoundTrip(n);
    BodyRoundTrip(m);
    var r := Rounded(MpiBody(m));
    RoundedIsNormal(MpiBody(m));
    ExpandedCompact(m);
    RoundedFirst(MpiBody(m));
    BodyRange(MpiBody(n));
    BodyRange(r);
    PowGrows(|MpiBody(n)|, |MpiBody(m)| - 1);
  }

  lemma RoundedFirst(b: seq<Byte>)
    requires b != []
    ensures |Rounded(b)| == |b| && Rounded(b)[0] == b[0]
  {
  }

  // A negative number has the compact form of its opposite, with the sign bit set.
  lemma NegativeMirrors(n: nat)
    requires n > 0 && |MpiBody(n)| <= 255
    ensures Compact(0 - n) == Compact(n) + 0x80_0000 && Squeezed(0 - n) == 0 - Squeezed(n)
  {
    hide MpiBody, Rounded, BodyValue, Expanded;
    NegativeBody(n);
    ExpandedCompact(n);
    ExpandedCompact(0 - n);
    MirrorRounded(MpiBody(n));
  }

  lemma NegativeBody(n: nat)
    requires n > 0
    ensures var b := MpiBody(n); b != [] && b[0] < 0x80 && MpiBody(0 - n) == b[0 := b[0] + 0x80]
  {
    NonNegativeBody(n);
    hide Magnitude;
  }

  lemma MirrorRounded(b: seq<Byte>)
    requires b != [] && b[0] < 0x80
    ensures BodyValue(Rounded(b[0 := b[0] + 0x80])) == 0 - BodyValue(Rounded(b))
  {
    hide Value;
    assert Rounded(b[0 := b[0] + 0x80])[0 := b[0]] == Rounded(b);
  }

  // A compact form is what GetCompact returns for its number exactly when its
  // body is normal and the bytes past the size are zero.
  lemma CanonicalCompact(c: nat)
    requires c < 0x1_0000_0000
    ensures Compact(FromCompact(c)) == c <==>
              && Normal(Expanded(c))
              && (|Expanded(c)| < 3 ==> c % 256 == 0)
              && (|Expanded(c)| < 2 ==> c / 0x100 % 256 == 0)
              && (|Expanded(c)| < 1 ==> c / 0x10000 % 256 == 0)
  {
    hide MpiBody, BodyValue, Expanded, Normal;
    var b := Expanded(c);
    var d := MpiBody(BodyValue(b));
    if Normal(b) {
      BodyIsUnique(b);
    }
    NoLonger(b);
    BodyRoundTrip(BodyValue(b));
    ExpandedIs(c);
    Spells(d, c);
    if |d| == |b| && ByteOr0(d, 0) == ByteOr0(b, 0) && ByteOr0(d, 1) == ByteOr0(b, 1) {
      SameStartNormal(d, b);
    }
  }

  lemma SameStartNormal(d: seq<Byte>, b: seq<Byte>)
    requires Normal(d) && |d| == |b| && ByteOr0(d, 0) == ByteOr0(b, 0) && ByteOr0(d, 1) == ByteOr0(b, 1)
    ensures Normal(b)
  {
  }

  lemma ExpandedIs(c: nat)
    requires c < 0x1_0000_0000
    ensures var b := Expanded(c);
            && |b| == c / 0x1000000 <= 255
            && ByteOr0(b, 0) == (if |b| >= 1 then c / 0x10000 % 256 else 0)
            && ByteOr0(b, 1) == (if |b| >= 2 then c / 0x100 % 256 else 0)
            && ByteOr0(b, 2) == (if |b| >= 3 then c % 256 else 0)
  {
  }

  lemma Spells(d: seq<Byte>, c: nat)
    requires |d| <= 255 && c < 0x1_0000_0000
    ensures |d| % 256 * 0x1000000 + ByteOr0(d, 0) * 0x10000 + ByteOr0(d, 1) * 0x100 + ByteOr0(d, 2) == c <==>
              && |d| == c / 0x1000000 && ByteOr0(d, 0) == c / 0x10000 % 256
              && ByteOr0(d, 1) == c / 0x100 % 256 && ByteOr0(d, 2) == c % 256
  {
    FourFields(|d|, ByteOr0(d, 0), ByteOr0(d, 1), ByteOr0(d, 2), c);
  }

  lemma FourFields(size: nat, x: Byte, y: Byte, z: Byte, c: nat)
    requires size < 256
    ensures size * 0x1000000 + x * 0x10000 + y * 0x100 + z == c <==>
              size == c / 0x1000000 && x == c / 0x10000 % 256 && y == c / 0x100 % 256 && z == c % 256
  {
    CompactBytes(size, x, y, z);
    Decomposed(c);
  }

  lemma Decomposed(c: nat)
    ensures c == c / 0x1000000 * 0x1000000 + c / 0x10000 % 256 * 0x10000 + c / 0x100 % 256 * 0x100 + c % 256
  {
    SecondByte(c);
    ThirdByte(c);
  }

  lemma SecondByte(c: nat)
    ensures c / 0x100 == 0x100 * (c / 0x10000) + c / 0x100 % 256
  {
    var a, b, r := c / 0x100 / 0x100, c / 0x100 % 0x100, c % 0x100;
    assert c == 0x10000 * a + (0x100 * b + r);
    DivMod(0x10000, a, 0x100 * b + r);
  }

  lemma ThirdByte(c: nat)
    ensures c / 0x10000 == 0x100 * (c / 0x1000000) + c / 0x10000 % 256
  {
    var a, b, r := c / 0x10000 / 0x100, c / 0x10000 % 0x100, c % 0x10000;
    assert c == 0x1000000 * a + (0x10000 * b + r);
    DivMod(0x1000000, a, 0x10000 * b + r);
  }

  lemma NoLonger(b: seq<Byte>)
    ensures |MpiBody(BodyValue(b))| <= |b|
  {
    hide Value;
    var n := BodyValue(b);
    var a := Abs(n);
    if b != [] && n != 0 {
      var low := b[1..];
      var x := b[0] % 0x80;
      assert b[0 := x] == [x] + low;
      assert b[0] < 0x80 ==> b == [x] + low;
      FirstByte(x, low);
      AtLeast(0x7F, x, Pow(256, |low|));
      assert a == Value([x] + low, 256);
      SameLength(n);
      NonNegativeBody(a);
      BodyRoundTrip(a);
      BodyRange(MpiBody(a));
      if |MpiBody(a)| > |b| {
        PowGrows(|b|, |MpiBody(a)| - 1);
      }
    }
  }

  lemma SameLength(n: int)
    ensures |MpiBody(n)| == |MpiBody(Abs(n))|
  {
  }

  // ---------------------------------------------------------------- the class

  class CBigNum {
    var bn: int

    constructor (n: int)
      ensures bn == n
    {
      bn := n;
    }

    method SetVch(vch: seq<Byte>)
      requires |vch| < 0x1_0000_0000
      modifies this
      ensures bn == BodyValue(Reversed(vch))
    {
      var nSize := |vch|;
      var vch2: seq<Byte> := [nSize / 0x1000000 % 256, nSize / 0x10000 % 256, nSize / 0x100 % 256, nSize % 256];
      vch2 := vch2 + Reversed(vch);
      Length4Is(nSize);
      assert vch2[..4] == Length4(nSize) && vch2[4..] == Reversed(vch);
      var r := BN_mpi2bn(vch2);
      if r.Some? {
        bn := r.value;
      }
    }

    method GetVch() returns (vch: seq<Byte>)
      ensures vch == Reversed(MpiBody(bn)) && BodyValue(Reversed(vch)) == bn
    {
      var mpi := BN_bn2mpi(bn);
      assert mpi[4..] == MpiBody(bn);
      BodyRoundTrip(bn);
      ReversedTwice(MpiBody(bn));
      var nSize := |mpi|;
      if nSize <= 4 {
        return [];
      }
      vch := mpi;
      vch := vch[4..];
      vch := Reversed(vch);
    }

    method SetCompact(nCompact: nat)
      requires nCompact < 0x1_0000_0000
      modifies this
      ensures bn == FromCompact(nCompact)
    {
      hide Value, BodyValue;
      var nSize := nCompact / 0x1000000;
      var vch: seq<Byte> := seq(4 + nSize, _ => 0);
      vch := vch[3 := nSize];
      if nSize >= 1 { vch := vch[4 := nCompact / 0x10000 % 256]; }
      if nSize >= 2 { vch := vch[5 := nCompact / 0x100 % 256]; }
      if nSize >= 3 { vch := vch[6 := nCompact % 256]; }
      SizeBytes(vch, nSize);
      assert vch[4..] == Expanded(nCompact);
      var r := BN_mpi2bn(vch);
      if r.Some? {
        bn := r.value;
      }
    }

    method GetCompact() returns (nCompact: nat)
      ensures nCompact == Compact(bn)
    {
      hide MpiBody, Shl, Or, Ones;
      var vch := BN_bn2mpi(bn);
      ghost var body := MpiBody(bn);
      var nSize := |vch|;
      nSize := nSize - 4;
      assert nSize == |body| && forall i :: 0 <= i < nSize ==> vch[4 + i] == body[i];
      Places();
      ShlIs(nSize, 24);
      nCompact := Shl(nSize, 24) % 0x1_0000_0000;
      ghost var top := nSize % 256;
      WrapsAt(nSize);
      ShlIs(top, 8);
      if nSize >= 1 {
        FieldAdds(top, vch[4], 16, nCompact);
        nCompact := Or(nCompact, Shl(vch[4], 16));
      }
      if nSize >= 2 {
        FieldAdds(top * 0x100 + vch[4], vch[5], 8, nCompact);
        nCompact := Or(nCompact, Shl(vch[5], 8));
      }
      if nSize >= 3 {
        FieldAdds(top * 0x10000 + vch[4] * 0x100 + vch[5], vch[6], 0, nCompact);
        nCompact := Or(nCompact, Shl(vch[6], 0));
      }
    }
  }

  lemma WrapsAt(n: nat)
    ensures n * 0x1000000 % 0x1_0000_0000 == n % 256 * 0x1000000
  {
  }

  // A byte goes into the place right below those already filled.
  lemma FieldAdds(high: nat, x: Byte, k: nat, c: nat)
    requires c == high * 256 * Pow(2, k)
    ensures Or(c, Shl(x, k)) == c + x * Pow(2, k)
  {
    ShlIs(high, k + 8);
    ShlIs(x, k);
    ShlIs(0, k + 8);
    assert Pow(2, k + 8) == 256 * Pow(2, k) by { PowAdds(k); }
    assert high * 256 * Pow(2, k) == high * (256 * Pow(2, k));
    ByteFits(x, Pow(2, k));
    OrAdds(high, k + 8, Shl(x, k));
  }

  lemma ByteFits(x: Byte, p: nat)
    requires p > 0
    ensures x * p <= 256 * p - 1
  {
    assert (255 - x) * p >= 0;
  }

  lemma PowAdds(k: nat)
    ensures Pow(2, k) > 0 && Pow(2, k + 8) == 256 * Pow(2, k)
  {
    PowPositive(2, k);
    assert Pow(2, k + 4) == 16 * Pow(2, k) by { assert Pow(2, k + 2) == 4 * Pow(2, k); }
    assert Pow(2, k + 6) == 64 * Pow(2, k);
  }
}
