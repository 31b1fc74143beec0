// Base58: byte strings as text over 58 characters, with and without a checksum.
module Base58 {
  import opened Arithmetic
  import opened Radix
  import opened BigNums
  import opened Octets
  import opened Options
  import opened Sequences
  import opened Texts

  // ---------------------------------------------------------------- the alphabet

  // pszBase58[d]: the digits but 0, the capitals but I and O, the small letters but l.
  function Symbol(d: nat): (c: Byte)
    requires d < 58
    ensures DigitOf(c) == Some(d)
  {
    if d < 9 then 49 + d
    else if d < 17 then 65 + (d - 9)
    else if d < 22 then 74 + (d - 17)
    else if d < 33 then 80 + (d - 22)
    else if d < 44 then 97 + (d - 33)
    else 109 + (d - 44)
  }

  // strchr(pszBase58, c) - pszBase58.
  function DigitOf(c: Byte): (r: Option<nat>)
    ensures r.Some? ==> r.value < 58
  {
    if 49 <= c < 58 then Some(c - 49)
    else if 65 <= c < 73 then Some(c - 65 + 9)
    else if 74 <= c < 79 then Some(c - 74 + 17)
    else if 80 <= c < 91 then Some(c - 80 + 22)
    else if 97 <= c < 108 then Some(c - 97 + 33)
    else if 109 <= c < 123 then Some(c - 109 + 44)
    else None
  }

  lemma SymbolOfDigit(c: Byte)
    requires DigitOf(c).Some?
    ensures Symbol(DigitOf(c).value) == c
  {
  }

  function Symbols(ds: seq<nat>): (s: Text)
    requires InBase(ds, 58)
    ensures |s| == |ds| && forall i :: 0 <= i < |s| ==> s[i] == Symbol(ds[i])
  {
    seq(|ds|, i requires 0 <= i < |ds| => Symbol(ds[i]))
  }

  ghost predicate Clean(s: Text) { forall i :: 0 <= i < |s| ==> DigitOf(s[i]).Some? }

  function DigitsOf(s: Text): (ds: seq<nat>)
    requires Clean(s)
    ensures |ds| == |s| && InBase(ds, 58) && forall i :: 0 <= i < |s| ==> ds[i] == DigitOf(s[i]).value
  {
    seq(|s|, i requires 0 <= i < |s| => DigitOf(s[i]).value)
  }

  // ---------------------------------------------------------------- what the two directions mean

  // How many times x stands at the front.
  function Leading(s: seq<Byte>, x: Byte): (k: nat)
    ensures k <= |s| && (forall i :: 0 <= i < k ==> s[i] == x) && (k < |s| ==> s[k] != x)
  {
    if s == [] || s[0] != x then 0 else 1 + Leading(s[1..], x)
  }

  function Repeat(x: Byte, n: nat): (s: seq<Byte>)
    ensures |s| == n && forall i :: 0 <= i < n ==> s[i] == x
  {
    seq(n, _ => x)
  }

  function Encoded(v: seq<Byte>): Text { Repeat(Symbol(0), Leading(v, 0)) + Symbols(Digits(Value(v, 256), 58)) }

  function DecodedClean(s: Text): seq<Byte>
    requires Clean(s)
  {
    Repeat(0, Leading(s, Symbol(0))) + Magnitude(Value(DigitsOf(s), 58))
  }

  // How many characters of the alphabet stand at the front.
  function CleanLength(s: Text): (k: nat)
    ensures k <= |s| && Clean(s[..k]) && (k < |s| ==> DigitOf(s[k]).None?)
  {
    if s == [] || DigitOf(s[0]).None? then 0
    else
      var k := CleanLength(s[1..]);
      assert s[..k + 1] == [s[0]] + s[1..][..k];
      k + 1
  }

  // Spaces on both sides are allowed, and nothing else.
  function Decoded(s: Text): Option<seq<Byte>> {
    var t := SkipSpaces(s);
    var k := CleanLength(t);
    if SkipSpaces(t[k..]) != [] then None else Some(DecodedClean(t[..k]))
  }

  // ---------------------------------------------------------------- the bijection

  lemma {:induction false} LeadingOf(x: Byte, n: nat, rest: seq<Byte>)
    requires rest != [] ==> rest[0] != x
    ensures Leading(Repeat(x, n) + rest, x) == n
    decreases n
  {
    var s := Repeat(x, n) + rest;
    if n == 0 {
      assert s == rest;
    } else {
      LeadingOf(x, n - 1, rest);
      assert s[1..] == Repeat(x, n - 1) + rest;
    }
  }

  // A byte string is its zeros in front and the magnitude of its number.
  lemma ZerosAndMagnitude(v: seq<Byte>)
    ensures v == Repeat(0, Leading(v, 0)) + Magnitude(Value(v, 256))
  {
    var z := Leading(v, 0);
    assert v == Repeat(0, z) + v[z..];
    ZerosInFront(Repeat(0, z), v[z..], 256);
    DigitsOfValue(v[z..], 256);
  }

  // The same of a text.
  lemma OnesAndDigits(s: Text)
    requires Clean(s)
    ensures s == Repeat(Symbol(0), Leading(s, Symbol(0))) + Symbols(Digits(Value(DigitsOf(s), 58), 58))
  {
    hide Symbol, DigitOf, Value, Digits;
    var z, ds := Leading(s, Symbol(0)), DigitsOf(s);
    var zeros := Repeat(0, z);
    SymbolsOfDigits(s);
    OnesAreZeros(s);
    assert ds == zeros + ds[z..];
    TextOf(z, ds[z..]);
    ZerosInFront(zeros, ds[z..], 58);
    RestStarts(s, z);
    DigitsOfValue(ds[z..], 58);
  }

  lemma SymbolsOfDigits(s: Text)
    requires Clean(s)
    ensures Symbols(DigitsOf(s)) == s
  {
    forall i | 0 <= i < |s|
      ensures Symbol(DigitOf(s[i]).value) == s[i]
    {
      SymbolOfDigit(s[i]);
    }
  }

  lemma OnesAreZeros(s: Text)
    requires Clean(s)
    ensures forall i :: 0 <= i < Leading(s, Symbol(0)) ==> DigitsOf(s)[i] == 0
  {
  }

  lemma TextOf(z: nat, ds: seq<nat>)
    requires InBase(ds, 58)
    ensures Symbols(Repeat(0, z) + ds) == Repeat(Symbol(0), z) + Symbols(ds)
  {
    hide Symbol, DigitOf;
  }

  lemma RestStarts(s: Text, z: nat)
    requires Clean(s) && z == Leading(s, Symbol(0))
    ensures z < |s| ==> DigitsOf(s)[z] != 0
  {
    if z < |s| {
      SymbolOfDigit(s[z]);
    }
  }

  // What the encoding of a number of ones and digits reads as.
  lemma DigitsOfEncoded(z: nat, ds: seq<nat>)
    requires InBase(ds, 58) && (ds != [] ==> ds[0] != 0)
    ensures var s := Repeat(Symbol(0), z) + Symbols(ds);
            Clean(s) && Leading(s, Symbol(0)) == z && DigitsOf(s) == Repeat(0, z) + ds
  {
    var s := Repeat(Symbol(0), z) + Symbols(ds);
    forall i | 0 <= i < |s|
      ensures DigitOf(s[i]) == Some((Repeat(0, z) + ds)[i])
    {
      assert s[i] == Symbol(if i < z then 0 else ds[i - z]);
    }
    FirstSymbol(ds);
    hide Symbol, DigitOf;
    LeadingOf(Symbol(0), z, Symbols(ds));
  }

  lemma FirstSymbol(ds: seq<nat>)
    requires InBase(ds, 58) && (ds != [] ==> ds[0] != 0)
    ensures ds != [] ==> Symbols(ds)[0] != Symbol(0)
  {
  }

  lemma DecodeEncode(v: seq<Byte>)
    ensures Clean(Encoded(v)) && DecodedClean(Encoded(v)) == v
  {
    hide Value, Digits, Symbol, DigitOf;
    var n, z := Value(v, 256), Leading(v, 0);
    HeadOfDigits(n);
    var ds := Digits(n, 58);
    DigitsOfEncoded(z, ds);
    ZerosInFront(Repeat(0, z), ds, 58);
    ValueOfDigits(n, 58);
    ZerosAndMagnitude(v);
  }

  lemma HeadOfDigits(n: nat)
    ensures var ds := Digits(n, 58); InBase(ds, 58) && (ds != [] ==> ds[0] != 0)
  {
  }

  lemma EncodeDecode(s: Text)
    requires Clean(s)
    ensures Encoded(DecodedClean(s)) == s
  {
    hide Value, Digits, Symbol, DigitOf;
    var z, n := Leading(s, Symbol(0)), Value(DigitsOf(s), 58);
    LeadingOf(0, z, Magnitude(n));
    ZerosInFront(Repeat(0, z), Magnitude(n), 256);
    MagnitudeValue(n);
    OnesAndDigits(s);
  }

  lemma MagnitudeValue(n: nat)
    ensures Value(Magnitude(n), 256) == n
  {
    ValueOfDigits(n, 256);
  }

  predicate Spaces(s: Text) { forall i :: 0 <= i < |s| ==> IsSpace(s[i]) }

  // s is e with spaces around it, e starting at i.
  ghost predicate Around(s: Text, e: Text, i: nat) {
    i + |e| <= |s| && s[i..i + |e|] == e && Spaces(s[..i]) && Spaces(s[i + |e|..])
  }

  // Decoding accepts exactly the encodings, with spaces around them.
  lemma DecodedExactly(s: Text, v: seq<Byte>)
    ensures Decoded(s) == Some(v) <==> exists i: nat :: Around(s, Encoded(v), i)
  {
    hide DigitOf, IsSpace, Encoded, DecodedClean;
    var t := SkipSpaces(s);
    var k := CleanLength(t);
    var i := Skipped(s);
    if Decoded(s) == Some(v) {
      EncodeDecode(t[..k]);
      OnlySpaces(t[k..]);
      assert s[i..i + k] == t[..k] && s[i + k..] == t[k..];
      assert Around(s, Encoded(v), i);
    }
    forall j: nat | Around(s, Encoded(v), j)
      ensures Decoded(s) == Some(v)
    {
      DecodeEncode(v);
      Surrounded(s[..j], Encoded(v), s[j + |Encoded(v)|..]);
      assert s == s[..j] + (Encoded(v) + s[j + |Encoded(v)|..]);
    }
  }

  lemma {:induction false} Skipped(s: Text) returns (i: nat)
    ensures i <= |s| && SkipSpaces(s) == s[i..] && Spaces(s[..i])
    decreases |s|
  {
    if s == [] || !IsSpace(s[0]) {
      return 0;
    } else {
      var j := Skipped(s[1..]);
      assert s[1..][j..] == s[j + 1..] && s[..j + 1] == [s[0]] + s[1..][..j];
      return j + 1;
    }
  }

  lemma {:induction false} OnlySpaces(s: Text)
    ensures SkipSpaces(s) == [] <==> Spaces(s)
    decreases |s|
  {
    if s != [] {
      OnlySpaces(s[1..]);
      assert s == [s[0]] + s[1..];
    }
  }

  lemma {:induction false} SkipsOver(l: Text, rest: Text)
    requires Spaces(l)
    ensures SkipSpaces(l + rest) == SkipSpaces(rest)
    decreases |l|
  {
    if l == [] {
      assert l + rest == rest;
    } else {
      assert (l + rest)[1..] == l[1..] + rest;
      SkipsOver(l[1..], rest);
    }
  }

  lemma {:induction false} CleanThenSpace(e: Text, r: Text)
    requires Clean(e) && Spaces(r)
    ensures CleanLength(e + r) == |e|
    decreases |e|
  {
    if e == [] {
      assert e + r == r;
      assert r != [] ==> IsSpace(r[0]);
    } else {
      assert (e + r)[1..] == e[1..] + r;
      CleanThenSpace(e[1..], r);
    }
  }

  lemma Surrounded(l: Text, e: Text, r: Text)
    requires Clean(e) && Spaces(l) && Spaces(r)
    ensures Decoded(l + (e + r)) == Some(DecodedClean(e))
  {
    SkipsOver(l, e + r);
    OnlySpaces(r);
    CleanThenSpace(e, r);
    if e == [] {
      assert e + r == r && CleanLength(SkipSpaces(r)) == 0;
    } else {
      assert DigitOf(e[0]).Some?;
      assert SkipSpaces(e + r) == e + r;
    }
    assert (e + r)[..|e|] == e && (e + r)[|e|..] == r;
    hide DecodedClean, IsSpace, DigitOf;
  }

  lemma DecodedOfClean(s: Text)
    requires Clean(s)
    ensures Decoded(s) == Some(DecodedClean(s))
  {
    NoSpaces(s);
    AllClean(s);
    hide DigitOf, DecodedClean, IsSpace;
    assert s[..|s|] == s && s[|s|..] == [];
  }

  lemma NoSpaces(s: Text)
    requires Clean(s)
    ensures SkipSpaces(s) == s && SkipSpaces([]) == []
  {
    if s != [] {
      assert DigitOf(s[0]).Some?;
    }
  }

  lemma AllClean(s: Text)
    requires Clean(s)
    ensures CleanLength(s) == |s|
  {
    hide DigitOf;
  }

  // ---------------------------------------------------------------- the checksum

  function EncodedCheck(hash: HashFunction, v: seq<Byte>): Text { Encoded(v + hash(v)[..4]) }

  function DecodedCheck(hash: HashFunction, s: Text): Option<seq<Byte>> {
    match Decoded(s)
    case None => None
    case Some(v) =>
      if |v| < 4 || hash(v[..|v| - 4])[..4] != v[|v| - 4..] then None else Some(v[..|v| - 4])
  }

  // Among texts over the alphabet, the one that decodes to v is its encoding.
  lemma CheckedRoundTrip(hash: HashFunction, s: Text, v: seq<Byte>)
    requires Clean(s)
    ensures DecodedCheck(hash, s) == Some(v) <==> s == EncodedCheck(hash, v)
  {
    hide Encoded, DecodedClean, Decoded, Clean;
    DecodedOfClean(s);
    EncodeDecode(s);
    Split(DecodedClean(s), v, hash(v)[..4]);
    DecodeEncode(v + hash(v)[..4]);
  }

  lemma Split(w: seq<Byte>, v: seq<Byte>, c: seq<Byte>)
    requires |c| == 4
    ensures w == v + c <==> |w| >= 4 && w[..|w| - 4] == v && w[|w| - 4..] == c
  {
    if |w| >= 4 {
      assert w == w[..|w| - 4] + w[|w| - 4..];
    }
  }

  // ---------------------------------------------------------------- the code

  method EncodeBase58(v: seq<Byte>) returns (str: Text)
    requires |v| < 0xFFFF_FFFF
    ensures str == Encoded(v)
  {
    hide Value, BodyValue, Symbol, Digits;
    var vchTmp := Reversed(v) + [0];
    var num := new CBigNum(0);
    num.SetVch(vchTmp);
    SetVchIs(v);
    str := DigitsText(num.bn);
    ghost var body := str;
    var p := 0;
    while p < |v| && v[p] == 0
      invariant p <= |v| && (forall i :: 0 <= i < p ==> v[i] == 0) && str == body + Repeat(Symbol(0), p)
    {
      str := str + [Symbol(0)];
      p := p + 1;
    }
    assert p == Leading(v, 0);
    str := Reversed(str);
  }

  // The division loop, which leaves the lowest digit first.
  method DigitsText(bn0: nat) returns (str: Text)
    ensures Reversed(str) == Symbols(Digits(bn0, 58))
  {
    hide Symbol;
    var bn := bn0;
    str := [];
    ghost var ds, done: seq<nat> := Digits(bn, 58), [];
    assert ds + [] == ds && Reversed<Byte>([]) == [];
    while bn > 0
      invariant bn >= 0 && Digits(bn, 58) + done == ds && InBase(done, 58) && Reversed(str) == Symbols(done)
      decreases bn
    {
      Smaller(bn, 58);
      var dv, rem := bn / 58, bn % 58;
      assert Digits(bn, 58) == Digits(dv, 58) + [rem];
      assert Digits(dv, 58) + [rem] + done == Digits(dv, 58) + ([rem] + done);
      bn := dv;
      str := str + [Symbol(rem)];
      done := [rem] + done;
    }
    assert Digits(0, 58) == [] && [] + done == done;
  }

  lemma SetVchIs(v: seq<Byte>)
    ensures BodyValue(Reversed(Reversed(v) + [0])) == Value(v, 256)
  {
    assert Reversed(Reversed(v) + [0]) == [0] + v;
    ZerosInFront([0], v, 256);
  }

  lemma CleanUpTo(s: Text, p: nat)
    requires p <= CleanLength(s) && p < |s|
    ensures DigitOf(s[p]).Some? <==> p < CleanLength(s)
    ensures Clean(s[..p])
  {
    var k := CleanLength(s);
    if p < k {
      assert s[..k][p] == s[p];
    }
    forall i | 0 <= i < p
      ensures DigitOf(s[i]).Some?
    {
      assert s[..k][i] == s[i];
    }
  }

  lemma DigitsGrow(s: Text, p: nat)
    requires p < CleanLength(s)
    ensures Clean(s[..p]) && Clean(s[..p + 1])
    ensures Value(DigitsOf(s[..p + 1]), 58) == 58 * Value(DigitsOf(s[..p]), 58) + DigitOf(s[p]).value
  {
    hide Value, DigitOf, CleanLength;
    CleanUpTo(s, p);
    assert s[..p + 1] == s[..p] + [s[p]];
    assert DigitsOf(s[..p + 1]) == DigitsOf(s[..p]) + [DigitOf(s[p]).value];
    OneMore(DigitsOf(s[..p]), DigitOf(s[p]).value, 58);
  }

  // isspace, again and again.
  method SkipFrom(psz: Text, p: nat) returns (q: nat)
    requires p <= |psz|
    ensures q <= |psz| && psz[q..] == SkipSpaces(psz[p..])
  {
    q := p;
    while q < |psz| && IsSpace(psz[q])
      invariant p <= q <= |psz| && SkipSpaces(psz[q..]) == SkipSpaces(psz[p..])
    {
      assert psz[q..][1..] == psz[q + 1..];
      q := q + 1;
    }
  }

  // From big-endian digits to the number, up to the spaces at the end.
  method ReadDigits(psz: Text) returns (ok: bool, bn: nat)
    ensures CleanLength(psz) <= |psz| && Clean(psz[..CleanLength(psz)])
    ensures ok <==> SkipSpaces(psz[CleanLength(psz)..]) == []
    ensures ok ==> bn == Value(DigitsOf(psz[..CleanLength(psz)]), 58)
  {
    hide Value, DigitOf, Clean, SkipSpaces, CleanLength;
    bn := 0;
    var p := 0;
    ghost var k := CleanLength(psz);
    NothingRead(psz);
    while p < |psz|
      invariant p <= k && Clean(psz[..p]) && bn == Value(DigitsOf(psz[..p]), 58)
    {
      CleanUpTo(psz, p);
      var digit := DigitOf(psz[p]);
      if digit.None? {
        var q := SkipFrom(psz, p);
        return q == |psz|, bn;
      }
      DigitsGrow(psz, p);
      bn := bn * 58;
      bn := bn + digit.value;
      p := p + 1;
    }
    AllRead(psz, p);
    ok := true;
  }

  lemma AllRead(s: Text, p: nat)
    requires p == |s| && p <= CleanLength(s)
    ensures CleanLength(s) == p && s[p..] == [] && SkipSpaces(s[p..]) == []
  {
  }

  lemma NothingRead(s: Text)
    ensures Clean(s[..0]) && Value(DigitsOf(s[..0]), 58) == 0
  {
  }

  // getvch without a sign byte.
  method UnsignedVch(bn: nat) returns (vchTmp: seq<Byte>)
    ensures Reversed(vchTmp) == Magnitude(bn)
  {
    hide MpiBody, Magnitude, BodyValue, Reversed;
    var num := new CBigNum(bn);
    vchTmp := num.GetVch();
    var n := |vchTmp|;
    TrimLast(MpiBody(bn));
    UnsignedBody(bn);
    if n >= 2 && vchTmp[n - 1] == 0 && vchTmp[n - 2] >= 0x80 {
      vchTmp := vchTmp[..n - 1];
    }
  }

  lemma TrimLast(b: seq<Byte>)
    ensures var vch := Reversed(b);
            && |vch| == |b| && Reversed(vch) == b
            && (|b| >= 2 ==> vch[|b| - 1] == b[0] && vch[|b| - 2] == b[1] && Reversed(vch[..|b| - 1]) == b[1..])
  {
    ReversedTwice(b);
    if |b| >= 2 {
      var vch := Reversed(b);
      var r, c := Reversed(vch[..|b| - 1]), b[1..];
      forall i | 0 <= i < |r|
        ensures r[i] == c[i]
      {
      }
    }
  }

  lemma UnsignedBody(bn: nat)
    ensures var b := MpiBody(bn);
            if |b| >= 2 && b[0] == 0 && b[1] >= 0x80 then b[1..] == Magnitude(bn) else b == Magnitude(bn)
  {
  }

  method DecodeBase58(psz0: Text) returns (ok: bool, vchRet: seq<Byte>)
    requires 0 !in psz0
    ensures Decoded(psz0) == if ok then Some(vchRet) else None
  {
    hide Value, DigitOf, IsSpace, Magnitude, Clean, SkipSpaces, Leading, CleanLength, Decoded;
    vchRet := [];
    var start := SkipFrom(psz0, 0);
    assert psz0[0..] == psz0;
    var psz := psz0[start..];
    var bn;
    ok, bn := ReadDigits(psz);
    DecodedIs(psz0);
    if !ok {
      return;
    }
    var vchTmp := UnsignedVch(bn);
    var nLeadingZeros := CountOnes(psz);
    vchRet := Repeat(0, nLeadingZeros) + Reversed(vchTmp);
  }

  // The loop that restores leading zeros.
  method CountOnes(psz: Text) returns (nLeadingZeros: nat)
    ensures CleanLength(psz) <= |psz| && nLeadingZeros == Leading(psz[..CleanLength(psz)], Symbol(0))
  {
    nLeadingZeros := 0;
    while nLeadingZeros < |psz| && psz[nLeadingZeros] == Symbol(0)
      invariant nLeadingZeros <= |psz| && forall i :: 0 <= i < nLeadingZeros ==> psz[i] == Symbol(0)
    {
      nLeadingZeros := nLeadingZeros + 1;
    }
    LeadingOfPart(psz, nLeadingZeros);
  }

  lemma DecodedIs(s: Text)
    ensures var t := SkipSpaces(s);
            var k := CleanLength(t);
            && k <= |t| && Clean(t[..k])
            && (SkipSpaces(t[k..]) != [] ==> Decoded(s) == None)
            && (SkipSpaces(t[k..]) == [] ==>
                 Decoded(s) == Some(Repeat(0, Leading(t[..k], Symbol(0))) + Magnitude(Value(DigitsOf(t[..k]), 58))))
  {
    hide Value, DigitOf, IsSpace, Magnitude, Leading;
  }

  lemma LeadingOfPart(s: Text, z: nat)
    requires z <= |s| && (forall i :: 0 <= i < z ==> s[i] == Symbol(0)) && (z < |s| ==> s[z] != Symbol(0))
    ensures CleanLength(s) <= |s| && Leading(s[..CleanLength(s)], Symbol(0)) == z
  {
    var k := CleanLength(s);
    forall i | 0 <= i < z
      ensures DigitOf(s[i]).Some?
    {
    }
    assert s[..k] == Repeat(Symbol(0), z) + s[z..k];
    LeadingOf(Symbol(0), z, s[z..k]);
  }

  method EncodeBase58Check(hash: HashFunction, vchIn: seq<Byte>) returns (str: Text)
    requires |vchIn| + 4 < 0xFFFF_FFFF
    ensures str == EncodedCheck(hash, vchIn)
  {
    var vch := vchIn;
    var h := hash(vch);
    vch := vch + h[..4];
    str := EncodeBase58(vch);
  }

  method DecodeBase58Check(hash: HashFunction, psz: Text) returns (ok: bool, vchRet: seq<Byte>)
    requires 0 !in psz
    ensures DecodedCheck(hash, psz) == if ok then Some(vchRet) else None
    ensures !ok ==> vchRet == []
  {
    hide Decoded;
    ok, vchRet := DecodeBase58(psz);
    if !ok {
      return false, [];
    }
    if |vchRet| < 4 {
      return false, [];
    }
    var h := hash(vchRet[..|vchRet| - 4]);
    if h[..4] != vchRet[|vchRet| - 4..] {
      return false, [];
    }
    vchRet := vchRet[..|vchRet| - 4];
  }
}
