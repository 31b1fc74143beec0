// Key derivation paths: parsing a number with strtou32max, parsing a path, and
// printing one.
module KeyPath {
  import opened Arithmetic
  import opened Radix
  import opened Octets
  import opened Options
  import opened Texts

  const UINT32_MAX: nat := 0xFFFF_FFFF
  const HARDENED: nat := 0x8000_0000
  const SLASH: Byte := 47

  datatype Errno = NoError | EINVAL | ERANGE

  // ---------------------------------------------------------------- strtou32max

  function DigitValue(c: Byte): Option<nat> {
    if 48 <= c <= 57 then Some(c - 48)
    else if 65 <= c <= 90 then Some(c - 65 + 10)
    else if 97 <= c <= 122 then Some(c - 97 + 10)
    else None
  }

  predicate IsDigit(c: Byte, base: nat) { DigitValue(c).Some? && DigitValue(c).value < base }

  // The digits of a base at the front of a text.
  function Digits(s: Text, base: nat): (ds: seq<nat>)
    ensures |ds| <= |s| && InBase(ds, base)
    ensures forall i :: 0 <= i < |ds| ==> DigitValue(s[i]) == Some(ds[i])
    ensures |ds| < |s| ==> !IsDigit(s[|ds|], base)
  {
    if s == [] || !IsDigit(s[0], base) then [] else [DigitValue(s[0]).value] + Digits(s[1..], base)
  }

  predicate HexMark(s: Text, base: nat) {
    (base == 0 || base == 16) && |s| >= 3 && s[0] == 48 && (s[1] == 88 || s[1] == 120) && IsDigit(s[2], 16)
  }

  // What is left of a text after its sign and a hexadecimal mark, and the base
  // it is to be read in.
  function Unmarked(s: Text, base: nat): (Text, nat) {
    if HexMark(s, base) then (s[2..], 16)
    else (s, if base != 0 then base else if s != [] && s[0] == 48 then 8 else 10)
  }

  function Unsigned(s: Text): (Text, bool) {
    if s != [] && s[0] == 45 then (s[1..], true) else if s != [] && s[0] == 43 then (s[1..], false) else (s, false)
  }

  // The number read, with an error when there is no digit or it does not fit.
  function ToU32(s: Text, base: nat): (nat, Errno) {
    var (t, neg) := Unsigned(SkipSpaces(s));
    var (u, b) := Unmarked(t, base);
    if b < 2 || b > 36 || Digits(u, b) == [] then (0, EINVAL)
    else
      var v := Value(Digits(u, b), b);
      if v > UINT32_MAX then (UINT32_MAX, ERANGE)
      else (if neg then (UINT32_MAX + 1 - v) % (UINT32_MAX + 1) else v, NoError)
  }

  // The number of digits read so far, as the code keeps it: any < 0 once it is
  // too large.
  ghost predicate Accumulated(ds: seq<nat>, b: nat, acc: nat, any: int) {
    && -1 <= any <= 1
    && (any == 0 ==> ds == [] && acc == 0)
    && (any == 1 ==> ds != [] && acc == Value(ds, b) <= UINT32_MAX)
    && (any == -1 ==> ds != [] && Value(ds, b) > UINT32_MAX)
  }

  lemma AccumulatedNext(ds: seq<nat>, b: nat, acc: nat, any: int, d: nat)
    requires 2 <= b <= 36 && d < b && Accumulated(ds, b, acc, any)
    ensures var over := any < 0 || acc > UINT32_MAX / b || (acc == UINT32_MAX / b && d > UINT32_MAX % b);
            Accumulated(ds + [d], b, if over then acc else acc * b + d, if over then -1 else 1)
  {
    OneMore(ds, d, b);
    var v := Value(ds, b);
    Divided(UINT32_MAX, b);
    Overflows(UINT32_MAX, UINT32_MAX / b, UINT32_MAX % b, if any == 1 then acc else v, b, d);
    hide Value;
    Grows(b, v, acc);
  }

  lemma Grows(b: nat, v: nat, acc: nat)
    requires b >= 1
    ensures b * v >= v && acc * b == b * acc && b * 0 == 0
  {
    assert (b - 1) * v >= 0;
  }

  lemma Overflows(m: nat, q: nat, r: nat, v: nat, b: nat, d: nat)
    requires m == b * q + r && r < b && d < b
    ensures b * v + d > m <==> v > q || (v == q && d > r)
  {
    NoMultipleBetween(b, v - q);
    assert b * v == b * q + b * (v - q);
  }

  method Strtou32max(nptr: Text, base0: nat) returns (acc: nat, errno: Errno)
    requires 0 !in nptr
    ensures (acc, errno) == ToU32(nptr, base0)
    ensures acc <= UINT32_MAX
  {
    var s, base := nptr, base0;
    while s != [] && IsSpace(s[0])
      invariant SkipSpaces(s) == SkipSpaces(nptr)
      decreases |s|
    {
      s := s[1..];
    }
    assert s == SkipSpaces(nptr);
    var neg := false;
    if s != [] && s[0] == 45 {
      neg := true;
      s := s[1..];
    } else if s != [] && s[0] == 43 {
      s := s[1..];
    }
    if HexMark(s, base) {
      s := s[2..];
      base := 16;
    }
    if base == 0 {
      base := if s != [] && s[0] == 48 then 8 else 10;
    }
    if base < 2 || base > 36 {
      return 0, EINVAL;
    }
    acc, errno := ReadNumber(s, base, neg);
  }

  method ReadNumber(s: Text, base: nat, neg: bool) returns (acc: nat, errno: Errno)
    requires 2 <= base <= 36
    ensures (acc, errno) ==
              if Digits(s, base) == [] then (0, EINVAL)
              else if Value(Digits(s, base), base) > UINT32_MAX then (UINT32_MAX, ERANGE)
              else
                var n := Value(Digits(s, base), base);
                (if neg then (UINT32_MAX + 1 - n) % (UINT32_MAX + 1) else n, NoError)
    ensures acc <= UINT32_MAX
  {
    hide Value, Accumulated, DigitValue;
    ghost var ds := Digits(s, base);
    acc := 0;
    var any := 0;
    var cutoff, cutlim := UINT32_MAX / base, UINT32_MAX % base;
    var k := 0;
    NothingAccumulated(base);
    assert ds[..0] == [];
    while k < |s| && IsDigit(s[k], base)
      invariant k <= |ds| && Accumulated(ds[..k], base, acc, any)
    {
      DigitsGoOn(s, base, k);
      var c := DigitValue(s[k]).value;
      AccumulatedNext(ds[..k], base, acc, any, c);
      assert ds[..k + 1] == ds[..k] + [c];
      if any < 0 || acc > cutoff || (acc == cutoff && c > cutlim) {
        any := -1;
      } else {
        any := 1;
        acc := acc * base;
        acc := acc + c;
      }
      k := k + 1;
    }
    DigitsEnd(s, base, k);
    assert ds[..k] == ds;
    AccumulatedSays(ds, base, acc, any);
    errno := NoError;
    if any < 0 {
      return UINT32_MAX, ERANGE;
    } else if any == 0 {
      return acc, EINVAL;
    } else if neg {
      acc := (UINT32_MAX + 1 - acc) % (UINT32_MAX + 1);
    }
  }

  lemma NothingAccumulated(b: nat)
    ensures Accumulated([], b, 0, 0)
  {
  }

  lemma AccumulatedSays(ds: seq<nat>, b: nat, acc: nat, any: int)
    requires Accumulated(ds, b, acc, any)
    ensures any < 0 ==> ds != [] && Value(ds, b) > UINT32_MAX
    ensures any == 0 ==> ds == [] && acc == 0
    ensures any > 0 ==> ds != [] && acc == Value(ds, b) <= UINT32_MAX
  {
  }

  lemma DigitsGoOn(s: Text, base: nat, k: nat)
    requires k <= |Digits(s, base)| && k < |s| && IsDigit(s[k], base)
    ensures k < |Digits(s, base)| && DigitValue(s[k]) == Some(Digits(s, base)[k])
  {
  }

  lemma DigitsEnd(s: Text, base: nat, k: nat)
    requires k <= |Digits(s, base)| && (k < |s| ==> !IsDigit(s[k], base))
    ensures |Digits(s, base)| == k
  {
    forall i | 0 <= i < |Digits(s, base)|
      ensures IsDigit(s[i], base)
    {
      assert DigitValue(s[i]) == Some(Digits(s, base)[i]);
    }
  }

  // ---------------------------------------------------------------- parsing a path

  datatype Parsed = Child(n: nat) | Bad(code: int)

  function Lower(c: Byte): int { if 65 <= c <= 90 then c + 32 else c }

  predicate ValidDigit(c: Byte, base: nat) {
    if base == 2 then c == 48 || c == 49
    else if base == 10 then 48 <= c <= 57
    else base == 16 && (48 <= c <= 57 || 97 <= c <= 102 || 65 <= c <= 70)
  }

  predicate AllValid(s: Text, base: nat) { forall i :: 0 <= i < |s| ==> ValidDigit(s[i], base) }

  predicate IsHardMark(c: Byte) { Lower(c) == 104 || c == 39 }

  function BaseOf(t: Text): nat {
    if |t| >= 2 && t[0] == 48 && (t[1] == 98 || t[1] == 66) then 2
    else if |t| >= 2 && t[0] == 48 && (t[1] == 120 || t[1] == 88) then 16 else 10
  }

  // One element of a path.
  function ParseToken(t: Text): Parsed
    requires t != []
  {
    if Lower(t[0]) == 109 then Child(0)
    else
      var u := if BaseOf(t) == 10 then t else t[2..];
      var hard := u != [] && IsHardMark(u[|u| - 1]);
      var ds := if hard then u[..|u| - 1] else u;
      if !AllValid(ds, BaseOf(t)) then Bad(4)
      else
        var (n, errno) := ToU32(ds, BaseOf(t));
        if errno != NoError then Bad(5)
        else if !hard then Child(n)
        else if n < HARDENED then Child(n + HARDENED)
        else Bad(8)
  }

  // What the elements make: the first error, or all their numbers; a zero that
  // is neither first nor last is an error.
  function Walk(ts: seq<Text>, done: seq<nat>): (int, seq<nat>)
    requires forall i :: 0 <= i < |ts| ==> ts[i] != []
    decreases |ts|
  {
    if ts == [] then (if done == [] then 3 else 0, done)
    else
      match ParseToken(ts[0])
      case Bad(code) => (code, done)
      case Child(n) =>
        if n == 0 && done != [] && |ts| > 1 then (6, done + [n]) else Walk(ts[1..], done + [n])
  }

  predicate BadSlash(s: Text, k: nat)
    requires k < |s|
  {
    s[k] == SLASH && (k == 0 || k == |s| - 1 || s[k + 1] == SLASH)
  }

  function Extracted(sPath: Text): (int, seq<nat>) {
    if |sPath| > 510 then (2, [])
    else if |sPath| < 1 then (3, [])
    else if exists k :: 0 <= k < |sPath| && BadSlash(sPath, k) then (7, [])
    else
      TokensNotEmpty(CString(sPath), SLASH);
      Walk(Tokens(CString(sPath), SLASH), [])
  }

  lemma {:induction false} TokensNotEmpty(s: Text, sep: Byte)
    ensures forall i :: 0 <= i < |Tokens(s, sep)| ==> Tokens(s, sep)[i] != [] && sep !in Tokens(s, sep)[i]
    ensures 0 !in s ==> forall i :: 0 <= i < |Tokens(s, sep)| ==> 0 !in Tokens(s, sep)[i]
    decreases |s|
  {
    if s != [] {
      if s[0] == sep {
        TokensNotEmpty(s[1..], sep);
      } else {
        TokensNotEmpty(s[TokenLength(s, sep)..], sep);
      }
    }
  }

  method ParseElement(p0: Text) returns (code: int, nChild: nat)
    requires p0 != [] && 0 !in p0
    ensures ParseToken(p0) == if code == 0 then Child(nChild) else Bad(code)
    ensures nChild <= UINT32_MAX
  {
    hide ToU32;
    if Lower(p0[0]) == 109 {
      return 0, 0;
    }
    nChild := 0;
    var fHarden := false;
    var nBase := BaseOf(p0);
    var p := if nBase != 10 then p0[2..] else p0;
    var ps := p;
    var k := 0;
    while k < |p|
      invariant k <= |p| && !fHarden && ps == p
      invariant forall i :: 0 <= i < k ==> ValidDigit(p[i], nBase) && (i < |p| - 1 || !IsHardMark(p[i]))
    {
      if k == |p| - 1 && IsHardMark(p[k]) {
        fHarden := true;
        ps := p[..k];
        break;
      } else if !ValidDigit(p[k], nBase) {
        ghost var ds := if IsHardMark(p[|p| - 1]) then p[..|p| - 1] else p;
        assert !AllValid(ds, nBase) by { assert !ValidDigit(ds[k], nBase); }
        return 4, 0;
      }
      k := k + 1;
    }
    var n, errno := Strtou32max(ps, nBase);
    nChild := n;
    if errno != NoError {
      return 5, 0;
    }
    if fHarden {
      if nChild < HARDENED {
        nChild := nChild + HARDENED;
      } else {
        return 8, 0;
      }
    }
    return 0, nChild;
  }

  method ExtractExtKeyPath(sPath: Text) returns (code: int, vPath: seq<nat>)
    ensures (code, vPath) == Extracted(sPath)
  {
    hide ParseToken;
    vPath := [];
    if |sPath| > 510 {
      return 2, vPath;
    }
    if |sPath| < 1 {
      return 3, vPath;
    }
    var k := 0;
    while k < |sPath|
      invariant k <= |sPath| && forall i :: 0 <= i < k ==> !BadSlash(sPath, i)
    {
      if sPath[k] == SLASH {
        if k == 0 || k == |sPath| - 1 || (k < |sPath| - 1 && sPath[k + 1] == SLASH) {
          assert BadSlash(sPath, k);
          return 7, vPath;
        }
      }
      k := k + 1;
    }
    code, vPath := WalkTokens(CString(sPath));
  }

  // The loop over the elements.
  method WalkTokens(data: Text) returns (code: int, vPath: seq<nat>)
    requires 0 !in data
    ensures (forall i :: 0 <= i < |Tokens(data, SLASH)| ==> Tokens(data, SLASH)[i] != [])
    ensures (code, vPath) == Walk(Tokens(data, SLASH), [])
  {
    hide ParseToken;
    TokensNotEmpty(data, SLASH);
    var tokens := Tokens(data, SLASH);
    vPath := [];
    var p := 0;
    assert tokens[0..] == tokens;
    while p < |tokens|
      invariant p <= |tokens| && Walk(tokens[p..], vPath) == Walk(tokens, []) && |vPath| == p
    {
      var bad, nChild := ParseElement(tokens[p]);
      assert tokens[p..][1..] == tokens[p + 1..];
      if bad != 0 {
        return bad, vPath;
      }
      vPath := vPath + [nChild];
      p := p + 1;
      if nChild == 0 && |vPath| != 1 && p < |tokens| {
        return 6, vPath;
      }
    }
    if |vPath| < 1 {
      return 3, vPath;
    }
    return 0, vPath;
  }

  // ---------------------------------------------------------------- printing a path

  // strprintf of an unsigned number.
  function Decimal(n: nat): (s: Text)
    ensures s != [] && 0 !in s && forall i :: 0 <= i < |s| ==> 48 <= s[i] <= 57
  {
    if n == 0 then [48]
    else
      var ds := Radix.Digits(n, 10);
      seq(|ds|, i requires 0 <= i < |ds| => 48 + ds[i])
  }

  function Element(n: nat, cH: Byte): Text {
    if n >= HARDENED then Decimal(n - HARDENED) + [cH] else Decimal(n)
  }

  function Elements(path: seq<nat>, cH: Byte): (r: seq<Text>)
    ensures |r| == |path| && forall i :: 0 <= i < |r| ==> r[i] == Element(path[i], cH)
  {
    seq(|path|, i requires 0 <= i < |path| => Element(path[i], cH))
  }

  // "m", then the elements.
  function Printed(path: seq<nat>, cH: Byte): Text { Join([[109]] + Elements(path, cH), [SLASH]) }

  // How the numbers of a path are stored.
  function Stored(path: seq<nat>): Bytes {
    if path == [] then [] else Stored(path[..|path| - 1]) + ToLe32(path[|path| - 1])
  }

  ghost predicate IsPath(path: seq<nat>) { forall i :: 0 <= i < |path| ==> path[i] <= UINT32_MAX }

  method PushUInt32(v0: Bytes, i: nat) returns (v: Bytes)
    requires i <= UINT32_MAX
    ensures v == v0 + ToLe32(i) && FromLe32(v[|v0|..]) == i
  {
    Le32RoundTrip(i);
    v := v0;
    v := v + ToLe32(i);
    assert v[|v0|..] == ToLe32(i);
  }

  // The path that stored bytes hold, four to a number.
  function Loaded(v: Bytes): seq<nat> {
    if |v| < 4 then [] else Loaded(v[..|v| - 4]) + [FromLe32(v[|v| - 4..])]
  }

  lemma {:induction false} LoadedStored(path: seq<nat>)
    requires IsPath(path)
    ensures |Stored(path)| == 4 * |path| && Loaded(Stored(path)) == path
    decreases |path|
  {
    hide FromLe32, ToLe32;
    if path != [] {
      var init, last := path[..|path| - 1], path[|path| - 1];
      LoadedStored(init);
      StoresExactly(last);
      OneMoreStored(Stored(init), ToLe32(last));
      assert path == init + [last];
    }
  }

  lemma StoresExactly(n: nat)
    requires n <= UINT32_MAX
    ensures |ToLe32(n)| == 4 && FromLe32(ToLe32(n)) == n
  {
    Le32RoundTrip(n);
    hide FromLe32, ToLe32;
  }

  lemma OneMoreStored(v: Bytes, four: Bytes)
    requires |four| == 4
    ensures Loaded(v + four) == Loaded(v) + [FromLe32(four)]
  {
    assert (v + four)[..|v + four| - 4] == v && (v + four)[|v + four| - 4..] == four;
  }

  method PathToString(vPath: Bytes, cH: Byte) returns (code: int, sPath: Text)
    ensures code == if |vPath| % 4 != 0 then 1 else 0
    ensures sPath == if code != 0 then [] else Printed(Loaded(vPath), cH)
  {
    hide Printed, Loaded, FromLe32, Decimal;
    sPath := [];
    if |vPath| % 4 != 0 {
      return 1, sPath;
    }
    sPath := [109];
    NothingPrinted(vPath, cH);
    var o := 0;
    while o < |vPath|
      invariant 0 <= o <= |vPath| && o % 4 == 0 && sPath == Printed(Loaded(vPath[..o]), cH)
    {
      var n := FromLe32(vPath[o..o + 4]);
      FitsU32(vPath[o..o + 4]);
      assert vPath[..o + 4] == vPath[..o] + vPath[o..o + 4];
      OneMoreStored(vPath[..o], vPath[o..o + 4]);
      PrintedNext(Loaded(vPath[..o]), n, cH);
      sPath := sPath + [SLASH];
      var fHardened, m := false, n;
      if n / HARDENED == 1 {
        m := n - HARDENED;
        fHardened := true;
      }
      ghost var before := sPath;
      sPath := sPath + Decimal(m);
      if fHardened {
        sPath := sPath + [cH];
        assert sPath == before + (Decimal(m) + [cH]);
      }
      o := o + 4;
    }
    assert vPath[..o] == vPath;
    return 0, sPath;
  }

  lemma NothingPrinted(v: Bytes, cH: Byte)
    ensures Printed(Loaded(v[..0]), cH) == [109]
  {
    assert Elements([], cH) == [];
  }

  lemma FitsU32(b: Bytes)
    requires |b| == 4
    ensures FromLe32(b) <= UINT32_MAX
  {
  }

  lemma PrintedNext(read: seq<nat>, n: nat, cH: Byte)
    ensures Printed(read + [n], cH) == Printed(read, cH) + [SLASH] + Element(n, cH)
  {
    var ws := [[109]] + Elements(read, cH);
    assert [[109]] + Elements(read + [n], cH) == ws + [Element(n, cH)];
    JoinLast(ws, [SLASH], Element(n, cH));
  }

  // ---------------------------------------------------------------- the round trip

  lemma AllDigits(s: Text, ds: seq<nat>, base: nat)
    requires |s| == |ds| && forall i :: 0 <= i < |s| ==> DigitValue(s[i]) == Some(ds[i]) && ds[i] < base
    ensures Digits(s, base) == ds
  {
    var r := Digits(s, base);
    forall i | 0 <= i < |s|
      ensures IsDigit(s[i], base)
    {
      assert DigitValue(s[i]) == Some(ds[i]);
    }
    forall i | 0 <= i < |r|
      ensures r[i] == ds[i]
    {
      assert DigitValue(s[i]) == Some(r[i]);
    }
  }

  lemma DigitsOfDecimal(n: nat)
    ensures Value(Digits(Decimal(n), 10), 10) == n && Digits(Decimal(n), 10) != []
  {
    hide Value;
    if n == 0 {
      AllDigits([48], [0], 10);
      OneMore([], 0, 10);
      assert [] + [0] == [0];
      NoDigits();
    } else {
      AllDigits(Decimal(n), Radix.Digits(n, 10), 10);
      ValueOfDigits(n, 10);
    }
  }

  lemma NoDigits()
    ensures Value([], 10) == 0
  {
  }

  // strtou32max reads back every printed number that fits, and reports the others.
  lemma ReadsDecimal(n: nat)
    ensures ToU32(Decimal(n), 10) == if n <= UINT32_MAX then (n, NoError) else (UINT32_MAX, ERANGE)
  {
    hide Value, DigitValue, Digits;
    var s := Decimal(n);
    assert s[0] >= 48;
    DigitsOfDecimal(n);
    hide Decimal;
    assert SkipSpaces(s) == s && Unsigned(s) == (s, false) && Unmarked(s, 10) == (s, 10);
  }

  lemma DecimalSays(n: nat)
    ensures var d := Decimal(n);
            && d != [] && 0 !in d && SLASH !in d && AllValid(d, 10) && 48 <= d[0] <= 57 && !IsHardMark(d[|d| - 1])
            && forall i :: 0 <= i < |d| ==> 48 <= d[i] <= 57
  {
  }

  lemma ParsesElement(n: nat, cH: Byte)
    requires n <= UINT32_MAX && IsHardMark(cH)
    ensures Element(n, cH) != [] && SLASH !in Element(n, cH) && 0 !in Element(n, cH)
    ensures ParseToken(Element(n, cH)) == Child(n)
  {
    hide Decimal, ToU32, AllValid;
    var k := if n >= HARDENED then n - HARDENED else n;
    DecimalSays(k);
    ReadsDecimal(k);
    var d, t := Decimal(k), Element(n, cH);
    assert t[0] == d[0];
    TenIs(d, t);
    if n >= HARDENED {
      assert t[..|t| - 1] == d && t[|t| - 1] == cH;
    }
  }

  lemma TenIs(d: Text, t: Text)
    requires d != [] && (forall i :: 0 <= i < |d| ==> 48 <= d[i] <= 57)
    requires t == d || (|t| == |d| + 1 && t[..|d|] == d && IsHardMark(t[|d|]))
    ensures BaseOf(t) == 10
  {
    assert |t| >= 2 ==> t[1] == if |d| >= 2 then d[1] else t[|d|];
  }

  // No slash of a printed path is at its start or end, or next to another.
  lemma {:induction false} NoBadSlash(ws: seq<Text>, k: nat)
    requires ws != [] && forall i :: 0 <= i < |ws| ==> ws[i] != [] && SLASH !in ws[i]
    requires k < |Join(ws, [SLASH])|
    ensures !BadSlash(Join(ws, [SLASH]), k) && Join(ws, [SLASH])[0] != SLASH
    decreases |ws|
  {
    var s, w := Join(ws, [SLASH]), ws[0];
    assert w[0] in w && s[0] == w[0];
    if |ws| == 1 {
      assert s[k] in s;
    } else {
      var rest := Join(ws[1..], [SLASH]);
      assert rest != [] by { assert ws[1] != [] && Join(ws[1..], [SLASH]) != []; }
      NoBadSlash(ws[1..], if k > |w| then k - |w| - 1 else 0);
      if k < |w| {
        assert s[k] == w[k] && w[k] in w;
      } else if k == |w| {
        assert s[k + 1] == rest[0];
      } else {
        assert s[k] == rest[k - |w| - 1];
        assert k + 1 < |s| ==> s[k + 1] == rest[k - |w|];
      }
    }
  }

  // A zero that is not the last element.
  ghost predicate ZeroInside(path: seq<nat>) { exists i :: 0 <= i < |path| - 1 && path[i] == 0 }

  lemma ZeroInsideTail(path: seq<nat>)
    requires path != []
    ensures ZeroInside(path) <==> (path[0] == 0 && |path| > 1) || ZeroInside(path[1..])
  {
    if ZeroInside(path) {
      var i :| 0 <= i < |path| - 1 && path[i] == 0;
      if i > 0 {
        assert path[1..][i - 1] == 0;
      }
    }
    if ZeroInside(path[1..]) {
      var i :| 0 <= i < |path| - 2 && path[1..][i] == 0;
      assert path[i + 1] == 0;
    }
  }

  lemma {:induction false} WalkElements(path: seq<nat>, done: seq<nat>, cH: Byte)
    requires IsPath(path) && IsHardMark(cH) && done != []
    ensures forall i :: 0 <= i < |path| ==> Elements(path, cH)[i] != []
    ensures var r := Walk(Elements(path, cH), done); if ZeroInside(path) then r.0 == 6 else r == (0, done + path)
    decreases |path|
  {
    hide ParseToken, Element, IsHardMark;
    ElementsSay(path, cH);
    var ts := Elements(path, cH);
    if path == [] {
      assert done + path == done;
    } else {
      ZeroInsideTail(path);
      var n, rest := path[0], path[1..];
      ParsesElement(n, cH);
      assert ts[1..] == Elements(rest, cH);
      WalkElements(rest, done + [n], cH);
      assert done + [n] + rest == done + path;
    }
  }

  lemma ElementsSay(path: seq<nat>, cH: Byte)
    requires IsPath(path) && IsHardMark(cH)
    ensures forall i :: 0 <= i < |path| ==>
              Elements(path, cH)[i] != [] && SLASH !in Elements(path, cH)[i] && 0 !in Elements(path, cH)[i]
  {
    hide Element, ParseToken;
    forall i | 0 <= i < |path|
      ensures Elements(path, cH)[i] != [] && SLASH !in Elements(path, cH)[i] && 0 !in Elements(path, cH)[i]
    {
      ParsesElement(path[i], cH);
    }
  }

  // Parsing a printed path gives it back, with a leading zero for the "m", exactly
  // when it fits 510 characters and no element before the last is zero.
  lemma PathRoundTrip(path: seq<nat>, cH: Byte)
    requires IsPath(path) && IsHardMark(cH)
    ensures Extracted(Printed(path, cH)) == (0, [0] + path) <==> |Printed(path, cH)| <= 510 && !ZeroInside(path)
    ensures |Printed(path, cH)| > 510 ==> Extracted(Printed(path, cH)).0 == 2
    ensures |Printed(path, cH)| <= 510 && ZeroInside(path) ==> Extracted(Printed(path, cH)).0 == 6
  {
    hide Elements, ZeroInside, IsHardMark, IsPath, Tokens, BadSlash;
    var s := Printed(path, cH);
    if |s| <= 510 {
      PrintedReads(path, cH);
      WalkElements(path, [0], cH);
      WalkMaster(Elements(path, cH));
    }
  }

  lemma WalkMaster(ts: seq<Text>)
    requires forall i :: 0 <= i < |ts| ==> ts[i] != []
    ensures Walk([[109]] + ts, []) == Walk(ts, [0])
  {
    var ws := [[109]] + ts;
    assert ws[1..] == ts && ParseToken([109]) == Child(0) && [] + [0] == [0];
  }

  lemma PrintedReads(path: seq<nat>, cH: Byte)
    requires IsPath(path) && IsHardMark(cH)
    ensures var s := Printed(path, cH);
            && s != [] && CString(s) == s && Tokens(s, SLASH) == [[109]] + Elements(path, cH)
            && forall k :: 0 <= k < |s| ==> !BadSlash(s, k)
  {
    hide Tokens, BadSlash;
    ElementsSay(path, cH);
    var ws := [[109]] + Elements(path, cH);
    var s := Printed(path, cH);
    JoinNotEmpty(ws, SLASH);
    forall k | 0 <= k < |s|
      ensures !BadSlash(s, k)
    {
      NoBadSlash(ws, k);
    }
    TokensOfJoin(ws, SLASH);
  }

  lemma {:induction false} JoinNotEmpty(ws: seq<Text>, sep: Byte)
    requires ws != [] && sep != 0 && forall i :: 0 <= i < |ws| ==> ws[i] != [] && 0 !in ws[i]
    ensures Join(ws, [sep]) != [] && 0 !in Join(ws, [sep])
    decreases |ws|
  {
    if |ws| > 1 {
      JoinNotEmpty(ws[1..], sep);
    }
  }
}
