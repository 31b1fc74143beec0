// What strtou32max and the elements of a path accept and what they make of it, in
// terms of the characters written.
module KeyTexts {
  import opened Arithmetic
  import opened KeyPath
  import opened Octets
  import opened Options
  import opened Radix
  import opened Texts

  const SMALL: string := "0123456789abcdefghijklmnopqrstuvwxyz"
  const CAPITAL: string := "0123456789ABCDEFGHIJKLMNOPQRSTUVWXYZ"

  // A string of ASCII characters as bytes.
  function Chars(s: string): (t: Text)
    ensures |t| == |s|
  {
    seq(|s|, i requires 0 <= i < |s| => if s[i] as int < 256 then s[i] as int else 0)
  }

  // c is how digit d is written.
  ghost predicate Writes(c: Byte, d: nat) {
    d < 36 && (c == SMALL[d] as int || c == CAPITAL[d] as int)
  }

  // t writes the digits ds, in small or capital letters.
  ghost predicate Spells(t: Text, ds: seq<nat>) {
    |t| == |ds| && forall i :: 0 <= i < |t| ==> Writes(t[i], ds[i])
  }

  // A byte is a digit of the base exactly when the table has it there.
  lemma DigitIs(c: Byte)
    ensures forall d :: 0 <= d < 36 ==> (Writes(c, d) <==> DigitValue(c) == Some(d))
    ensures DigitValue(c).Some? ==> DigitValue(c).value < 36
  {
    SmallIs();
    CapitalIs();
    hide Writes;
    forall d | 0 <= d < 36
      ensures Writes(c, d) <==> DigitValue(c) == Some(d)
    {
      WritesIs(c, d);
    }
  }

  lemma SmallIs()
    ensures |SMALL| == 36 && forall d :: 0 <= d < 36 ==> SMALL[d] as int == if d < 10 then 48 + d else 97 + (d - 10)
  {
  }

  lemma CapitalIs()
    ensures |CAPITAL| == 36 && forall d :: 0 <= d < 36 ==> CAPITAL[d] as int == if d < 10 then 48 + d else 65 + (d - 10)
  {
  }

  lemma WritesIs(c: Byte, d: nat)
    requires d < 36
    ensures Writes(c, d) <==>
              if d < 10 then c == 48 + d else c == 97 + (d - 10) || c == 65 + (d - 10)
  {
    SmallIs();
    CapitalIs();
  }

  // Capital letters become small ones, and nothing else changes.
  lemma LowerIs(c: Byte)
    ensures forall d :: 10 <= d < 36 && c == CAPITAL[d] as int ==> Lower(c) == SMALL[d] as int
    ensures (forall d :: 10 <= d < 36 ==> c != CAPITAL[d] as int) ==> Lower(c) == c
  {
    SmallIs();
    CapitalIs();
    if 65 <= c <= 90 {
      assert CAPITAL[c - 55] as int == c;
    }
  }

  lemma SpelledDigits(t: Text, ds: seq<nat>, rest: Text, base: nat)
    requires Spells(t, ds) && InBase(ds, base) && base <= 36
    requires rest != [] ==> !IsDigit(rest[0], base)
    ensures KeyPath.Digits(t + rest, base) == ds
  {
    hide DigitValue, KeyPath.Digits;
    var s := t + rest;
    forall i | 0 <= i < |t|
      ensures DigitValue(s[i]) == Some(ds[i])
    {
      DigitIs(t[i]);
    }
    FrontDigits(s, ds, base);
  }

  lemma {:induction false} FrontDigits(s: Text, ds: seq<nat>, base: nat)
    requires |ds| <= |s| && InBase(ds, base) && forall i :: 0 <= i < |ds| ==> DigitValue(s[i]) == Some(ds[i])
    requires |ds| < |s| ==> !IsDigit(s[|ds|], base)
    ensures KeyPath.Digits(s, base) == ds
    decreases |ds|
  {
    hide DigitValue;
    if ds != [] {
      FrontDigits(s[1..], ds[1..], base);
      assert ds == [ds[0]] + ds[1..];
    }
  }

  // ---------------------------------------------------------------- strtou32max

  // White space, a sign and a mark, as they may come before the digits.
  ghost predicate Blank(s: Text) { forall i :: 0 <= i < |s| ==> s[i] in {9, 10, 11, 12, 13, 32} }

  ghost predicate Sign(s: string) { s == "" || s == "+" || s == "-" }

  // Asked for base0, the digits after the mark are of the base given.
  ghost predicate Prefix(base0: nat, mark: string, t: Text, base: nat) {
    || (mark == "" && 2 <= base0 == base <= 36)
    || ((mark == "0x" || mark == "0X") && (base0 == 0 || base0 == 16) && base == 16)
    || (mark == "" && base0 == 0 && t != [] && base == if t[..1] == Chars("0") then 8 else 10)
  }

  // No digit follows; and what looks like a mark is one.
  ghost predicate Ends(t: Text, rest: Text, base0: nat, mark: string, base: nat) {
    && (rest == [] || forall d :: 0 <= d < base && d < 36 ==> !Writes(rest[0], d))
    && (mark == "" && (base0 == 0 || base0 == 16) && t == Chars("0") && |rest| >= 2 && rest[0] in {88, 120} ==>
          forall d :: 0 <= d < 16 ==> !Writes(rest[1], d))
  }

  lemma {:induction false} BlanksAreSkipped(blank: Text, s: Text)
    requires Blank(blank) && (s == [] || s[0] !in {9, 10, 11, 12, 13, 32})
    ensures SkipSpaces(blank + s) == s
  {
    if blank == [] {
      assert blank + s == s;
    } else {
      assert (blank + s)[1..] == blank[1..] + s;
      BlanksAreSkipped(blank[1..], s);
    }
  }

  // A number that fits is read, in any base up to 36; after a minus sign it is
  // its negative modulo 2^32; and one that does not fit is out of range.
  lemma ReadsNumber(blank: Text, sign: string, mark: string, t: Text, ds: seq<nat>, rest: Text, base0: nat, base: nat)
    requires Blank(blank) && Sign(sign) && Prefix(base0, mark, t, base) && Spells(t, ds) && InBase(ds, base) && ds != []
    requires Ends(t, rest, base0, mark, base)
    ensures var n := Value(ds, base);
            ToU32(blank + (Chars(sign) + (Chars(mark) + (t + rest))), base0) ==
              if n > 0xFFFF_FFFF then (0xFFFF_FFFF, ERANGE)
              else if sign == "-" && n > 0 then (0x1_0000_0000 - n, NoError) else (n, NoError)
  {
    hide Value, DigitValue, KeyPath.Digits, SkipSpaces, Unmarked, Unsigned, Prefix, Ends, Blank, Spells, InBase;
    var u := Chars(mark) + (t + rest);
    var s := Chars(sign) + u;
    BaseInRange(base0, mark, t, base);
    MarkIsRead(mark, t, ds, rest, base0, base);
    FirstIsPlain(mark, t, ds, rest, base0, base);
    SignIsRead(sign, u);
    BlanksAreSkipped(blank, s);
    DigitsGoTo(t, ds, rest, base0, mark, base);
  }

  lemma BaseInRange(base0: nat, mark: string, t: Text, base: nat)
    requires Prefix(base0, mark, t, base)
    ensures 2 <= base <= 36
  {
  }

  lemma DigitsGoTo(t: Text, ds: seq<nat>, rest: Text, base0: nat, mark: string, base: nat)
    requires Spells(t, ds) && InBase(ds, base) && base <= 36 && Ends(t, rest, base0, mark, base)
    ensures KeyPath.Digits(t + rest, base) == ds
  {
    hide DigitValue, KeyPath.Digits, Writes, Spells, InBase;
    if rest != [] {
      DigitIs(rest[0]);
    }
    SpelledDigits(t, ds, rest, base);
  }

  // Neither white space nor a sign stands before the mark and the digits.
  lemma FirstIsPlain(mark: string, t: Text, ds: seq<nat>, rest: Text, base0: nat, base: nat)
    requires Prefix(base0, mark, t, base) && Spells(t, ds) && InBase(ds, base) && ds != []
    ensures var u := Chars(mark) + (t + rest); u != [] && u[0] !in {9, 10, 11, 12, 13, 32, 43, 45}
  {
    hide InBase;
    WritesIs(t[0], ds[0]);
    hide Spells;
    var u := Chars(mark) + (t + rest);
    assert u[0] == if mark == "" then t[0] else 48;
  }

  lemma SignIsRead(sign: string, u: Text)
    requires Sign(sign) && u != [] && u[0] !in {9, 10, 11, 12, 13, 32, 43, 45}
    ensures var s := Chars(sign) + u; s[0] !in {9, 10, 11, 12, 13, 32} && Unsigned(s) == (u, sign == "-")
  {
    var s := Chars(sign) + u;
    if sign == "" {
      assert s == u;
    } else {
      assert s[0] == sign[0] as int && s[1..] == u;
    }
  }

  lemma MarkIsRead(mark: string, t: Text, ds: seq<nat>, rest: Text, base0: nat, base: nat)
    requires Prefix(base0, mark, t, base) && Spells(t, ds) && InBase(ds, base) && ds != []
    requires Ends(t, rest, base0, mark, base)
    ensures Unmarked(Chars(mark) + (t + rest), base0) == (t + rest, base)
  {
    hide DigitValue, Spells, InBase, Ends, Writes;
    var u := Chars(mark) + (t + rest);
    if mark != "" {
      MarkedIsHex(mark, t, ds, rest, base0, base);
      assert u[2..] == t + rest;
    } else {
      assert u == t + rest;
      NoMark(t, ds, rest, base0, base);
      hide HexMark;
      FirstChar(t, ds);
      assert u[0] == t[0];
    }
  }

  lemma FirstChar(t: Text, ds: seq<nat>)
    requires Spells(t, ds) && ds != []
    ensures t != [] && (t[..1] == Chars("0") <==> t[0] == 48)
  {
    assert Chars("0")[0] == 48 && t[..1][0] == t[0];
  }

  lemma MarkedIsHex(mark: string, t: Text, ds: seq<nat>, rest: Text, base0: nat, base: nat)
    requires Prefix(base0, mark, t, base) && Spells(t, ds) && InBase(ds, base) && ds != [] && mark != ""
    ensures HexMark(Chars(mark) + (t + rest), base0)
  {
    hide DigitValue;
    var u := Chars(mark) + (t + rest);
    DigitIs(t[0]);
    hide Spells, InBase, Writes;
    assert u[0] == 48 && u[1] in {88, 120} && u[2] == t[0];
  }

  lemma NoMark(t: Text, ds: seq<nat>, rest: Text, base0: nat, base: nat)
    requires Prefix(base0, "", t, base) && Spells(t, ds) && InBase(ds, base) && ds != []
    requires Ends(t, rest, base0, "", base)
    ensures !HexMark(t + rest, base0)
  {
    hide DigitValue;
    var u := t + rest;
    if |t| >= 2 {
      WritesIs(t[1], ds[1]);
      assert u[1] == t[1];
    } else if t == Chars("0") && |rest| >= 2 {
      assert u[1] == rest[0] && u[2] == rest[1];
      DigitIs(rest[1]);
    } else {
      assert t[0] == u[0] && t == [t[0]];
    }
  }

  // ---------------------------------------------------------------- one element of a path

  ghost predicate Marked(mark: string, base: nat) {
    || (base == 16 && (mark == "0x" || mark == "0X"))
    || (base == 2 && (mark == "0b" || mark == "0B"))
    || (base == 10 && mark == "")
  }

  // Nothing, or one of the three marks of a hardened key.
  ghost predicate Tail(tail: string) { tail == "" || tail == "h" || tail == "H" || tail == "'" }

  // p is a mark, digits of its base, and a tail.
  ghost predicate Numeral(p: Text, mark: string, base: nat, t: Text, ds: seq<nat>, tail: string) {
    Marked(mark, base) && Tail(tail) && Spells(t, ds) && InBase(ds, base) && p == Chars(mark) + (t + Chars(tail))
  }

  lemma TailIs(tail: string)
    requires Tail(tail)
    ensures |tail| <= 1 && (tail != "" ==> IsHardMark(Chars(tail)[0]) && Chars(tail)[0] in {39, 72, 104})
  {
  }

  // No digit of the three bases is the mark of a hardened key.
  lemma DigitIsNoMark(c: Byte, d: nat)
    requires Writes(c, d) && d < 16
    ensures !IsHardMark(c) && Lower(c) != 109 && !IsSpace(c) && c != 43 && c != 45 && c !in {88, 120}
    ensures forall base :: base in {2, 10, 16} && d < base ==> ValidDigit(c, base)
    ensures d < 2 ==> c == 48 + d
    ensures d < 10 ==> c !in {66, 98}
  {
    WritesIs(c, d);
  }

  // A character is let through as a digit exactly when it is one.
  lemma ValidIsDigit(c: Byte, base: nat)
    requires base in {2, 10, 16}
    ensures ValidDigit(c, base) <==> exists d :: 0 <= d < base && Writes(c, d)
  {
    if ValidDigit(c, base) {
      var d := if c <= 57 then c - 48 else if c <= 70 then c - 55 else c - 87;
      WritesIs(c, d);
      assert Writes(c, d);
    }
    forall d | 0 <= d < base && Writes(c, d)
      ensures ValidDigit(c, base)
    {
      DigitIsNoMark(c, d);
    }
  }

  lemma DigitsPass(t: Text, ds: seq<nat>, base: nat)
    requires Spells(t, ds) && InBase(ds, base) && base in {2, 10, 16}
    ensures AllValid(t, base)
  {
    forall i | 0 <= i < |t|
      ensures ValidDigit(t[i], base)
    {
      DigitIsNoMark(t[i], ds[i]);
    }
  }

  lemma BaseIsRead(p: Text, mark: string, base: nat, t: Text, ds: seq<nat>, tail: string)
    requires Numeral(p, mark, base, t, ds, tail) && p != []
    ensures BaseOf(p) == base && (base != 10 ==> |p| >= 2) && Lower(p[0]) != 109
    ensures (if base == 10 then p else p[2..]) == t + Chars(tail)
  {
    TailIs(tail);
    if mark != "" {
      assert p[0] == 48 && p[1] == mark[1] as int;
    } else {
      assert p == t + Chars(tail);
      forall i | 0 <= i < |t|
        ensures t[i] !in {66, 88, 98, 120} && Lower(t[i]) != 109
      {
        DigitIsNoMark(t[i], ds[i]);
      }
    }
  }

  // What the digits of the code's own base read as.
  lemma DigitsAreRead(t: Text, ds: seq<nat>, base: nat)
    requires Spells(t, ds) && InBase(ds, base) && base in {2, 10, 16}
    ensures ToU32(t, base) ==
              if ds == [] then (0, EINVAL)
              else if Value(ds, base) > 0xFFFF_FFFF then (0xFFFF_FFFF, ERANGE) else (Value(ds, base), NoError)
  {
    hide Value;
    if ds != [] {
      assert [] + (Chars("") + (Chars("") + (t + []))) == t;
      ReadsNumber([], "", "", t, ds, [], base, base);
    }
  }

  // A numeral is its value, in any of the three bases, in small or capital letters;
  // a hardened one that much above 2^31.
  lemma NumeralIsParsed(p: Text, mark: string, base: nat, t: Text, ds: seq<nat>, tail: string)
    requires Numeral(p, mark, base, t, ds, tail) && p != []
    ensures ParseToken(p) ==
              if ds == [] || Value(ds, base) > 0xFFFF_FFFF then Bad(5)
              else if tail == "" then Child(Value(ds, base))
              else if Value(ds, base) < 0x8000_0000 then Child(Value(ds, base) + 0x8000_0000)
              else Bad(8)
  {
    hide Value, ToU32, Spells, InBase, Numeral, ParseToken;
    NumeralHas(p, mark, base, t, ds, tail);
    NumeralAs(p, mark, base, t, ds, tail);
    DigitsAreRead(t, ds, base);
  }

  lemma NumeralAs(p: Text, mark: string, base: nat, t: Text, ds: seq<nat>, tail: string)
    requires Numeral(p, mark, base, t, ds, tail) && p != []
    ensures ParseToken(p) ==
              var (n, errno) := ToU32(t, base);
              if errno != NoError then Bad(5)
              else if tail == "" then Child(n) else if n < HARDENED then Child(n + HARDENED) else Bad(8)
  {
    hide ToU32, BaseOf, Spells, InBase, IsHardMark, AllValid, Lower, Tail, Chars, Numeral, ParseToken;
    NumeralHas(p, mark, base, t, ds, tail);
    BaseIsRead(p, mark, base, t, ds, tail);
    TailIsRead(t, ds, base, tail);
    DigitsPass(t, ds, base);
    ParsedAs(p, base, t + Chars(tail), tail != "", t);
  }

  lemma NumeralHas(p: Text, mark: string, base: nat, t: Text, ds: seq<nat>, tail: string)
    requires Numeral(p, mark, base, t, ds, tail)
    ensures base in {2, 10, 16} && Tail(tail) && Spells(t, ds) && InBase(ds, base)
  {
  }

  lemma ParsedAs(p: Text, base: nat, u: Text, hard: bool, t: Text)
    requires p != [] && Lower(p[0]) != 109 && BaseOf(p) == base && (base != 10 ==> |p| >= 2)
    requires u == if base == 10 then p else p[2..]
    requires hard == (u != [] && IsHardMark(u[|u| - 1])) && t == if hard then u[..|u| - 1] else u
    requires AllValid(t, base)
    ensures ParseToken(p) ==
              var (n, errno) := ToU32(t, base);
              if errno != NoError then Bad(5)
              else if !hard then Child(n) else if n < HARDENED then Child(n + HARDENED) else Bad(8)
  {
    hide ToU32, AllValid, IsHardMark;
  }

  lemma TailIsRead(t: Text, ds: seq<nat>, base: nat, tail: string)
    requires Spells(t, ds) && InBase(ds, base) && base <= 16 && Tail(tail)
    ensures var u := t + Chars(tail);
            var hard := u != [] && IsHardMark(u[|u| - 1]);
            hard == (tail != "") && (if hard then u[..|u| - 1] else u) == t
  {
    LastIsDigit(t, ds, base);
    TailIs(tail);
    hide Spells, InBase, IsHardMark;
    var u := t + Chars(tail);
    assert tail == "" ==> u == t;
    assert tail != "" ==> u[..|u| - 1] == t && u[|u| - 1] == Chars(tail)[0];
  }

  lemma MarkIsBase(mark: string, base: nat)
    requires Marked(mark, base)
    ensures base in {2, 10, 16}
  {
  }

  lemma LastIsDigit(t: Text, ds: seq<nat>, base: nat)
    requires Spells(t, ds) && InBase(ds, base) && base <= 16
    ensures t != [] ==> !IsHardMark(t[|t| - 1])
  {
    if t != [] {
      DigitIsNoMark(t[|t| - 1], ds[|t| - 1]);
    }
  }

  // Anything else is refused: an element that does not begin with the letter m is
  // either a numeral or an error of its characters.
  lemma OnlyNumerals(p: Text)
    requires p != []
    ensures p[0] in {77, 109} ==> ParseToken(p) == Child(0)
    ensures p[0] !in {77, 109} ==>
              (ParseToken(p) != Bad(4) <==> exists mark, base, t, ds, tail :: Numeral(p, mark, base, t, ds, tail))
  {
    if p[0] !in {77, 109} {
      if ParseToken(p) != Bad(4) {
        var mark, base, t, ds, tail := NumeralOf(p);
        assert Numeral(p, mark, base, t, ds, tail);
      }
      forall mark, base, t, ds, tail | Numeral(p, mark, base, t, ds, tail)
        ensures ParseToken(p) != Bad(4)
      {
        NumeralIsParsed(p, mark, base, t, ds, tail);
      }
    }
  }

  lemma NumeralOf(p: Text) returns (mark: string, base: nat, t: Text, ds: seq<nat>, tail: string)
    requires p != [] && p[0] !in {77, 109} && ParseToken(p) != Bad(4)
    ensures Numeral(p, mark, base, t, ds, tail)
  {
    hide ToU32, ParseToken, BaseOf, IsHardMark, Chars, Marked, Tail, AllValid, Spells, InBase, Numeral;
    var u;
    u, t := PassedParts(p);
    base := BaseOf(p);
    mark := MarkOf(p);
    tail := TailAfter(u, t);
    MarkIsBase(mark, base);
    ds := DigitsSpelled(t, base);
    NumeralOfParts(p, mark, base, t, ds, tail, u);
  }

  lemma TailAfter(u: Text, t: Text) returns (tail: string)
    requires t == if u != [] && IsHardMark(u[|u| - 1]) then u[..|u| - 1] else u
    ensures Tail(tail) && u == t + Chars(tail)
  {
    hide IsHardMark, Chars, Tail;
    tail := "";
    NoTail();
    if u != [] && IsHardMark(u[|u| - 1]) {
      tail := TailOf(u[|u| - 1]);
    }
  }

  lemma NumeralOfParts(p: Text, mark: string, base: nat, t: Text, ds: seq<nat>, tail: string, u: Text)
    requires Marked(mark, base) && Tail(tail) && Spells(t, ds) && InBase(ds, base) && u == t + Chars(tail)
    requires |mark| <= |p| && Chars(mark) == p[..|mark|] && u == p[|mark|..]
    ensures Numeral(p, mark, base, t, ds, tail)
  {
    assert p == Chars(mark) + u;
    hide Chars, Marked, Tail, Spells, InBase;
  }

  lemma NoTail()
    ensures Chars("") == [] && Tail("")
  {
  }

  lemma PassedParts(p: Text) returns (u: Text, t: Text)
    requires p != [] && p[0] !in {77, 109} && ParseToken(p) != Bad(4)
    ensures if BaseOf(p) == 10 then u == p else |p| >= 2 && u == p[2..]
    ensures t == (if u != [] && IsHardMark(u[|u| - 1]) then u[..|u| - 1] else u) && AllValid(t, BaseOf(p))
  {
    u := if BaseOf(p) == 10 then p else p[2..];
    t := if u != [] && IsHardMark(u[|u| - 1]) then u[..|u| - 1] else u;
    hide ToU32, AllValid;
  }

  lemma MarkOf(p: Text) returns (mark: string)
    requires p != []
    ensures Marked(mark, BaseOf(p)) && |mark| <= |p| && Chars(mark) == p[..|mark|]
    ensures |mark| == if BaseOf(p) == 10 then 0 else 2
  {
    mark := if BaseOf(p) == 10 then "" else if p[1] == 98 then "0b" else if p[1] == 66 then "0B"
    else if p[1] == 120 then "0x" else "0X";
  }

  lemma TailOf(c: Byte) returns (tail: string)
    requires IsHardMark(c)
    ensures Tail(tail) && tail != "" && Chars(tail) == [c]
  {
    tail := if c == 39 then "'" else if c == 104 then "h" else "H";
  }

  lemma {:induction false} DigitsSpelled(t: Text, base: nat) returns (ds: seq<nat>)
    requires AllValid(t, base) && base in {2, 10, 16}
    ensures Spells(t, ds) && InBase(ds, base)
  {
    if t == [] {
      ds := [];
    } else {
      var init := DigitsSpelled(t[..|t| - 1], base);
      ValidIsDigit(t[|t| - 1], base);
      var d :| 0 <= d < base && Writes(t[|t| - 1], d);
      ds := init + [d];
    }
  }
}
