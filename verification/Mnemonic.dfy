// BIP-0039 phrases: entropy and checksum as one bit string, cut into groups of
// eleven bits to encode, and put together again to decode.
module Mnemonic {
  import opened Bits
  import opened Octets

  const WLL_JAPANESE: int := 3
  const WLL_MAX: int := 7

  // ---------------------------------------------------------------- bit strings

  // The bits of a byte string, the highest of each byte first.
  function ByteBits(s: seq<Byte>): nat -> Bit {
    (i: nat) => if i < 8 * |s| then BitOf(s[i / 8], 7 - i % 8) else 0
  }

  // The bits of a list of 11-bit numbers.
  function WordBits(ws: seq<nat>): nat -> Bit {
    (i: nat) => if i < 11 * |ws| then BitOf(ws[i / 11], 10 - i % 11) else 0
  }

  function FirstBits(f: nat -> Bit, n: nat): nat -> Bit {
    (i: nat) => if i < n then f(i) else 0
  }

  // The number that n bits spell, from bit i on.
  function Spell(f: nat -> Bit, i: nat, n: nat): (r: nat)
    ensures r <= Ones(n)
  {
    if n == 0 then 0 else 2 * Spell(f, i, n - 1) + f(i + n - 1)
  }

  function Words(f: nat -> Bit, count: nat): (ws: seq<nat>)
    ensures |ws| == count && forall k :: 0 <= k < count ==> ws[k] == Spell(f, 11 * k, 11)
  {
    seq(count, k requires 0 <= k < count => Spell(f, 11 * k, 11))
  }

  function ByteAt(f: nat -> Bit, k: nat): Byte {
    OnesAre();
    Spell(f, 8 * k, 8)
  }

  function SpelledBytes(f: nat -> Bit, count: nat): (s: seq<Byte>)
    ensures |s| == count && forall k :: 0 <= k < count ==> s[k] == ByteAt(f, k)
  {
    seq(count, k requires 0 <= k < count => ByteAt(f, k))
  }

  lemma {:induction false} SpellBit(f: nat -> Bit, i: nat, n: nat, j: nat)
    ensures BitOf(Spell(f, i, n), j) == if j < n then f(i + n - 1 - j) else 0
    decreases n
  {
    if n == 0 {
      ZeroBits(j);
    } else if j > 0 {
      SpellBit(f, i, n - 1, j - 1);
      assert Spell(f, i, n) / 2 == Spell(f, i, n - 1);
    }
  }

  lemma BytesBit(f: nat -> Bit, count: nat, i: nat)
    ensures ByteBits(SpelledBytes(f, count))(i) == if i < 8 * count then f(i) else 0
  {
    if i < 8 * count {
      SpellBit(f, 8 * (i / 8), 8, 7 - i % 8);
    }
  }

  lemma WordsBit(f: nat -> Bit, count: nat, i: nat)
    ensures WordBits(Words(f, count))(i) == if i < 11 * count then f(i) else 0
  {
    if i < 11 * count {
      SpellBit(f, 11 * (i / 11), 11, 10 - i % 11);
    }
  }

  // A byte string is what its bits spell.
  lemma BytesOfBits(s: seq<Byte>, f: nat -> Bit)
    requires forall i :: 0 <= i < 8 * |s| ==> ByteBits(s)(i) == f(i)
    ensures s == SpelledBytes(f, |s|)
  {
    hide ByteBits;
    forall k | 0 <= k < |s|
      ensures s[k] == ByteAt(f, k)
    {
      ByteOfBits(s, f, k);
    }
  }

  lemma ByteOfBits(s: seq<Byte>, f: nat -> Bit, k: nat)
    requires k < |s| && forall i :: 8 * k <= i < 8 * k + 8 ==> ByteBits(s)(i) == f(i)
    ensures s[k] == ByteAt(f, k)
  {
    OnesAre();
    forall j | 0 <= j < 8
      ensures BitOf(s[k], j) == BitOf(ByteAt(f, k), j)
    {
      assert ByteBits(s)(8 * k + 7 - j) == f(8 * k + 7 - j);
      BitOfByte(s, f, k, j);
    }
    hide ByteBits, ByteAt, Ones;
    SameBits(s[k], ByteAt(f, k), 8);
  }

  lemma BitOfByte(s: seq<Byte>, f: nat -> Bit, k: nat, j: nat)
    requires k < |s| && j < 8 && ByteBits(s)(8 * k + 7 - j) == f(8 * k + 7 - j)
    ensures BitOf(s[k], j) == BitOf(ByteAt(f, k), j)
  {
    SpellBit(f, 8 * k, 8, j);
    var i := 8 * k + 7 - j;
    assert i / 8 == k && i % 8 == 7 - j;
  }

  // ---------------------------------------------------------------- cutting into words

  // One group of eleven bits, r bits into b1.
  function Gather(b1: Byte, b2: Byte, b3: Byte, r: nat): nat
    requires r < 8
  {
    var o := Shl(And(Shl(b1, r), 0xFF), 3);
    And(if r > 5 then Or(Or(o, Shl(b2, r - 5)), Shr(b3, 13 - r)) else Or(o, Shr(b2, 5 - r)), 0x7FF)
  }

  function BitOrZero(n: nat, j: int): Bit { if j < 0 then 0 else BitOf(n, j) }

  lemma ByteIsSmall(b: Byte, j: nat)
    requires j >= 8
    ensures BitOf(b, j) == 0
  {
    OnesAre();
    SmallBits(b, 8, j);
  }

  lemma WordIsSmall(o: nat, j: nat)
    requires o < 2048 && j >= 11
    ensures BitOf(o, j) == 0
  {
    OnesAre();
    SmallBits(o, 11, j);
  }

  lemma HighPart(b: Byte, r: nat, j: nat)
    requires r < 8 && j < 11
    ensures BitOf(Shl(And(Shl(b, r), 0xFF), 3), j) == BitOrZero(b, j - 3 - r)
  {
    hide Shl, And, BitOf;
    ShlBit(And(Shl(b, r), 0xFF), 3, j);
    if j >= 3 {
      LowByte(Shl(b, r), j - 3);
      ShlBit(b, r, j - 3);
    }
  }

  lemma LowByte(n: nat, q: nat)
    requires q < 8
    ensures BitOf(And(n, 0xFF), q) == BitOf(n, q)
  {
    AndBit(n, 0xFF, q);
    OnesAre();
    OnesBit(8, q);
  }

  lemma MiddlePart(b: Byte, r: nat, j: nat)
    requires r < 8 && j < 11
    ensures BitOf(if r > 5 then Shl(b, r - 5) else Shr(b, 5 - r), j) == BitOrZero(b, j + 5 - r)
  {
    if r > 5 {
      ShlBit(b, r - 5, j);
    } else {
      ShrBit(b, 5 - r, j);
    }
  }

  lemma Masked(n: nat, j: nat)
    ensures BitOf(And(n, 0x7FF), j) == if j < 11 then BitOf(n, j) else 0
  {
    AndBit(n, 0x7FF, j);
    OnesAre();
    OnesBit(11, j);
  }

  lemma GatherBit(b1: Byte, b2: Byte, b3: Byte, r: nat, j: nat)
    requires r < 8 && j < 11
    ensures BitOf(Gather(b1, b2, b3, r), j)
         == if j >= r + 3 then BitOf(b1, j - 3 - r)
            else if j + 5 >= r then BitOf(b2, j + 5 - r) else BitOf(b3, j + 13 - r)
  {
    hide Shl, Shr, And, Or, BitOf;
    var o := Shl(And(Shl(b1, r), 0xFF), 3);
    HighPart(b1, r, j);
    MiddlePart(b2, r, j);
    if r > 5 {
      var m := Or(o, Shl(b2, r - 5));
      OrBit(o, Shl(b2, r - 5), j);
      OrBit(m, Shr(b3, 13 - r), j);
      ShrBit(b3, 13 - r, j);
      Masked(Or(m, Shr(b3, 13 - r)), j);
      if j + 5 >= r {
        ByteIsSmall(b3, j + 13 - r);
      }
    } else {
      OrBit(o, Shr(b2, 5 - r), j);
      Masked(Or(o, Shr(b2, 5 - r)), j);
    }
    if j >= r + 3 {
      ByteIsSmall(b2, j + 5 - r);
    }
  }

  lemma GatherIsSmall(b1: Byte, b2: Byte, b3: Byte, r: nat)
    requires r < 8
    ensures Gather(b1, b2, b3, r) <= Ones(11)
  {
    var o := Shl(And(Shl(b1, r), 0xFF), 3);
    var n := if r > 5 then Or(Or(o, Shl(b2, r - 5)), Shr(b3, 13 - r)) else Or(o, Shr(b2, 5 - r));
    forall j | j >= 11
      ensures BitOf(Gather(b1, b2, b3, r), j) == 0
    {
      Masked(n, j);
    }
    BitsAreSmall(Gather(b1, b2, b3, r), 11);
  }

  lemma GatherSpells(v: seq<Byte>, i: nat)
    requires i + 11 <= 8 * |v|
    ensures i / 8 + 1 < |v| && (i % 8 > 5 ==> i / 8 + 2 < |v|)
    ensures Gather(v[i / 8], v[i / 8 + 1], if i % 8 > 5 then v[i / 8 + 2] else 0, i % 8) == Spell(ByteBits(v), i, 11)
  {
    hide Gather, ByteBits, Spell;
    GatherAt(v, i / 8, i % 8);
  }

  lemma GatherAt(v: seq<Byte>, s: nat, r: nat)
    requires r < 8 && 8 * s + r + 11 <= 8 * |v|
    ensures s + 1 < |v| && (r > 5 ==> s + 2 < |v|)
    ensures Gather(v[s], v[s + 1], if r > 5 then v[s + 2] else 0, r) == Spell(ByteBits(v), 8 * s + r, 11)
  {
    hide Gather, ByteBits, Spell, BitOf;
    var i := 8 * s + r;
    var b1, b2, b3 := v[s], v[s + 1], if r > 5 then v[s + 2] else 0;
    forall j | 0 <= j < 11
      ensures BitOf(Gather(b1, b2, b3, r), j) == BitOf(Spell(ByteBits(v), i, 11), j)
    {
      GatherBit(b1, b2, b3, r, j);
      SpellBit(ByteBits(v), i, 11, j);
      BitInside(v, s, r, j);
    }
    GatherIsSmall(b1, b2, b3, r);
    SameBits(Gather(b1, b2, b3, r), Spell(ByteBits(v), i, 11), 11);
  }

  lemma BitInside(v: seq<Byte>, s: nat, r: nat, j: nat)
    requires r < 8 && j < 11 && 8 * s + r + 11 <= 8 * |v|
    ensures var t := 8 * s + r + 10 - j;
            ByteBits(v)(t) == if j >= r + 3 then BitOf(v[s], j - 3 - r)
                              else if j + 5 >= r then BitOf(v[s + 1], j + 5 - r) else BitOf(v[s + 2], j + 13 - r)
  {
    var t := 8 * s + r + 10 - j;
    if j >= r + 3 {
      assert t / 8 == s && t % 8 == r + 10 - j;
    } else if j + 5 >= r {
      assert t / 8 == s + 1 && t % 8 == r + 2 - j;
    } else {
      assert t / 8 == s + 2 && t % 8 == r - 6 - j;
    }
  }

  method SplitIntoWords(vIn: seq<Byte>, nBits: nat) returns (vWord: seq<nat>)
    requires 11 * ((nBits + 10) / 11) <= 8 * |vIn|
    ensures vWord == Words(ByteBits(vIn), (nBits + 10) / 11)
  {
    hide ByteBits, And, Or, Shl, Shr, Spell;
    vWord := [];
    var i := 0;
    while i < nBits
      invariant i == 11 * |vWord| && |vWord| <= (nBits + 10) / 11
      invariant forall k :: 0 <= k < |vWord| ==> vWord[k] == Spell(ByteBits(vIn), 11 * k, 11)
    {
      GatherSpells(vIn, i);
      var s, r := i / 8, i % 8;
      var b1, b2 := vIn[s], vIn[s + 1];
      var o := And(Shl(b1, r), 0xFF);
      o := Shl(o, 11 - 8);
      if r > 5 {
        var b3 := vIn[s + 2];
        o := Or(o, Shl(b2, r - 5));
        o := Or(o, Shr(b3, 8 - (r - 5)));
      } else {
        o := Or(o, Shr(b2, 8 - (11 - 8) - r));
      }
      o := And(o, 0x7FF);
      vWord := vWord + [o];
      i := i + 11;
    }
  }

  // ---------------------------------------------------------------- joining words

  // Bit w of an 11-bit number, the highest being bit 0.
  function WordBit(o: nat, w: int): Bit { if 0 <= w < 11 then BitOf(o, 10 - w) else 0 }

  lemma OrByteBit(v: Byte, x: nat, q: nat)
    requires q < 8
    ensures BitOf(ToByte(Or(v, x)), q) == if BitOf(v, q) == 1 || BitOf(x, q) == 1 then 1 else 0
  {
    ToByteBit(Or(v, x), q);
    OrBit(v, x, q);
  }

  // The piece that goes into the byte k places on.
  function Piece(o: nat, r: nat, k: nat): nat
    requires r < 8
  {
    if k == 0 then And(Shr(o, r + 3), 0x7FF)
    else if r <= 5 then And(Shl(o, 5 - r), 0x7FF)
    else if k == 1 then And(Shr(o, r - 5), 0x7FF)
    else And(Shl(o, 8 - (r - 5)), 0x7FF)
  }

  lemma PieceBit(o: nat, r: nat, k: nat, p: nat)
    requires o < 2048 && r < 8 && p < 8 && k <= 2 && (k == 2 ==> r > 5)
    ensures BitOf(Piece(o, r, k), 7 - p) == WordBit(o, p + 8 * k - r)
  {
    if k == 0 {
      FirstPiece(o, r, p);
    } else if r <= 5 {
      Masked(Shl(o, 5 - r), 7 - p);
      ShlBit(o, 5 - r, 7 - p);
    } else if k == 1 {
      Masked(Shr(o, r - 5), 7 - p);
      ShrBit(o, r - 5, 7 - p);
    } else {
      Masked(Shl(o, 13 - r), 7 - p);
      ShlBit(o, 13 - r, 7 - p);
    }
  }

  lemma FirstPiece(o: nat, r: nat, p: nat)
    requires o < 2048 && r < 8 && p < 8
    ensures BitOf(And(Shr(o, r + 3), 0x7FF), 7 - p) == WordBit(o, p - r)
  {
    Masked(Shr(o, r + 3), 7 - p);
    ShrBit(o, r + 3, 7 - p);
    if p < r {
      WordIsSmall(o, 10 - p + r);
    }
  }

  // now is was with o added at bit position at.
  ghost predicate Added(was: seq<Byte>, now: seq<Byte>, o: nat, at: nat) {
    |now| == |was|
    && forall i :: 0 <= i < 8 * |was| ==>
         ByteBits(now)(i) == if ByteBits(was)(i) == 1 || WordBit(o, i - at) == 1 then 1 else 0
  }

  ghost predicate AddedIn(was: Byte, now: Byte, o: nat, at: int) {
    forall q :: 0 <= q < 8 ==> BitOf(now, q) == if BitOf(was, q) == 1 || WordBit(o, 7 - q - at) == 1 then 1 else 0
  }

  lemma AddedBytes(was: seq<Byte>, now: seq<Byte>, o: nat, s: nat, r: nat)
    requires |now| == |was| && s + 1 < |was| && r < 8 && (r > 5 ==> s + 2 < |was|) && o < 2048
    requires forall k :: 0 <= k < |was| && k != s && k != s + 1 && (r > 5 ==> k != s + 2) ==> now[k] == was[k]
    requires AddedIn(was[s], now[s], o, r) && AddedIn(was[s + 1], now[s + 1], o, r - 8)
    requires r > 5 ==> AddedIn(was[s + 2], now[s + 2], o, r - 16)
    ensures Added(was, now, o, 8 * s + r)
  {
    hide ByteBits, AddedIn;
    forall i | 0 <= i < 8 * |was|
      ensures ByteBits(now)(i) == if ByteBits(was)(i) == 1 || WordBit(o, i - (8 * s + r)) == 1 then 1 else 0
    {
      var k := i / 8;
      if k == s || k == s + 1 || (k == s + 2 && r > 5) {
        AddedBit(was, now, o, k, r - 8 * (k - s), i);
      } else {
        SameBit(was, now, i);
      }
    }
  }

  lemma AddedBit(was: seq<Byte>, now: seq<Byte>, o: nat, k: nat, at: int, i: nat)
    requires |now| == |was| && k < |was| && AddedIn(was[k], now[k], o, at) && i / 8 == k
    ensures ByteBits(now)(i) == if ByteBits(was)(i) == 1 || WordBit(o, i - 8 * k - at) == 1 then 1 else 0
  {
    var q := 7 - i % 8;
    assert 7 - q - at == i - 8 * k - at;
    assert BitOf(now[k], q) == if BitOf(was[k], q) == 1 || WordBit(o, 7 - q - at) == 1 then 1 else 0;
    hide AddedIn, WordBit;
  }

  lemma SameBit(was: seq<Byte>, now: seq<Byte>, i: nat)
    requires |now| == |was| && i < 8 * |was| && now[i / 8] == was[i / 8]
    ensures ByteBits(now)(i) == ByteBits(was)(i)
  {
  }

  method AddWord(v0: seq<Byte>, o: nat, i: nat) returns (v: seq<Byte>)
    requires o < 2048 && i + 11 <= 8 * |v0|
    ensures Added(v0, v, o, i)
  {
    hide And, Or, Shl, Shr, ByteBits, Added, AddedIn, WordBit;
    v := v0;
    var s, r, el := i / 8, i % 8, |v|;
    assert s + 1 < el && (r > 5 ==> s + 2 < el);
    PieceInto(v[s], o, r, 0);
    v := v[s := ToByte(Or(v[s], And(Shr(o, r + 3), 0x7FF)))];
    if s < el - 1 {
      if r > 5 {
        PieceInto(v[s + 1], o, r, 1);
        v := v[s + 1 := ToByte(Or(v[s + 1], And(Shr(o, r - 5), 0x7FF)))];
        if s < el - 2 {
          PieceInto(v[s + 2], o, r, 2);
          v := v[s + 2 := ToByte(Or(v[s + 2], And(Shl(o, 8 - (r - 5)), 0x7FF)))];
        }
      } else {
        PieceInto(v[s + 1], o, r, 1);
        v := v[s + 1 := ToByte(Or(v[s + 1], And(Shl(o, 5 - r), 0x7FF)))];
      }
    }
    AddedBytes(v0, v, o, s, r);
  }

  lemma PieceInto(v: Byte, o: nat, r: nat, k: nat)
    requires o < 2048 && r < 8 && k <= 2 && (k == 2 ==> r > 5)
    ensures AddedIn(v, ToByte(Or(v, Piece(o, r, k))), o, r - 8 * k)
  {
    hide Or, Piece, WordBit, ToByte;
    var now := ToByte(Or(v, Piece(o, r, k)));
    forall q | 0 <= q < 8
      ensures BitOf(now, q) == if BitOf(v, q) == 1 || WordBit(o, 7 - q - (r - 8 * k)) == 1 then 1 else 0
    {
      PieceBit(o, r, k, 7 - q);
      OrByteBit(v, Piece(o, r, k), q);
    }
  }

  method JoinWords(vWordInts: seq<nat>) returns (vEntropy: seq<Byte>)
    requires forall k :: 0 <= k < |vWordInts| ==> vWordInts[k] < 2048
    ensures vEntropy == SpelledBytes(WordBits(vWordInts), (11 * |vWordInts| + 7) / 8)
  {
    hide ByteBits, WordBits, Added, SpelledBytes;
    var nBits := |vWordInts| * 11;
    var nBytes := nBits / 8 + if nBits % 8 == 0 then 0 else 1;
    vEntropy := Zeros(nBytes);
    ZeroBytes(nBytes);
    var i, k := 0, 0;
    while k < |vWordInts|
      invariant k <= |vWordInts| && i == 11 * k && |vEntropy| == nBytes
      invariant forall j :: 0 <= j < 8 * nBytes ==>
                  ByteBits(vEntropy)(j) == if j < 11 * k then WordBits(vWordInts)(j) else 0
    {
      ghost var was := vEntropy;
      vEntropy := AddWord(vEntropy, vWordInts[k], i);
      AddedNext(was, vEntropy, vWordInts, k);
      i := i + 11;
      k := k + 1;
    }
    PaddingIsZero(vWordInts);
    BytesOfBits(vEntropy, WordBits(vWordInts));
  }

  lemma ZeroBytes(n: nat)
    ensures forall j :: 0 <= j < 8 * n ==> ByteBits(Zeros(n))(j) == 0
  {
    forall j | 0 <= j < 8 * n
      ensures ByteBits(Zeros(n))(j) == 0
    {
      ZeroBits(7 - j % 8);
    }
  }

  lemma PaddingIsZero(ws: seq<nat>)
    ensures forall j :: 11 * |ws| <= j ==> WordBits(ws)(j) == 0
  {
  }

  lemma AddedNext(was: seq<Byte>, now: seq<Byte>, ws: seq<nat>, k: nat)
    requires k < |ws| && Added(was, now, ws[k], 11 * k)
    requires forall j :: 0 <= j < 8 * |was| ==> ByteBits(was)(j) == if j < 11 * k then WordBits(ws)(j) else 0
    ensures |now| == |was|
    ensures forall j :: 0 <= j < 8 * |now| ==> ByteBits(now)(j) == if j < 11 * (k + 1) then WordBits(ws)(j) else 0
  {
    hide ByteBits;
    forall j | 0 <= j < 8 * |now|
      ensures ByteBits(now)(j) == if j < 11 * (k + 1) then WordBits(ws)(j) else 0
    {
      if 11 * k <= j < 11 * (k + 1) {
        assert j / 11 == k && j % 11 == j - 11 * k;
      }
    }
  }
}
