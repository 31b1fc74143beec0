// MnemonicEncode and MnemonicDecode: what they return, and when decoding gives
// back what was encoded.
module MnemonicPhrases {
  import opened Bits
  import opened Octets
  import opened Texts
  import opened WordLists
  import opened Mnemonic

  datatype Phrase = Phrase(text: Text) | NoPhrase(code: int)

  datatype Entropy = Entropy(bytes: seq<Byte>) | NoEntropy(code: int)

  // ---------------------------------------------------------------- what encoding means

  // The bytes the checksum takes, then zeros.
  function Checksum(h: Digest, nCsSize: nat): (r: seq<Byte>)
    requires nCsSize <= 256
    ensures |r| == 32
  {
    h[..(nCsSize + 7) / 8] + Zeros(32 - (nCsSize + 7) / 8)
  }

  function WordCount(n: nat): nat { (8 * n + n / 4 + 10) / 11 }

  function EntropyWords(sha: HashFunction, e: seq<Byte>): seq<nat>
    requires 1 <= |e| / 4 <= 256
  {
    Words(ByteBits(e + Checksum(sha(e), |e| / 4)), WordCount(|e|))
  }

  // The words of a phrase, with a space before each word once there is any text.
  function Spaced(ws: seq<Text>): Text {
    if ws == [] then []
    else
      var t := Spaced(ws[..|ws| - 1]);
      (if t != [] then t + [SPACE] else t) + ws[|ws| - 1]
  }

  function Listed(list: seq<Text>, ws: seq<nat>): (r: seq<Text>)
    requires forall k :: 0 <= k < |ws| ==> ws[k] < |list|
    ensures |r| == |ws| && forall k :: 0 <= k < |ws| ==> r[k] == list[ws[k]]
  {
    seq(|ws|, k requires 0 <= k < |ws| => list[ws[k]])
  }

  ghost predicate Known(list: seq<Text>, ws: seq<nat>) { forall k :: 0 <= k < |ws| ==> ws[k] < |list| }

  ghost function Encoded(lists: seq<Text>, nLanguage: int, sha: HashFunction, e: seq<Byte>): Phrase
    requires |lists| == WLL_MAX && nLanguage != WLL_MAX
  {
    if nLanguage < 1 || nLanguage > WLL_MAX then NoPhrase(1)
    else if |e| / 4 < 1 || |e| / 4 > 256 then NoPhrase(2)
    else
      var list, ws := Lines(lists[nLanguage]), EntropyWords(sha, e);
      if !Known(list, ws) then NoPhrase(3)
      else
        var t := Spaced(Listed(list, ws));
        Phrase(if nLanguage == WLL_JAPANESE then Replaced(t, [SPACE], WideSpace()) else t)
  }

  // The code's array holds 32 checksum bytes; the last group of eleven bits must
  // end inside it. Always so for a multiple of four.
  ghost predicate Readable(n: nat) {
    1 <= n / 4 <= 256 ==> 11 * WordCount(n) <= 8 * (n + 32)
  }

  lemma MultiplesAreReadable(n: nat)
    requires n % 4 == 0
    ensures Readable(n)
  {
  }

  method MnemonicEncode(lists: seq<Text>, nLanguage: int, sha: HashFunction, vEntropy: seq<Byte>)
    returns (code: int, sWordList: Text)
    requires |lists| == WLL_MAX && nLanguage != WLL_MAX && forall l :: 1 <= l < WLL_MAX ==> lists[l] != []
    requires Readable(|vEntropy|)
    ensures code == 0 ==> Encoded(lists, nLanguage, sha, vEntropy) == Phrase(sWordList)
    ensures code != 0 ==> Encoded(lists, nLanguage, sha, vEntropy) == NoPhrase(code)
  {
    hide ByteBits, Words, Lines, Replaced, Checksum, Known, Spaced, Listed;
    sWordList := [];
    if nLanguage < 1 || nLanguage > WLL_MAX {
      return 1, sWordList;
    }
    var hash := sha(vEntropy);
    var nCsSize := |vEntropy| / 4;
    if nCsSize < 1 || nCsSize > 256 {
      return 2, sWordList;
    }
    var ncb, r := nCsSize / 8, nCsSize % 8;
    if r != 0 {
      ncb := ncb + 1;
    }
    var vTmp := hash[..ncb] + Zeros(32 - ncb);
    var vIn := vEntropy + vTmp;
    ChecksumIs(hash, nCsSize, ncb);
    var nBits := |vEntropy| * 8 + nCsSize;
    var vWord := SplitIntoWords(vIn, nBits);
    code, sWordList := PhraseOf(lists[nLanguage], vWord);
    if code == 0 && nLanguage == WLL_JAPANESE {
      sWordList := ReplaceStrInPlace(sWordList, [SPACE], WideSpace());
    }
  }

  lemma ChecksumIs(h: Digest, nCsSize: nat, ncb: nat)
    requires nCsSize <= 256 && ncb == nCsSize / 8 + if nCsSize % 8 != 0 then 1 else 0
    ensures ncb <= 32 && Checksum(h, nCsSize) == h[..ncb] + Zeros(32 - ncb)
  {
  }

  // The loop over the words.
  method PhraseOf(pwl: Text, vWord: seq<nat>) returns (code: int, sWordList: Text)
    requires pwl != []
    ensures code == if Known(Lines(pwl), vWord) then 0 else 3
    ensures code == 0 ==> sWordList == Spaced(Listed(Lines(pwl), vWord))
  {
    hide Lines, Spaced;
    ghost var list := Lines(pwl);
    sWordList := [];
    NoWords(list, vWord);
    var k := 0;
    while k < |vWord|
      invariant k <= |vWord| && Known(list, vWord[..k]) && sWordList == Spaced(Listed(list, vWord[..k]))
    {
      var o := vWord[k];
      var missing, sWord := GetWord(o, pwl);
      if missing != 0 {
        return 3, sWordList;
      }
      SpacedNext(list, vWord, k);
      if sWordList != [] {
        sWordList := sWordList + [SPACE];
      }
      sWordList := sWordList + sWord;
      k := k + 1;
    }
    assert vWord[..k] == vWord;
    return 0, sWordList;
  }

  lemma NoWords(list: seq<Text>, ws: seq<nat>)
    ensures Known(list, ws[..0]) && Spaced(Listed(list, ws[..0])) == []
  {
  }

  lemma SpacedNext(list: seq<Text>, ws: seq<nat>, k: nat)
    requires k < |ws| && Known(list, ws[..k]) && ws[k] < |list|
    ensures Known(list, ws[..k + 1])
    ensures var t := Spaced(Listed(list, ws[..k]));
            Spaced(Listed(list, ws[..k + 1])) == (if t != [] then t + [SPACE] else t) + list[ws[k]]
  {
    assert ws[..k + 1] == ws[..k] + [ws[k]];
    var all := Listed(list, ws[..k + 1]);
    assert all[..k] == Listed(list, ws[..k]);
  }

  // ---------------------------------------------------------------- what decoding means

  // The first line equal to w.
  function IndexOf(list: seq<Text>, w: Text): (o: nat)
    requires w in list
    ensures FirstAt(list, w, o)
  {
    if list[0] == w then 0
    else
      assert list == [list[0]] + list[1..];
      1 + IndexOf(list[1..], w)
  }

  ghost predicate AllIn(list: seq<Text>, ts: seq<Text>) { forall i :: 0 <= i < |ts| ==> ts[i] in list }

  ghost function Offsets(list: seq<Text>, ts: seq<Text>): (r: seq<nat>)
    requires AllIn(list, ts)
    ensures |r| == |ts| && forall i :: 0 <= i < |ts| ==> r[i] == IndexOf(list, ts[i])
  {
    seq(|ts|, i requires 0 <= i < |ts| => IndexOf(list, ts[i]))
  }

  function Joined(ws: seq<nat>): (v: seq<Byte>)
    ensures |v| == (11 * |ws| + 7) / 8
  {
    SpelledBytes(WordBits(ws), (11 * |ws| + 7) / 8)
  }

  // How many of the bits are checksum, and how many bytes the rest make.
  function ChecksumBits(n: nat): nat { 11 * n / 32 }

  function EntropySize(n: nat): nat { (11 * n - ChecksumBits(n)) / 8 }

  function FromWords(sha: HashFunction, ws: seq<nat>, ignore: bool): Entropy {
    if !ignore && |ws| % 3 != 0 then NoEntropy(4)
    else
      var v := Joined(ws);
      if ignore then Entropy(v)
      else
        var n, c := EntropySize(|ws|), ChecksumBits(|ws|);
        if SpelledBytes(FirstBits(ByteBits(sha(v[..n])), c), (c + 7) / 8) == v[n..n + (c + 7) / 8]
        then Entropy(v[..n]) else NoEntropy(5)
  }

  ghost function Decoded(lists: seq<Text>, nLanguage: int, sha: HashFunction, s: Text, ignore: bool): Entropy
    requires |lists| == WLL_MAX && nLanguage != WLL_MAX
  {
    var t := Replaced(s, WideSpace(), [SPACE]);
    if nLanguage < 1 || nLanguage > WLL_MAX then NoEntropy(1)
    else if |t| >= 2048 then NoEntropy(2)
    else
      var list, ts := Lines(lists[nLanguage]), Tokens(CString(t), SPACE);
      if !AllIn(list, ts) then NoEntropy(3) else FromWords(sha, Offsets(list, ts), ignore)
  }

  // The checksum test reads at most the 32 bytes of the hash, and offsets fit
  // eleven bits.
  ghost predicate Checkable(lists: seq<Text>, nLanguage: int, s: Text) {
    1 <= nLanguage < |lists| ==>
      |Lines(lists[nLanguage])| <= 2048 && |Tokens(CString(Replaced(s, WideSpace(), [SPACE])), SPACE)| <= 744
  }

  lemma MaskBit(r: nat, q: nat)
    requires 0 < r < 8 && q < 8
    ensures BitOf(Shl(Shl(1, r) - 1, 8 - r), q) == if q >= 8 - r then 1 else 0
  {
    ShlOne(r);
    ShlBit(Ones(r), 8 - r, q);
    if q >= 8 - r {
      OnesBit(r, q - (8 - r));
    }
  }

  // vCSTest: the leading c bits of the hash.
  method LeadingBits(hash: Digest, c: nat) returns (v: seq<Byte>)
    requires c <= 256
    ensures v == SpelledBytes(FirstBits(ByteBits(hash), c), (c + 7) / 8)
  {
    hide Shl, And, Shr, Or, BitOf;
    var n := c / 8 + if c % 8 == 0 then 0 else 1;
    v := hash[..n];
    var r := c % 8;
    if r > 0 {
      v := v[n - 1 := ToByte(And(v[n - 1], Shl(Shl(1, r) - 1, 8 - r)))];
    }
    forall i | 0 <= i < 8 * |v|
      ensures ByteBits(v)(i) == FirstBits(ByteBits(hash), c)(i)
    {
      if r > 0 && i / 8 == n - 1 {
        var q, m := 7 - i % 8, Shl(Shl(1, r) - 1, 8 - r);
        MaskBit(r, q);
        ToByteBit(And(hash[n - 1], m), q);
        AndBit(hash[n - 1], m, q);
      }
    }
    BytesOfBits(v, FirstBits(ByteBits(hash), c));
  }

  lemma SizesFit(n: nat)
    ensures EntropySize(n) + (ChecksumBits(n) + 7) / 8 <= (11 * n + 7) / 8
    ensures n <= 744 ==> ChecksumBits(n) <= 256
  {
  }

  method MnemonicDecode(lists: seq<Text>, nLanguage: int, sha: HashFunction, sWordListIn: Text, fIgnoreChecksum: bool)
    returns (code: int, vEntropy: seq<Byte>)
    requires |lists| == WLL_MAX && nLanguage != WLL_MAX && nLanguage != -1 && Checkable(lists, nLanguage, sWordListIn)
    ensures code == 0 ==> Decoded(lists, nLanguage, sha, sWordListIn, fIgnoreChecksum) == Entropy(vEntropy)
    ensures code != 0 ==> Decoded(lists, nLanguage, sha, sWordListIn, fIgnoreChecksum) == NoEntropy(code)
  {
    hide ByteBits, WordBits, SpelledBytes, Lines, Replaced, Tokens, CString, FirstAt;
    var sWordList := ReplaceStrInPlace(sWordListIn, WideSpace(), [SPACE]);
    vEntropy := [];
    if nLanguage < 1 || nLanguage > WLL_MAX {
      return 1, vEntropy;
    }
    if |sWordList| >= 2048 {
      return 2, vEntropy;
    }
    var tmp := CString(sWordList);
    var pwl := lists[nLanguage];
    ghost var list := Lines(pwl);
    var tokens := Tokens(tmp, SPACE);
    var vWordInts: seq<nat> := [];
    var p := 0;
    while p < |tokens|
      invariant p == |vWordInts| <= |tokens|
      invariant forall i :: 0 <= i < p ==> tokens[i] in list && vWordInts[i] == IndexOf(list, tokens[i])
      invariant forall i :: 0 <= i < p ==> vWordInts[i] < |list|
    {
      var unknown, ofs := GetWordOffset(tokens[p], pwl);
      if unknown != 0 {
        assert !AllIn(list, tokens);
        return 3, vEntropy;
      }
      OnlyOneFirst(list, tokens[p], ofs);
      vWordInts := vWordInts + [ofs];
      p := p + 1;
    }
    assert vWordInts == Offsets(list, tokens);
    code, vEntropy := DecodeWords(sha, vWordInts, fIgnoreChecksum);
  }

  lemma OnlyOneFirst(list: seq<Text>, w: Text, o: nat)
    requires FirstAt(list, w, o) && w in list
    ensures o == IndexOf(list, w) && o < |list|
  {
    var i := IndexOf(list, w);
    assert FirstAt(list, w, i);
  }

  // The rest of MnemonicDecode, once the words are numbers.
  method DecodeWords(sha: HashFunction, vWordInts: seq<nat>, fIgnoreChecksum: bool)
    returns (code: int, vEntropy: seq<Byte>)
    requires |vWordInts| <= 744 && forall k :: 0 <= k < |vWordInts| ==> vWordInts[k] < 2048
    ensures code == 0 ==> FromWords(sha, vWordInts, fIgnoreChecksum) == Entropy(vEntropy)
    ensures code != 0 ==> FromWords(sha, vWordInts, fIgnoreChecksum) == NoEntropy(code)
  {
    hide ByteBits, WordBits, SpelledBytes, FirstBits, FromWords, EntropySize, ChecksumBits, Joined;
    FromWordsSays(sha, vWordInts, fIgnoreChecksum);
    vEntropy := [];
    if !fIgnoreChecksum && |vWordInts| % 3 != 0 {
      return 4, vEntropy;
    }
    vEntropy := JoinWords(vWordInts);
    JoinedIs(vWordInts);
    if fIgnoreChecksum {
      return 0, vEntropy;
    }
    var nBits := |vWordInts| * 11;
    var nLenChecksum := nBits / 32;
    var nLenEntropy := nBits - nLenChecksum;
    var nBytesEntropy := nLenEntropy / 8;
    var nBytesChecksum := nLenChecksum / 8 + if nLenChecksum % 8 == 0 then 0 else 1;
    SizesAre(|vWordInts|, nLenChecksum, nBytesEntropy, nBytesChecksum);
    var vCS := vEntropy[nBytesEntropy..nBytesEntropy + nBytesChecksum];
    vEntropy := vEntropy[..nBytesEntropy];
    var vCSTest := LeadingBits(sha(vEntropy), nLenChecksum);
    if vCSTest != vCS {
      return 5, vEntropy;
    }
    return 0, vEntropy;
  }

  lemma SizesAre(n: nat, c: int, e: int, b: int)
    requires n <= 744 && c == n * 11 / 32 && e == (n * 11 - c) / 8 && b == c / 8 + if c % 8 == 0 then 0 else 1
    ensures c == ChecksumBits(n) <= 256 && e == EntropySize(n) && b == (c + 7) / 8
  {
  }

  lemma JoinedIs(ws: seq<nat>)
    ensures Joined(ws) == SpelledBytes(WordBits(ws), (11 * |ws| + 7) / 8)
  {
  }

  lemma FromWordsSays(sha: HashFunction, ws: seq<nat>, ignore: bool)
    ensures var v, n, c := Joined(ws), EntropySize(|ws|), ChecksumBits(|ws|);
            && n + (c + 7) / 8 <= |v|
            && FromWords(sha, ws, ignore) ==
                 if !ignore && |ws| % 3 != 0 then NoEntropy(4)
                 else if ignore then Entropy(v)
                 else if SpelledBytes(FirstBits(ByteBits(sha(v[..n])), c), (c + 7) / 8) == v[n..n + (c + 7) / 8]
                 then Entropy(v[..n]) else NoEntropy(5)
  {
    hide SpelledBytes, ByteBits, FirstBits;
    SizesFit(|ws|);
  }

  // ---------------------------------------------------------------- the round trip

  ghost predicate WordList(list: seq<Text>) {
    |list| == 2048 && Sentence(list) && forall i, j :: 0 <= i < j < |list| ==> list[i] != list[j]
  }

  lemma {:induction false} SpacedIsJoin(ws: seq<Text>)
    requires Sentence(ws)
    ensures Spaced(ws) == Join(ws, [SPACE]) && (ws != [] ==> Spaced(ws) != [])
    decreases |ws|
  {
    if |ws| > 0 {
      var init, w := ws[..|ws| - 1], ws[|ws| - 1];
      assert Word(w);
      assert forall i :: 0 <= i < |init| ==> init[i] == ws[i];
      SpacedIsJoin(init);
      assert ws == init + [w];
      if init != [] {
        JoinLast(init, [SPACE], w);
      }
    }
  }

  lemma OffsetOfListed(list: seq<Text>, o: nat)
    requires WordList(list) && o < |list|
    ensures list[o] in list && IndexOf(list, list[o]) == o
  {
    assert list[o] in list;
    var i := IndexOf(list, list[o]);
    assert FirstAt(list, list[o], i);
  }

  lemma OffsetsOfListed(list: seq<Text>, ws: seq<nat>)
    requires WordList(list) && Known(list, ws)
    ensures AllIn(list, Listed(list, ws)) && Offsets(list, Listed(list, ws)) == ws
  {
    hide WordList, IndexOf;
    var ts := Listed(list, ws);
    forall i | 0 <= i < |ts|
      ensures ts[i] in list && IndexOf(list, ts[i]) == ws[i]
    {
      ListHas(list);
      OffsetOfListed(list, ws[i]);
    }
  }

  lemma ListHas(list: seq<Text>)
    requires WordList(list)
    ensures |list| == 2048 && Sentence(list)
  {
  }

  // What encoding writes, cut up again.
  lemma PhraseIsRead(list: seq<Text>, ws: seq<nat>, wide: bool)
    requires WordList(list) && Known(list, ws)
    ensures var t := Spaced(Listed(list, ws));
            var s := if wide then Replaced(t, [SPACE], WideSpace()) else t;
            Replaced(s, WideSpace(), [SPACE]) == t && Tokens(CString(t), SPACE) == Listed(list, ws)
  {
    hide WordList, Replaced, Unbordered, Free, Word, Tokens, CString, Join, Spaced;
    ListHas(list);
    var ts := Listed(list, ws);
    assert Sentence(ts);
    SpacedIsJoin(ts);
    SpaceIsUnbordered();
    forall i | 0 <= i < |ts|
      ensures Free(ts[i], [SPACE]) && Free(ts[i], WideSpace())
    {
      FreeOfBoth(ts[i]);
    }
    if wide {
      ReplaceSeparators(ts, [SPACE], WideSpace());
      ReplaceSeparators(ts, WideSpace(), [SPACE]);
    } else {
      JoinIsFree(ts);
      ReplaceNone(Join(ts, [SPACE]), WideSpace(), [SPACE]);
    }
    JoinHasNoZero(ts);
    Whole(Join(ts, [SPACE]));
    WordsAreTokens(ts);
    TokensOfJoin(ts, SPACE);
  }

  lemma WordsAreTokens(ts: seq<Text>)
    requires Sentence(ts)
    ensures forall i :: 0 <= i < |ts| ==> ts[i] != [] && SPACE !in ts[i]
  {
    forall i | 0 <= i < |ts|
      ensures ts[i] != [] && SPACE !in ts[i]
    {
      assert Word(ts[i]);
    }
  }

  lemma FreeOfBoth(w: Text)
    requires Word(w)
    ensures Free(w, [SPACE]) && Free(w, WideSpace())
  {
    NoSpaceIsFree(w);
  }

  lemma Whole(s: Text)
    requires 0 !in s
    ensures CString(s) == s
  {
  }

  // The words of entropy whose length is a multiple of four, joined again: the
  // entropy itself, then its checksum bits.
  lemma JoinedWords(sha: HashFunction, e: seq<Byte>)
    requires |e| % 4 == 0 && 4 <= |e| < 128
    ensures var ws, q := EntropyWords(sha, e), |e| / 4;
            && |ws| == 3 * q && EntropySize(3 * q) == |e| && ChecksumBits(3 * q) == q
            && |Joined(ws)| == |e| + (q + 7) / 8 && Joined(ws)[..|e|] == e
            && Joined(ws)[|e|..|e| + (q + 7) / 8] == SpelledBytes(FirstBits(ByteBits(sha(e)), q), (q + 7) / 8)
  {
    hide ByteBits, FirstBits, Checksum, Joined, Words, SpelledBytes;
    var q := |e| / 4;
    var s := e + Checksum(sha(e), q);
    var v := Joined(EntropyWords(sha, e));
    Sizes(|e|);
    JoinedSize(ByteBits(s), 3 * q);
    forall i | 0 <= i < 8 * |e|
      ensures ByteBits(v[..|e|])(i) == ByteBits(e)(i)
    {
      JoinedBit(ByteBits(s), 3 * q, i);
      BitShift(v, 0, |e|, i);
      BitShift(s, 0, |e|, i);
      assert v[0..0 + |e|] == v[..|e|] && s[0..0 + |e|] == e;
    }
    BytesOfBits(v[..|e|], ByteBits(e));
    BytesOfBits(e, ByteBits(e));
    ChecksumJoined(sha(e), e, v, s);
  }

  lemma Sizes(n: nat)
    requires n % 4 == 0 && n < 128
    ensures WordCount(n) == 3 * (n / 4) && EntropySize(3 * (n / 4)) == n && ChecksumBits(3 * (n / 4)) == n / 4
    ensures (11 * (3 * (n / 4)) + 7) / 8 == n + (n / 4 + 7) / 8
  {
  }

  lemma JoinedSize(f: nat -> Bit, n: nat)
    ensures |Words(f, n)| == n && |Joined(Words(f, n))| == (11 * n + 7) / 8
  {
  }

  lemma ChecksumJoined(h: Digest, e: seq<Byte>, v: seq<Byte>, s: seq<Byte>)
    requires |e| % 4 == 0 && 4 <= |e| < 128 && s == e + Checksum(h, |e| / 4)
    requires v == Joined(Words(ByteBits(s), 3 * (|e| / 4))) && |v| == |e| + (|e| / 4 + 7) / 8
    ensures var q := |e| / 4; v[|e|..|e| + (q + 7) / 8] == SpelledBytes(FirstBits(ByteBits(h), q), (q + 7) / 8)
  {
    hide ByteBits, Checksum, Joined, Words, SpelledBytes;
    var q := |e| / 4;
    var m := (q + 7) / 8;
    var cs := v[|e|..|e| + m];
    forall i | 0 <= i < 8 * m
      ensures ByteBits(cs)(i) == FirstBits(ByteBits(h), q)(i)
    {
      BitShift(v, |e|, m, i);
      JoinedBit(ByteBits(s), 3 * q, 8 * |e| + i);
      if i < q {
        ChecksumBit(h, q, e, i);
      }
    }
    BytesOfBits(cs, FirstBits(ByteBits(h), q));
  }

  lemma JoinedBit(f: nat -> Bit, n: nat, i: nat)
    ensures i < 8 * ((11 * n + 7) / 8) ==> ByteBits(Joined(Words(f, n)))(i) == if i < 11 * n then f(i) else 0
  {
    WordsBit(f, n, i);
    BytesBit(WordBits(Words(f, n)), (11 * n + 7) / 8, i);
  }

  lemma BitShift(v: seq<Byte>, n: nat, m: nat, i: nat)
    requires n + m <= |v| && i < 8 * m
    ensures ByteBits(v[n..n + m])(i) == ByteBits(v)(8 * n + i)
  {
    assert (8 * n + i) / 8 == n + i / 8 && (8 * n + i) % 8 == i % 8;
  }

  lemma ChecksumBit(h: Digest, q: nat, e: seq<Byte>, i: nat)
    requires q <= 256 && i < q
    ensures ByteBits(e + Checksum(h, q))(8 * |e| + i) == ByteBits(h)(i)
  {
    assert (8 * |e| + i) / 8 == |e| + i / 8 && (8 * |e| + i) % 8 == i % 8;
  }

  // Decoding gives back the entropy for multiples of four below 128 bytes; from
  // 128 on, the length of the checksum is misjudged and it never does.
  lemma WordsRoundTrip(sha: HashFunction, e: seq<Byte>)
    requires |e| % 4 == 0 && 4 <= |e| <= 1024
    ensures FromWords(sha, EntropyWords(sha, e), false) == Entropy(e) <==> |e| < 128
  {
    hide FromWords, Joined, ByteBits, FirstBits, Words, SpelledBytes;
    var ws, q := EntropyWords(sha, e), |e| / 4;
    if |e| < 128 {
      JoinedWords(sha, e);
      FromWordsIs(sha, ws, e);
    } else {
      FromWordsSize(sha, ws);
      TooLong(|e|);
      JoinedSize(ByteBits(e + Checksum(sha(e), q)), WordCount(|e|));
    }
  }

  lemma FromWordsIs(sha: HashFunction, ws: seq<nat>, e: seq<Byte>)
    requires |ws| % 3 == 0 && |e| == EntropySize(|ws|) <= |Joined(ws)| && Joined(ws)[..|e|] == e
    requires var c := ChecksumBits(|ws|);
             && |e| + (c + 7) / 8 <= |Joined(ws)|
             && Joined(ws)[|e|..|e| + (c + 7) / 8] == SpelledBytes(FirstBits(ByteBits(sha(e)), c), (c + 7) / 8)
    ensures FromWords(sha, ws, false) == Entropy(e)
  {
    hide Joined, ByteBits, FirstBits, SpelledBytes;
  }

  lemma FromWordsSize(sha: HashFunction, ws: seq<nat>)
    ensures var r := FromWords(sha, ws, false); r.Entropy? ==> |r.bytes| == EntropySize(|ws|)
  {
  }

  lemma TooLong(n: nat)
    requires n % 4 == 0 && 128 <= n <= 1024
    ensures WordCount(n) == 3 * (n / 4) && EntropySize(WordCount(n)) < n
  {
  }

  // The plain-space form of a phrase, whose length decoding limits.
  function Plain(s: Text): Text { Replaced(s, WideSpace(), [SPACE]) }

  lemma RoundTrip(lists: seq<Text>, nLanguage: int, sha: HashFunction, e: seq<Byte>)
    requires |lists| == WLL_MAX && 1 <= nLanguage < WLL_MAX && WordList(Lines(lists[nLanguage]))
    requires |e| % 4 == 0 && 4 <= |e| <= 1024
    ensures var p := Encoded(lists, nLanguage, sha, e);
            p.Phrase?
            && (Decoded(lists, nLanguage, sha, p.text, false) == Entropy(e) <==> |e| < 128 && |Plain(p.text)| < 2048)
  {
    hide WordList, Lines, Replaced, Tokens, CString, Spaced, FromWords, EntropyWords;
    var list, ws := Lines(lists[nLanguage]), EntropyWords(sha, e);
    ListHas(list);
    WordsAreKnown(sha, e, list);
    PhraseIsRead(list, ws, nLanguage == WLL_JAPANESE);
    OffsetsOfListed(list, ws);
    WordsRoundTrip(sha, e);
  }

  lemma WordsAreKnown(sha: HashFunction, e: seq<Byte>, list: seq<Text>)
    requires 1 <= |e| / 4 <= 256 && |list| == 2048
    ensures Known(list, EntropyWords(sha, e))
  {
    OnesAre();
  }
}
