// The text side of a mnemonic phrase: newline-terminated word lists, and the
// replacement of separators.
module WordLists {
  import opened Octets
  import opened Texts

  const NEWLINE: Byte := 10
  const SPACE: Byte := 32

  // U+3000 in UTF-8.
  function WideSpace(): Text { [0xE3, 0x80, 0x80] }

  // ---------------------------------------------------------------- lines

  function LineEnd(s: Text): (k: nat)
    ensures k <= |s| && (k < |s| ==> s[k] == NEWLINE) && forall i :: 0 <= i < k ==> s[i] != NEWLINE
  {
    if s == [] || s[0] == NEWLINE then 0 else 1 + LineEnd(s[1..])
  }

  // The lines of s that end in a newline.
  function Lines(s: Text): seq<Text>
    decreases |s|
  {
    var k := LineEnd(s);
    if k == |s| then [] else [s[..k]] + Lines(s[k + 1..])
  }

  lemma LineStep(s: Text)
    requires s != []
    ensures s[0] == NEWLINE ==> Lines(s) == [[]] + Lines(s[1..])
    ensures s[0] != NEWLINE ==> |Lines(s)| == |Lines(s[1..])|
    ensures s[0] != NEWLINE && Lines(s) != [] ==>
              Lines(s)[0] == [s[0]] + Lines(s[1..])[0] && Lines(s)[1..] == Lines(s[1..])[1..]
  {
    if s[0] != NEWLINE {
      var k := LineEnd(s[1..]);
      assert LineEnd(s) == k + 1;
      if k < |s| - 1 {
        assert s[1..][k + 1..] == s[k + 2..] && s[..k + 1] == [s[0]] + s[1..][..k];
      }
    }
  }

  // Where a scan of the list stands: done lines passed, the current one read up
  // to cur, and left still to come.
  ghost predicate Scanned(all: seq<Text>, done: nat, cur: Text, left: seq<Text>) {
    && done + |left| == |all|
    && (left != [] ==> all[done] == cur + left[0] && all[done + 1..] == left[1..])
  }

  lemma ScanStart(pwl: Text)
    ensures pwl[0..] == pwl && Scanned(Lines(pwl), 0, [], Lines(pwl))
  {
    if Lines(pwl) != [] {
      assert [] + Lines(pwl)[0] == Lines(pwl)[0];
    }
  }

  lemma ScanStep(pwl: Text, pt: nat, all: seq<Text>, done: nat, cur: Text)
    requires pt < |pwl| && Scanned(all, done, cur, Lines(pwl[pt..]))
    ensures pwl[pt] == NEWLINE ==> done < |all| && all[done] == cur && Scanned(all, done + 1, [], Lines(pwl[pt + 1..]))
    ensures pwl[pt] != NEWLINE ==> Scanned(all, done, cur + [pwl[pt]], Lines(pwl[pt + 1..]))
  {
    var s := pwl[pt..];
    assert s[1..] == pwl[pt + 1..];
    LineStep(s);
    var left := Lines(s[1..]);
    if pwl[pt] == NEWLINE {
      assert cur + [] == cur;
      assert ([[]] + left)[1..] == left;
      if left != [] {
        assert all[done + 1..][0] == left[0] && [] + left[0] == left[0];
        assert all[done + 1..][1..] == all[done + 2..];
      }
    } else if left != [] {
      assert cur + ([s[0]] + left[0]) == cur + [s[0]] + left[0];
    }
  }

  // ScanOver: nothing follows the end of the list.
  lemma ScanOver(pwl: Text, all: seq<Text>, done: nat, cur: Text)
    requires Scanned(all, done, cur, Lines(pwl[|pwl|..]))
    ensures |all| == done
  {
  }

  method GetWord(o0: nat, pwl: Text) returns (code: int, sWord: Text)
    requires o0 > 0 ==> pwl != []
    ensures code == if o0 < |Lines(pwl)| then 0 else 1
    ensures code == 0 ==> sWord == Lines(pwl)[o0]
  {
    hide Lines, Scanned;
    sWord := [];
    var pt, o := 0, o0;
    ghost var all, cur := Lines(pwl), [];
    ScanStart(pwl);
    while o > 0
      invariant 0 <= o <= o0 && pt <= |pwl| && (o > 0 ==> pt < |pwl|) && (o == 0 ==> cur == []) && sWord == []
      invariant Scanned(all, o0 - o, cur, Lines(pwl[pt..]))
      decreases |pwl| - pt
    {
      ScanStep(pwl, pt, all, o0 - o, cur);
      if pwl[pt] == NEWLINE {
        o, cur := o - 1, [];
      } else {
        cur := cur + [pwl[pt]];
      }
      pt := pt + 1;
      if pt >= |pwl| {
        ScanOver(pwl, all, o0 - o, cur);
        return 1, sWord;
      }
    }
    assert cur == sWord;
    while pt < |pwl|
      invariant pt <= |pwl| && Scanned(all, o0, sWord, Lines(pwl[pt..]))
    {
      ScanStep(pwl, pt, all, o0, sWord);
      if pwl[pt] == NEWLINE {
        return 0, sWord;
      }
      sWord := sWord + [pwl[pt]];
      pt := pt + 1;
    }
    ScanOver(pwl, all, o0, sWord);
    return 1, sWord;
  }

  // The first line equal to p.
  ghost predicate FirstAt(list: seq<Text>, p: Text, o: nat) {
    o < |list| && list[o] == p && forall i :: 0 <= i < o ==> list[i] != p
  }

  method GetWordOffset(p: Text, pwl: Text) returns (code: int, o: nat)
    ensures code == if p in Lines(pwl) then 0 else 1
    ensures code == 0 ==> FirstAt(Lines(pwl), p, o)
  {
    hide Lines, Scanned;
    var pt, l, i, c, f := 0, |p|, 0, 0, true;
    ghost var all, cur := Lines(pwl), [];
    ScanStart(pwl);
    while pt < |pwl|
      invariant pt <= |pwl| && i <= |all| && c == |cur| && (f <==> cur <= p)
      invariant forall j :: 0 <= j < i ==> all[j] != p
      invariant Scanned(all, i, cur, Lines(pwl[pt..]))
      decreases |pwl| - pt
    {
      ScanStep(pwl, pt, all, i, cur);
      if pwl[pt] == NEWLINE {
        if f && c == l {
          assert cur == p && all[i] in all;
          return 0, i;
        }
        i, c, f, cur := i + 1, 0, true, [];
      } else {
        if c >= l {
          f := false;
        } else if f && p[c] != pwl[pt] {
          f := false;
        }
        c, cur := c + 1, cur + [pwl[pt]];
      }
      pt := pt + 1;
    }
    ScanOver(pwl, all, i, cur);
    return 1, 0;
  }

  // ---------------------------------------------------------------- replacement

  function Replaced(s: Text, a: Text, b: Text): Text
    requires a != []
    decreases |s|
  {
    if |s| < |a| then s
    else if s[..|a|] == a then b + Replaced(s[|a|..], a, b)
    else [s[0]] + Replaced(s[1..], a, b)
  }

  ghost predicate OccursAt(s: Text, a: Text, k: nat) { k + |a| <= |s| && s[k..k + |a|] == a }

  ghost predicate Free(s: Text, a: Text) { forall k :: 0 <= k ==> !OccursAt(s, a, k) }

  // std::string::find from a position on.
  function Find(s: Text, a: Text, pos: nat): (k: nat)
    requires pos <= |s| && a != []
    ensures pos <= k <= |s| && (k < |s| ==> OccursAt(s, a, k))
    ensures forall j :: pos <= j < k ==> !OccursAt(s, a, j)
    decreases |s| - pos
  {
    if pos + |a| > |s| then |s| else if s[pos..pos + |a|] == a then pos else Find(s, a, pos + 1)
  }

  lemma {:induction false} SkipsAhead(s: Text, a: Text, b: Text, pos: nat, k: nat)
    requires pos <= k <= |s| && a != [] && forall j :: pos <= j < k ==> !OccursAt(s, a, j)
    ensures Replaced(s[pos..], a, b) == s[pos..k] + Replaced(s[k..], a, b)
    decreases k - pos
  {
    if pos < k {
      OneSkipped(s, a, b, pos);
      hide Replaced, OccursAt;
      SkipsAhead(s, a, b, pos + 1, k);
      assert [s[pos]] + (s[pos + 1..k] + Replaced(s[k..], a, b)) == s[pos..k] + Replaced(s[k..], a, b);
    } else {
      assert s[pos..k] == [] && [] + Replaced(s[k..], a, b) == Replaced(s[k..], a, b);
    }
  }

  lemma OneSkipped(s: Text, a: Text, b: Text, pos: nat)
    requires pos < |s| && a != [] && !OccursAt(s, a, pos)
    ensures Replaced(s[pos..], a, b) == [s[pos]] + Replaced(s[pos + 1..], a, b)
  {
    var t := s[pos..];
    assert t[1..] == s[pos + 1..] && t == [s[pos]] + t[1..];
    if |t| < |a| {
      ShortIsFree(t[1..], a, b);
    } else {
      assert t[..|a|] == s[pos..pos + |a|];
    }
  }

  lemma ShortIsFree(s: Text, a: Text, b: Text)
    requires |s| < |a|
    ensures Replaced(s, a, b) == s
  {
  }

  method ReplaceStrInPlace(s0: Text, a: Text, b: Text) returns (s: Text)
    requires a != []
    ensures s == Replaced(s0, a, b)
  {
    hide Replaced, OccursAt;
    s := s0;
    var pos := 0;
    assert [] + Replaced(s, a, b) == Replaced(s, a, b) && s[..0] == [] && s[0..] == s;
    ghost var want := Replaced(s0, a, b);
    var k := Find(s, a, pos);
    while k < |s|
      invariant pos <= |s| && k == Find(s, a, pos)
      invariant s[..pos] + Replaced(s[pos..], a, b) == want
      decreases |s| - pos
    {
      OccursThere(s, a, k);
      SkipsAhead(s, a, b, pos, k);
      ReplaceHere(s, a, b, k);
      ghost var t := s[k + |a|..];
      assert s[..pos] + s[pos..k] == s[..k];
      ghost var was := s;
      s := s[..k] + b + s[k + |a|..];
      Joins(was[..pos], was[pos..k], b, Replaced(t, a, b));
      pos := k + |b|;
      assert s[..pos] == was[..k] + b && s[pos..] == t;
      k := Find(s, a, pos);
    }
    SkipsAhead(s, a, b, pos, |s|);
    NothingLeft(a, b);
    assert s[|s|..] == [] && s[..pos] + s[pos..|s|] == s;
    assert s[pos..|s|] + [] == s[pos..|s|];
  }

  lemma Joins(x: Text, y: Text, b: Text, r: Text)
    ensures x + (y + (b + r)) == x + y + b + r
  {
  }

  lemma NothingLeft(a: Text, b: Text)
    requires a != []
    ensures Replaced([], a, b) == []
  {
  }

  lemma OccursThere(s: Text, a: Text, k: nat)
    requires OccursAt(s, a, k)
    ensures k + |a| <= |s|
  {
  }

  lemma ReplaceHere(s: Text, a: Text, b: Text, k: nat)
    requires OccursAt(s, a, k) && a != []
    ensures k + |a| <= |s| && Replaced(s[k..], a, b) == b + Replaced(s[k + |a|..], a, b)
  {
    assert s[k..][..|a|] == s[k..k + |a|] && s[k..][|a|..] == s[k + |a|..];
  }

  // ---------------------------------------------------------------- phrases

  // Words that a phrase can be cut into again.
  ghost predicate Word(w: Text) {
    w != [] && SPACE !in w && NEWLINE !in w && 0 !in w && Free(w, WideSpace())
  }

  ghost predicate Sentence(ws: seq<Text>) { forall i :: 0 <= i < |ws| ==> Word(ws[i]) }

  // No proper end of a is also its start.
  ghost predicate Unbordered(a: Text) { forall k :: 0 < k < |a| ==> a[k..] != a[..|a| - k] }

  lemma NotAtStart(w: Text, a: Text, rest: Text)
    requires a != [] && w != [] && Free(w, a) && Unbordered(a)
    ensures (w + (a + rest))[..|a|] != a
  {
    var s := w + (a + rest);
    if |w| >= |a| {
      assert !OccursAt(w, a, 0);
      assert s[..|a|] == w[0..0 + |a|];
    } else {
      var m := |a| - |w|;
      assert a[|w|..] != a[..m];
      assert s[..|a|][|w|..] == a[..m];
    }
  }

  lemma {:induction false} ReplaceAfter(w: Text, a: Text, b: Text, rest: Text)
    requires a != [] && Free(w, a) && Unbordered(a)
    ensures Replaced(w + (a + rest), a, b) == w + (b + Replaced(rest, a, b))
    decreases |w|
  {
    var s := w + (a + rest);
    if w == [] {
      assert s == a + rest && s[..|a|] == a && s[|a|..] == rest;
    } else {
      FreeTail(w, a);
      ReplaceAfter(w[1..], a, b, rest);
      assert s[1..] == w[1..] + (a + rest);
      NotAtStart(w, a, rest);
      hide Free, Unbordered;
      assert [w[0]] + (w[1..] + (b + Replaced(rest, a, b))) == w + (b + Replaced(rest, a, b));
    }
  }

  lemma FreeTail(w: Text, a: Text)
    requires Free(w, a) && w != []
    ensures Free(w[1..], a)
  {
    forall k | 0 <= k
      ensures !OccursAt(w[1..], a, k)
    {
      assert !OccursAt(w, a, k + 1);
      if k + |a| <= |w| - 1 {
        assert w[1..][k..k + |a|] == w[k + 1..k + 1 + |a|];
      }
    }
  }

  lemma {:induction false} ReplaceNone(w: Text, a: Text, b: Text)
    requires a != [] && Free(w, a)
    ensures Replaced(w, a, b) == w
    decreases |w|
  {
    if |w| >= |a| {
      assert !OccursAt(w, a, 0);
      FreeTail(w, a);
      ReplaceNone(w[1..], a, b);
    }
  }

  lemma {:induction false} ReplaceSeparators(ws: seq<Text>, a: Text, b: Text)
    requires a != [] && Unbordered(a) && forall i :: 0 <= i < |ws| ==> Free(ws[i], a)
    ensures Replaced(Join(ws, a), a, b) == Join(ws, b)
    decreases |ws|
  {
    if |ws| == 1 {
      ReplaceNone(ws[0], a, b);
    } else if |ws| > 1 {
      var rest := Join(ws[1..], a);
      ReplaceSeparators(ws[1..], a, b);
      ReplaceAfter(ws[0], a, b, rest);
      assert ws[0] + a + rest == ws[0] + (a + rest);
      assert ws[0] + b + Join(ws[1..], b) == ws[0] + (b + Join(ws[1..], b));
    }
  }

  lemma SpaceIsUnbordered()
    ensures Unbordered([SPACE]) && Unbordered(WideSpace())
  {
    var a := WideSpace();
    forall k | 0 < k < |a|
      ensures a[k..] != a[..|a| - k]
    {
      assert a[k..][0] == 0x80 && a[..|a| - k][0] == 0xE3;
    }
  }

  lemma NoSpaceIsFree(w: Text)
    requires SPACE !in w
    ensures Free(w, [SPACE])
  {
    forall k | 0 <= k
      ensures !OccursAt(w, [SPACE], k)
    {
      if k < |w| {
        assert w[k] in w && w[k..k + 1][0] == w[k];
      }
    }
  }

  // A wide space cannot straddle a plain one.
  lemma {:induction false} JoinIsFree(ws: seq<Text>)
    requires Sentence(ws)
    ensures Free(Join(ws, [SPACE]), WideSpace())
    decreases |ws|
  {
    if |ws| == 1 {
      assert Word(ws[0]);
    } else if |ws| > 1 {
      JoinIsFree(ws[1..]);
      assert Word(ws[0]);
      FreeAround(ws[0], Join(ws[1..], [SPACE]));
    }
  }

  lemma FreeAround(x: Text, y: Text)
    requires Free(x, WideSpace()) && Free(y, WideSpace())
    ensures Free(x + [SPACE] + y, WideSpace())
  {
    var s, a := x + [SPACE] + y, WideSpace();
    forall k | 0 <= k
      ensures !OccursAt(s, a, k)
    {
      if k + 3 <= |x| {
        assert x[k..k + 3] == s[k..k + 3];
        assert !OccursAt(x, a, k);
      } else if k > |x| {
        var m := k - |x| - 1;
        assert !OccursAt(y, a, m);
        if k + 3 <= |s| {
          assert y[m..m + 3] == s[k..k + 3];
        }
      } else if k + 3 <= |s| {
        assert s[k..k + 3][|x| - k] == SPACE;
      }
    }
  }

  lemma {:induction false} JoinHasNoZero(ws: seq<Text>)
    requires Sentence(ws)
    ensures 0 !in Join(ws, [SPACE])
    decreases |ws|
  {
    if |ws| > 0 {
      assert Word(ws[0]);
      JoinHasNoZero(ws[1..]);
    }
  }
}
