// Texts as bytes: C strings, white space, and tokens between separators.
module Texts {
  import opened Octets

  type Text = seq<Byte>

  // What a C string holds of a text: all up to the first zero byte.
  function CString(s: Text): (r: Text)
    ensures 0 !in r && r <= s && (0 !in s ==> r == s)
  {
    if s == [] || s[0] == 0 then [] else [s[0]] + CString(s[1..])
  }

  // isspace.
  predicate IsSpace(c: Byte) { c == 32 || 9 <= c <= 13 }

  function SkipSpaces(s: Text): (r: Text)
    ensures r != [] ==> !IsSpace(r[0])
  {
    if s == [] || !IsSpace(s[0]) then s else SkipSpaces(s[1..])
  }

  function Join(ws: seq<Text>, sep: Text): Text {
    if ws == [] then [] else if |ws| == 1 then ws[0] else ws[0] + sep + Join(ws[1..], sep)
  }

  lemma {:induction false} JoinLast(ws: seq<Text>, sep: Text, w: Text)
    requires ws != []
    ensures Join(ws + [w], sep) == Join(ws, sep) + sep + w
  {
    var all := ws + [w];
    assert all[1..] == ws[1..] + [w];
    if |ws| > 1 {
      JoinLast(ws[1..], sep, w);
      assert ws[0] + sep + (Join(ws[1..], sep) + sep + w) == ws[0] + sep + Join(ws[1..], sep) + sep + w;
    }
  }

  // How far the first token goes.
  function TokenLength(s: Text, sep: Byte): (k: nat)
    ensures k <= |s| && (k < |s| ==> s[k] == sep) && sep !in s[..k]
  {
    if s == [] || s[0] == sep then 0
    else
      var k := TokenLength(s[1..], sep);
      assert s[..k + 1] == [s[0]] + s[1..][..k];
      k + 1
  }

  // strtok, again and again.
  function Tokens(s: Text, sep: Byte): seq<Text>
    decreases |s|
  {
    if s == [] then [] else if s[0] == sep then Tokens(s[1..], sep)
    else
      var k := TokenLength(s, sep);
      [s[..k]] + Tokens(s[k..], sep)
  }

  lemma {:induction false} TokenLengthIs(w: Text, rest: Text, sep: Byte)
    requires sep !in w && (rest == [] || rest[0] == sep)
    ensures TokenLength(w + rest, sep) == |w|
    decreases |w|
  {
    if w == [] {
      assert w + rest == rest;
    } else {
      TokenLengthIs(w[1..], rest, sep);
      assert w[0] in w && (w + rest)[1..] == w[1..] + rest;
    }
  }

  // Words joined by a separator are its tokens.
  lemma {:induction false} TokensOfJoin(ws: seq<Text>, sep: Byte)
    requires forall i :: 0 <= i < |ws| ==> ws[i] != [] && sep !in ws[i]
    ensures Tokens(Join(ws, [sep]), sep) == ws
    decreases |ws|
  {
    if |ws| > 0 {
      var w := ws[0];
      assert w[0] in w;
      if |ws| == 1 {
        assert w + [] == w;
        TokenLengthIs(w, [], sep);
      } else {
        var rest := Join(ws[1..], [sep]);
        TokensOfJoin(ws[1..], sep);
        FirstToken(w, rest, sep);
        assert w + [sep] + rest == w + ([sep] + rest);
      }
    }
  }

  lemma FirstToken(w: Text, rest: Text, sep: Byte)
    requires w != [] && sep !in w
    ensures Tokens(w + ([sep] + rest), sep) == [w] + Tokens(rest, sep)
  {
    var s := w + ([sep] + rest);
    TokenLengthIs(w, [sep] + rest, sep);
    assert s[0] == w[0] && w[0] in w;
    assert s[..|w|] == w && s[|w|..] == [sep] + rest;
    assert ([sep] + rest)[1..] == rest;
  }
}
