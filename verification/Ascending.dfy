// Walking through a set of numbers in ascending order, as an ordered set of the
// C++ library is iterated.
module Ascending {

  // The position of x in the ascending order of s.
  ghost function Rank(s: set<nat>, x: nat): nat { |set y | y in s && y < x| }

  ghost predicate IsLeast(s: set<nat>, m: nat) { m in s && forall x :: x in s ==> m <= x }

  lemma HasLeast(s: set<nat>) returns (m: nat)
    requires s != {}
    ensures IsLeast(s, m)
  {
    m :| m in s;
    var r := s - {m};
    assert forall y :: y in s ==> y == m || y in r;
    if r != {} {
      var l := HasLeast(r);
      m := if l < m then l else m;
    }
  }

  function Least(s: set<nat>): (m: nat)
    requires s != {}
    ensures m in s && forall x :: x in s ==> m <= x
  {
    assert exists m :: m in s && forall x :: x in s ==> m <= x by {
      var m := HasLeast(s);
      assert IsLeast(s, m);
    }
    var m :| m in s && forall x :: x in s ==> m <= x;
    m
  }

  // rest is what an ascending iteration over s has still to visit.
  ghost predicate Below(s: set<nat>, rest: set<nat>) {
    rest <= s && forall x, y :: x in s - rest && y in rest ==> x < y
  }

  lemma NextBelow(s: set<nat>, rest: set<nat>, it: nat)
    requires Below(s, rest) && it in rest && (forall x :: x in rest ==> it <= x)
    ensures Below(s, rest - {it}) && s - (rest - {it}) == (s - rest) + {it}
    ensures (forall x :: x in s - rest ==> x < it)
    ensures it in s && Rank(s, it) == |s| - |rest|
  {
    assert s - (rest - {it}) == (s - rest) + {it};
    assert (set y | y in s && y < it) == s - rest;
    assert |s - rest| == |s| - |rest|;
  }

  ghost function Elems(s: seq<nat>): set<nat> { set x | x in s }

  ghost predicate Distinct<T>(s: seq<T>) {
    forall i, j :: 0 <= i < j < |s| ==> s[i] != s[j]
  }

  // The elements of s from the least up.
  ghost function Ordered(s: set<nat>): seq<nat> {
    if s == {} then [] else [Least(s)] + Ordered(s - {Least(s)})
  }

  lemma {:induction false} OrderedIs(s: set<nat>)
    ensures |Ordered(s)| == |s| && forall x :: x in Ordered(s) <==> x in s
  {
    if s != {} {
      OrderedIs(s - {Least(s)});
    }
  }

  // Leaving out the least element lowers every other rank by one.
  lemma RankTail(s: set<nat>, l: nat, x: nat)
    requires l in s && x in s && l < x && forall y :: y in s ==> l <= y
    ensures Rank(s, x) == 1 + Rank(s - {l}, x)
  {
    assert (set y | y in s && y < x) == (set y | y in s - {l} && y < x) + {l};
  }

  lemma {:induction false} RankIs(s: set<nat>, x: nat)
    requires x in s
    ensures Rank(s, x) < |Ordered(s)| && Ordered(s)[Rank(s, x)] == x
  {
    var l := Least(s);
    if x == l {
      assert (set y | y in s && y < x) == {};
    } else {
      RankTail(s, l, x);
      RankIs(s - {l}, x);
    }
  }

  lemma {:induction false} RankAt(s: set<nat>, i: nat)
    requires i < |Ordered(s)|
    ensures Ordered(s)[i] in s && Rank(s, Ordered(s)[i]) == i
  {
    var l := Least(s);
    if i == 0 {
      assert (set y | y in s && y < l) == {};
    } else {
      RankAt(s - {l}, i - 1);
      RankTail(s, l, Ordered(s)[i]);
    }
  }

  lemma {:induction false} DistinctSize(s: seq<nat>)
    requires Distinct(s)
    ensures |Elems(s)| == |s|
  {
    if s != [] {
      var last := |s| - 1;
      DistinctSize(s[..last]);
      assert s == s[..last] + [s[last]];
      assert Elems(s) == Elems(s[..last]) + {s[last]};
      assert s[last] !in s[..last];
    }
  }

  lemma OrderedDistinct(s: set<nat>)
    ensures Distinct(Ordered(s))
  {
    var o := Ordered(s);
    forall i, j | 0 <= i < j < |o|
      ensures o[i] != o[j]
    {
      RankAt(s, i);
      RankAt(s, j);
    }
  }
}
