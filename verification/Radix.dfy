// Numbers written as digits in some base, the highest digit first.
module Radix {
  import opened Arithmetic

  function Value(ds: seq<nat>, b: nat): nat {
    if ds == [] then 0 else b * Value(ds[..|ds| - 1], b) + ds[|ds| - 1]
  }

  ghost predicate InBase(ds: seq<nat>, b: nat) { forall i :: 0 <= i < |ds| ==> ds[i] < b }

  // The digits of n, without zeros in front; none for zero.
  function Digits(n: nat, b: nat): (ds: seq<nat>)
    requires b >= 2
    ensures InBase(ds, b) && (ds == [] <==> n == 0) && (ds != [] ==> ds[0] != 0)
    decreases n
  {
    if n == 0 then []
    else
      Smaller(n, b);
      Digits(n / b, b) + [n % b]
  }

  lemma {:induction false} ValueOfDigits(n: nat, b: nat)
    requires b >= 2
    ensures Value(Digits(n, b), b) == n
    decreases n
  {
    if n > 0 {
      Smaller(n, b);
      ValueOfDigits(n / b, b);
      OneMore(Digits(n / b, b), n % b, b);
      Divided(n, b);
    }
  }

  lemma OneMore(ds: seq<nat>, d: nat, b: nat)
    ensures Value(ds + [d], b) == b * Value(ds, b) + d
  {
    assert (ds + [d])[..|ds|] == ds;
  }

  lemma {:induction false} DigitsOfValue(ds: seq<nat>, b: nat)
    requires b >= 2 && InBase(ds, b) && (ds != [] ==> ds[0] != 0)
    ensures Digits(Value(ds, b), b) == ds
    decreases |ds|
  {
    if ds != [] {
      var init, last := ds[..|ds| - 1], ds[|ds| - 1];
      DigitsOfValue(init, b);
      DivMod(b, Value(init, b), last);
      ValuePositive(ds, b);
      assert ds == init + [last];
    }
  }

  lemma {:induction false} ValuePositive(ds: seq<nat>, b: nat)
    requires b >= 2 && ds != [] && ds[0] != 0
    ensures Value(ds, b) > 0
    decreases |ds|
  {
    if |ds| > 1 {
      var init := ds[..|ds| - 1];
      ValuePositive(init, b);
      assert b * Value(init, b) >= 1;
    }
  }

  lemma {:induction false} ValueJoin(a: seq<nat>, c: seq<nat>, b: nat)
    ensures Value(a + c, b) == Value(a, b) * Pow(b, |c|) + Value(c, b)
    decreases |c|
  {
    if c == [] {
      assert a + c == a;
    } else {
      var init, last := c[..|c| - 1], c[|c| - 1];
      assert (a + c)[..|a + c| - 1] == a + init;
      ValueJoin(a, init, b);
      Spread(Value(a, b), Pow(b, |init|), Value(init, b), last, b);
    }
  }

  lemma Spread(x: nat, p: nat, y: nat, d: nat, b: nat)
    ensures b * (x * p + y) + d == x * (b * p) + (b * y + d)
  {
    assert b * (x * p + y) == b * (x * p) + b * y;
    assert b * (x * p) == x * (b * p);
  }

  lemma {:induction false} ValueBound(ds: seq<nat>, b: nat)
    requires InBase(ds, b)
    ensures Value(ds, b) < Pow(b, |ds|)
    decreases |ds|
  {
    if ds != [] {
      var init := ds[..|ds| - 1];
      ValueBound(init, b);
      StillBelow(b, Value(init, b), Pow(b, |init|), ds[|ds| - 1]);
    }
  }

  lemma StillBelow(b: nat, v: nat, p: nat, d: nat)
    requires v < p && d < b
    ensures b * v + d < b * p
  {
    NonNegative(b, p - 1 - v);
    assert b * p == b * v + b * (p - 1 - v) + b;
  }

  // Zeros in front change nothing.
  lemma {:induction false} ZerosInFront(z: seq<nat>, ds: seq<nat>, b: nat)
    requires forall i :: 0 <= i < |z| ==> z[i] == 0
    ensures Value(z + ds, b) == Value(ds, b)
    decreases |z| + |ds|
  {
    if ds != [] {
      assert (z + ds)[..|z + ds| - 1] == z + ds[..|ds| - 1];
      ZerosInFront(z, ds[..|ds| - 1], b);
    } else if z != [] {
      assert (z + ds)[..|z| - 1] == z[..|z| - 1] + ds;
      ZerosInFront(z[..|z| - 1], ds, b);
    }
  }
}
