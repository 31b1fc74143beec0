// Median time past and the past time limit, across the switch to the second
// protocol version.
module MedianTime {
  import opened Arithmetic
  import opened Sorting

  const MEDIAN_TIME_SPAN: nat := 11

  function NotAfter(): (int, int) -> bool { (a: int, b: int) => a <= b }

  // The last eleven times, the newest last; fewer near the genesis block.
  function Window(times: seq<int>): (w: seq<int>)
    ensures |w| == Min(|times|, MEDIAN_TIME_SPAN)
  {
    times[|times| - Min(|times|, MEDIAN_TIME_SPAN)..]
  }

  function Median(w: seq<int>): int
    requires w != []
  {
    Sort(w, NotAfter())[|w| / 2]
  }

  // times are those of a chain from the genesis block on.
  function MedianTimePast(times: seq<int>): int
    requires times != []
  {
    Median(Window(times))
  }

  function PastTimeLimit(times: seq<int>, nFirstPosv2Block: int): int
    requires times != []
  {
    if |times| - 1 > nFirstPosv2Block then times[|times| - 1] else MedianTimePast(times)
  }

  // Each block is later than its parent allows.
  ghost predicate Advances(times: seq<int>, nFirstPosv2Block: int) {
    forall i :: 0 < i < |times| ==> Later(times, nFirstPosv2Block, i)
  }

  ghost predicate Later(times: seq<int>, nFirstPosv2Block: int, i: nat)
    requires 0 < i < |times|
  {
    times[i] > PastTimeLimit(times[..i], nFirstPosv2Block)
  }

  // ---------------------------------------------------------------- counting

  // How many are below m.
  function Below(s: seq<int>, m: int): nat {
    if s == [] then 0 else (if s[0] < m then 1 else 0) + Below(s[1..], m)
  }

  lemma {:induction false} BelowJoin(a: seq<int>, b: seq<int>, m: int)
    ensures Below(a + b, m) == Below(a, m) + Below(b, m)
    decreases |a|
  {
    if a == [] {
      assert a + b == b;
    } else {
      assert (a + b)[1..] == a[1..] + b;
      BelowJoin(a[1..], b, m);
    }
  }

  lemma {:induction false} BelowInsert(x: int, s: seq<int>, m: int)
    ensures Below(Insert(x, s, NotAfter()), m) == (if x < m then 1 else 0) + Below(s, m)
    decreases |s|
  {
    if s == [] || x <= s[0] {
      assert ([x] + s)[1..] == s;
    } else {
      BelowInsert(x, s[1..], m);
    }
  }

  lemma {:induction false} BelowSort(s: seq<int>, m: int)
    ensures Below(Sort(s, NotAfter()), m) == Below(s, m)
    decreases |s|
  {
    if s != [] {
      BelowSort(s[1..], m);
      BelowInsert(s[0], Sort(s[1..], NotAfter()), m);
    }
  }

  lemma {:induction false} BelowGrows(s: seq<int>, m: int, t: int)
    requires m <= t
    ensures Below(s, m) <= Below(s, t) <= |s|
    decreases |s|
  {
    if s != [] {
      BelowGrows(s[1..], m, t);
    }
  }

  // In a sorted sequence, element k is at least m when at most k are below m.
  lemma {:induction false} SortedAt(s: seq<int>, k: nat, m: int)
    requires Sorted(s, NotAfter()) && k < |s|
    ensures s[k] >= m <==> Below(s, m) <= k
    decreases |s|
  {
    var le := NotAfter();
    assert forall i :: 0 < i < |s| ==> le(s[0], s[i]);
    if s[0] >= m {
      NoneBelow(s, m);
      assert s[k] >= s[0];
    } else if k > 0 {
      SortedAt(s[1..], k - 1, m);
    }
  }

  lemma {:induction false} NoneBelow(s: seq<int>, m: int)
    requires forall i :: 0 <= i < |s| ==> s[i] >= m
    ensures Below(s, m) == 0
    decreases |s|
  {
    if s != [] {
      NoneBelow(s[1..], m);
    }
  }

  lemma MedianAt(w: seq<int>, m: int)
    requires w != []
    ensures Median(w) >= m <==> Below(w, m) <= |w| / 2
  {
    SortSorts(w, NotAfter());
    BelowSort(w, m);
    SortedAt(Sort(w, NotAfter()), |w| / 2, m);
  }

  // ---------------------------------------------------------------- one block more

  // The window moves on by one block.
  lemma WindowMoves(times: seq<int>, t: int)
    ensures var w := Window(times);
            Window(times + [t]) == (if |w| == MEDIAN_TIME_SPAN then w[1..] else w) + [t]
  {
  }

  // A block later than the median moves the median on, and not past itself.
  lemma MedianMoves(w: seq<int>, t: int)
    requires 0 < |w| <= MEDIAN_TIME_SPAN && t > Median(w)
    ensures Median(w) <= Median((if |w| == MEDIAN_TIME_SPAN then w[1..] else w) + [t]) <= t
  {
    var m, n := Median(w), |w|;
    var kept := if n == MEDIAN_TIME_SPAN then w[1..] else w;
    var next := kept + [t];
    MedianAt(w, m);
    MedianAt(w, m + 1);
    Counted(w, kept, t, m);
    Counted(w, kept, t, t + 1);
    BelowGrows(w, m + 1, t + 1);
    MedianAt(next, m);
    MedianAt(next, t + 1);
  }

  lemma Counted(w: seq<int>, kept: seq<int>, t: int, m: int)
    requires kept == w || (w != [] && kept == w[1..])
    ensures Below(kept + [t], m) == Below(kept, m) + if t < m then 1 else 0
    ensures Below(w, m) - (|w| - |kept|) <= Below(kept, m) <= Below(w, m)
  {
    BelowJoin(kept, [t], m);
    assert [t][1..] == [];
  }

  // Along any chain in which each block is later than its parent's past time
  // limit, whichever version applies, the median time never decreases and never
  // exceeds the block's own time.
  lemma {:induction false} MedianNeverDecreases(times: seq<int>, nFirstPosv2Block: int)
    requires times != [] && Advances(times, nFirstPosv2Block)
    ensures MedianTimePast(times) <= PastTimeLimit(times, nFirstPosv2Block) <= times[|times| - 1]
    ensures |times| > 1 ==> MedianTimePast(times[..|times| - 1]) <= MedianTimePast(times)
    ensures |times| > 1 ==> times[|times| - 1] > MedianTimePast(times[..|times| - 1])
    decreases |times|
  {
    hide Median;
    if |times| == 1 {
      MedianOfOne(times[0]);
      assert Window(times) == [times[0]];
    } else {
      var before, t := times[..|times| - 1], times[|times| - 1];
      AdvancedBefore(times, nFirstPosv2Block);
      MedianNeverDecreases(before, nFirstPosv2Block);
      assert times == before + [t];
      WindowMoves(before, t);
      MedianMoves(Window(before), t);
    }
  }

  lemma MedianOfOne(t: int)
    ensures Median([t]) == t
  {
    assert Sort([t], NotAfter()) == [t];
  }

  lemma AdvancedBefore(times: seq<int>, nFirstPosv2Block: int)
    requires |times| > 1 && Advances(times, nFirstPosv2Block)
    ensures var before := times[..|times| - 1];
            Advances(before, nFirstPosv2Block) && times[|times| - 1] > PastTimeLimit(before, nFirstPosv2Block)
  {
    hide PastTimeLimit;
    var before := times[..|times| - 1];
    forall i | 0 < i < |before|
      ensures Later(before, nFirstPosv2Block, i)
    {
      assert Later(times, nFirstPosv2Block, i) && before[..i] == times[..i];
    }
    assert Later(times, nFirstPosv2Block, |times| - 1);
  }

  // The same between any two blocks of the chain.
  lemma {:induction false} MedianIsMonotone(times: seq<int>, nFirstPosv2Block: int, i: nat, j: nat)
    requires Advances(times, nFirstPosv2Block) && 0 < i <= j <= |times|
    ensures MedianTimePast(times[..i]) <= MedianTimePast(times[..j]) <= times[j - 1]
    decreases j
  {
    hide MedianTimePast;
    AdvancesPrefix(times, nFirstPosv2Block, j);
    MedianNeverDecreases(times[..j], nFirstPosv2Block);
    if i < j {
      assert times[..j][..j - 1] == times[..j - 1];
      MedianIsMonotone(times, nFirstPosv2Block, i, j - 1);
    }
  }

  lemma AdvancesPrefix(times: seq<int>, nFirstPosv2Block: int, j: nat)
    requires Advances(times, nFirstPosv2Block) && j <= |times|
    ensures Advances(times[..j], nFirstPosv2Block)
  {
    hide PastTimeLimit;
    forall i | 0 < i < j
      ensures Later(times[..j], nFirstPosv2Block, i)
    {
      assert Later(times, nFirstPosv2Block, i) && times[..j][..i] == times[..i];
    }
  }

  // ---------------------------------------------------------------- the code

  method GetMedianTimePast(times: seq<int>) returns (r: int)
    requires times != []
    ensures r == MedianTimePast(times)
  {
    hide Sort;
    var pmedian := new int[MEDIAN_TIME_SPAN];
    var pbegin, pend := MEDIAN_TIME_SPAN, MEDIAN_TIME_SPAN;
    var pindex, i := |times|, 0;  // the current block is number pindex - 1
    while i < MEDIAN_TIME_SPAN && pindex > 0
      invariant 0 <= i <= MEDIAN_TIME_SPAN && pbegin == MEDIAN_TIME_SPAN - i && pindex == |times| - i >= 0
      invariant pmedian[pbegin..] == times[pindex..]
    {
      pbegin := pbegin - 1;
      pmedian[pbegin] := times[pindex - 1];
      assert pmedian[pbegin..] == [pmedian[pbegin]] + pmedian[pbegin + 1..];
      i, pindex := i + 1, pindex - 1;
    }
    var sorted := Sort(pmedian[pbegin..], NotAfter());
    assert pmedian[pbegin..] == Window(times);
    r := sorted[(pend - pbegin) / 2];
  }

  method GetPastTimeLimit(times: seq<int>, nFirstPosv2Block: int) returns (r: int)
    requires times != []
    ensures r == PastTimeLimit(times, nFirstPosv2Block)
    ensures Advances(times, nFirstPosv2Block) ==> MedianTimePast(times) <= r <= times[|times| - 1]
  {
    if Advances(times, nFirstPosv2Block) {
      MedianNeverDecreases(times, nFirstPosv2Block);
    }
    if |times| - 1 > nFirstPosv2Block {
      return times[|times| - 1];
    }
    r := GetMedianTimePast(times);
  }
}
