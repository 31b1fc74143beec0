// Which entries of a full tried bucket SelectTried can make way.
module AddrEviction {
  import opened AddrTables
  import opened AddrSteps
  import opened AddrMoves

  // With these draws the slot answered holds n.
  ghost predicate Chosen(m: map<nat, AddrInfo>, row: seq<nat>, draws: seq<nat>, j: nat, n: nat) {
    && Draws(draws, |row|) && j < |draws|
    && Selected(m, row, draws, j, Shuffle(row, draws), draws[j]) && Shuffle(row, draws)[draws[j]] == n
  }

  // One of the first four entries has not been successful later than n.
  ghost predicate Outlived(m: map<nat, AddrInfo>, row: seq<nat>, n: nat)
    requires |row| >= 4 && n in m
  {
    exists s :: 0 <= s < 4 && row[s] in m && m[row[s]].nLastSuccess <= m[n].nLastSuccess
  }

  // ---------------------------------------------------------------- only those

  // What is not yet passed of the first four slots, and whatever slot beyond them
  // has been drawn, holds an entry of the first four.
  lemma {:induction false} FrontStays(row: seq<nat>, draws: seq<nat>)
    requires |row| >= 4 && |draws| <= 4 && Draws(draws, |row|)
    ensures forall s :: |draws| <= s < 4 ==> Shuffle(row, draws)[s] in row[..4]
    ensures forall i :: 0 <= i < |draws| && draws[i] >= 4 ==> Shuffle(row, draws)[draws[i]] in row[..4]
    decreases |draws|
  {
    if draws == [] {
      assert forall s :: 0 <= s < 4 ==> row[s] == row[..4][s];
    } else {
      var last := |draws| - 1;
      var d := draws[last];
      FrontStays(row, draws[..last]);
      var was := Shuffle(row, draws[..last]);
      assert Shuffle(row, draws) == SwapSlots(was, d, last) && was[last] in row[..4];
      hide Shuffle;
      forall i | 0 <= i < |draws| && draws[i] >= 4
        ensures SwapSlots(was, d, last)[draws[i]] in row[..4]
      {
        if i < last {
          assert draws[..last][i] == draws[i];
        }
      }
    }
  }

  // A slot that has been passed keeps what its own round brought it.
  lemma {:induction false} SlotIsFixed(row: seq<nat>, draws: seq<nat>, j: nat)
    requires Draws(draws, |row|) && j < |draws|
    ensures Draws(draws[..j], |row|) && Shuffle(row, draws)[j] == Shuffle(row, draws[..j])[draws[j]]
    decreases |draws|
  {
    var last := |draws| - 1;
    if j < last {
      SlotIsFixed(row, draws[..last], j);
      assert draws[..last][..j] == draws[..j];
    }
  }

  lemma OnlyOutlived(m: map<nat, AddrInfo>, row: seq<nat>, draws: seq<nat>, j: nat, n: nat)
    requires |row| == TRIED_BUCKET_SIZE && n in m && Chosen(m, row, draws, j, n)
    ensures Outlived(m, row, n)
  {
    var result, pos := Shuffle(row, draws), draws[j];
    if pos >= 4 {
      FrontStays(row, draws);
      InFront(m, row, n);
    } else {
      SlotIsFixed(row, draws, j);
      FrontStays(row, draws[..j]);
      assert result[j] in row[..4] && result[j] in m;
      hide Shuffle;
      InFront(m, row, result[j]);
    }
  }

  lemma InFront(m: map<nat, AddrInfo>, row: seq<nat>, n: nat)
    requires |row| >= 4 && n in row[..4] && n in m
    ensures exists s :: 0 <= s < 4 && row[s] == n && row[s] in m
  {
    var s :| 0 <= s < 4 && row[..4][s] == n;
    assert row[s] == n;
  }

  // ---------------------------------------------------------------- all of those

  lemma {:induction false} OldestExists(m: map<nat, AddrInfo>, row: seq<nat>, n: nat) returns (f: nat)
    requires 0 < n <= |row| && forall i :: 0 <= i < n ==> row[i] in m
    ensures IsOldest(m, row, n, f)
  {
    if n == 1 {
      f := 0;
    } else {
      f := OldestExists(m, row, n - 1);
      if m[row[n - 1]].nLastSuccess < m[row[f]].nLastSuccess {
        f := n - 1;
      }
    }
  }

  // The first four entries and n are no older than row[f].
  ghost predicate NoneOlder(m: map<nat, AddrInfo>, row: seq<nat>, f: nat, q: nat)
    requires f < 4 <= |row| && q < |row|
  {
    && row[f] in m && row[q] in m
    && (forall i :: 0 <= i < 4 ==> row[i] in m && m[row[f]].nLastSuccess <= m[row[i]].nLastSuccess)
    && m[row[f]].nLastSuccess <= m[row[q]].nLastSuccess
  }

  // Round 0 brings the oldest, at slot f, to slot 0, and slot f is answered; entry q
  // is there in the end.
  lemma BringUp(row: seq<nat>, f: nat, q: nat) returns (draws: seq<nat>)
    requires 1 <= f < 4 && q != f && q < |row| && |row| >= 4
    ensures |draws| == 4 && Draws(draws, |row|) && draws[0] == f
    ensures var r := Shuffle(row, draws);
            r[0] == row[f] && r[f] == row[q] && forall i :: 0 <= i < 4 ==> r[i] == row[q] || r[i] in row[..4]
  {
    draws := [f, Aim(1, f, q), Aim(2, f, q), Aim(3, f, q)];
    FourRounds(row, draws);
    hide Shuffle;
    assert forall i :: 0 <= i < 4 ==> row[i] == row[..4][i];
  }

  // What to draw in round i.
  function Aim(i: nat, f: nat, q: nat): nat {
    if i == f && q > f then q else if i == q && q < f then f else i
  }

  // The same when the oldest is at slot 0: it goes to slot 1 by way of slot 2.
  lemma BringDown(row: seq<nat>, q: nat) returns (draws: seq<nat>)
    requires 0 < q < |row| && |row| >= 4
    ensures |draws| == 4 && Draws(draws, |row|) && draws[0] == draws[1] < 4
    ensures var r := Shuffle(row, draws);
            r[1] == row[0] && r[draws[0]] == row[q] && forall i :: 0 <= i < 4 ==> r[i] == row[q] || r[i] in row[..4]
  {
    draws := if q == 2 then [3, 3, 3, 3] else [2, 2, if q == 1 then 2 else q, 3];
    FourRounds(row, draws);
    hide Shuffle;
    assert forall i :: 0 <= i < 4 ==> row[i] == row[..4][i];
  }

  lemma UpChosen(m: map<nat, AddrInfo>, row: seq<nat>, f: nat, q: nat)
    requires |row| == TRIED_BUCKET_SIZE && 1 <= f < 4 && q != f && q < |row| && NoneOlder(m, row, f, q)
    ensures exists draws, j :: Chosen(m, row, draws, j, row[q])
  {
    var draws := BringUp(row, f, q);
    hide Shuffle, Draws;
    OldestAt(m, row, Shuffle(row, draws), f, q, 0);
    assert Chosen(m, row, draws, 0, row[q]);
  }

  lemma DownChosen(m: map<nat, AddrInfo>, row: seq<nat>, q: nat)
    requires |row| == TRIED_BUCKET_SIZE && 0 < q < |row| && NoneOlder(m, row, 0, q)
    ensures exists draws, j :: Chosen(m, row, draws, j, row[q])
  {
    var draws := BringDown(row, q);
    hide Shuffle, Draws;
    var r := Shuffle(row, draws);
    OldestAt(m, row, r, 0, q, 1);
    var j := if m[r[0]].nLastSuccess == m[r[1]].nLastSuccess then 0 else 1;
    assert IsOldest(m, r, 4, j);
    assert Chosen(m, row, draws, j, row[q]);
  }

  lemma OldestAt(m: map<nat, AddrInfo>, row: seq<nat>, r: seq<nat>, f: nat, q: nat, j: nat)
    requires f < 4 <= |row| == |r| && q < |row| && NoneOlder(m, row, f, q) && j < 4 && r[j] == row[f]
    requires forall i :: 0 <= i < 4 ==> r[i] == row[q] || r[i] in row[..4]
    ensures forall i :: 0 <= i < 4 ==> r[i] in m && m[r[j]].nLastSuccess <= m[r[i]].nLastSuccess
  {
    forall i | 0 <= i < 4
      ensures r[i] in m && m[r[j]].nLastSuccess <= m[r[i]].nLastSuccess
    {
      if r[i] in row[..4] {
        var s :| 0 <= s < 4 && row[..4][s] == r[i];
        assert row[s] == r[i];
      }
    }
  }

  lemma OwnChosen(m: map<nat, AddrInfo>, row: seq<nat>, f: nat)
    requires |row| == TRIED_BUCKET_SIZE && IsOldest(m, row, 4, f)
    ensures exists draws, j :: Chosen(m, row, draws, j, row[f])
  {
    OwnSlots(row);
    hide Shuffle;
    assert [0, 1, 2, 3][f] == f;
    assert Chosen(m, row, [0, 1, 2, 3], f, row[f]);
  }

  // An entry of a full bucket can be made to make way, by some draws, exactly when
  // one of the first four has not been successful later: the one in the whole bucket
  // whose success is longest past never does, unless it is one of the first four.
  lemma EvictableExactly(m: map<nat, AddrInfo>, row: seq<nat>, n: nat)
    requires |row| == TRIED_BUCKET_SIZE && n in row && forall i :: 0 <= i < |row| ==> row[i] in m
    ensures n in m && (Outlived(m, row, n) <==> exists draws, j :: Chosen(m, row, draws, j, n))
  {
    var q :| 0 <= q < |row| && row[q] == n;
    hide Chosen;
    if Outlived(m, row, n) {
      var f := OldestExists(m, row, 4);
      assert NoneOlder(m, row, f, q);
      if q == f {
        OwnChosen(m, row, f);
      } else if f > 0 {
        UpChosen(m, row, f, q);
      } else {
        DownChosen(m, row, q);
      }
    }
    forall draws, j | Chosen(m, row, draws, j, n)
      ensures Outlived(m, row, n)
    {
      OnlyOutlived(m, row, draws, j, n);
    }
  }
}
