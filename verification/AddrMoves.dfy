// Moving an entry from the "new" buckets to its "tried" bucket, evicting an
// old entry back when that bucket is full.
module AddrMoves {
  import opened Ascending
  import opened AddrTables
  import opened AddrSteps

  function Erased(vv: seq<set<nat>>, id: nat): (ww: seq<set<nat>>)
    ensures |ww| == |vv| && forall b :: 0 <= b < |vv| ==> ww[b] == vv[b] - {id}
  {
    seq(|vv|, b requires 0 <= b < |vv| => vv[b] - {id})
  }

  function ToTried(info: AddrInfo): AddrInfo { info.(nRefCount := 0, fInTried := true) }

  function ToNew(info: AddrInfo): AddrInfo { info.(nRefCount := 1, fInTried := false) }

  // The tried bucket has room.
  function Promoted(e: Env, t: Tables, id: nat): Tables
    requires id in t.mapInfo && |t.vvTried| == TRIED_BUCKET_COUNT
  {
    var k := t.mapInfo[id].GetTriedBucket(e);
    t.(mapInfo := t.mapInfo[id := ToTried(t.mapInfo[id])],
       vvNew := Erased(t.vvNew, id), nNew := t.nNew - 1,
       vvTried := t.vvTried[k := t.vvTried[k] + [id]], nTried := t.nTried + 1)
  }

  // Where an evicted entry goes: its own new bucket, or, when that is full,
  // the bucket the promoted entry was found in.
  function RefugeOf(e: Env, vvNew: seq<set<nat>>, info: AddrInfo, nOrigin: nat): (u: nat)
    requires |vvNew| == NEW_BUCKET_COUNT && nOrigin < |vvNew|
    ensures u < |vvNew|
  {
    var u := info.GetNewBucket(e, info.source);
    if |vvNew[u]| < NEW_BUCKET_SIZE then u else nOrigin
  }

  function WithSlot(row: seq<nat>, pos: nat, id: nat): (r: seq<nat>)
    requires pos < |row|
    ensures |r| == |row|
  {
    row[pos := id]
  }

  // The tried bucket, rearranged into row, is full: the entry at pos makes way.
  function Displaced(e: Env, t: Tables, id: nat, nOrigin: nat, row: seq<nat>, pos: nat): Tables
    requires id in t.mapInfo && |t.vvTried| == TRIED_BUCKET_COUNT && |t.vvNew| == NEW_BUCKET_COUNT
    requires nOrigin < |t.vvNew| && pos < |row| && row[pos] in t.mapInfo
  {
    var k := t.mapInfo[id].GetTriedBucket(e);
    var evicted := row[pos];
    var vvNew := Erased(t.vvNew, id);
    var u := RefugeOf(e, vvNew, t.mapInfo[evicted], nOrigin);
    t.(mapInfo := t.mapInfo[evicted := ToNew(t.mapInfo[evicted])][id := ToTried(t.mapInfo[id])],
       vvNew := vvNew[u := vvNew[u] + {evicted}],
       vvTried := t.vvTried[k := WithSlot(row, pos, id)])
  }

  // ---------------------------------------------------------------- random inspection of a tried bucket

  // The draws SelectTried makes: the i-th is a position from i on.
  ghost predicate Draws(draws: seq<nat>, n: nat) {
    |draws| <= n && forall i :: 0 <= i < |draws| ==> i <= draws[i] < n
  }

  // Swapping position i with draws[i], for each i in turn.
  ghost function Shuffle(row: seq<nat>, draws: seq<nat>): (r: seq<nat>)
    requires Draws(draws, |row|)
    ensures |r| == |row|
    decreases |draws|
  {
    if draws == [] then row
    else
      var last := |draws| - 1;
      SwapSlots(Shuffle(row, draws[..last]), draws[last], last)
  }

  // The first of the leading n entries with the least nLastSuccess.
  ghost predicate IsOldest(m: map<nat, AddrInfo>, row: seq<nat>, n: nat, j: nat) {
    && j < n <= |row|
    && (forall i :: 0 <= i < n ==> row[i] in m)
    && (forall i :: 0 <= i < n ==> m[row[j]].nLastSuccess <= m[row[i]].nLastSuccess)
    && (forall i :: 0 <= i < j ==> m[row[j]].nLastSuccess < m[row[i]].nLastSuccess)
  }

  // SelectTried rearranges the bucket and answers the position drawn in the
  // round that met the oldest inspected entry.
  ghost predicate Selected(m: map<nat, AddrInfo>, row: seq<nat>, draws: seq<nat>, j: nat, result: seq<nat>, pos: nat) {
    && |draws| == (if |row| < TRIED_ENTRIES_INSPECT_ON_EVICT then |row| else TRIED_ENTRIES_INSPECT_ON_EVICT)
    && Draws(draws, |row|)
    && result == Shuffle(row, draws)
    && IsOldest(m, result, |draws|, j)
    && pos == draws[j]
  }

  lemma SwapKeepsMultiset(row: seq<nat>, i: nat, j: nat)
    requires i < |row| && j < |row|
    ensures multiset(SwapSlots(row, i, j)) == multiset(row)
  {
  }

  lemma {:induction false} ShuffleKeepsMultiset(row: seq<nat>, draws: seq<nat>)
    requires Draws(draws, |row|)
    ensures multiset(Shuffle(row, draws)) == multiset(row)
    decreases |draws|
  {
    if draws != [] {
      var last := |draws| - 1;
      ShuffleKeepsMultiset(row, draws[..last]);
      SwapKeepsMultiset(Shuffle(row, draws[..last]), draws[last], last);
    }
  }

  lemma DistinctIsMultiset(s: seq<nat>, x: nat)
    requires Distinct(s)
    ensures multiset(s)[x] <= 1
  {
    if s != [] {
      var last := |s| - 1;
      assert s == s[..last] + [s[last]];
      DistinctIsMultiset(s[..last], x);
      if x == s[last] {
        assert x !in s[..last];
      }
    }
  }

  lemma DistinctTransfers(s: seq<nat>, r: seq<nat>)
    requires Distinct(s) && multiset(s) == multiset(r)
    ensures Distinct(r) && |r| == |s| && forall x :: x in r <==> x in s
  {
    assert |multiset(s)| == |s| && |multiset(r)| == |r|;
    forall x
      ensures x in r <==> x in s
    {
      assert x in r <==> x in multiset(r);
      assert x in s <==> x in multiset(s);
    }
    forall i, j | 0 <= i < j < |r|
      ensures r[i] != r[j]
    {
      DistinctIsMultiset(s, r[j]);
      assert r == r[..j] + r[j..];
      assert r[i] == r[..j][i] && r[j] == r[j..][0];
      assert multiset(r) == multiset(r[..j]) + multiset(r[j..]);
      assert r[i] in multiset(r[..j]) && r[j] in multiset(r[j..]);
    }
  }

  // The answered slot holds the oldest inspected entry exactly when that
  // entry's own round was a swap with itself: SelectTried moves the entry to
  // slot j and then answers the slot it came from.
  lemma SelectTriedHoldsOldest(m: map<nat, AddrInfo>, row: seq<nat>, draws: seq<nat>, j: nat, result: seq<nat>,
                               pos: nat)
    requires Distinct(row) && Selected(m, row, draws, j, result, pos)
    ensures pos < |result| && multiset(result) == multiset(row)
    ensures result[pos] == result[j] <==> draws[j] == j
  {
    ShuffleKeepsMultiset(row, draws);
    DistinctTransfers(row, result);
  }

  // A full bucket where the answer is not the oldest entry inspected: the first
  // draw brings the oldest, from slot 1, to slot 0, and slot 1 is answered.
  lemma SelectTriedCanMissOldest()
    ensures exists m: map<nat, AddrInfo>, row: seq<nat>, draws: seq<nat>, j: nat, result: seq<nat>, pos: nat ::
              && Distinct(row) && |row| == TRIED_BUCKET_SIZE
              && Selected(m, row, draws, j, result, pos) && pos < |result|
              && result[pos] in m && m[result[pos]].nLastSuccess > m[result[j]].nLastSuccess
  {
    var a := FreshInfo(Address(Service(NetAddr([]), 0), Services({}), 0), NetAddr([]));
    var row := seq(TRIED_BUCKET_SIZE, (i: nat) => i);
    var m := map i | i in Elems(row) :: a.(nLastSuccess := if i == 1 then 5 else 9);
    var mixed := SwapSlots(row, 1, 0);
    assert row[0] == 0 && row[1] == 1 && mixed[0] == 1 && mixed[1] == 0;
    OldestIsSwapped(row);
    hide Shuffle, SwapSlots;
    assert forall i :: 0 <= i < 4 ==> mixed[i] in row;
    assert IsOldest(m, mixed, 4, 0);
    assert Selected(m, row, [1, 1, 2, 3], 0, mixed, 1);
  }

  lemma OldestIsSwapped(row: seq<nat>)
    requires |row| >= 4
    ensures Draws([1, 1, 2, 3], |row|) && Shuffle(row, [1, 1, 2, 3]) == SwapSlots(row, 1, 0)
  {
    var mixed := SwapSlots(row, 1, 0);
    FourRounds(row, [1, 1, 2, 3]);
    hide Shuffle, SwapSlots;
    OwnSlot(mixed, 1);
    OwnSlot(mixed, 2);
    OwnSlot(mixed, 3);
  }

  // Drawing its own slot in every round changes nothing.
  lemma OwnSlots(row: seq<nat>)
    requires |row| >= 4
    ensures Draws([0, 1, 2, 3], |row|) && Shuffle(row, [0, 1, 2, 3]) == row
  {
    FourRounds(row, [0, 1, 2, 3]);
    hide Shuffle, SwapSlots;
    OwnSlot(row, 0);
    OwnSlot(row, 1);
    OwnSlot(row, 2);
    OwnSlot(row, 3);
  }

  lemma FourRounds(row: seq<nat>, draws: seq<nat>)
    requires |draws| == 4 && Draws(draws, |row|)
    ensures Shuffle(row, draws)
         == SwapSlots(SwapSlots(SwapSlots(SwapSlots(row, draws[0], 0), draws[1], 1), draws[2], 2), draws[3], 3)
  {
    assert draws[..4] == draws;
    ShuffleNone(row, draws);
    ShuffleTake(row, draws, 0);
    ShuffleTake(row, draws, 1);
    ShuffleTake(row, draws, 2);
    ShuffleTake(row, draws, 3);
    hide Shuffle, SwapSlots;
  }

  lemma ShuffleNone(row: seq<nat>, draws: seq<nat>)
    ensures Draws(draws[..0], |row|) && Shuffle(row, draws[..0]) == row
  {
  }

  lemma ShuffleTake(row: seq<nat>, draws: seq<nat>, k: nat)
    requires Draws(draws, |row|) && k < |draws|
    ensures Draws(draws[..k], |row|) && Draws(draws[..k + 1], |row|)
    ensures Shuffle(row, draws[..k + 1]) == SwapSlots(Shuffle(row, draws[..k]), draws[k], k)
  {
    DrawsTake(draws, |row|, k);
    DrawsTake(draws, |row|, k + 1);
    hide Draws, SwapSlots;
    assert draws[..k + 1][..k] == draws[..k];
  }

  lemma DrawsTake(draws: seq<nat>, n: nat, k: nat)
    requires Draws(draws, n) && k <= |draws|
    ensures Draws(draws[..k], n)
  {
  }

  // One more round.
  lemma ShuffleNext(row: seq<nat>, draws: seq<nat>, nPos: nat)
    requires Draws(draws, |row|) && |draws| <= nPos < |row|
    ensures Draws(draws + [nPos], |row|)
    ensures Shuffle(row, draws + [nPos]) == SwapSlots(Shuffle(row, draws), nPos, |draws|)
  {
    assert (draws + [nPos])[..|draws|] == draws;
  }

  lemma OwnSlot(row: seq<nat>, i: nat)
    requires i < |row|
    ensures SwapSlots(row, i, i) == row
  {
  }

  // ---------------------------------------------------------------- both moves keep the invariant

  lemma EraseNew(m: map<nat, AddrInfo>, vv: seq<set<nat>>, id: nat)
    requires NewSound(m, vv, -1) && id in m && !m[id].fInTried
    ensures NewSound(m[id := ToTried(m[id])], Erased(vv, id), -1)
    ensures NewIds(m[id := ToTried(m[id])]) == NewIds(m) - {id}
    ensures TriedIds(m[id := ToTried(m[id])]) == TriedIds(m) + {id}
  {
    EraseCounts(m, vv, id);
    EraseRows(m, vv, id);
    EraseIds(m, id);
    hide Refs, RefCountSound, NewIds, TriedIds, ToTried;
  }

  lemma EraseCounts(m: map<nat, AddrInfo>, vv: seq<set<nat>>, id: nat)
    requires NewSound(m, vv, -1) && id in m
    ensures var w := m[id := ToTried(m[id])]; forall n :: n in w ==> RefCountSound(w[n], Refs(Erased(vv, id), n))
  {
    var ww := Erased(vv, id);
    hide Refs;
    forall n | n != id
      ensures Refs(ww, n) == Refs(vv, n)
    {
      RefsSame(vv, ww, n);
    }
    RefsZero(ww, id);
  }

  lemma EraseRows(m: map<nat, AddrInfo>, vv: seq<set<nat>>, id: nat)
    requires NewSound(m, vv, -1) && id in m
    ensures var w, ww := m[id := ToTried(m[id])], Erased(vv, id);
            forall b :: 0 <= b < |ww| ==>
              |ww[b]| <= NEW_BUCKET_SIZE && forall n :: n in ww[b] ==> n in w && !w[n].fInTried
  {
    hide Refs, RefCountSound;
    forall b | 0 <= b < |vv|
      ensures |vv[b] - {id}| <= |vv[b]|
    {
      assert vv[b] == (vv[b] - {id}) + (vv[b] * {id});
    }
  }

  lemma EraseIds(m: map<nat, AddrInfo>, id: nat)
    requires id in m && !m[id].fInTried
    ensures NewIds(m[id := ToTried(m[id])]) == NewIds(m) - {id}
    ensures TriedIds(m[id := ToTried(m[id])]) == TriedIds(m) + {id}
  {
  }

  lemma PromoteTried(e: Env, m: map<nat, AddrInfo>, vv: seq<seq<nat>>, id: nat)
    requires TriedSound(e, m, vv) && id in m && !m[id].fInTried
    requires |vv[m[id].GetTriedBucket(e)]| < TRIED_BUCKET_SIZE
    ensures var k := m[id].GetTriedBucket(e);
            TriedSound(e, m[id := ToTried(m[id])], vv[k := vv[k] + [id]])
  {
  }

  lemma PromoteKeeps(e: Env, t: Tables, id: nat)
    requires Inv(e, t) && id in t.mapInfo && !t.mapInfo[id].fInTried && |t.vvTried| == TRIED_BUCKET_COUNT
    requires |t.vvTried[t.mapInfo[id].GetTriedBucket(e)]| < TRIED_BUCKET_SIZE
    ensures Inv(e, Promoted(e, t, id))
  {
    hide Indexed, NewSound, TriedSound;
    PromoteTried(e, t.mapInfo, t.vvTried, id);
    TouchKeepsIndexed(t.nIdCount, t.mapInfo, t.mapAddr, t.vRandom, id, ToTried(t.mapInfo[id]));
    EraseNew(t.mapInfo, t.vvNew, id);
  }

  lemma AdoptNew(m: map<nat, AddrInfo>, vv: seq<set<nat>>, u: nat, evicted: nat)
    requires NewSound(m, vv, -1) && evicted in m && m[evicted].fInTried
    requires u < |vv| && |vv[u]| < NEW_BUCKET_SIZE
    ensures NewSound(m[evicted := ToNew(m[evicted])], vv[u := vv[u] + {evicted}], -1)
    ensures NewIds(m[evicted := ToNew(m[evicted])]) == NewIds(m) + {evicted}
    ensures TriedIds(m[evicted := ToNew(m[evicted])]) == TriedIds(m) - {evicted}
  {
    RefsZero(vv, evicted);
    AdoptRows(m, vv, u, evicted);
    AdoptCounts(m, vv, u, evicted);
    AdoptIds(m, evicted);
    hide Refs, RefCountSound, NewIds, TriedIds, ToNew;
  }

  lemma AdoptRows(m: map<nat, AddrInfo>, vv: seq<set<nat>>, u: nat, evicted: nat)
    requires NewSound(m, vv, -1) && evicted in m && u < |vv| && |vv[u]| < NEW_BUCKET_SIZE
    ensures var w, ww := m[evicted := ToNew(m[evicted])], vv[u := vv[u] + {evicted}];
            forall b :: 0 <= b < |ww| ==>
              |ww[b]| <= NEW_BUCKET_SIZE && forall n :: n in ww[b] ==> n in w && !w[n].fInTried
  {
    hide Refs, RefCountSound;
  }

  lemma AdoptCounts(m: map<nat, AddrInfo>, vv: seq<set<nat>>, u: nat, evicted: nat)
    requires NewSound(m, vv, -1) && evicted in m && u < |vv| && Refs(vv, evicted) == 0 && evicted !in vv[u]
    ensures var w, ww := m[evicted := ToNew(m[evicted])], vv[u := vv[u] + {evicted}];
            forall n :: n in w ==> RefCountSound(w[n], Refs(ww, n))
  {
    hide Refs;
    AdoptRefs(vv, u, evicted);
  }

  lemma AdoptRefs(vv: seq<set<nat>>, u: nat, evicted: nat)
    requires u < |vv| && evicted !in vv[u]
    ensures forall n :: Refs(vv[u := vv[u] + {evicted}], n) == Refs(vv, n) + (if n == evicted then 1 else 0)
  {
    hide Refs;
    forall n
      ensures Refs(vv[u := vv[u] + {evicted}], n) == Refs(vv, n) + (if n == evicted then 1 else 0)
    {
      RefsUpdate(vv, u, vv[u] + {evicted}, n);
    }
  }

  lemma AdoptIds(m: map<nat, AddrInfo>, evicted: nat)
    requires evicted in m && m[evicted].fInTried
    ensures NewIds(m[evicted := ToNew(m[evicted])]) == NewIds(m) + {evicted}
    ensures TriedIds(m[evicted := ToNew(m[evicted])]) == TriedIds(m) - {evicted}
  {
  }

  lemma RearrangeTried(e: Env, m: map<nat, AddrInfo>, vv: seq<seq<nat>>, k: nat, row: seq<nat>)
    requires TriedSound(e, m, vv) && k < |vv| && multiset(row) == multiset(vv[k])
    ensures TriedSound(e, m, vv[k := row])
  {
    DistinctTransfers(vv[k], row);
    forall i | 0 <= i < |row|
      ensures row[i] in m && m[row[i]].fInTried && m[row[i]].GetTriedBucket(e) == k
    {
      assert row[i] in vv[k];
    }
  }

  lemma ReplaceTried(e: Env, m: map<nat, AddrInfo>, vv: seq<seq<nat>>, k: nat, pos: nat, id: nat)
    requires TriedSound(e, m, vv) && k < |vv| && pos < |vv[k]|
    requires id in m && !m[id].fInTried && m[id].GetTriedBucket(e) == k
    ensures var evicted := vv[k][pos];
            evicted != id && evicted in m && m[evicted].fInTried
            && TriedSound(e, m[evicted := ToNew(m[evicted])][id := ToTried(m[id])], vv[k := WithSlot(vv[k], pos, id)])
  {
    var evicted := vv[k][pos];
    var w := m[evicted := ToNew(m[evicted])][id := ToTried(m[id])];
    forall n | n in w && w[n].fInTried
      ensures n in vv[k := WithSlot(vv[k], pos, id)][w[n].GetTriedBucket(e)]
    {
      if n == id {
        assert WithSlot(vv[k], pos, id)[pos] == id;
      } else {
        var i :| 0 <= i < |vv[m[n].GetTriedBucket(e)]| && vv[m[n].GetTriedBucket(e)][i] == n;
        assert vv[k := WithSlot(vv[k], pos, id)][w[n].GetTriedBucket(e)][i] == n;
      }
    }
  }

  lemma RoomAtOrigin(e: Env, m: map<nat, AddrInfo>, vv: seq<set<nat>>, id: nat, nOrigin: nat, info: AddrInfo)
    requires NewSound(m, vv, -1) && nOrigin < |vv| && id in vv[nOrigin]
    ensures |Erased(vv, id)[RefugeOf(e, Erased(vv, id), info, nOrigin)]| < NEW_BUCKET_SIZE
  {
    assert |vv[nOrigin] - {id}| == |vv[nOrigin]| - 1;
  }

  lemma DisplaceNew(e: Env, m: map<nat, AddrInfo>, vv: seq<set<nat>>, id: nat, u: nat, evicted: nat)
    requires NewSound(m, vv, -1) && id in m && !m[id].fInTried
    requires evicted in m && m[evicted].fInTried
    requires u < |vv| && |Erased(vv, id)[u]| < NEW_BUCKET_SIZE
    ensures var w := m[evicted := ToNew(m[evicted])][id := ToTried(m[id])];
            && NewSound(w, Erased(vv, id)[u := Erased(vv, id)[u] + {evicted}], -1)
            && NewIds(w) == NewIds(m) - {id} + {evicted}
            && TriedIds(w) == TriedIds(m) + {id} - {evicted}
  {
    EraseNew(m, vv, id);
    hide NewSound, NewIds, TriedIds, ToTried, ToNew, Erased;
    var m1 := m[id := ToTried(m[id])];
    AdoptNew(m1, Erased(vv, id), u, evicted);
    assert m1[evicted := ToNew(m1[evicted])] == m[evicted := ToNew(m[evicted])][id := ToTried(m[id])];
  }

  lemma DisplaceTried(e: Env, m: map<nat, AddrInfo>, vv: seq<seq<nat>>, id: nat, row: seq<nat>, pos: nat)
    requires TriedSound(e, m, vv) && id in m && !m[id].fInTried
    requires multiset(row) == multiset(vv[m[id].GetTriedBucket(e)]) && pos < |row|
    ensures row[pos] != id && row[pos] in m && m[row[pos]].fInTried
    ensures TriedSound(e, m[row[pos] := ToNew(m[row[pos]])][id := ToTried(m[id])],
                       vv[m[id].GetTriedBucket(e) := WithSlot(row, pos, id)])
  {
    var k := m[id].GetTriedBucket(e);
    RearrangeTried(e, m, vv, k, row);
    hide TriedSound;
    ReplaceTried(e, m, vv[k := row], k, pos, id);
    assert vv[k := row][k := WithSlot(row, pos, id)] == vv[k := WithSlot(row, pos, id)];
  }

  lemma DisplaceIndexed(k: nat, m: map<nat, AddrInfo>, a: map<NetAddr, nat>, v: seq<nat>, id: nat, evicted: nat)
    requires Indexed(k, m, a, v) && id in m && evicted in m && id != evicted
    ensures Indexed(k, m[evicted := ToNew(m[evicted])][id := ToTried(m[id])], a, v)
  {
    hide Indexed;
    TouchKeepsIndexed(k, m, a, v, evicted, ToNew(m[evicted]));
    TouchKeepsIndexed(k, m[evicted := ToNew(m[evicted])], a, v, id, ToTried(m[id]));
  }

  lemma DisplaceKeeps(e: Env, t: Tables, id: nat, nOrigin: nat, row: seq<nat>, pos: nat)
    requires Inv(e, t) && nOrigin < |t.vvNew| && id in t.vvNew[nOrigin] && id in t.mapInfo
    requires |t.vvTried| == TRIED_BUCKET_COUNT && |t.vvNew| == NEW_BUCKET_COUNT
    requires multiset(row) == multiset(t.vvTried[t.mapInfo[id].GetTriedBucket(e)]) && pos < |row|
    ensures row[pos] in t.mapInfo && row[pos] != id && t.mapInfo[row[pos]].fInTried && !t.mapInfo[id].fInTried
    ensures Inv(e, Displaced(e, t, id, nOrigin, row, pos))
  {
    hide Indexed, NewSound, TriedSound;
    InBucketIsNew(t.mapInfo, t.vvNew, -1, nOrigin, id);
    DisplaceTried(e, t.mapInfo, t.vvTried, id, row, pos);
    var evicted := row[pos];
    RoomAtOrigin(e, t.mapInfo, t.vvNew, id, nOrigin, t.mapInfo[evicted]);
    DisplaceIndexed(t.nIdCount, t.mapInfo, t.mapAddr, t.vRandom, id, evicted);
    DisplaceNew(e, t.mapInfo, t.vvNew, id, RefugeOf(e, Erased(t.vvNew, id), t.mapInfo[evicted], nOrigin), evicted);
    assert id in NewIds(t.mapInfo) && evicted in TriedIds(t.mapInfo);
  }
}
