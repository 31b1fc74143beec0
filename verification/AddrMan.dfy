// CAddrMan: the address manager as the object it is, every method tied to the
// step relation it carries out.
module AddrManager {
  import opened Arithmetic
  import opened Ascending
  import opened AddrTables
  import opened Octets
  import opened AddrSteps
  import opened AddrMoves
  import opened AddrRuns
  import opened AddrBounds
  import opened AddrHistories
  import opened AddrCheck
  import opened AddrDisk

  // 2 to the n, and 1 for a negative n.
  function Power2(n: int): (p: nat)
    ensures p > 0
  {
    if n <= 0 then 1
    else
      PowPositive(2, n);
      Pow(2, n)
  }

  lemma FactorGrows(n: nat)
    ensures Power2(n) > 1 <==> n > 0
  {
    if n > 0 {
      PowPositive(2, n - 1);
    }
  }

  // The comparison in one round of SelectTried.
  lemma MeetOne(m: map<nat, AddrInfo>, row: seq<nat>, i: nat, j: nat, nPos: nat)
    requires i <= nPos < |row| && (forall k :: 0 <= k < |row| ==> row[k] in m)
    requires (i > 0 ==> j < i && IsOldest(m, row, i, j))
    ensures var now := row[nPos := row[i]][i := row[nPos]];
            && now[i] == row[nPos] && (i > 0 ==> now[j] == row[j])
            && IsOldest(m, now, i + 1, if i == 0 || m[row[nPos]].nLastSuccess < m[row[j]].nLastSuccess then i else j)
  {
  }

  // Where the scan of OldestAt stands: v is the stalest drawn entry met so far.
  ghost predicate StalestSoFar(m: map<nat, AddrInfo>, s: set<nat>, picks: set<nat>, rest: set<nat>, v: int) {
    && Below(s, rest) && s <= m.Keys
    && if Drawn(s, picks) - rest == {} then v == -1 && (forall i :: i in picks ==> i >= |s| - |rest|)
       else v in m && IsStalest(m, Drawn(s, picks) - rest, v)
  }

  lemma StalestStart(m: map<nat, AddrInfo>, s: set<nat>, picks: set<nat>)
    requires s <= m.Keys
    ensures StalestSoFar(m, s, picks, s, -1)
  {
    assert Drawn(s, picks) - s == {};
  }

  lemma StalestStep(m: map<nat, AddrInfo>, s: set<nat>, picks: set<nat>, rest: set<nat>, v: int, it: nat)
    requires StalestSoFar(m, s, picks, rest, v) && it in rest && (forall x :: x in rest ==> it <= x)
    ensures it in m && (v == -1 || v in m)
    ensures var hit := |s| - |rest| in picks && (v == -1 || m[it].addr.nTime < m[v].addr.nTime);
            StalestSoFar(m, s, picks, rest - {it}, if hit then it else v)
  {
    NextBelow(s, rest, it);
    DrawnStep(s, picks, rest, it);
    assert it in m;
    hide Drawn, Below, Rank, IsStalest, StalestSoFar;
    if |s| - |rest| in picks {
      StalestHit(m, s, picks, rest, v, it);
    } else {
      StalestMiss(m, s, picks, rest, v, it);
    }
  }

  lemma StalestMiss(m: map<nat, AddrInfo>, s: set<nat>, picks: set<nat>, rest: set<nat>, v: int, it: nat)
    requires StalestSoFar(m, s, picks, rest, v) && it in rest && |s| - |rest| !in picks
    requires Drawn(s, picks) - (rest - {it}) == Drawn(s, picks) - rest && Below(s, rest - {it})
    ensures (v == -1 || v in m) && StalestSoFar(m, s, picks, rest - {it}, v)
  {
    hide Drawn, Below, IsStalest;
    assert |rest - {it}| == |rest| - 1;
  }

  // The step when it is one of those drawn.
  lemma StalestHit(m: map<nat, AddrInfo>, s: set<nat>, picks: set<nat>, rest: set<nat>, v: int, it: nat)
    requires StalestSoFar(m, s, picks, rest, v) && it in rest && (forall x :: x in s - rest ==> x < it)
    requires it in s && Drawn(s, picks) - (rest - {it}) == (Drawn(s, picks) - rest) + {it} && Below(s, rest - {it})
    ensures v == -1 || v in m
    ensures StalestSoFar(m, s, picks, rest - {it}, if v == -1 || m[it].addr.nTime < m[v].addr.nTime then it else v)
  {
    var c := Drawn(s, picks) - rest;
    assert forall x :: x in c ==> x in s - rest;
    hide Drawn, Below, Rank, IsStalest;
    StalestGrows(m, c, v, it);
    assert it in c + {it};
  }

  lemma DrawnStep(s: set<nat>, picks: set<nat>, rest: set<nat>, it: nat)
    requires it in s && it in rest
    ensures Drawn(s, picks) - (rest - {it})
         == if Rank(s, it) in picks then (Drawn(s, picks) - rest) + {it} else Drawn(s, picks) - rest
  {
  }

  lemma StalestEnd(m: map<nat, AddrInfo>, s: set<nat>, picks: set<nat>, n0: nat, v: int)
    requires StalestSoFar(m, s, picks, {}, v) && n0 in picks && n0 < |s|
    ensures IsStalest(m, Drawn(s, picks), v)
  {
    assert Drawn(s, picks) - {} == Drawn(s, picks);
  }

  lemma StalestGrows(m: map<nat, AddrInfo>, c: set<nat>, v: int, it: nat)
    requires it in m && (forall x :: x in c ==> x < it)
    requires if c == {} then v == -1 else IsStalest(m, c, v)
    ensures c != {} ==> v in m
    ensures IsStalest(m, c + {it}, if v == -1 || m[it].addr.nTime < m[v].addr.nTime then it else v)
  {
  }

  lemma FourPicks(n0: nat, n1: nat, n2: nat, n3: nat, n: nat)
    requires n0 < n && n1 < n && n2 < n && n3 < n
    ensures Picks({n0, n1, n2, n3}, n)
  {
    var p := {n0} + {n1} + {n2} + {n3};
    assert p == {n0, n1, n2, n3};
  }

  class AddrMan {
    const env: Env
    var nIdCount: nat
    var mapInfo: map<nat, AddrInfo>
    var mapAddr: map<NetAddr, nat>
    var vRandom: seq<nat>
    var nTried: int
    var vvTried: seq<seq<nat>>
    var nNew: int
    var vvNew: seq<set<nat>>

    ghost function View(): Tables
      reads this
    {
      Tables(nIdCount, mapInfo, mapAddr, vRandom, nTried, vvTried, nNew, vvNew)
    }

    constructor (env: Env)
      ensures this.env == env && IsEmpty(View())
    {
      this.env := env;
      nIdCount, mapInfo, mapAddr, vRandom := 0, map[], map[], [];
      nTried, vvTried := 0, seq(TRIED_BUCKET_COUNT, _ => []);
      nNew, vvNew := 0, seq(NEW_BUCKET_COUNT, _ => {});
    }

    function Size(): nat
      reads this
    {
      |vRandom|
    }

    // Find: the id of a known network address.
    method Find(net: NetAddr) returns (found: bool, nId: nat)
      ensures found <==> View().Knows(net)
      ensures found ==> nId == mapAddr[net]
    {
      found, nId := false, 0;
      if net in mapAddr {
        nId := mapAddr[net];
        found := nId in mapInfo;
      }
    }

    method Create(addr: Address, addrSource: NetAddr) returns (nId: nat)
      modifies this
      ensures nId == old(nIdCount)
      ensures View() == Touched(Created(old(View()), addr, addrSource), nId,
                                FreshInfo(addr, addrSource).(nRandomPos := |old(vRandom)|)).(nNew := old(nNew))
    {
      nId := nIdCount;
      nIdCount := nIdCount + 1;
      mapInfo := mapInfo[nId := FreshInfo(addr, addrSource)];
      mapAddr := mapAddr[addr.service.net := nId];
      mapInfo := mapInfo[nId := mapInfo[nId].(nRandomPos := |vRandom|)];
      vRandom := vRandom + [nId];
    }

    method SwapRandom(nRndPos1: nat, nRndPos2: nat)
      requires Shuffled(mapInfo, vRandom) && nRndPos1 < |vRandom| && nRndPos2 < |vRandom|
      modifies this`mapInfo, this`vRandom
      ensures mapInfo == SwapInfos(old(mapInfo), old(vRandom), nRndPos1, nRndPos2)
      ensures vRandom == SwapSlots(old(vRandom), nRndPos1, nRndPos2)
    {
      if nRndPos1 == nRndPos2 {
        SwapInPlace(mapInfo, vRandom, nRndPos1);
        return;
      }
      var nId1, nId2 := vRandom[nRndPos1], vRandom[nRndPos2];
      assert nId1 in mapInfo && nId2 in mapInfo;
      mapInfo := mapInfo[nId1 := mapInfo[nId1].(nRandomPos := nRndPos2)];
      mapInfo := mapInfo[nId2 := mapInfo[nId2].(nRandomPos := nRndPos1)];
      vRandom := vRandom[nRndPos1 := nId2];
      vRandom := vRandom[nRndPos2 := nId1];
    }

    // Lowering a reference count by one and forgetting the id at zero: the two
    // identical passages of ShrinkNew.
    method Release(b: nat, id: nat)
      requires Shuffled(mapInfo, vRandom) && id in mapInfo && b < |vvNew|
      modifies this
      ensures View() == RefDropped(old(View()), b, id)
    {
      hide Shuffled, SwapInfos, SwapSlots;
      TouchKeepsShuffled(mapInfo, vRandom, id, Lowered(mapInfo[id]));
      mapInfo := mapInfo[id := Lowered(mapInfo[id])];
      var info := mapInfo[id];
      if info.nRefCount == 0 {
        SlotOf(mapInfo, vRandom, id);
        SwapRandom(info.nRandomPos, |vRandom| - 1);
        vRandom := vRandom[..|vRandom| - 1];
        mapAddr := mapAddr - {info.Net()};
        mapInfo := mapInfo - {id};
        nNew := nNew - 1;
      }
      vvNew := vvNew[b := vvNew[b] - {id}];
    }

    method GetRandInt(nMax: nat) returns (r: nat)
      requires nMax > 0
      ensures r < nMax
    {
      r :| r < nMax;
    }

    // Among the entries of vNew at positions n0 to n3, the one seen longest ago.
    method OldestAt(vNew: set<nat>, n0: nat, n1: nat, n2: nat, n3: nat) returns (nOldest: int)
      requires n0 < |vNew| && vNew <= mapInfo.Keys
      ensures IsStalest(mapInfo, Drawn(vNew, {n0, n1, n2, n3}), nOldest)
    {
      ghost var picks := {n0, n1, n2, n3};
      hide Rank, Below, Drawn, IsStalest, StalestSoFar;
      StalestStart(mapInfo, vNew, picks);
      var nI := 0;
      nOldest := -1;
      var rest := vNew;
      while rest != {}
        invariant rest <= vNew && nI == |vNew| - |rest|
        invariant StalestSoFar(mapInfo, vNew, picks, rest, nOldest)
        decreases rest
      {
        var it := Least(rest);
        StalestStep(mapInfo, vNew, picks, rest, nOldest, it);
        if nI == n0 || nI == n1 || nI == n2 || nI == n3 {
          if nOldest == -1 || mapInfo[it].addr.nTime < mapInfo[nOldest].addr.nTime {
            nOldest := it;
          }
        }
        rest := rest - {it};
        nI := nI + 1;
      }
      StalestEnd(mapInfo, vNew, picks, n0, nOldest);
    }

    method OldestDrawn(b: nat) returns (nOldest: int, ghost picks: set<nat>)
      requires b < |vvNew| && vvNew[b] != {} && vvNew[b] <= mapInfo.Keys
      ensures Picks(picks, |vvNew[b]|) && IsStalest(mapInfo, Drawn(vvNew[b], picks), nOldest)
    {
      var vNew := vvNew[b];
      var n0 := GetRandInt(|vNew|);
      var n1 := GetRandInt(|vNew|);
      var n2 := GetRandInt(|vNew|);
      var n3 := GetRandInt(|vNew|);
      picks := {n0, n1, n2, n3};
      FourPicks(n0, n1, n2, n3, |vNew|);
      nOldest := OldestAt(vNew, n0, n1, n2, n3);
    }

    // Takes one entry out of a full "new" bucket.
    method ShrinkNew(nUBucket: nat, nNow: int) returns (r: int, ghost picks: set<nat>, ghost v: nat)
      requires Shuffled(mapInfo, vRandom)
      requires nUBucket < |vvNew| && vvNew[nUBucket] != {} && vvNew[nUBucket] <= mapInfo.Keys
      modifies this
      ensures VictimOf(old(View()), nUBucket, nNow, picks, v)
      ensures View() == RefDropped(old(View()), nUBucket, v)
      ensures r == 0 <==> old(mapInfo[v].IsTerrible(nNow))
    {
      hide Shuffled;
      var rest := vvNew[nUBucket];
      picks := {};
      while rest != {}
        invariant unchanged(this) && Below(vvNew[nUBucket], rest)
        invariant forall x :: x in vvNew[nUBucket] - rest ==> !mapInfo[x].IsTerrible(nNow)
        decreases rest
      {
        var it := Least(rest);
        NextBelow(vvNew[nUBucket], rest, it);
        if mapInfo[it].IsTerrible(nNow) {
          v := it;
          assert VictimOf(View(), nUBucket, nNow, picks, v);
          Release(nUBucket, it);
          return 0, picks, v;
        }
        rest := rest - {it};
      }
      var nOldest: int;
      nOldest, picks := OldestDrawn(nUBucket);
      v := nOldest;
      assert VictimOf(View(), nUBucket, nNow, picks, v);
      Release(nUBucket, nOldest);
      r := 1;
    }

    method SelectTried(nKBucket: nat) returns (nOldestPos: nat, ghost draws: seq<nat>, ghost j: nat)
      requires nKBucket < |vvTried| && vvTried[nKBucket] != []
      requires forall i :: 0 <= i < |vvTried[nKBucket]| ==> vvTried[nKBucket][i] in mapInfo
      modifies this`vvTried
      ensures |vvTried| == |old(vvTried)| && vvTried == old(vvTried)[nKBucket := vvTried[nKBucket]]
      ensures Draws(draws, |old(vvTried[nKBucket])|) && j < |draws|
      ensures Selected(mapInfo, old(vvTried[nKBucket]), draws, j, vvTried[nKBucket], nOldestPos)
    {
      ghost var row := vvTried[nKBucket];
      var vTried := vvTried[nKBucket];
      var nOldest: int := -1;
      nOldestPos, draws, j := 0, [], 0;
      var i := 0;
      hide Draws, Shuffle, IsOldest;
      ShuffleNone(row, []);
      while i < TRIED_ENTRIES_INSPECT_ON_EVICT && i < |vTried|
        invariant unchanged(this)
        invariant 0 <= i == |draws| <= TRIED_ENTRIES_INSPECT_ON_EVICT && i <= |vTried| == |row|
        invariant Draws(draws, |row|) && vTried == Shuffle(row, draws) && j <= i
        invariant forall k :: 0 <= k < |vTried| ==> vTried[k] in mapInfo
        invariant i == 0 <==> nOldest == -1
        invariant i > 0 ==> j < i && IsOldest(mapInfo, vTried, i, j) && nOldest == vTried[j] && nOldestPos == draws[j]
      {
        var nPos := GetRandInt(|vTried| - i);
        nPos := nPos + i;
        var nTemp := vTried[nPos];
        ShuffleNext(row, draws, nPos);
        MeetOne(mapInfo, vTried, i, j, nPos);
        vTried := vTried[nPos := vTried[i]];
        vTried := vTried[i := nTemp];
        draws := draws + [nPos];
        if nOldest == -1 || mapInfo[nTemp].nLastSuccess < mapInfo[nOldest].nLastSuccess {
          nOldest, nOldestPos, j := nTemp, nPos, i;
        }
        i := i + 1;
      }
      vvTried := vvTried[nKBucket := vTried];
    }

    // Takes an id out of every "new" bucket.
    method EraseFromNew(nId: nat)
      requires nId in mapInfo
      modifies this`vvNew, this`mapInfo
      ensures vvNew == Erased(old(vvNew), nId)
      ensures var was := old(mapInfo);
              mapInfo == was[nId := was[nId].(nRefCount := was[nId].nRefCount - Refs(old(vvNew), nId))]
    {
      ghost var was := mapInfo[nId].nRefCount;
      var b := 0;
      while b < |vvNew|
        invariant b <= |vvNew| == |old(vvNew)|
        invariant forall k :: 0 <= k < |vvNew| ==> vvNew[k] == if k < b then old(vvNew)[k] - {nId} else old(vvNew)[k]
        invariant mapInfo == old(mapInfo)[nId := old(mapInfo[nId]).(nRefCount := was - Refs(old(vvNew)[..b], nId))]
      {
        RefsTakeOne(old(vvNew), b, nId);
        if nId in vvNew[b] {
          vvNew := vvNew[b := vvNew[b] - {nId}];
          mapInfo := mapInfo[nId := Lowered(mapInfo[nId])];
        }
        b := b + 1;
      }
      assert old(vvNew)[..b] == old(vvNew);
    }

    // Puts a tried entry back into the "new" buckets.
    method Evict(nId: nat, nOrigin: nat)
      requires nId in mapInfo && |vvNew| == NEW_BUCKET_COUNT && nOrigin < |vvNew|
      modifies this`vvNew, this`mapInfo
      ensures mapInfo == old(mapInfo)[nId := ToNew(old(mapInfo)[nId])]
      ensures var u := RefugeOf(env, old(vvNew), old(mapInfo)[nId], nOrigin);
              vvNew == old(vvNew)[u := old(vvNew)[u] + {nId}]
    {
      var nUBucket := mapInfo[nId].GetNewBucket(env, mapInfo[nId].source);
      mapInfo := mapInfo[nId := mapInfo[nId].(fInTried := false)];
      mapInfo := mapInfo[nId := mapInfo[nId].(nRefCount := 1)];
      if |vvNew[nUBucket]| < NEW_BUCKET_SIZE {
        vvNew := vvNew[nUBucket := vvNew[nUBucket] + {nId}];
      } else {
        vvNew := vvNew[nOrigin := vvNew[nOrigin] + {nId}];
      }
    }

    // The second half of MakeTried: the bucket is full, so an entry of it goes
    // back to the "new" buckets. The records were `was` before MakeTried.
    method Exchange(nId: nat, nOrigin: nat, nKBucket: nat, ghost was: map<nat, AddrInfo>)
      returns (ghost draws: seq<nat>, ghost j: nat)
      requires nId in was && mapInfo == was[nId := was[nId].(nRefCount := 0)]
      requires |vvNew| == NEW_BUCKET_COUNT && nOrigin < |vvNew| && nKBucket < |vvTried| && vvTried[nKBucket] != []
      requires forall i :: 0 <= i < |vvTried[nKBucket]| ==> vvTried[nKBucket][i] in was && vvTried[nKBucket][i] != nId
      modifies this`mapInfo, this`vvNew, this`nNew, this`vvTried
      ensures Draws(draws, |old(vvTried)[nKBucket]|) && j < |draws|
      ensures var r := Shuffle(old(vvTried)[nKBucket], draws);
              && Selected(was, old(vvTried)[nKBucket], draws, j, r, draws[j])
              && r[draws[j]] in was
              && mapInfo == was[r[draws[j]] := ToNew(was[r[draws[j]]])][nId := ToTried(was[nId])]
              && vvTried == old(vvTried)[nKBucket := WithSlot(r, draws[j], nId)]
              && var u := RefugeOf(env, old(vvNew), was[r[draws[j]]], nOrigin);
                 vvNew == old(vvNew)[u := old(vvNew)[u] + {r[draws[j]]}]
      ensures nNew == old(nNew) + 1
    {
      var nPos: nat;
      ghost var row := vvTried[nKBucket];
      nPos, draws, j := SelectTried(nKBucket);
      var vTried := vvTried[nKBucket];
      hide Selected, Shuffle, RefugeOf;
      ChosenIsTried(was, nId, row, draws, j, vTried, nPos);
      var nIdEvict := vTried[nPos];
      Evict(nIdEvict, nOrigin);
      nNew := nNew + 1;
      vvTried := vvTried[nKBucket := WithSlot(vTried, nPos, nId)];
      ExchangedInfos(was, nId, nIdEvict);
      mapInfo := mapInfo[nId := mapInfo[nId].(fInTried := true)];
    }

    method MakeTried(nId: nat, nOrigin: nat) returns (ghost draws: seq<nat>, ghost j: nat)
      requires Inv(env, View()) && nOrigin < |vvNew| && nId in vvNew[nOrigin] && nId in mapInfo
      modifies this
      ensures MovedToTried(env, old(View()), View(), nId, nOrigin, draws, j)
    {
      hide Inv, Selected, Shuffle, RefugeOf, Refs;
      RefsAreCounted(env, View(), nOrigin, nId);
      ghost var t := View();
      draws, j := [], 0;
      EraseFromNew(nId);
      nNew := nNew - 1;
      assert mapInfo[nId].nRefCount == 0;
      var nKBucket := mapInfo[nId].GetTriedBucket(env);
      if |vvTried[nKBucket]| < TRIED_BUCKET_SIZE {
        vvTried := vvTried[nKBucket := vvTried[nKBucket] + [nId]];
        nTried := nTried + 1;
        mapInfo := mapInfo[nId := mapInfo[nId].(fInTried := true)];
        assert mapInfo == t.mapInfo[nId := ToTried(t.mapInfo[nId])];
      } else {
        TriedIsKnown(env, t, nId, nKBucket);
        draws, j := Exchange(nId, nOrigin, nKBucket, t.mapInfo);
      }
    }

    // The first "new" bucket holding nId, looking round from nRnd.
    method FindNewBucket(nId: nat, nRnd: nat) returns (nUBucket: int)
      requires nRnd < |vvNew|
      ensures nUBucket == -1 ==> forall b :: 0 <= b < |vvNew| ==> nId !in vvNew[b]
      ensures nUBucket != -1 ==>
                && 0 <= nUBucket < |vvNew| && nId in vvNew[nUBucket]
                && var n := |vvNew|;
                   forall b :: 0 <= b < n && RoundsFrom(nRnd, b, n) < RoundsFrom(nRnd, nUBucket, n) ==> nId !in vvNew[b]
    {
      nUBucket := -1;
      var n := 0;
      while n < |vvNew|
        invariant n <= |vvNew|
        invariant forall b :: 0 <= b < |vvNew| && RoundsFrom(nRnd, b, |vvNew|) < n ==> nId !in vvNew[b]
      {
        var nB := (n + nRnd) % |vvNew|;
        RoundStep(n, nRnd, |vvNew|);
        if nId in vvNew[nB] {
          nUBucket := nB;
          return;
        }
        n := n + 1;
      }
    }

    method Good_(addr: Service, nTime: int)
      requires Inv(env, View())
      modifies this
      ensures GoodStep(env, old(View()), View(), addr, nTime) && Inv(env, View())
    {
      hide Inv;
      ghost var t := View();
      var found, nId := Find(addr.net);
      if !found || mapInfo[nId].addr.service != addr {
        return;
      }
      NewIsSomewhere(env, t, nId);
      TouchIsSound(env, t, nId, GoodUpdated(t.mapInfo[nId], nTime));
      mapInfo := mapInfo[nId := GoodUpdated(mapInfo[nId], nTime)];
      if !mapInfo[nId].fInTried {
        var nRnd := GetRandInt(|vvNew|);
        var nUBucket := FindNewBucket(nId, nRnd);
        if nUBucket == -1 {
          return;
        }
        ghost var u := View();
        ghost var draws, j;
        draws, j := MakeTried(nId, nUBucket);
        assert MovedToTried(env, u, View(), nId, nUBucket, draws, j);
      }
      GoodKeeps(env, t, View(), addr, nTime);
    }

    // The last part of Add_: file an id whose reference count has been raised.
    method FileNew(nId: nat, nUBucket: nat, nNow: int) returns (ghost picks: set<nat>, ghost v: nat)
      requires Shuffled(mapInfo, vRandom) && nUBucket < |vvNew| && vvNew[nUBucket] <= mapInfo.Keys
      modifies this
      ensures Filed(old(View()), View(), nId, nUBucket, nNow, picks, v)
    {
      hide Shuffled;
      picks, v := {}, 0;
      if |vvNew[nUBucket]| == NEW_BUCKET_SIZE {
        var r;
        r, picks, v := ShrinkNew(nUBucket, nNow);
      }
      vvNew := vvNew[nUBucket := vvNew[nUBucket] + {nId}];
    }

    method Add_(addr: Address, source: NetAddr, nTimePenalty: int, nNow: int) returns (fNew: bool)
      requires Inv(env, View())
      modifies this
      ensures AddStep(env, old(View()), View(), addr, source, nTimePenalty, nNow, fNew) && Inv(env, View())
    {
      hide Inv, Filed;
      ghost var t := View();
      fNew := false;
      if !env.routable(addr.service.net) {
        return;
      }
      KnownIsIndexed(env, t, addr.service.net);
      var found, nId := Find(addr.service.net);
      if found {
        AddKnown(nId, addr, source, nTimePenalty, nNow);
      } else {
        AddUnknown(addr, source, nTimePenalty, nNow);
        fNew := true;
      }
      AddKeeps(env, t, View(), addr, source, nTimePenalty, nNow, fNew);
    }

    // The record of a known address after news of it.
    method Refreshed(was: AddrInfo, addr: Address, nTimePenalty: int, nNow: int) returns (info: AddrInfo)
      ensures info == AddUpdated(was, addr, nTimePenalty, nNow)
      ensures info == was.(addr := info.addr) && info.addr.service == was.addr.service
    {
      info := was;
      var fCurrentlyOnline := nNow - addr.nTime < 24 * 60 * 60;
      var nUpdateInterval := if fCurrentlyOnline then 60 * 60 else 24 * 60 * 60;
      if addr.nTime != 0 && (info.addr.nTime == 0 || info.addr.nTime < addr.nTime - nUpdateInterval - nTimePenalty) {
        info := info.(addr := info.addr.(nTime := Penalized(addr.nTime, nTimePenalty)));
      }
      info := info.(addr := info.addr.(nServices := info.addr.nServices.Or(addr.nServices)));
    }

    // Whether an address already known is to be filed in a further bucket.
    method WantsMore(info: AddrInfo, addr: Address) returns (fMore: bool)
      ensures !fMore ==> NothingNew(info, addr) || info.nRefCount >= 1
      ensures fMore ==> !NothingNew(info, addr)
    {
      if addr.nTime == 0 || (info.addr.nTime != 0 && addr.nTime <= info.addr.nTime) {
        return false;
      }
      if info.fInTried {
        return false;
      }
      if info.nRefCount == NEW_BUCKETS_PER_ADDRESS {
        return false;
      }
      var nRandom: nat := *;
      var fSkip := StochasticTest(info.nRefCount, nRandom);
      fMore := !fSkip;
    }

    method AddKnown(nId: nat, addr: Address, source: NetAddr, nTimePenalty: int, nNow: int)
      requires Inv(env, View()) && nId in mapInfo
      modifies this
      ensures AddKnownStep(env, old(View()), View(), nId, addr, source, nTimePenalty, nNow)
    {
      var info := Refreshed(mapInfo[nId], addr, nTimePenalty, nNow);
      hide Inv, AddUpdated, KnownStep, NothingNew, Shuffled, Filed;
      StayIsStep(env, View(), nId, info, addr, source, nNow);
      TablesAreWhole(env, View());
      var fMore := WantsMore(info, addr);
      var nUBucket := info.GetNewBucket(env, source);
      if !fMore || nId in vvNew[nUBucket] {
        mapInfo := mapInfo[nId := info];
      } else {
        RaisedIsReady(env, View(), nId, info, nUBucket);
        FileIsStep(env, View(), nId, info, addr, source, nNow);
        mapInfo := mapInfo[nId := Raised(info)];
        ghost var w := View();
        assert w == Touched(old(View()), nId, Raised(info));
        ghost var picks, v;
        picks, v := FileNew(nId, nUBucket, nNow);
        assert Filed(w, View(), nId, nUBucket, nNow, picks, v);
      }
    }

    // Each reference an entry has halves the chance of another: of the numbers that
    // may be drawn, one in 2^nRefCount lets it through.
    method StochasticTest(nRefCount: int, nRandom: nat) returns (fSkip: bool)
      ensures fSkip <==> nRefCount >= 1 && nRandom % Power2(nRefCount) != 0
    {
      var nFactor := 1;
      var n := 0;
      while n < nRefCount
        invariant n <= (if nRefCount > 0 then nRefCount else 0) && n >= 0 && nFactor == Power2(n) && nFactor >= 1
      {
        nFactor := nFactor * 2;
        n := n + 1;
      }
      FactorGrows(n);
      fSkip := false;
      if nFactor > 1 {
        var nRnd := nRandom % nFactor;
        fSkip := nRnd != 0;
      }
    }

    method AddUnknown(addr: Address, source: NetAddr, nTimePenalty: int, nNow: int)
      requires Inv(env, View()) && addr.service.net !in mapAddr
      modifies this
      ensures AddUnknownStep(env, old(View()), View(), addr, source, nTimePenalty, nNow)
    {
      hide Inv, Filed, NewBucketOf, Penalized;
      ghost var t := View();
      CreatedIsReady(env, t, addr.(nTime := Penalized(addr.nTime, nTimePenalty)), source);
      var nId := Create(addr, source);
      mapInfo := mapInfo[nId := mapInfo[nId].(addr := addr.(nTime := Penalized(addr.nTime, nTimePenalty)))];
      nNew := nNew + 1;
      var nUBucket := mapInfo[nId].GetNewBucket(env, source);
      assert nId !in vvNew[nUBucket];
      mapInfo := mapInfo[nId := Raised(mapInfo[nId])];
      assert View() == Created(t, addr.(nTime := Penalized(addr.nTime, nTimePenalty)), source);
      ghost var picks, v;
      picks, v := FileNew(nId, nUBucket, nNow);
    }

    method Attempt_(addr: Service, nTime: int)
      requires Inv(env, View())
      modifies this
      ensures AttemptStep(old(View()), View(), addr, nTime) && Inv(env, View())
    {
      hide Inv;
      ghost var t := View();
      var found, nId := Find(addr.net);
      if !found || mapInfo[nId].addr.service != addr {
        return;
      }
      mapInfo := mapInfo[nId := mapInfo[nId].(nLastTry := nTime, nAttempts := mapInfo[nId].nAttempts + 1)];
      AttemptKeeps(env, t, View(), addr, nTime);
    }

    method Connected_(addr: Service, nTime: int)
      requires Inv(env, View())
      modifies this
      ensures ConnectedStep(old(View()), View(), addr, nTime) && Inv(env, View())
    {
      hide Inv;
      ghost var t := View();
      var found, nId := Find(addr.net);
      if !found || mapInfo[nId].addr.service != addr {
        return;
      }
      var nUpdateInterval := 20 * 60;
      if nTime - mapInfo[nId].addr.nTime > nUpdateInterval {
        mapInfo := mapInfo[nId := mapInfo[nId].(addr := mapInfo[nId].addr.(nTime := ToUint32(nTime)))];
      }
      ConnectedKeeps(env, t, View(), addr, nTime);
    }

    // Answers a random choice of addresses.
    method GetAddr_() returns (vAddr: seq<Address>)
      requires Inv(env, View())
      modifies this`mapInfo, this`vRandom
      ensures GetAddrStep(old(View()), View(), vAddr) && Inv(env, View())
    {
      ghost var t := View();
      GetAddrStart(env, t);
      hide Inv, Shuffled, SwapInfos, SwapSlots, Answered, SameButPos;
      var nNodes := GETADDR_MAX_PCT * |vRandom| / 100;
      if nNodes > GETADDR_MAX {
        nNodes := GETADDR_MAX;
      }
      vAddr := [];
      var n := 0;
      while n < nNodes
        invariant n <= nNodes == GetAddrCount(|t.vRandom|)
        invariant SameButPos(t.mapInfo, mapInfo) && Shuffled(mapInfo, vRandom)
        invariant multiset(vRandom) == multiset(t.vRandom) && |vRandom| == |t.vRandom|
        invariant |vAddr| == n && Answered(mapInfo, vRandom, vAddr)
      {
        var nRndPos := GetRandInt(|vRandom| - n);
        nRndPos := nRndPos + n;
        SwapAnswers(t.mapInfo, mapInfo, vRandom, n, nRndPos, vAddr);
        SwapRandom(n, nRndPos);
        vAddr := vAddr + [mapInfo[vRandom[n]].addr];
        n := n + 1;
      }
      AnsweredIs(mapInfo, vRandom, vAddr);
      GetAddrKeeps(env, t, View(), vAddr);
    }

    // Check_ of one record: 0, or the code of the first thing wrong with it.
    method CheckRecord(n: nat) returns (r: int)
      requires n in mapInfo
      modifies this`mapAddr
      ensures r == Fault(old(View()), n) && (r == 0 <==> RecordPasses(old(View()), n))
      ensures var net := mapInfo[n].Net();
              r == 0 ==> mapAddr == if net in old(mapAddr) then old(mapAddr) else old(mapAddr)[net := 0]
    {
      FaultIs(View(), n);
      hide RecordPasses;
      var info := mapInfo[n];
      if info.fInTried {
        if info.nLastSuccess == 0 { return -1; }
        if info.nRefCount != 0 { return -2; }
      } else {
        if info.nRefCount < 0 || info.nRefCount > NEW_BUCKETS_PER_ADDRESS { return -3; }
        if info.nRefCount == 0 { return -4; }
      }
      if info.Net() !in mapAddr {
        mapAddr := mapAddr[info.Net() := 0];
      }
      if mapAddr[info.Net()] != n { return -5; }
      if info.nRandomPos < 0 || info.nRandomPos >= |vRandom| || vRandom[info.nRandomPos] != n { return -14; }
      if info.nLastTry < 0 { return -6; }
      if info.nLastSuccess < 0 { return -8; }
      return 0;
    }

    // The first loop of Check_, over all records in ascending order of id.
    method CheckRecords() returns (r: int, setTried: set<nat>, mapNew: map<nat, int>)
      modifies this`mapAddr
      ensures r == 0 <==> AllSound(old(View()))
      ensures r != 0 ==> exists n :: FirstBad(old(View()), n) && r == Fault(old(View()), n)
      ensures r == 0 ==> setTried == TriedIds(mapInfo)
      ensures r == 0 ==> mapNew == map n | n in NewIds(mapInfo) :: mapInfo[n].nRefCount
      ensures (forall n :: n in mapInfo ==> mapInfo[n].Net() in old(mapAddr)) && r == 0 ==> mapAddr == old(mapAddr)
    {
      ghost var t := View();
      setTried, mapNew := {}, map[];
      hide RecordPasses, ReadsAs, Fault;
      ReadsSame(t);
      var rest := mapInfo.Keys;
      while rest != {}
        invariant rest <= mapInfo.Keys && ReadsAs(t, mapAddr)
        invariant forall n :: n in mapInfo && n !in rest ==> RecordPasses(t, n)
        invariant forall n :: n in setTried <==> n in mapInfo && n !in rest && mapInfo[n].fInTried
        invariant forall n :: n in mapNew <==> n in mapInfo && n !in rest && !mapInfo[n].fInTried
        invariant forall n :: n in mapNew ==> mapNew[n] == mapInfo[n].nRefCount
        invariant (forall n :: n in mapInfo ==> mapInfo[n].Net() in t.mapAddr) ==> mapAddr == t.mapAddr
        decreases rest
      {
        var n := Least(rest);
        SameVerdict(t, mapAddr, n);
        r := CheckRecord(n);
        if r != 0 {
          assert FirstBad(t, n);
          return;
        }
        assert ReadsAs(t, mapAddr);
        if mapInfo[n].fInTried {
          setTried := setTried + {n};
        } else {
          mapNew := mapNew[n := mapInfo[n].nRefCount];
        }
        rest := rest - {n};
      }
      r := 0;
    }

    // One bucket of Check_'s second loop.
    method CheckTriedBucket(vTried: seq<nat>, setTried: set<nat>) returns (ok: bool, left: set<nat>)
      ensures ok <==> Distinct(vTried) && Elems(vTried) <= setTried
      ensures ok ==> left == setTried - Elems(vTried)
    {
      left := setTried;
      var i := 0;
      while i < |vTried|
        invariant i <= |vTried| && left == setTried - Elems(vTried[..i])
        invariant Distinct(vTried[..i]) && Elems(vTried[..i]) <= setTried
      {
        assert vTried[..i + 1] == vTried[..i] + [vTried[i]];
        assert Elems(vTried[..i + 1]) == Elems(vTried[..i]) + {vTried[i]};
        if vTried[i] !in left {
          RepeatIsNotDistinct(vTried, i, setTried);
          return false, left;
        }
        left := left - {vTried[i]};
        i := i + 1;
      }
      assert vTried[..i] == vTried;
      ok := true;
    }

    // Check_'s second loop: every tried id is listed, once.
    method CheckTried(setTried: set<nat>) returns (ok: bool, left: set<nat>)
      ensures ok <==> !TriedOver(vvTried, setTried)
      ensures ok ==> forall n :: n in left <==> n in setTried && Refs(BucketSets(vvTried), n) == 0
      ensures ok && left == {} <==>
                && (forall k :: 0 <= k < |vvTried| ==> Distinct(vvTried[k]))
                && (forall n :: Refs(BucketSets(vvTried), n) == if n in setTried then 1 else 0)
    {
      ghost var vv := BucketSets(vvTried);
      left := setTried;
      hide Refs;
      RefsNone(vv);
      var k := 0;
      while k < |vvTried|
        invariant k <= |vvTried| && TriedLeft(vv, k, setTried, left)
        invariant forall b :: 0 <= b < k ==> Distinct(vvTried[b])
      {
        TriedLeftStep(vv, k, setTried, left);
        hide Distinct, Elems;
        ok, left := CheckTriedBucket(vvTried[k], left);
        if !ok {
          return;
        }
        k := k + 1;
      }
      LeftEmpty(vv, mapInfo, setTried, left, map[]);
      ok := true;
    }

    // One bucket of Check_'s third loop.
    method CheckNewBucket(vNew: set<nat>, mapNew: map<nat, int>) returns (ok: bool, left: map<nat, int>)
      requires forall n :: n in mapNew ==> mapNew[n] >= 1
      ensures ok <==> vNew <= mapNew.Keys
      ensures ok ==> left == Met(mapNew, vNew)
    {
      left := mapNew;
      var rest := vNew;
      while rest != {}
        invariant rest <= vNew && vNew - rest <= mapNew.Keys
        invariant forall n :: n in left <==> n in mapNew && (n in vNew - rest ==> mapNew[n] != 1)
        invariant forall n :: n in left ==> left[n] == mapNew[n] - (if n in vNew - rest then 1 else 0)
        decreases rest
      {
        var n := Least(rest);
        if n !in left {
          return false, left;
        }
        left := left[n := left[n] - 1];
        if left[n] == 0 {
          left := left - {n};
        }
        rest := rest - {n};
      }
      ok := true;
    }

    // Check_'s third loop: every untried id is in as many buckets as it counts.
    method CheckNew(mapNew: map<nat, int>) returns (ok: bool, left: map<nat, int>)
      requires NewLeft(vvNew, 0, mapInfo, mapNew)
      ensures ok <==> !NewOver(vvNew, mapInfo)
      ensures ok && |left| == 0 <==> forall n :: Refs(vvNew, n) == WantedRefs(mapInfo, n)
    {
      left := mapNew;
      var b := 0;
      while b < |vvNew|
        invariant b <= |vvNew| && NewLeft(vvNew, b, mapInfo, left)
      {
        NewLeftStep(vvNew, b, mapInfo, left);
        ok, left := CheckNewBucket(vvNew[b], left);
        if !ok {
          return;
        }
        b := b + 1;
      }
      LeftEmpty(vvNew, mapInfo, {}, {}, left);
      ok := true;
    }

    // The consistency check: 0, or a code for the first thing found wrong.
    method Check_() returns (r: int)
      modifies this`mapAddr
      ensures (r == 0 <==> CheckPasses(old(View()))) && Verdict(old(View()), r)
      ensures Inv(env, old(View())) && r == 0 ==> View() == old(View())
    {
      ghost var t := View();
      KnowsAll(env, t);
      hide Inv, RecordPasses, Refs, TriedLeft, Fault, TriedOver, NewOver, BucketSets, Distinct, WantedRefs;
      if |vRandom| != nTried + nNew {
        return -7;
      }
      var setTried, mapNew;
      r, setTried, mapNew := CheckRecords();
      if r != 0 {
        return;
      }
      MapSize(mapInfo, mapNew);
      if |setTried| != nTried {
        return -9;
      }
      if |mapNew| != nNew {
        return -10;
      }
      var ok, left := CheckTried(setTried);
      if !ok {
        return -11;
      }
      NewLeftStart(t, mapNew);
      var okNew, leftNew := CheckNew(mapNew);
      if !okNew {
        return -12;
      }
      if |left| != 0 {
        return -13;
      }
      if |leftNew| != 0 {
        NewShort(vvNew, mapInfo);
        return -15;
      }
      return 0;
    }

    // ---------------------------------------------------------------- writing

    method WriteNew() returns (mapUnkIds: map<nat, int>, s: seq<Token>)
      requires nNew == |NewIds(mapInfo)|
      requires forall n :: n in mapInfo ==> (mapInfo[n].nRefCount != 0 <==> !mapInfo[n].fInTried)
      ensures s == WrittenRecords(mapInfo, NewIds(mapInfo))
      ensures forall n :: n in NewIds(mapInfo) ==> n in mapUnkIds && mapUnkIds[n] == Rank(NewIds(mapInfo), n)
    {
      ghost var news, all := NewIds(mapInfo), mapInfo.Keys;
      hide Scanning, RecordsSoFar, Rank, Ordered, WrittenRecords;
      ScanStart(all, news);
      RecordsStart(mapInfo, news);
      s, mapUnkIds := [], map[];
      var nIds := 0;
      var rest := mapInfo.Keys;
      while rest != {}
        invariant rest <= all && Scanning(all, rest, news, nIds) && nIds == |s| && RecordsSoFar(mapInfo, news, s)
        invariant forall n :: n in news && n !in rest ==> n in mapUnkIds && mapUnkIds[n] == Rank(news, n)
        decreases rest
      {
        if nIds == nNew { break; }
        var n := Least(rest);
        ScanStep(all, rest, news, nIds, n);
        mapUnkIds := mapUnkIds[n := nIds];
        if mapInfo[n].nRefCount != 0 {
          RecordsStep(mapInfo, news, s, n);
          s := s + [Record(ToDisk(mapInfo[n]))];
          nIds := nIds + 1;
        }
        rest := rest - {n};
      }
      ScanEnd(all, rest, news, nIds);
      RecordsEnd(mapInfo, news, s);
    }

    method WriteTried() returns (s: seq<Token>)
      requires nTried == |TriedIds(mapInfo)|
      ensures s == WrittenRecords(mapInfo, TriedIds(mapInfo))
    {
      ghost var tried, all := TriedIds(mapInfo), mapInfo.Keys;
      hide Scanning, RecordsSoFar, Rank, Ordered, WrittenRecords;
      ScanStart(all, tried);
      RecordsStart(mapInfo, tried);
      s := [];
      var nIds := 0;
      var rest := mapInfo.Keys;
      while rest != {}
        invariant rest <= all && Scanning(all, rest, tried, nIds) && nIds == |s| && RecordsSoFar(mapInfo, tried, s)
        decreases rest
      {
        if nIds == nTried { break; }
        var n := Least(rest);
        ScanStep(all, rest, tried, nIds, n);
        if mapInfo[n].fInTried {
          RecordsStep(mapInfo, tried, s, n);
          s := s + [Record(ToDisk(mapInfo[n]))];
          nIds := nIds + 1;
        }
        rest := rest - {n};
      }
      ScanEnd(all, rest, tried, nIds);
      RecordsEnd(mapInfo, tried, s);
    }

    method WriteBucket(vNew: set<nat>, mapUnkIds: map<nat, int>, ghost news: set<nat>) returns (s: seq<Token>)
      requires forall n :: n in vNew ==> n in mapUnkIds && mapUnkIds[n] == Rank(news, n)
      ensures s == Indices(news, Ordered(vNew))
    {
      hide Scanning, Rank, Ordered;
      s := [];
      ScanStart(vNew, vNew);
      var rest := vNew;
      while rest != {}
        invariant rest <= vNew && Scanning(vNew, rest, vNew, |s|)
        invariant |s| <= |Ordered(vNew)| && forall i :: 0 <= i < |s| ==> s[i] == Count(Rank(news, Ordered(vNew)[i]))
        decreases rest
      {
        var n := Least(rest);
        ScanStep(vNew, rest, vNew, |s|, n);
        s := s + [Count(mapUnkIds[n])];
        rest := rest - {n};
      }
      ScanEnd(vNew, rest, vNew, |s|);
    }

    method WriteBuckets(mapUnkIds: map<nat, int>, ghost news: set<nat>) returns (s: seq<Token>)
      requires forall n :: n in news ==> n in mapUnkIds && mapUnkIds[n] == Rank(news, n)
      requires forall b :: 0 <= b < |vvNew| ==> vvNew[b] <= news
      ensures s == Buckets(news, vvNew)
    {
      s := [];
      hide Indices;
      var b := 0;
      while b < |vvNew|
        invariant b <= |vvNew| && s == Buckets(news, vvNew[..b])
      {
        assert vvNew[..b + 1][..b] == vvNew[..b];
        var part := WriteBucket(vvNew[b], mapUnkIds, news);
        s := s + [Count(|vvNew[b]|)] + part;
        b := b + 1;
      }
      assert vvNew[..b] == vvNew;
    }

    method Serialize() returns (s: seq<Token>)
      requires Inv(env, View())
      ensures s == Stream(env, View())
    {
      WritePreconditions(env, View());
      StreamIs(env, View());
      hide Inv, Stream, Buckets, WrittenRecords;
      s := [Count(0), Key(env.nKey), Count(nNew), Count(nTried), Count(NEW_BUCKET_COUNT)];
      var mapUnkIds, part := WriteNew();
      s := s + part;
      part := WriteTried();
      s := s + part;
      part := WriteBuckets(mapUnkIds, NewIds(mapInfo));
      s := s + part;
    }

    // ---------------------------------------------------------------- reading

    method ReadNewRecords(s: seq<Token>, ghost m: map<nat, AddrInfo>, ghost ids: seq<nat>)
      requires HasRecords(s, m, ids) && Separate(m, ids) && 0 <= nNew <= |ids|
      requires mapInfo == map[] && mapAddr == map[] && vRandom == []
      modifies this`mapInfo, this`mapAddr, this`vRandom
      ensures Loaded(m, ids, nNew, mapInfo, mapAddr, vRandom, nNew)
    {
      hide HasRecords, Separate, Loaded;
      LoadStart(m, ids, nNew);
      var n := 0;
      while n < nNew
        invariant n <= nNew && |vRandom| == n && Loaded(m, ids, nNew, mapInfo, mapAddr, vRandom, n)
      {
        RecordAt(s, m, ids, n);
        LoadStep(m, ids, nNew, mapInfo, mapAddr, vRandom, n);
        ghost var before := mapInfo;
        var info := FromDisk(s[HEADER_LENGTH + n].info);
        mapInfo := mapInfo[n := info];
        mapAddr := mapAddr[info.Net() := n];
        mapInfo := mapInfo[n := mapInfo[n].(nRandomPos := |vRandom|)];
        vRandom := vRandom + [n];
        assert mapInfo == before[n := Revived(m[ids[n]], n, false)];
        n := n + 1;
      }
    }

    // Files one tried record; false when its bucket is full.
    method ReadTriedRecord(d: DiskInfo, ghost m: map<nat, AddrInfo>, ghost ids: seq<nat>) returns (kept: bool)
      requires 0 <= nNew <= nIdCount < |ids| && |vvTried| == TRIED_BUCKET_COUNT && Separate(m, ids)
      requires Loaded(m, ids, nNew, mapInfo, mapAddr, vRandom, nIdCount)
      requires TriedLoaded(env, m, ids, nNew, vvTried, nIdCount)
      requires ids[nIdCount] in m && d == ToDisk(m[ids[nIdCount]])
      requires |vvTried[m[ids[nIdCount]].GetTriedBucket(env)]| < TRIED_BUCKET_SIZE
      modifies this`mapInfo, this`mapAddr, this`vRandom, this`vvTried, this`nIdCount
      ensures kept && nIdCount == old(nIdCount) + 1 && |vvTried| == TRIED_BUCKET_COUNT
      ensures Loaded(m, ids, nNew, mapInfo, mapAddr, vRandom, nIdCount)
      ensures TriedLoaded(env, m, ids, nNew, vvTried, nIdCount)
    {
      hide Loaded, TriedLoaded, Separate, FromDisk, ToDisk, TriedBucketOf;
      LoadedLength(m, ids, nNew, mapInfo, mapAddr, vRandom, nIdCount);
      LoadStep(m, ids, nNew, mapInfo, mapAddr, vRandom, nIdCount);
      TriedLoadStep(env, m, ids, nNew, vvTried, nIdCount);
      KeepsAddress(m[ids[nIdCount]]);
      var info := FromDisk(d);
      var nKBucket := info.GetTriedBucket(env);
      kept := |vvTried[nKBucket]| < TRIED_BUCKET_SIZE;
      if kept {
        info := info.(nRandomPos := |vRandom|);
        info := info.(fInTried := true);
        vRandom := vRandom + [nIdCount];
        mapInfo := mapInfo[nIdCount := info];
        mapAddr := mapAddr[info.Net() := nIdCount];
        vvTried := vvTried[nKBucket := vvTried[nKBucket] + [nIdCount]];
        nIdCount := nIdCount + 1;
      }
    }

    method ReadTriedRecords(s: seq<Token>, ghost t: Tables, ghost ids: seq<nat>) returns (nLost: int)
      requires HasRecords(s, t.mapInfo, ids) && Separate(t.mapInfo, ids) && Sides(t.mapInfo, ids, nNew)
      requires TriedSound(env, t.mapInfo, t.vvTried) && 0 <= nNew && 0 <= nTried && nNew + nTried == |ids|
      requires Loaded(t.mapInfo, ids, nNew, mapInfo, mapAddr, vRandom, nNew) && nIdCount == nNew
      requires TriedLoaded(env, t.mapInfo, ids, nNew, vvTried, nNew) && |vvTried| == TRIED_BUCKET_COUNT
      modifies this`mapInfo, this`mapAddr, this`vRandom, this`vvTried, this`nIdCount, this`nTried
      ensures nLost == 0 && nTried == old(nTried) && nIdCount == |ids|
      ensures Loaded(t.mapInfo, ids, nNew, mapInfo, mapAddr, vRandom, |ids|)
      ensures TriedLoaded(env, t.mapInfo, ids, nNew, vvTried, |ids|)
    {
      hide HasRecords, Separate, Loaded, TriedLoaded, Sides, TriedSound;
      nLost := 0;
      var n := 0;
      while n < nTried
        invariant 0 <= n <= nTried == old(nTried) && nLost == 0 && nIdCount == nNew + n
        invariant |vvTried| == TRIED_BUCKET_COUNT
        invariant Loaded(t.mapInfo, ids, nNew, mapInfo, mapAddr, vRandom, nIdCount)
        invariant TriedLoaded(env, t.mapInfo, ids, nNew, vvTried, nIdCount)
      {
        RecordAt(s, t.mapInfo, ids, nIdCount);
        RoomFor(env, t, ids, nNew, vvTried, nIdCount);
        var kept := ReadTriedRecord(s[HEADER_LENGTH + nNew + n].info, t.mapInfo, ids);
        if !kept {
          nLost := nLost + 1;
        }
        n := n + 1;
      }
      nTried := nTried - nLost;
    }

    // Files one index read for bucket b.
    method ReadIndex(b: nat, nIndex: nat, ghost was: seq<set<nat>>, ghost ids: seq<nat>, ghost w: map<nat, AddrInfo>,
                     ghost j: nat)
      requires b < |was| == |vvNew| && j < |Ordered(was[b])| && Distinct(ids)
      requires nIndex in w && nIndex < |ids| && ids[nIndex] == Ordered(was[b])[j]
      requires Refs(was, ids[nIndex]) <= NEW_BUCKETS_PER_ADDRESS
      requires NewLoaded(was, ids, w, b, j, vvNew, mapInfo)
      modifies this`mapInfo, this`vvNew
      ensures |vvNew| == |was| && NewLoaded(was, ids, w, b, j + 1, vvNew, mapInfo)
    {
      hide NewLoaded, Ordered, Refs, Distinct;
      NewLoadStep(was, ids, w, b, j, vvNew, mapInfo, nIndex);
      if mapInfo[nIndex].nRefCount < NEW_BUCKETS_PER_ADDRESS {
        mapInfo := mapInfo[nIndex := Counted1(mapInfo[nIndex])];
        vvNew := vvNew[b := vvNew[b] + {nIndex}];
      }
    }

    method ReadBucket(b: nat, s: seq<Token>, at: nat, nSize: nat, ghost t: Tables, ghost w: map<nat, AddrInfo>)
      requires BucketsReadable(t, w) && b < |t.vvNew| && nSize == |Ordered(t.vvNew[b])|
      requires HasBucket(s, at, NewIds(t.mapInfo), Ordered(t.vvNew[b]))
      requires NewLoaded(t.vvNew, WriteOrder(t.mapInfo), w, b, 0, vvNew, mapInfo) && |vvNew| == |t.vvNew|
      modifies this`mapInfo, this`vvNew
      ensures NewLoaded(t.vvNew, WriteOrder(t.mapInfo), w, b, nSize, vvNew, mapInfo) && |vvNew| == |t.vvNew|
    {
      hide BucketsReadable, WriteOrder, HasBucket, NewLoaded, Ordered, Rank, Refs, NewIds;
      var n := 0;
      while n < nSize
        invariant n <= nSize && |vvNew| == |t.vvNew|
        invariant NewLoaded(t.vvNew, WriteOrder(t.mapInfo), w, b, n, vvNew, mapInfo)
      {
        IndexReady(s, at, t, w, b, n);
        var nIndex: nat := s[at + 1 + n].n;
        ReadIndex(b, nIndex, t.vvNew, WriteOrder(t.mapInfo), w, n);
        n := n + 1;
      }
    }

    method ReadBuckets(s: seq<Token>, at: nat, nUBuckets: nat, ghost t: Tables)
      requires BucketsReadable(t, mapInfo) && nUBuckets == |t.vvNew| == |vvNew|
      requires HasBuckets(s, at, NewIds(t.mapInfo), t.vvNew)
      requires NewLoaded(t.vvNew, WriteOrder(t.mapInfo), mapInfo, 0, 0, vvNew, mapInfo)
      modifies this`mapInfo, this`vvNew
      ensures NewLoaded(t.vvNew, WriteOrder(t.mapInfo), old(mapInfo), nUBuckets, 0, vvNew, mapInfo)
    {
      hide BucketsReadable, WriteOrder, HasBuckets, HasBucket, BucketStart, NewLoaded, Ordered, Rank, Refs, NewIds;
      ghost var w, news := mapInfo, NewIds(t.mapInfo);
      BucketsStart(s, at, news, t.vvNew);
      var pos: nat := at;
      var b := 0;
      while b < nUBuckets
        invariant b <= nUBuckets && |vvNew| == |t.vvNew|
        invariant NewLoaded(t.vvNew, WriteOrder(t.mapInfo), w, b, 0, vvNew, mapInfo)
        invariant BucketStart(s, at, news, t.vvNew, b, pos)
      {
        BucketAt(s, at, news, t.vvNew, b, pos);
        BucketSize(s, pos, news, Ordered(t.vvNew[b]));
        var nSize: nat := s[pos].n;
        ReadBucket(b, s, pos, nSize, t, w);
        NewLoadNext(t.vvNew, WriteOrder(t.mapInfo), w, b, nSize, vvNew, mapInfo);
        pos := pos + 1 + nSize;
        b := b + 1;
      }
    }

    // Everything after the header.
    method ReadBody(s: seq<Token>, nUBuckets: nat, ghost t: Tables)
      requires Readable(env, t, s) && nNew == t.nNew && nTried == t.nTried && nUBuckets == |t.vvNew|
      requires mapInfo == map[] && mapAddr == map[] && vRandom == [] && Emptied(vvTried, vvNew)
      modifies this
      ensures exists w :: ReadBack(env, t, WriteOrder(t.mapInfo), w, View())
    {
      hide Readable, WriteOrder, Sides, Separate, HasRecords, HasBuckets, TriedSound, Loaded, TriedLoaded, NewLoaded,
           BucketsReadable, Emptied, NewIds;
      ghost var ids := WriteOrder(t.mapInfo);
      ReadableParts(env, t, s, vvTried, vvNew);
      ReadNewRecords(s, t.mapInfo, ids);
      nIdCount := nNew;
      var nLost := ReadTriedRecords(s, t, ids);
      ghost var w := mapInfo;
      BucketsReady(env, t, s, mapInfo, mapAddr, vRandom, old(vvTried), vvNew);
      ReadBuckets(s, HEADER_LENGTH + nNew + nTried, nUBuckets, t);
      assert ReadBack(env, t, ids, w, View());
    }

    // Reads back what a sound manager with tables t, under the key that is in
    // the stream, has written.
    constructor Unserialize(e: Env, s: seq<Token>, ghost key: seq<Byte>, ghost t: Tables)
      requires Inv(e.(nKey := key), t) && s == Stream(e.(nKey := key), t)
      ensures env == e.(nKey := key) && Inv(env, View())
      ensures Reloaded(t, View())
      ensures CheckPasses(View()) <==> SuccessOk(t.mapInfo)
    {
      ghost var keyed := e.(nKey := key);
      StreamReadable(keyed, t, s);
      hide Inv, Stream, WriteOrder, Renamed, Readable, ReadBack, Emptied, Packed, CheckPasses, SuccessOk;
      env := e.(nKey := s[1].key);
      nNew, nTried := s[2].n, s[3].n;
      nIdCount, mapInfo, mapAddr, vRandom := 0, map[], map[], [];
      vvTried := NoRows(TRIED_BUCKET_COUNT);
      vvNew := NoSets(NEW_BUCKET_COUNT);
      new;
      NothingFiled();
      ReadBody(s, s[4].n, t);
      ghost var w :| ReadBack(env, t, WriteOrder(t.mapInfo), w, View());
      ReadIsRenamed(env, t, w, View());
      ReloadPasses(env, t, View());
    }
  }

  ghost predicate BucketsReadable(t: Tables, w: map<nat, AddrInfo>) {
    && NewSound(t.mapInfo, t.vvNew, -1) && Distinct(WriteOrder(t.mapInfo))
    && forall i: nat :: i in w <==> i < |WriteOrder(t.mapInfo)|
  }

  ghost predicate Emptied(vvTried: seq<seq<nat>>, vvNew: seq<set<nat>>) {
    && |vvTried| == TRIED_BUCKET_COUNT && (forall k :: 0 <= k < |vvTried| ==> vvTried[k] == [])
    && |vvNew| == NEW_BUCKET_COUNT && (forall b :: 0 <= b < |vvNew| ==> vvNew[b] == {})
  }

  function NoRows(n: nat): seq<seq<nat>> { seq(n, _ => []) }

  function NoSets(n: nat): seq<set<nat>> { seq(n, _ => {}) }

  lemma NothingFiled()
    ensures Emptied(NoRows(TRIED_BUCKET_COUNT), NoSets(NEW_BUCKET_COUNT))
  {
  }

  // s is a written manager, header included.
  ghost predicate Readable(e: Env, t: Tables, s: seq<Token>) {
    var ids := WriteOrder(t.mapInfo);
    && Separate(t.mapInfo, ids) && Sides(t.mapInfo, ids, t.nNew) && Distinct(ids)
    && 0 <= t.nNew && 0 <= t.nTried && |ids| == t.nNew + t.nTried
    && NewSound(t.mapInfo, t.vvNew, -1) && TriedSound(e, t.mapInfo, t.vvTried) && |t.vvNew| == NEW_BUCKET_COUNT
    && HasRecords(s, t.mapInfo, ids) && HasBuckets(s, HEADER_LENGTH + |ids|, NewIds(t.mapInfo), t.vvNew)
  }

  lemma IndexReady(s: seq<Token>, at: nat, t: Tables, w: map<nat, AddrInfo>, b: nat, j: nat)
    requires BucketsReadable(t, w) && b < |t.vvNew| && j < |Ordered(t.vvNew[b])|
    requires HasBucket(s, at, NewIds(t.mapInfo), Ordered(t.vvNew[b]))
    ensures at + 1 + j < |s| && s[at + 1 + j].Count? && s[at + 1 + j].n >= 0
    ensures var i, ids := s[at + 1 + j].n, WriteOrder(t.mapInfo);
            && i in w && i < |ids| && ids[i] == Ordered(t.vvNew[b])[j] && Distinct(ids)
            && Refs(t.vvNew, ids[i]) <= NEW_BUCKETS_PER_ADDRESS
  {
    hide NewSound, WriteOrder, HasBucket, Ordered, Rank, Refs, NewIds;
    IndexAt(s, at, NewIds(t.mapInfo), Ordered(t.vvNew[b]), j);
    IndexIs(t.mapInfo, t.vvNew, b, j);
  }

  lemma ReadableParts(e: Env, t: Tables, s: seq<Token>, vvTried: seq<seq<nat>>, vvNew: seq<set<nat>>)
    requires Readable(e, t, s) && Emptied(vvTried, vvNew)
    ensures var ids := WriteOrder(t.mapInfo);
            && Separate(t.mapInfo, ids) && Sides(t.mapInfo, ids, t.nNew)
            && 0 <= t.nNew && 0 <= t.nTried && |ids| == t.nNew + t.nTried
            && TriedSound(e, t.mapInfo, t.vvTried) && |t.vvNew| == |vvNew| && |vvTried| == TRIED_BUCKET_COUNT
            && HasRecords(s, t.mapInfo, ids) && HasBuckets(s, HEADER_LENGTH + |ids|, NewIds(t.mapInfo), t.vvNew)
            && TriedLoaded(e, t.mapInfo, ids, t.nNew, vvTried, t.nNew)
  {
    hide WriteOrder, TriedSound, NewSound, HasRecords, HasBuckets, TriedLoaded, Sides, Separate;
    TriedLoadStart(e, t.mapInfo, WriteOrder(t.mapInfo), t.nNew, vvTried);
  }

  lemma BucketsReady(e: Env, t: Tables, s: seq<Token>, w: map<nat, AddrInfo>, a: map<NetAddr, nat>, v: seq<nat>,
                     vvTried: seq<seq<nat>>, vvNew: seq<set<nat>>)
    requires Readable(e, t, s) && Emptied(vvTried, vvNew)
    requires Loaded(t.mapInfo, WriteOrder(t.mapInfo), t.nNew, w, a, v, |WriteOrder(t.mapInfo)|)
    ensures BucketsReadable(t, w) && |t.vvNew| == |vvNew|
    ensures NewLoaded(t.vvNew, WriteOrder(t.mapInfo), w, 0, 0, vvNew, w)
  {
    hide WriteOrder, TriedSound, NewSound, HasRecords, HasBuckets, Sides, Separate, NewLoaded, Loaded, Distinct;
    LoadedFresh(t.mapInfo, WriteOrder(t.mapInfo), t.nNew, w, a, v, |WriteOrder(t.mapInfo)|);
    NewLoadStart(t.vvNew, WriteOrder(t.mapInfo), w, vvNew);
  }

  lemma StreamReadable(e: Env, t: Tables, s: seq<Token>)
    requires Inv(e, t) && s == Stream(e, t)
    ensures |s| >= HEADER_LENGTH && Readable(e, t, s) && |t.vvNew| == NEW_BUCKET_COUNT
    ensures s[1] == Key(e.nKey) && s[2] == Count(t.nNew) && s[3] == Count(t.nTried) && s[4] == Count(NEW_BUCKET_COUNT)
  {
    hide Inv, Stream, WriteOrder, Header, HasRecords, HasBuckets, Sides, Separate, TriedSound, NewSound, Distinct;
    StreamLayout(e, t);
    HeaderIs(e, t, s);
    ReadReady(e, t);
  }

  lemma KeepsAddress(info: AddrInfo)
    ensures FromDisk(ToDisk(info)).addr == info.addr
  {
  }

  lemma LoadedLength(m: map<nat, AddrInfo>, ids: seq<nat>, nNew: nat, w: map<nat, AddrInfo>, a: map<NetAddr, nat>,
                     v: seq<nat>, n: nat)
    requires Loaded(m, ids, nNew, w, a, v, n)
    ensures |v| == n
  {
  }

  lemma LoadedFresh(m: map<nat, AddrInfo>, ids: seq<nat>, nNew: nat, w: map<nat, AddrInfo>, a: map<NetAddr, nat>,
                    v: seq<nat>, n: nat)
    requires Loaded(m, ids, nNew, w, a, v, n)
    ensures (forall i: nat :: i in w <==> i < n) && forall i :: i in w ==> w[i].nRefCount == 0
  {
  }

  lemma BucketsStart(s: seq<Token>, at: nat, news: set<nat>, was: seq<set<nat>>)
    requires HasBuckets(s, at, news, was)
    ensures BucketStart(s, at, news, was, 0, at)
  {
    assert was[..0] == [];
  }

  lemma BucketSize(s: seq<Token>, at: nat, news: set<nat>, o: seq<nat>)
    requires HasBucket(s, at, news, o)
    ensures at < |s| && s[at] == Count(|o|)
  {
  }

  lemma HeaderIs(e: Env, t: Tables, s: seq<Token>)
    requires |s| >= HEADER_LENGTH && s[..HEADER_LENGTH] == Header(e, t)
    ensures s[1] == Key(e.nKey) && s[2] == Count(t.nNew) && s[3] == Count(t.nTried) && s[4] == Count(NEW_BUCKET_COUNT)
  {
    var h := s[..HEADER_LENGTH];
    assert s[1] == h[1] && s[2] == h[2] && s[3] == h[3] && s[4] == h[4];
  }

  lemma ReadReady(e: Env, t: Tables)
    requires Inv(e, t)
    ensures var ids := WriteOrder(t.mapInfo);
            && Separate(t.mapInfo, ids) && Sides(t.mapInfo, ids, t.nNew) && Distinct(ids)
            && 0 <= t.nNew && 0 <= t.nTried && |ids| == t.nNew + t.nTried
    ensures NewSound(t.mapInfo, t.vvNew, -1) && TriedSound(e, t.mapInfo, t.vvTried) && |t.vvNew| == NEW_BUCKET_COUNT
  {
    TablesAreWhole(e, t);
    hide Indexed, NewSound, TriedSound, WriteOrder;
    InvSeparate(e, t);
    InvSides(e, t);
  }

  lemma LoadStart(m: map<nat, AddrInfo>, ids: seq<nat>, nNew: nat)
    ensures Loaded(m, ids, nNew, map[], map[], [], 0)
  {
  }

  lemma RecordAt(s: seq<Token>, m: map<nat, AddrInfo>, ids: seq<nat>, i: nat)
    requires HasRecords(s, m, ids) && i < |ids|
    ensures HEADER_LENGTH + i < |s| && ids[i] in m && s[HEADER_LENGTH + i] == Record(ToDisk(m[ids[i]]))
  {
  }

  lemma TriedLoadStart(e: Env, m: map<nat, AddrInfo>, ids: seq<nat>, nNew: nat, vv: seq<seq<nat>>)
    requires |vv| == TRIED_BUCKET_COUNT && (forall k :: 0 <= k < |vv| ==> vv[k] == []) && Sides(m, ids, nNew)
    requires nNew <= |ids|
    ensures TriedLoaded(e, m, ids, nNew, vv, nNew)
  {
  }

  lemma RoomFor(e: Env, t: Tables, ids: seq<nat>, nNew: nat, vv: seq<seq<nat>>, n: nat)
    requires TriedSound(e, t.mapInfo, t.vvTried) && TriedLoaded(e, t.mapInfo, ids, nNew, vv, n)
    requires Sides(t.mapInfo, ids, nNew) && nNew <= n < |ids|
    ensures ids[n] in t.mapInfo && |vv| == TRIED_BUCKET_COUNT
    ensures |vv[t.mapInfo[ids[n]].GetTriedBucket(e)]| < TRIED_BUCKET_SIZE
  {
    hide TriedSound, TriedLoaded;
    RoomForTried(e, t.mapInfo, t.vvTried, ids, nNew, vv, n);
    TriedLoadedSize(e, t.mapInfo, ids, nNew, vv, n);
  }

  lemma TriedLoadedSize(e: Env, m: map<nat, AddrInfo>, ids: seq<nat>, nNew: nat, vv: seq<seq<nat>>, n: nat)
    requires TriedLoaded(e, m, ids, nNew, vv, n)
    ensures |vv| == TRIED_BUCKET_COUNT
  {
  }

  lemma RepeatIsNotDistinct(s: seq<nat>, i: nat, c: set<nat>)
    requires i < |s| && s[i] !in c - Elems(s[..i])
    ensures !(Distinct(s) && Elems(s) <= c)
  {
    if s[i] in c {
      var j :| 0 <= j < |s[..i]| && s[..i][j] == s[i];
      assert s[j] == s[i];
    } else {
      assert s[i] in Elems(s);
    }
  }

  lemma RefsNone(vv: seq<set<nat>>)
    ensures forall n :: Refs(vv[..0], n) == 0
  {
  }

  lemma KnowsAll(e: Env, t: Tables)
    ensures Inv(e, t) ==> forall n :: n in t.mapInfo ==> t.mapInfo[n].Net() in t.mapAddr
  {
  }

  lemma MapSize(m: map<nat, AddrInfo>, w: map<nat, int>)
    requires w == map n | n in NewIds(m) :: m[n].nRefCount
    ensures |w| == |NewIds(m)| && |TriedIds(m)| >= 0
  {
    assert w.Keys == NewIds(m);
    assert |w.Keys| == |w|;
  }

  lemma NewLeftStart(t: Tables, w: map<nat, int>)
    requires w == map n | n in NewIds(t.mapInfo) :: t.mapInfo[n].nRefCount
    requires forall n :: n in t.mapInfo ==> RecordPasses(t, n)
    ensures NewLeft(t.vvNew, 0, t.mapInfo, w)
  {
  }

  // mapAddr as Check_ leaves it reads the same as before, missing keys being 0.
  ghost predicate ReadsAs(t: Tables, a: map<NetAddr, nat>) {
    forall x :: (if x in a then a[x] else 0) == (if x in t.mapAddr then t.mapAddr[x] else 0)
  }

  lemma SameVerdict(t: Tables, a: map<NetAddr, nat>, n: nat)
    requires n in t.mapInfo && ReadsAs(t, a)
    ensures RecordPasses(t.(mapAddr := a), n) <==> RecordPasses(t, n)
    ensures Fault(t.(mapAddr := a), n) == Fault(t, n)
    ensures var net := t.mapInfo[n].Net();
            ReadsAs(t, if net in a then a else a[net := 0])
  {
  }

  lemma ReadsSame(t: Tables)
    ensures ReadsAs(t, t.mapAddr)
  {
  }

  // How many steps from bucket r lead round to bucket b.
  function RoundsFrom(r: nat, b: nat, n: nat): int { if b >= r then b - r else b + n - r }

  lemma RoundStep(i: nat, r: nat, n: nat)
    requires i < n && r < n
    ensures var b := (i + r) % n; b < n && RoundsFrom(r, b, n) == i
    ensures forall c :: 0 <= c < n && RoundsFrom(r, c, n) == i ==> c == (i + r) % n
  {
    var b := if i + r < n then i + r else i + r - n;
    RestIs(i + r, n, b, if i + r < n then 0 else 1);
  }

  lemma RestIs(x: nat, n: nat, b: nat, k: nat)
    requires b < n && x == n * k + b
    ensures x % n == b
  {
    DivMod(n, k, b);
  }

  lemma NewIsSomewhere(e: Env, t: Tables, id: nat)
    requires Inv(e, t) && id in t.mapInfo
    ensures |t.vvNew| == NEW_BUCKET_COUNT
    ensures !t.mapInfo[id].fInTried ==> exists b :: 0 <= b < |t.vvNew| && id in t.vvNew[b]
  {
    RefsZero(t.vvNew, id);
  }

  lemma TouchIsSound(e: Env, t: Tables, id: nat, info: AddrInfo)
    requires Inv(e, t) && id in t.mapInfo
    requires info == t.mapInfo[id].(addr := info.addr, nLastTry := info.nLastTry,
                                    nLastSuccess := info.nLastSuccess, nAttempts := info.nAttempts)
    requires info.addr.service == t.mapInfo[id].addr.service
    ensures Inv(e, Touched(t, id, info)) && |t.vvNew| == NEW_BUCKET_COUNT
  {
    hide InvWith;
    KnownIsIndexed(e, t, info.Net());
    TouchKeeps(e, t, id, info, -1);
  }

  lemma TablesAreWhole(e: Env, t: Tables)
    requires Inv(e, t)
    ensures |t.vvTried| == TRIED_BUCKET_COUNT && |t.vvNew| == NEW_BUCKET_COUNT
  {
  }

  // The two ways AddKnown ends.
  lemma StayIsStep(e: Env, t: Tables, id: nat, info: AddrInfo, addr: Address, source: NetAddr, nNow: int)
    ensures var b := info.GetNewBucket(e, source);
            NothingNew(info, addr) || (b < |t.vvNew| && id in t.vvNew[b]) || info.nRefCount >= 1 ==>
              KnownStep(e, t, Touched(t, id, info), id, info, addr, source, nNow)
  {
  }

  lemma FileIsStep(e: Env, t: Tables, id: nat, info: AddrInfo, addr: Address, source: NetAddr, nNow: int)
    requires var b := info.GetNewBucket(e, source); !NothingNew(info, addr) && b < |t.vvNew| && id !in t.vvNew[b]
    ensures forall r, picks, v ::
              Filed(Touched(t, id, Raised(info)), r, id, info.GetNewBucket(e, source), nNow, picks, v) ==>
              KnownStep(e, t, r, id, info, addr, source, nNow)
  {
    hide Filed;
  }

  lemma RaisedIsReady(e: Env, t: Tables, id: nat, info: AddrInfo, b: nat)
    requires Inv(e, t) && id in t.mapInfo && b < |t.vvNew| && info == t.mapInfo[id].(addr := info.addr)
    ensures Shuffled(t.mapInfo[id := Raised(info)], t.vRandom) && t.vvNew[b] <= t.mapInfo.Keys
  {
    TouchKeepsShuffled(t.mapInfo, t.vRandom, id, Raised(info));
  }

  lemma CreatedIsReady(e: Env, t: Tables, addr: Address, source: NetAddr)
    requires Inv(e, t) && addr.service.net !in t.mapAddr
    ensures |t.vvNew| == NEW_BUCKET_COUNT && t.nIdCount !in t.mapInfo
    ensures var c := Created(t, addr, source);
            Shuffled(c.mapInfo, c.vRandom)
            && forall b :: 0 <= b < |t.vvNew| ==> t.nIdCount !in t.vvNew[b] && t.vvNew[b] <= c.mapInfo.Keys
  {
    KnownIsIndexed(e, t, addr.service.net);
    ExtendIndexed(t.nIdCount, t.mapInfo, t.mapAddr, t.vRandom, Created(t, addr, source).mapInfo[t.nIdCount]);
  }

  // The addresses answered so far are those at the front of the vector.
  ghost predicate Answered(m: map<nat, AddrInfo>, v: seq<nat>, vAddr: seq<Address>) {
    |vAddr| <= |v| && forall i :: 0 <= i < |vAddr| ==> v[i] in m && vAddr[i] == m[v[i]].addr
  }

  lemma GetAddrStart(e: Env, t: Tables)
    requires Inv(e, t)
    ensures Shuffled(t.mapInfo, t.vRandom) && SameButPos(t.mapInfo, t.mapInfo) && Answered(t.mapInfo, t.vRandom, [])
  {
  }

  lemma AnsweredIs(m: map<nat, AddrInfo>, v: seq<nat>, vAddr: seq<Address>)
    requires Answered(m, v, vAddr)
    ensures |vAddr| <= |v| && forall i :: 0 <= i < |vAddr| ==> v[i] in m && vAddr[i] == m[v[i]].addr
  {
  }

  lemma SwapAnswers(m: map<nat, AddrInfo>, w: map<nat, AddrInfo>, v: seq<nat>, n: nat, pos: nat, vAddr: seq<Address>)
    requires SameButPos(m, w) && Shuffled(w, v) && n <= pos < |v| && Answered(w, v, vAddr) && |vAddr| == n
    ensures v[n] in w && v[pos] in w
    ensures SameButPos(m, SwapInfos(w, v, n, pos)) && Shuffled(SwapInfos(w, v, n, pos), SwapSlots(v, n, pos))
    ensures multiset(SwapSlots(v, n, pos)) == multiset(v)
    ensures var u := SwapSlots(v, n, pos);
            var x := SwapInfos(w, v, n, pos);
            u[n] in x && Answered(x, u, vAddr + [x[u[n]].addr])
  {
    SwapKeepsShuffled(w, v, n, pos);
    SwapKeepsMultiset(v, n, pos);
  }

  lemma ExchangedInfos(m: map<nat, AddrInfo>, id: nat, evicted: nat)
    requires id in m && evicted in m && id != evicted
    ensures var w := m[id := m[id].(nRefCount := 0)][evicted := ToNew(m[evicted])];
            w[id := w[id].(fInTried := true)] == m[evicted := ToNew(m[evicted])][id := ToTried(m[id])]
  {
  }

  lemma RefsAreCounted(e: Env, t: Tables, b: nat, id: nat)
    requires Inv(e, t) && b < |t.vvNew| && id in t.vvNew[b]
    ensures id in t.mapInfo && !t.mapInfo[id].fInTried && t.mapInfo[id].nRefCount == Refs(t.vvNew, id)
    ensures |t.vvTried| == TRIED_BUCKET_COUNT && |t.vvNew| == NEW_BUCKET_COUNT
  {
  }

  lemma TriedIsKnown(e: Env, t: Tables, id: nat, k: nat)
    requires Inv(e, t) && id in t.mapInfo && !t.mapInfo[id].fInTried && k < |t.vvTried|
    ensures forall i :: 0 <= i < |t.vvTried[k]| ==> t.vvTried[k][i] in t.mapInfo && t.vvTried[k][i] != id
  {
  }

  // SelectTried does not look at the entry being promoted, and chooses another.
  lemma ChosenIsTried(m: map<nat, AddrInfo>, id: nat, row: seq<nat>, draws: seq<nat>, j: nat, r: seq<nat>, pos: nat)
    requires id in m && Selected(m[id := m[id].(nRefCount := 0)], row, draws, j, r, pos)
    requires forall i :: 0 <= i < |row| ==> row[i] in m && row[i] != id
    ensures r == Shuffle(row, draws) && |r| == |row| && pos == draws[j] && pos < |r|
    ensures r[pos] in m && r[pos] != id && Selected(m, row, draws, j, r, pos)
  {
    ShuffleKeepsMultiset(row, draws);
    assert multiset(r) == multiset(row);
    forall i | 0 <= i < |r|
      ensures r[i] in m && r[i] != id
    {
      assert r[i] in multiset(row);
    }
  }

  lemma WritePreconditions(e: Env, t: Tables)
    requires Inv(e, t)
    ensures t.nNew == |NewIds(t.mapInfo)| && t.nTried == |TriedIds(t.mapInfo)|
    ensures forall n :: n in t.mapInfo ==> (t.mapInfo[n].nRefCount != 0 <==> !t.mapInfo[n].fInTried)
    ensures forall b :: 0 <= b < |t.vvNew| ==> t.vvNew[b] <= NewIds(t.mapInfo)
  {
    RecordPreconditions(t.mapInfo, t.vvNew);
    hide Indexed, NewSound, TriedSound;
  }

  lemma RecordPreconditions(m: map<nat, AddrInfo>, vv: seq<set<nat>>)
    requires NewSound(m, vv, -1)
    ensures forall n :: n in m ==> (m[n].nRefCount != 0 <==> !m[n].fInTried)
    ensures forall b :: 0 <= b < |vv| ==> vv[b] <= NewIds(m)
  {
  }
}
