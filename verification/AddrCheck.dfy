// The consistency check of the address manager, and how it relates to the
// invariant.
module AddrCheck {
  import opened Ascending
  import opened AddrTables
  import opened AddrBounds
  import opened AddrHistories

  // What Check_ asks of one record. A network address that is not in mapAddr
  // reads as id 0 there, and is added.
  ghost predicate RecordPasses(t: Tables, n: nat)
    requires n in t.mapInfo
  {
    var info := t.mapInfo[n];
    && (if info.fInTried then info.nLastSuccess != 0 && info.nRefCount == 0
        else 1 <= info.nRefCount <= NEW_BUCKETS_PER_ADDRESS)
    && (if info.Net() in t.mapAddr then t.mapAddr[info.Net()] == n else n == 0)
    && 0 <= info.nRandomPos < |t.vRandom| && t.vRandom[info.nRandomPos] == n
    && info.nLastTry >= 0 && info.nLastSuccess >= 0
  }

  // The code of the first thing found wrong with a record, and 0 for a sound one.
  function Fault(t: Tables, n: nat): int
    requires n in t.mapInfo
  {
    var info := t.mapInfo[n];
    if info.fInTried && info.nLastSuccess == 0 then -1
    else if info.fInTried && info.nRefCount != 0 then -2
    else if !info.fInTried && !(0 <= info.nRefCount <= 4) then -3
    else if !info.fInTried && info.nRefCount == 0 then -4
    else if n != (if info.Net() in t.mapAddr then t.mapAddr[info.Net()] else 0) then -5
    else if !(0 <= info.nRandomPos < |t.vRandom| && t.vRandom[info.nRandomPos] == n) then -14
    else if info.nLastTry < 0 then -6
    else if info.nLastSuccess < 0 then -8
    else 0
  }

  lemma FaultIs(t: Tables, n: nat)
    requires n in t.mapInfo
    ensures Fault(t, n) == 0 <==> RecordPasses(t, n)
  {
  }

  // The record with the least id that is not sound.
  ghost predicate FirstBad(t: Tables, n: nat) {
    n in t.mapInfo && !RecordPasses(t, n) && forall k :: k in t.mapInfo && k < n ==> RecordPasses(t, k)
  }

  ghost predicate AllSound(t: Tables) { forall n :: n in t.mapInfo ==> RecordPasses(t, n) }

  // Some tried bucket lists an id twice, or one that is not tried or in another too.
  ghost predicate TriedOver(vv: seq<seq<nat>>, tried: set<nat>) {
    || (exists k :: 0 <= k < |vv| && !Distinct(vv[k]))
    || exists n :: Refs(BucketSets(vv), n) > if n in tried then 1 else 0
  }

  // Some id is in more "new" buckets than it counts.
  ghost predicate NewOver(vv: seq<set<nat>>, m: map<nat, AddrInfo>) {
    exists n :: Refs(vv, n) > WantedRefs(m, n)
  }

  lemma NewShort(vv: seq<set<nat>>, m: map<nat, AddrInfo>)
    requires !NewOver(vv, m) && exists n :: Refs(vv, n) != WantedRefs(m, n)
    ensures exists n :: Refs(vv, n) < WantedRefs(m, n)
  {
    hide Refs, WantedRefs;
    var n :| Refs(vv, n) != WantedRefs(m, n);
  }

  // What Check_ answers.
  ghost predicate Verdict(t: Tables, r: int) {
    if |t.vRandom| != t.nTried + t.nNew then r == -7
    else if !AllSound(t) then exists n :: FirstBad(t, n) && r == Fault(t, n)
    else if |TriedIds(t.mapInfo)| != t.nTried then r == -9
    else if |NewIds(t.mapInfo)| != t.nNew then r == -10
    else if TriedOver(t.vvTried, TriedIds(t.mapInfo)) then r == -11
    else if NewOver(t.vvNew, t.mapInfo) then r == -12
    else if exists n :: n in TriedIds(t.mapInfo) && Refs(BucketSets(t.vvTried), n) == 0 then r == -13
    else if exists n :: Refs(t.vvNew, n) < WantedRefs(t.mapInfo, n) then r == -15
    else r == 0
  }

  // How many "new" buckets an id should be in.
  function WantedRefs(m: map<nat, AddrInfo>, n: nat): int {
    if n in m && !m[n].fInTried then m[n].nRefCount else 0
  }

  ghost predicate CheckPasses(t: Tables) {
    && |t.vRandom| == t.nTried + t.nNew
    && (forall n :: n in t.mapInfo ==> RecordPasses(t, n))
    && |TriedIds(t.mapInfo)| == t.nTried && |NewIds(t.mapInfo)| == t.nNew
    && (forall k :: 0 <= k < |t.vvTried| ==> Distinct(t.vvTried[k]))
    && (forall n :: Refs(BucketSets(t.vvTried), n) == if n in TriedIds(t.mapInfo) then 1 else 0)
    && (forall n :: Refs(t.vvNew, n) == WantedRefs(t.mapInfo, n))
  }

  lemma RefsOne(vv: seq<set<nat>>, n: nat, k: nat)
    requires k < |vv| && forall b :: 0 <= b < |vv| ==> (n in vv[b] <==> b == k)
    ensures Refs(vv, n) == 1
  {
    RefsUpdate(vv, k, {}, n);
    RefsZero(vv[k := {}], n);
  }

  lemma TriedRefs(e: Env, m: map<nat, AddrInfo>, vv: seq<seq<nat>>, n: nat)
    requires TriedSound(e, m, vv)
    ensures Refs(BucketSets(vv), n) == if n in TriedIds(m) then 1 else 0
  {
    var ww := BucketSets(vv);
    if n in TriedIds(m) {
      var k := m[n].GetTriedBucket(e);
      assert n in vv[k];
      RefsOne(ww, n, k);
    } else {
      RefsZero(ww, n);
    }
  }

  lemma NewRefs(m: map<nat, AddrInfo>, vv: seq<set<nat>>, n: nat)
    requires NewSound(m, vv, -1)
    ensures Refs(vv, n) == WantedRefs(m, n)
  {
    RefsZero(vv, n);
  }

  lemma RecordsPass(e: Env, t: Tables, n: nat)
    requires Inv(e, t) && n in t.mapInfo
    ensures t.mapInfo[n].Net() in t.mapAddr
    ensures RecordPasses(t, n) <==>
              var info := t.mapInfo[n];
              info.nLastTry >= 0 && info.nLastSuccess >= 0 && (info.fInTried ==> info.nLastSuccess != 0)
  {
  }

  // The invariant is everything Check_ looks at except the clock values.
  lemma InvPasses(e: Env, t: Tables)
    requires Inv(e, t)
    ensures CheckPasses(t) <==> TimesOk(t.mapInfo)
  {
    hide Inv, Refs, TriedIds, NewIds, WantedRefs, BucketSets, RecordPasses, Distinct;
    forall n
      ensures Refs(BucketSets(t.vvTried), n) == (if n in TriedIds(t.mapInfo) then 1 else 0)
              && Refs(t.vvNew, n) == WantedRefs(t.mapInfo, n)
    {
      SoundRefs(e, t, n);
    }
    forall n | n in t.mapInfo
      ensures RecordPasses(t, n) <==>
                var info := t.mapInfo[n];
                info.nLastTry >= 0 && info.nLastSuccess >= 0 && (info.fInTried ==> info.nLastSuccess != 0)
    {
      RecordsPass(e, t, n);
    }
    NeverOverfull(e, t);
    InvHasSizes(e, t);
    BucketsDistinct(e, t);
  }

  lemma SoundRefs(e: Env, t: Tables, n: nat)
    requires Inv(e, t)
    ensures Refs(BucketSets(t.vvTried), n) == if n in TriedIds(t.mapInfo) then 1 else 0
    ensures Refs(t.vvNew, n) == WantedRefs(t.mapInfo, n)
  {
    hide NewSound, TriedSound;
    TriedRefs(e, t.mapInfo, t.vvTried, n);
    NewRefs(t.mapInfo, t.vvNew, n);
  }

  lemma BucketsDistinct(e: Env, t: Tables)
    requires Inv(e, t)
    ensures forall k :: 0 <= k < |t.vvTried| ==> Distinct(t.vvTried[k])
  {
  }

  // A manager read back passes exactly when the success times written were sound.
  lemma ReloadPasses(e: Env, t: Tables, r: Tables)
    requires Inv(e, t) && Reloaded(t, r)
    ensures Inv(e, r) && (CheckPasses(r) <==> SuccessOk(t.mapInfo))
  {
    hide Inv, CheckPasses, TimesOk, SuccessOk, Reloaded;
    StepKeeps(e, t, Reload, r);
    InvPasses(e, r);
    ReloadTimes(t, r);
  }

  // In every run whose callers pass positive times to Good_ and non-negative
  // ones to Attempt_, the check passes after every step.
  lemma RunPasses(e: Env, ops: seq<Op>, states: seq<Tables>)
    requires Run(e, ops, states) && forall i :: 0 <= i < |ops| ==> ClockOk(ops[i])
    ensures forall i :: 0 <= i < |states| ==> CheckPasses(states[i]) && Inv(e, states[i])
  {
    forall i | 0 <= i < |states|
      ensures CheckPasses(states[i]) && Inv(e, states[i])
    {
      hide Inv, Step, CheckPasses, ClockOk, TimesOk;
      RunKeeps(e, ops[..i], states[..i + 1]);
      RunTimes(e, ops[..i], states[..i + 1]);
      InvPasses(e, states[i]);
    }
  }

  // ---------------------------------------------------------------- the bookkeeping of Check_

  // setTried after the first i buckets: what they have not used up.
  ghost predicate TriedLeft(vv: seq<set<nat>>, i: nat, tried: set<nat>, left: set<nat>)
    requires i <= |vv|
  {
    && (forall n :: Refs(vv[..i], n) == (if n in tried then 1 else 0) - (if n in left then 1 else 0))
    && left <= tried
  }

  lemma TriedLeftStep(vv: seq<set<nat>>, i: nat, tried: set<nat>, left: set<nat>)
    requires i < |vv| && TriedLeft(vv, i, tried, left)
    ensures vv[i] <= left ==> TriedLeft(vv, i + 1, tried, left - vv[i])
    ensures !(vv[i] <= left) ==> exists n :: Refs(vv, n) > if n in tried then 1 else 0
  {
    forall n
      ensures Refs(vv[..i + 1], n) == Refs(vv[..i], n) + (if n in vv[i] then 1 else 0)
    {
      RefsTakeOne(vv, i, n);
    }
    if !(vv[i] <= left) {
      var n :| n in vv[i] && n !in left;
      RefsGrow(vv, i + 1, n);
    }
  }

  // mapNew after the first i buckets: the references still to be met.
  ghost predicate NewLeft(vv: seq<set<nat>>, i: nat, m: map<nat, AddrInfo>, left: map<nat, int>)
    requires i <= |vv|
  {
    forall n: nat :: (n in left ==> left[n] >= 1)
                && Refs(vv[..i], n) == WantedRefs(m, n) - (if n in left then left[n] else 0)
  }

  function Met(left: map<nat, int>, s: set<nat>): map<nat, int> {
    map n | n in left && left[n] - (if n in s then 1 else 0) != 0 :: left[n] - (if n in s then 1 else 0)
  }

  lemma NewLeftStep(vv: seq<set<nat>>, i: nat, m: map<nat, AddrInfo>, left: map<nat, int>)
    requires i < |vv| && NewLeft(vv, i, m, left)
    ensures vv[i] <= left.Keys ==> NewLeft(vv, i + 1, m, Met(left, vv[i]))
    ensures !(vv[i] <= left.Keys) ==> exists n :: Refs(vv, n) > WantedRefs(m, n)
  {
    forall n
      ensures Refs(vv[..i + 1], n) == Refs(vv[..i], n) + (if n in vv[i] then 1 else 0)
    {
      RefsTakeOne(vv, i, n);
    }
    if !(vv[i] <= left.Keys) {
      var n :| n in vv[i] && n !in left;
      RefsGrow(vv, i + 1, n);
    }
  }

  lemma LeftEmpty(vv: seq<set<nat>>, m: map<nat, AddrInfo>, tried: set<nat>, left: set<nat>, news: map<nat, int>)
    ensures TriedLeft(vv, |vv|, tried, left) ==>
              && (left == {} <==> forall n :: Refs(vv, n) == if n in tried then 1 else 0)
              && (forall n :: Refs(vv, n) <= if n in tried then 1 else 0)
              && (forall n :: n in left <==> n in tried && Refs(vv, n) == 0)
    ensures NewLeft(vv, |vv|, m, news) ==>
              && (|news| == 0 <==> forall n :: Refs(vv, n) == WantedRefs(m, n))
              && (forall n :: Refs(vv, n) <= WantedRefs(m, n))
  {
    assert vv[..|vv|] == vv;
    if TriedLeft(vv, |vv|, tried, left) && left != {} {
      var n :| n in left;
      assert Refs(vv, n) == 0;
    }
    if NewLeft(vv, |vv|, m, news) {
      if |news| == 0 {
        assert news == map[];
      } else {
        var n :| n in news;
        assert Refs(vv, n) != WantedRefs(m, n);
      }
    }
  }
}
