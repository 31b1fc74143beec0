// Whole runs of the address manager, through memory and through the disk: the
// invariant, and the clock values.
module AddrHistories {
  import opened AddrTables
  import opened AddrSteps
  import opened AddrRuns
  import opened AddrDisk

  // ---------------------------------------------------------------- runs

  datatype Op =
    | Add(addr: Address, source: NetAddr, nTimePenalty: int, nNow: int)
    | Good(service: Service, nTime: int)
    | Attempt(service: Service, nTime: int)
    | Connected(service: Service, nTime: int)
    | GetAddr
    | Reload

  ghost predicate Step(e: Env, t: Tables, op: Op, r: Tables) {
    && (op.Add? ==>
          || AddStep(e, t, r, op.addr, op.source, op.nTimePenalty, op.nNow, true)
          || AddStep(e, t, r, op.addr, op.source, op.nTimePenalty, op.nNow, false))
    && (op.Good? ==> GoodStep(e, t, r, op.service, op.nTime))
    && (op.Attempt? ==> AttemptStep(t, r, op.service, op.nTime))
    && (op.Connected? ==> ConnectedStep(t, r, op.service, op.nTime))
    && (op.GetAddr? ==> exists answer :: GetAddrStep(t, r, answer))
    && (op.Reload? ==> Reloaded(t, r))
  }

  // Written to disk and read back: the same manager with its ids renumbered.
  ghost predicate Reloaded(t: Tables, r: Tables) {
    var ids := WriteOrder(t.mapInfo);
    Renamed(t, r, ids) && Packed(t, r, |ids|)
  }

  ghost predicate Run(e: Env, ops: seq<Op>, states: seq<Tables>) {
    && |states| == |ops| + 1 && IsEmpty(states[0])
    && forall i :: 0 <= i < |ops| ==> Step(e, states[i], ops[i], states[i + 1])
  }

  // The times a caller may pass without upsetting Check_.
  predicate ClockOk(op: Op) {
    match op
    case Good(_, nTime) => nTime > 0
    case Attempt(_, nTime) => nTime >= 0
    case _ => true
  }

  lemma EmptyIsSound(e: Env, t: Tables)
    requires IsEmpty(t)
    ensures Inv(e, t) && TimesOk(t.mapInfo)
  {
  }

  lemma StepKeeps(e: Env, t: Tables, op: Op, r: Tables)
    requires Inv(e, t) && Step(e, t, op, r)
    ensures Inv(e, r)
  {
    hide Inv, AddStep, GoodStep, AttemptStep, ConnectedStep, GetAddrStep, WriteOrder, Renamed, Packed;
    match op
    case Add(addr, source, nTimePenalty, nNow) =>
      AddKeeps(e, t, r, addr, source, nTimePenalty, nNow, AddStep(e, t, r, addr, source, nTimePenalty, nNow, true));
    case Good(s, nTime) => GoodKeeps(e, t, r, s, nTime);
    case Attempt(s, nTime) => AttemptKeeps(e, t, r, s, nTime);
    case Connected(s, nTime) => ConnectedKeeps(e, t, r, s, nTime);
    case GetAddr =>
      var answer :| GetAddrStep(t, r, answer);
      GetAddrKeeps(e, t, r, answer);
    case Reload => RenamedIsSound(e, t, r, WriteOrder(t.mapInfo));
  }

  lemma {:induction false} RunKeeps(e: Env, ops: seq<Op>, states: seq<Tables>)
    requires Run(e, ops, states)
    ensures Inv(e, states[|ops|])
  {
    hide Inv, Step;
    if ops == [] {
      EmptyIsSound(e, states[0]);
    } else {
      var last := |ops| - 1;
      RunKeeps(e, ops[..last], states[..|ops|]);
      StepKeeps(e, states[last], ops[last], states[|ops|]);
    }
  }

  lemma VictimIsKnown(t: Tables, b: nat, nNow: int, picks: set<nat>, v: nat)
    requires VictimOf(t, b, nNow, picks, v)
    ensures v in t.mapInfo
  {
  }

  // ---------------------------------------------------------------- the clock along a run

  lemma StepTimes(e: Env, t: Tables, op: Op, r: Tables)
    requires Inv(e, t) && Step(e, t, op, r) && TimesOk(t.mapInfo) && ClockOk(op)
    ensures TimesOk(r.mapInfo)
  {
    hide Inv, AddStep, GoodStep, Reloaded;
    match op
    case Add(addr, source, nTimePenalty, nNow) =>
      AddTimes(e, t, r, addr, source, nTimePenalty, nNow, AddStep(e, t, r, addr, source, nTimePenalty, nNow, true));
    case Good(s, nTime) => GoodTimes(e, t, r, s, nTime);
    case Attempt(s, nTime) =>
    case Connected(s, nTime) =>
    case GetAddr =>
    case Reload => ReloadTimes(t, r);
  }

  lemma ReloadTimes(t: Tables, r: Tables)
    requires Reloaded(t, r)
    ensures TimesOk(r.mapInfo) <==> SuccessOk(t.mapInfo)
  {
    hide WriteOrder, Packed, TimesOk, SuccessOk;
    RenamedTimes(t, r, WriteOrder(t.mapInfo));
  }

  lemma RenamedTimes(t: Tables, r: Tables, ids: seq<nat>)
    requires Renamed(t, r, ids)
    ensures TimesOk(r.mapInfo) <==> SuccessOk(t.mapInfo)
  {
    forall i | 0 <= i < |ids|
      ensures ids[i] in t.mapInfo && i in r.mapInfo && r.mapInfo[i].nLastTry == 0
      ensures r.mapInfo[i].nLastSuccess == t.mapInfo[ids[i]].nLastSuccess
      ensures r.mapInfo[i].fInTried == t.mapInfo[ids[i]].fInTried
    {
      assert Restored(t.mapInfo[ids[i]], r.mapInfo[i]);
    }
    assert forall i: nat :: i in r.mapInfo <==> i < |ids|;
    assert forall n :: n in t.mapInfo ==> exists i :: 0 <= i < |ids| && ids[i] == n;
    hide Renamed;
  }

  // The clock values that survive on disk.
  ghost predicate SuccessOk(m: map<nat, AddrInfo>) {
    forall n :: n in m ==> m[n].nLastSuccess >= 0 && (m[n].fInTried ==> m[n].nLastSuccess != 0)
  }

  lemma FileTimes(t: Tables, r: Tables, id: nat, b: nat, nNow: int, picks: set<nat>, v: nat)
    requires Filed(t, r, id, b, nNow, picks, v) && TimesOk(t.mapInfo)
    ensures TimesOk(r.mapInfo)
  {
    hide VictimOf;
    if |t.vvNew[b]| == NEW_BUCKET_SIZE {
      VictimIsKnown(t, b, nNow, picks, v);
      var m := t.mapInfo[v := Lowered(t.mapInfo[v])];
      TouchKeepsShuffled(t.mapInfo, t.vRandom, v, m[v]);
      ForgetTimes(m, t.vRandom, v);
    }
  }

  lemma ForgetTimes(m: map<nat, AddrInfo>, v: seq<nat>, id: nat)
    requires Shuffled(m, v) && id in m && TimesOk(m)
    ensures TimesOk(ForgetInfos(m, v, id))
  {
  }

  lemma AddTimes(e: Env, t: Tables, r: Tables, addr: Address, source: NetAddr, nTimePenalty: int, nNow: int, fNew: bool)
    requires Inv(e, t) && AddStep(e, t, r, addr, source, nTimePenalty, nNow, fNew) && TimesOk(t.mapInfo)
    ensures TimesOk(r.mapInfo)
  {
    hide Inv, Filed, NothingNew, AddUpdated;
    var net := addr.service.net;
    if e.routable(net) && t.Knows(net) {
      var id := t.mapAddr[net];
      var info := AddUpdated(t.mapInfo[id], addr, nTimePenalty, nNow);
      UpdatedIs(t.mapInfo[id], addr, nTimePenalty, nNow);
      if r != Touched(t, id, info) {
        var w := Touched(t, id, Raised(info));
        var picks, v :| Filed(w, r, id, info.GetNewBucket(e, source), nNow, picks, v);
        FileTimes(w, r, id, info.GetNewBucket(e, source), nNow, picks, v);
      }
    } else if e.routable(net) {
      var c := Created(t, addr.(nTime := Penalized(addr.nTime, nTimePenalty)), source);
      var picks, v :| Filed(c, r, t.nIdCount, NewBucketOf(e, net, source), nNow, picks, v);
      FileTimes(c, r, t.nIdCount, NewBucketOf(e, net, source), nNow, picks, v);
    }
  }

  lemma {:induction false} RunTimes(e: Env, ops: seq<Op>, states: seq<Tables>)
    requires Run(e, ops, states) && forall i :: 0 <= i < |ops| ==> ClockOk(ops[i])
    ensures TimesOk(states[|ops|].mapInfo)
  {
    hide Inv, Step, ClockOk, TimesOk;
    if ops == [] {
      EmptyIsSound(e, states[0]);
    } else {
      var last := |ops| - 1;
      RunKeeps(e, ops[..last], states[..|ops|]);
      RunTimes(e, ops[..last], states[..|ops|]);
      StepTimes(e, states[last], ops[last], states[|ops|]);
    }
  }
}
