// What the history of an address says of it: the attempts and successes recorded
// along a run, when that makes it terrible, and what that means for its place.
module AddrAging {
  import opened AddrTables
  import opened AddrSteps
  import opened AddrMoves
  import opened AddrRuns
  import opened AddrDisk
  import opened AddrHistories

  // ---------------------------------------------------------------- the past of an address

  // Attempts since the last success, the last try, and the last success.
  datatype Past = Past(tries: int, lastTry: int, lastSuccess: int)

  function PastIn(info: AddrInfo): Past { Past(info.nAttempts, info.nLastTry, info.nLastSuccess) }

  // What one operation makes of the past of x.
  ghost function PastAfter(t: Tables, op: Op, x: NetAddr, was: Past): Past {
    if !t.Knows(x) then Past(0, 0, 0)
    else
      match op
      case Good(s, nTime) => if Exact(t, s) && s.net == x then Past(0, nTime, nTime) else was
      case Attempt(s, nTime) =>
        if Exact(t, s) && s.net == x then Past(was.tries + 1, nTime, was.lastSuccess) else was
      case Reload => was.(lastTry := 0)
      case _ => was
  }

  // The calls about x, counted from the one that made x known.
  ghost function PastOf(ops: seq<Op>, states: seq<Tables>, x: NetAddr): Past
    requires |states| == |ops| + 1
  {
    if ops == [] then Past(0, 0, 0)
    else
      var last := |ops| - 1;
      PastAfter(states[last], ops[last], x, PastOf(ops[..last], states[..|ops|], x))
  }

  // Whoever is still known under the same number has the same past.
  ghost predicate PastKept(t: Tables, r: Tables) {
    && (forall x :: x in r.mapAddr ==> x in t.mapAddr && r.mapAddr[x] == t.mapAddr[x])
    && (forall n :: n in r.mapInfo ==>
          && n in t.mapInfo && PastIn(r.mapInfo[n]) == PastIn(t.mapInfo[n])
          && r.mapInfo[n].Net() == t.mapInfo[n].Net())
  }

  lemma FiledPast(t: Tables, r: Tables, id: nat, b: nat, nNow: int, picks: set<nat>, v: nat)
    requires Filed(t, r, id, b, nNow, picks, v)
    ensures PastKept(t, r)
  {
    hide VictimOf;
    if |t.vvNew[b]| == NEW_BUCKET_SIZE {
      VictimIsKnown(t, b, nNow, picks, v);
      DroppedPast(t, b, v);
      hide RefDropped;
    }
  }

  lemma DroppedPast(t: Tables, b: nat, v: nat)
    requires Shuffled(t.mapInfo, t.vRandom) && v in t.mapInfo && b < |t.vvNew|
    ensures PastKept(t, RefDropped(t, b, v))
  {
    var m := t.mapInfo[v := Lowered(t.mapInfo[v])];
    TouchKeepsShuffled(t.mapInfo, t.vRandom, v, m[v]);
    ForgetsOnly(m, t.vRandom, v);
    hide Shuffled, ForgetInfos, ForgetSlot;
  }

  lemma ForgetsOnly(m: map<nat, AddrInfo>, v: seq<nat>, id: nat)
    requires Shuffled(m, v) && id in m
    ensures forall n :: n in ForgetInfos(m, v, id) ==>
              && n in m && PastIn(ForgetInfos(m, v, id)[n]) == PastIn(m[n])
              && ForgetInfos(m, v, id)[n].Net() == m[n].Net()
  {
  }

  lemma AddPast(e: Env, t: Tables, op: Op, r: Tables, x: NetAddr)
    requires Inv(e, t) && Step(e, t, op, r) && op.Add? && r.Knows(x)
    ensures PastIn(r.mapInfo[r.mapAddr[x]]) == if t.Knows(x) then PastIn(t.mapInfo[t.mapAddr[x]]) else Past(0, 0, 0)
  {
    hide Inv, AddKnownStep, AddUnknownStep;
    var net := op.addr.service.net;
    KnownIsIndexed(e, t, x);
    if e.routable(net) && t.Knows(net) {
      AddKnownPast(e, t, r, t.mapAddr[net], op.addr, op.source, op.nTimePenalty, op.nNow);
    } else if e.routable(net) {
      AddUnknownPast(e, t, r, op.addr, op.source, op.nTimePenalty, op.nNow, x);
    }
  }

  // What Add_ keeps a record of keeps its address.
  lemma AddNets(e: Env, t: Tables, op: Op, r: Tables, n: nat)
    requires Inv(e, t) && Step(e, t, op, r) && op.Add? && n in t.mapInfo && n in r.mapInfo
    ensures r.mapInfo[n].Net() == t.mapInfo[n].Net()
  {
    hide Inv, AddKnownStep, AddUnknownStep;
    var net := op.addr.service.net;
    if e.routable(net) && t.Knows(net) {
      AddKnownPast(e, t, r, t.mapAddr[net], op.addr, op.source, op.nTimePenalty, op.nNow);
    } else if e.routable(net) {
      AddUnknownNets(e, t, r, op.addr, op.source, op.nTimePenalty, op.nNow, n);
    }
  }

  lemma AddUnknownNets(e: Env, t: Tables, r: Tables, addr: Address, source: NetAddr, nTimePenalty: int, nNow: int,
                       n: nat)
    requires Inv(e, t) && !t.Knows(addr.service.net) && AddUnknownStep(e, t, r, addr, source, nTimePenalty, nNow)
    requires n in t.mapInfo && n in r.mapInfo
    ensures r.mapInfo[n].Net() == t.mapInfo[n].Net()
  {
    hide Inv, Filed, NewBucketOf;
    KnownIsIndexed(e, t, addr.service.net);
    var c := Created(t, addr.(nTime := Penalized(addr.nTime, nTimePenalty)), source);
    var picks, v :| Filed(c, r, t.nIdCount, NewBucketOf(e, addr.service.net, source), nNow, picks, v);
    FiledPast(c, r, t.nIdCount, NewBucketOf(e, addr.service.net, source), nNow, picks, v);
  }

  lemma AddKnownPast(e: Env, t: Tables, r: Tables, id: nat, addr: Address, source: NetAddr, nTimePenalty: int,
                     nNow: int)
    requires id in t.mapInfo && AddKnownStep(e, t, r, id, addr, source, nTimePenalty, nNow)
    ensures PastKept(t, r)
  {
    hide Filed, NothingNew, AddUpdated, NewBucketOf;
    var info := AddUpdated(t.mapInfo[id], addr, nTimePenalty, nNow);
    UpdatedIs(t.mapInfo[id], addr, nTimePenalty, nNow);
    if r != Touched(t, id, info) {
      var w := Touched(t, id, Raised(info));
      var picks, v :| Filed(w, r, id, info.GetNewBucket(e, source), nNow, picks, v);
      FiledPast(w, r, id, info.GetNewBucket(e, source), nNow, picks, v);
    }
  }

  lemma AddUnknownPast(e: Env, t: Tables, r: Tables, addr: Address, source: NetAddr, nTimePenalty: int, nNow: int,
                       x: NetAddr)
    requires Inv(e, t) && !t.Knows(addr.service.net) && AddUnknownStep(e, t, r, addr, source, nTimePenalty, nNow)
    requires r.Knows(x)
    ensures PastIn(r.mapInfo[r.mapAddr[x]]) == if t.Knows(x) then PastIn(t.mapInfo[t.mapAddr[x]]) else Past(0, 0, 0)
  {
    hide Inv, Filed, NewBucketOf;
    KnownIsIndexed(e, t, x);
    KnownIsIndexed(e, t, addr.service.net);
    var c := Created(t, addr.(nTime := Penalized(addr.nTime, nTimePenalty)), source);
    var picks, v :| Filed(c, r, t.nIdCount, NewBucketOf(e, addr.service.net, source), nNow, picks, v);
    FiledPast(c, r, t.nIdCount, NewBucketOf(e, addr.service.net, source), nNow, picks, v);
    assert x in c.mapAddr && r.mapAddr[x] == c.mapAddr[x];
  }

  // After Good_ the record is the updated one, on the tried side.
  lemma GoodRecord(e: Env, t: Tables, r: Tables, s: Service, nTime: int)
    requires Inv(e, t) && GoodStep(e, t, r, s, nTime) && Exact(t, s)
    ensures var id := t.mapAddr[s.net];
            && r.mapAddr == t.mapAddr && r.mapInfo.Keys == t.mapInfo.Keys
            && r.mapInfo[id].addr == t.mapInfo[id].addr.(nTime := ToUint32(nTime))
            && PastIn(r.mapInfo[id]) == Past(0, nTime, nTime)
    ensures forall n :: n in t.mapInfo && n != t.mapAddr[s.net] ==> PastIn(r.mapInfo[n]) == PastIn(t.mapInfo[n])
  {
    hide Inv, GoodStep;
    GoodKeeps(e, t, r, s, nTime);
  }

  lemma ReloadPast(e: Env, t: Tables, r: Tables, x: NetAddr)
    requires Inv(e, t) && Inv(e, r) && Reloaded(t, r) && r.Knows(x)
    ensures t.Knows(x) && PastIn(r.mapInfo[r.mapAddr[x]]) == PastIn(t.mapInfo[t.mapAddr[x]]).(lastTry := 0)
  {
    var ids := WriteOrder(t.mapInfo);
    var i := r.mapAddr[x];
    assert ids[i] in t.mapInfo && Restored(t.mapInfo[ids[i]], r.mapInfo[i]);
    KnownIsIndexed(e, r, x);
    hide Inv, WriteOrder, Renamed, Packed;
    KnownIsIndexed(e, t, x);
  }

  lemma StepPast(e: Env, t: Tables, op: Op, r: Tables, x: NetAddr)
    requires Inv(e, t) && Step(e, t, op, r) && r.Knows(x)
    ensures PastIn(r.mapInfo[r.mapAddr[x]])
         == PastAfter(t, op, x, if t.Knows(x) then PastIn(t.mapInfo[t.mapAddr[x]]) else Past(0, 0, 0))
  {
    hide Inv, AddStep, GoodStep, Reloaded;
    KnownIsIndexed(e, t, x);
    match op
    case Add(_, _, _, _) => AddPast(e, t, op, r, x);
    case Good(s, nTime) => GoodPast(e, t, r, s, nTime, x);
    case Attempt(s, nTime) =>
    case Connected(s, nTime) =>
    case GetAddr =>
    case Reload =>
      StepKeeps(e, t, op, r);
      ReloadPast(e, t, r, x);
  }

  lemma GoodPast(e: Env, t: Tables, r: Tables, s: Service, nTime: int, x: NetAddr)
    requires Inv(e, t) && GoodStep(e, t, r, s, nTime) && r.Knows(x)
    ensures t.Knows(x)
    ensures PastIn(r.mapInfo[r.mapAddr[x]])
         == if Exact(t, s) && s.net == x then Past(0, nTime, nTime) else PastIn(t.mapInfo[t.mapAddr[x]])
  {
    if Exact(t, s) {
      KnownIsIndexed(e, t, x);
      KnownIsIndexed(e, t, s.net);
      hide Inv, GoodStep;
      GoodRecord(e, t, r, s, nTime);
    }
  }

  // Along any run every record holds the number of attempts since its last success,
  // and the times of its last try and success.
  lemma {:induction false} RunPast(e: Env, ops: seq<Op>, states: seq<Tables>, x: NetAddr)
    requires Run(e, ops, states) && states[|ops|].Knows(x)
    ensures PastIn(states[|ops|].mapInfo[states[|ops|].mapAddr[x]]) == PastOf(ops, states, x)
  {
    hide Inv, Step, PastAfter;
    if ops != [] {
      var last := |ops| - 1;
      RunKeeps(e, ops[..last], states[..|ops|]);
      StepPast(e, states[last], ops[last], states[|ops|], x);
      if states[last].Knows(x) {
        RunPast(e, ops[..last], states[..|ops|], x);
      } else {
        NewIsBlank(states[last], ops[last], x);
      }
    }
  }

  lemma NewIsBlank(t: Tables, op: Op, x: NetAddr)
    requires !t.Knows(x)
    ensures forall was :: PastAfter(t, op, x, was) == Past(0, 0, 0)
  {
  }

  // ---------------------------------------------------------------- terrible

  // What makes an address terrible: the past p, and when it was last seen.
  ghost predicate Terrible(p: Past, seen: int, nNow: int) {
    && (p.lastTry == 0 || nNow - p.lastTry > 60)
    && (|| seen - nNow > 600
        || seen == 0
        || nNow - seen > 30 * 86400
        || (p.lastSuccess == 0 && p.tries >= 3)
        || (nNow - p.lastSuccess > 7 * 86400 && p.tries >= 10))
  }

  // In any run, an address is terrible by the calls made about it and when it was seen.
  lemma RunTerrible(e: Env, ops: seq<Op>, states: seq<Tables>, x: NetAddr, nNow: int)
    requires Run(e, ops, states) && states[|ops|].Knows(x)
    ensures var info := states[|ops|].mapInfo[states[|ops|].mapAddr[x]];
            info.IsTerrible(nNow) <==> Terrible(PastOf(ops, states, x), info.addr.nTime, nNow)
  {
    hide Run, PastOf;
    RunPast(e, ops, states, x);
  }

  // The time seen is an unsigned number of 32 bits: after Good_ it is the time given,
  // but for a multiple of 2^32.
  lemma GoodSeen(e: Env, t: Tables, r: Tables, s: Service, nTime: int)
    requires Inv(e, t) && GoodStep(e, t, r, s, nTime) && Exact(t, s)
    ensures t.mapAddr[s.net] in r.mapInfo
    ensures var seen := r.mapInfo[t.mapAddr[s.net]].addr.nTime;
            0 <= seen < 0x1_0000_0000 && exists k: int :: nTime == seen + k * 0x1_0000_0000
  {
    hide Inv, GoodStep;
    GoodRecord(e, t, r, s, nTime);
    assert nTime == ToUint32(nTime) + nTime / 0x1_0000_0000 * 0x1_0000_0000;
  }

  // After a success an address is terrible exactly from thirty days later on.
  lemma GoodIsKept(e: Env, t: Tables, r: Tables, s: Service, nTime: int, nNow: int)
    requires Inv(e, t) && GoodStep(e, t, r, s, nTime) && Exact(t, s) && 0 < nTime < 0x1_0000_0000
    ensures t.mapAddr[s.net] in r.mapInfo
    ensures r.mapInfo[t.mapAddr[s.net]].IsTerrible(nNow) <==> nNow > nTime + 30 * 86400
  {
    hide Inv, GoodStep;
    GoodRecord(e, t, r, s, nTime);
  }

  // An address never reached, seen in the last thirty days and not dated ahead, is
  // terrible exactly from a minute after its third attempt on.
  lemma ThirdAttempt(t: Tables, r: Tables, s: Service, nTime: int, nNow: int)
    requires AttemptStep(t, r, s, nTime) && Exact(t, s) && nTime > 0
    requires var info := t.mapInfo[t.mapAddr[s.net]];
             && info.nLastSuccess == 0 && info.addr.nTime != 0
             && info.addr.nTime <= nNow + 600 && nNow <= info.addr.nTime + 30 * 86400
    ensures var id := t.mapAddr[s.net];
            && id in r.mapInfo
            && (r.mapInfo[id].IsTerrible(nNow) <==> nNow > nTime + 60 && PastIn(t.mapInfo[id]).tries >= 2)
  {
  }

  // One reached in the last seven days, and one reached before that and seen in the
  // last thirty days, but tried in vain fewer than ten times since.
  lemma TenthAttempt(t: Tables, r: Tables, s: Service, nTime: int, nNow: int)
    requires AttemptStep(t, r, s, nTime) && Exact(t, s) && nTime > 0
    requires var info := t.mapInfo[t.mapAddr[s.net]];
             && info.nLastSuccess > 0 && info.addr.nTime != 0
             && info.addr.nTime <= nNow + 600 && nNow <= info.addr.nTime + 30 * 86400
    ensures var id := t.mapAddr[s.net];
            && id in r.mapInfo
            && (r.mapInfo[id].IsTerrible(nNow) <==>
                  && nNow > nTime + 60 && nNow > t.mapInfo[id].nLastSuccess + 7 * 86400
                  && PastIn(t.mapInfo[id]).tries >= 9)
  {
  }

  // ---------------------------------------------------------------- who makes way

  // What is forgotten to make room was in a full bucket, and was terrible if anything
  // in that bucket was: so not tried in the last minute, and not reached in the last
  // thirty days unless tried in vain ten times since.
  ghost predicate MadeRoom(t: Tables, v: nat, nNow: int) {
    && v in t.mapInfo
    && exists b :: && 0 <= b < |t.vvNew| && v in t.vvNew[b] && |t.vvNew[b]| == NEW_BUCKET_SIZE
                   && t.vvNew[b] <= t.mapInfo.Keys
                   && (t.mapInfo[v].IsTerrible(nNow) || forall n :: n in t.vvNew[b] ==> !t.mapInfo[n].IsTerrible(nNow))
  }

  lemma AddForgets(e: Env, t: Tables, op: Op, r: Tables, v: nat)
    requires Inv(e, t) && Step(e, t, op, r) && op.Add? && v in t.mapInfo && v !in r.mapInfo
    ensures MadeRoom(t, v, op.nNow)
  {
    hide Inv, AddKnownStep, AddUnknownStep, MadeRoom;
    var net := op.addr.service.net;
    KnownIsIndexed(e, t, net);
    if e.routable(net) && t.Knows(net) {
      AddKnownForgets(e, t, r, t.mapAddr[net], op.addr, op.source, op.nTimePenalty, op.nNow, v);
    } else if e.routable(net) {
      AddUnknownForgets(e, t, r, op.addr, op.source, op.nTimePenalty, op.nNow, v);
    }
  }

  lemma FiledForgets(t: Tables, w: Tables, r: Tables, id: nat, b: nat, nNow: int, picks: set<nat>, u: nat, v: nat)
    requires Filed(w, r, id, b, nNow, picks, u) && w.vvNew == t.vvNew && b < |t.vvNew| && id !in t.vvNew[b]
    requires forall n :: n in t.mapInfo && n != id ==> n in w.mapInfo && w.mapInfo[n] == t.mapInfo[n]
    requires w.mapInfo.Keys == t.mapInfo.Keys + {id} && v in w.mapInfo && v !in r.mapInfo
    ensures MadeRoom(t, v, nNow)
  {
    VictimIsForgotten(w, r, id, b, nNow, picks, u, v);
    assert |t.vvNew[b]| == NEW_BUCKET_SIZE && v in t.vvNew[b] && v != id;
    hide Filed;
    assert forall n :: n in t.vvNew[b] ==> n in t.mapInfo && w.mapInfo[n] == t.mapInfo[n];
  }

  lemma VictimIsForgotten(w: Tables, r: Tables, id: nat, b: nat, nNow: int, picks: set<nat>, u: nat, v: nat)
    requires Filed(w, r, id, b, nNow, picks, u) && v in w.mapInfo && v !in r.mapInfo
    ensures v == u && b < |w.vvNew| && |w.vvNew[b]| == NEW_BUCKET_SIZE && VictimOf(w, b, nNow, picks, v)
    ensures v in w.vvNew[b] && w.vvNew[b] <= w.mapInfo.Keys
    ensures w.mapInfo[v].IsTerrible(nNow) || forall n :: n in w.vvNew[b] ==> !w.mapInfo[n].IsTerrible(nNow)
  {
    VictimIsKnown(w, b, nNow, picks, u);
    var m := w.mapInfo[u := Lowered(w.mapInfo[u])];
    TouchKeepsShuffled(w.mapInfo, w.vRandom, u, m[u]);
    ForgetKeepsShuffled(m, w.vRandom, u);
    hide Shuffled, ForgetInfos, ForgetSlot;
  }

  lemma AddKnownForgets(e: Env, t: Tables, r: Tables, id: nat, addr: Address, source: NetAddr, nTimePenalty: int,
                        nNow: int, v: nat)
    requires id in t.mapInfo && AddKnownStep(e, t, r, id, addr, source, nTimePenalty, nNow)
    requires |t.vvNew| == NEW_BUCKET_COUNT
    requires v in t.mapInfo && v !in r.mapInfo
    ensures MadeRoom(t, v, nNow)
  {
    hide Filed, NothingNew, AddUpdated, MadeRoom;
    var info := AddUpdated(t.mapInfo[id], addr, nTimePenalty, nNow);
    var b := info.GetNewBucket(e, source);
    var w := Touched(t, id, Raised(info));
    var picks, u :| Filed(w, r, id, b, nNow, picks, u);
    FiledForgets(t, w, r, id, b, nNow, picks, u, v);
  }

  lemma AddUnknownForgets(e: Env, t: Tables, r: Tables, addr: Address, source: NetAddr, nTimePenalty: int, nNow: int,
                          v: nat)
    requires Inv(e, t) && !t.Knows(addr.service.net) && AddUnknownStep(e, t, r, addr, source, nTimePenalty, nNow)
    requires v in t.mapInfo && v !in r.mapInfo
    ensures MadeRoom(t, v, nNow)
  {
    hide Inv, Filed, MadeRoom, NewBucketOf;
    var id, b := t.nIdCount, NewBucketOf(e, addr.service.net, source);
    KnownIsIndexed(e, t, addr.service.net);
    var c := Created(t, addr.(nTime := Penalized(addr.nTime, nTimePenalty)), source);
    var picks, u :| Filed(c, r, id, b, nNow, picks, u);
    BucketBounded(e, addr.service.net, source);
    PendingNotFiled(e, t, id, b);
    FiledForgets(t, c, r, id, b, nNow, picks, u, v);
  }

  lemma BucketBounded(e: Env, net: NetAddr, source: NetAddr)
    ensures NewBucketOf(e, net, source) < NEW_BUCKET_COUNT
  {
  }

  // In any run, what Add_ forgets had not been tried in the last minute, unless no
  // entry of its bucket was terrible.
  lemma RunForgets(e: Env, ops: seq<Op>, states: seq<Tables>, i: nat, x: NetAddr)
    requires Run(e, ops, states) && i < |ops| && ops[i].Add? && states[i].Knows(x) && !states[i + 1].Knows(x)
    ensures var t, id := states[i], states[i].mapAddr[x];
            exists b :: && 0 <= b < |t.vvNew| && id in t.vvNew[b] && |t.vvNew[b]| == NEW_BUCKET_SIZE
                        && t.vvNew[b] <= t.mapInfo.Keys
                        && (|| Terrible(PastOf(ops[..i], states[..i + 1], x), t.mapInfo[id].addr.nTime, ops[i].nNow)
                            || forall n :: n in t.vvNew[b] ==> !t.mapInfo[n].IsTerrible(ops[i].nNow))
  {
    hide Inv, Step, PastOf, Terrible, AddrInfo.IsTerrible;
    RunKeeps(e, ops[..i], states[..i + 1]);
    RunKeeps(e, ops[..i + 1], states[..i + 2]);
    GoneIsForgotten(e, states[i], ops[i], states[i + 1], x);
    AddForgets(e, states[i], ops[i], states[i + 1], states[i].mapAddr[x]);
    RunTerrible(e, ops[..i], states[..i + 1], x, ops[i].nNow);
  }

  // An address that is not known any more has lost its record.
  lemma GoneIsForgotten(e: Env, t: Tables, op: Op, r: Tables, x: NetAddr)
    requires Inv(e, t) && Inv(e, r) && Step(e, t, op, r) && op.Add? && t.Knows(x) && !r.Knows(x)
    ensures t.mapAddr[x] !in r.mapInfo
  {
    hide Inv, Step;
    KnownIsIndexed(e, t, x);
    KnownIsIndexed(e, r, x);
    if t.mapAddr[x] in r.mapInfo {
      AddNets(e, t, op, r, t.mapAddr[x]);
    }
  }

  // ---------------------------------------------------------------- news

  // News of a known address never moves the time it was last seen back, nor past the
  // time announced; and it moves it if it is a day newer, less the penalty, and not if
  // it is no more than an hour newer. For an address online it is enough that it be
  // more than an hour newer.
  lemma NewsMovesForward(info: AddrInfo, addr: Address, nTimePenalty: int, nNow: int)
    requires nTimePenalty >= 0 && 0 < info.addr.nTime && 0 <= addr.nTime < 0x1_0000_0000
    ensures var was, told, now := info.addr.nTime, addr.nTime, AddUpdated(info, addr, nTimePenalty, nNow).addr.nTime;
            && was <= now && (now == was || now == told - nTimePenalty)
            && (now != was <==> told - was > nTimePenalty + if nNow - told < 86400 then 3600 else 86400)
    ensures AddUpdated(info, addr, nTimePenalty, nNow).addr.nServices.on == info.addr.nServices.on + addr.nServices.on
    ensures AddUpdated(info, addr, nTimePenalty, nNow).addr.service == info.addr.service
  {
  }

  // An address never seen takes the time announced, less the penalty, but not below 0.
  lemma NewsOfUnseen(info: AddrInfo, addr: Address, nTimePenalty: int, nNow: int)
    requires nTimePenalty >= 0 && info.addr.nTime == 0 && 0 <= addr.nTime < 0x1_0000_0000
    ensures AddUpdated(info, addr, nTimePenalty, nNow).addr.nTime
         == if addr.nTime > nTimePenalty then addr.nTime - nTimePenalty else 0
  {
  }
}
