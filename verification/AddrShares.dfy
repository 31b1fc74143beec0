// What the sources of one range can fill of the "new" buckets.
module AddrShares {
  import opened Ascending
  import opened AddrTables
  import opened AddrSteps
  import opened AddrMoves
  import opened AddrRuns
  import opened AddrEviction
  import opened AddrBounds
  import opened AddrDisk
  import opened AddrHistories

  // ---------------------------------------------------------------- one source group's share

  // All there is was heard of from sources in one group, and sits in the "new"
  // buckets open to that group.
  ghost predicate OneSource(e: Env, t: Tables, g: seq<int>) {
    FromGroup(e, t.mapInfo, g) && WithinBuckets(t.vvNew, NewBucketsOfSource(e, g))
  }

  ghost predicate FromGroup(e: Env, m: map<nat, AddrInfo>, g: seq<int>) {
    forall n :: n in m ==> e.group(m[n].source) == g
  }

  ghost predicate WithinBuckets(vv: seq<set<nat>>, B: set<nat>) {
    forall b: nat :: b < |vv| && vv[b] != {} ==> b in B
  }

  predicate SourceIn(e: Env, op: Op, g: seq<int>) {
    op.Add? ==> e.group(op.source) == g
  }

  // However many addresses one group of sources announces, in any run they take
  // at most 32 of the 256 new buckets, hence 2048 entries.
  lemma NewShareIsBounded(e: Env, t: Tables, g: seq<int>)
    requires Inv(e, t) && OneSource(e, t, g)
    ensures |NewIds(t.mapInfo)| <= NEW_BUCKETS_PER_SOURCE_GROUP * NEW_BUCKET_SIZE
  {
    hide Image;
    ImageIs(GroupHash(e, g, NEW_BUCKET_COUNT), NEW_BUCKETS_PER_SOURCE_GROUP);
    hide NewBucketsOfSource;
    NewInBuckets(t.mapInfo, t.vvNew, NewIds(t.mapInfo), NewBucketsOfSource(e, g));
  }

  lemma FileWithin(e: Env, t: Tables, r: Tables, id: nat, b: nat, nNow: int, picks: set<nat>, v: nat, g: seq<int>)
    requires Filed(t, r, id, b, nNow, picks, v) && FromGroup(e, t.mapInfo, g)
    requires WithinBuckets(t.vvNew, NewBucketsOfSource(e, g)) && b in NewBucketsOfSource(e, g)
    ensures OneSource(e, r, g)
  {
    hide VictimOf, NewBucketsOfSource;
    if |t.vvNew[b]| == NEW_BUCKET_SIZE {
      assert v in t.mapInfo by {
        VictimIsKnown(t, b, nNow, picks, v);
      }
      var m := t.mapInfo[v := Lowered(t.mapInfo[v])];
      TouchKeepsShuffled(t.mapInfo, t.vRandom, v, m[v]);
      SourcesStay(m, t.vRandom, v);
    }
  }

  lemma SourcesStay(m: map<nat, AddrInfo>, v: seq<nat>, id: nat)
    requires Shuffled(m, v) && id in m
    ensures forall n :: n in ForgetInfos(m, v, id) ==> n in m && ForgetInfos(m, v, id)[n].source == m[n].source
  {
  }

  lemma AddStaysIn(e: Env, t: Tables, r: Tables, addr: Address, source: NetAddr, nTimePenalty: int, nNow: int,
                   fNew: bool, g: seq<int>)
    requires Inv(e, t) && AddStep(e, t, r, addr, source, nTimePenalty, nNow, fNew)
    requires OneSource(e, t, g) && e.group(source) == g
    ensures OneSource(e, r, g)
  {
    hide Inv, Filed, NewBucketsOfSource, NothingNew, AddUpdated;
    var net := addr.service.net;
    NewBucketInGroup(e, net, source);
    if e.routable(net) && t.Knows(net) {
      var id := t.mapAddr[net];
      KnownIsIndexed(e, t, net);
      var info := AddUpdated(t.mapInfo[id], addr, nTimePenalty, nNow);
      UpdatedIs(t.mapInfo[id], addr, nTimePenalty, nNow);
      if r != Touched(t, id, info) {
        var w := Touched(t, id, Raised(info));
        var picks, v :| Filed(w, r, id, info.GetNewBucket(e, source), nNow, picks, v);
        FileWithin(e, w, r, id, info.GetNewBucket(e, source), nNow, picks, v, g);
      }
    } else if e.routable(net) {
      var c := Created(t, addr.(nTime := Penalized(addr.nTime, nTimePenalty)), source);
      var picks, v :| Filed(c, r, t.nIdCount, NewBucketOf(e, net, source), nNow, picks, v);
      FileWithin(e, c, r, t.nIdCount, NewBucketOf(e, net, source), nNow, picks, v, g);
    }
  }

  lemma MoveStaysIn(e: Env, t: Tables, r: Tables, id: nat, nOrigin: nat, draws: seq<nat>, j: nat, g: seq<int>)
    requires MovedToTried(e, t, r, id, nOrigin, draws, j) && OneSource(e, t, g)
    ensures OneSource(e, r, g)
  {
    hide Selected, Shuffle, NewBucketsOfSource;
    var row := t.vvTried[t.mapInfo[id].GetTriedBucket(e)];
    assert WithinBuckets(Erased(t.vvNew, id), NewBucketsOfSource(e, g));
    if |row| >= TRIED_BUCKET_SIZE {
      var info := t.mapInfo[Shuffle(row, draws)[draws[j]]];
      NewBucketInGroup(e, info.Net(), info.source);
    }
  }

  lemma ReloadStaysIn(e: Env, t: Tables, r: Tables, g: seq<int>)
    requires Reloaded(t, r) && OneSource(e, t, g)
    ensures OneSource(e, r, g)
  {
    var ids := WriteOrder(t.mapInfo);
    hide WriteOrder, NewBucketsOfSource, Distinct;
    forall i | i in r.mapInfo
      ensures e.group(r.mapInfo[i].source) == g
    {
      assert ids[i] in t.mapInfo && Restored(t.mapInfo[ids[i]], r.mapInfo[i]);
    }
    forall b: nat | b < |r.vvNew| && r.vvNew[b] != {}
      ensures b in NewBucketsOfSource(e, g)
    {
      var i :| i in r.vvNew[b];
      assert ids[i] in t.vvNew[b];
    }
  }

  lemma StepStaysIn(e: Env, t: Tables, op: Op, r: Tables, g: seq<int>)
    requires Inv(e, t) && Step(e, t, op, r) && OneSource(e, t, g) && SourceIn(e, op, g)
    ensures OneSource(e, r, g)
  {
    hide Inv, AddStep, MovedToTried, NewBucketsOfSource, Reloaded;
    match op
    case Add(addr, source, nTimePenalty, nNow) =>
      AddStaysIn(e, t, r, addr, source, nTimePenalty, nNow, AddStep(e, t, r, addr, source, nTimePenalty, nNow, true),
                 g);
    case Good(s, nTime) =>
      if Exact(t, s) && !t.mapInfo[t.mapAddr[s.net]].fInTried {
        var id := t.mapAddr[s.net];
        var u := Touched(t, id, GoodUpdated(t.mapInfo[id], nTime));
        var nOrigin, draws, j :| MovedToTried(e, u, r, id, nOrigin, draws, j);
        MoveStaysIn(e, u, r, id, nOrigin, draws, j, g);
      }
    case Attempt(s, nTime) =>
    case Connected(s, nTime) =>
    case GetAddr =>
    case Reload => ReloadStaysIn(e, t, r, g);
  }

  lemma {:induction false} RunStaysIn(e: Env, ops: seq<Op>, states: seq<Tables>, g: seq<int>)
    requires Run(e, ops, states) && forall i :: 0 <= i < |ops| ==> SourceIn(e, ops[i], g)
    ensures OneSource(e, states[|ops|], g)
    ensures |NewIds(states[|ops|].mapInfo)| <= NEW_BUCKETS_PER_SOURCE_GROUP * NEW_BUCKET_SIZE
  {
    hide Inv, Step, SourceIn, NewBucketsOfSource;
    if ops != [] {
      var last := |ops| - 1;
      RunKeeps(e, ops[..last], states[..|ops|]);
      RunStaysIn(e, ops[..last], states[..|ops|], g);
      StepStaysIn(e, states[last], ops[last], states[|ops|], g);
    }
    RunKeeps(e, ops, states);
    NewShareIsBounded(e, states[|ops|], g);
  }

  // ---------------------------------------------------------------- among the sources of other ranges

  // The address x, first heard of from source, is in "new" bucket b.
  ghost predicate SitsIn(t: Tables, x: NetAddr, b: int, source: NetAddr) {
    t.Knows(x) && t.mapInfo[t.mapAddr[x]].source == source && 0 <= b < |t.vvNew| && t.mapAddr[x] in t.vvNew[b]
  }

  // Nothing has come into a bucket, but y into bucket b.
  ghost predicate OnlyInto(t: Tables, r: Tables, y: NetAddr, b: int) {
    forall x, c, s :: SitsIn(r, x, c, s) ==> SitsIn(t, x, c, s) || (x == y && c == b)
  }

  // The same for ids that keep their numbers.
  ghost predicate Within(t: Tables, r: Tables, id: nat, b: int) {
    && |r.vvNew| == |t.vvNew|
    && (forall x :: x in r.mapAddr ==> x in t.mapAddr && r.mapAddr[x] == t.mapAddr[x])
    && (forall n :: n in r.mapInfo ==> n in t.mapInfo && r.mapInfo[n].source == t.mapInfo[n].source)
    && (forall c, n :: 0 <= c < |t.vvNew| && n in r.vvNew[c] ==> n in t.vvNew[c] || (n == id && c == b))
  }

  lemma WithinInto(t: Tables, r: Tables, id: nat, b: int, y: NetAddr)
    requires Within(t, r, id, b) && forall x :: x in t.mapAddr && t.mapAddr[x] == id ==> x == y
    ensures OnlyInto(t, r, y, b)
  {
  }

  lemma FiledWithin(t: Tables, r: Tables, id: nat, b: nat, nNow: int, picks: set<nat>, v: nat)
    requires Filed(t, r, id, b, nNow, picks, v)
    ensures Within(t, r, id, b) && forall c :: 0 <= c < |t.vvNew| && c != b ==> r.vvNew[c] == t.vvNew[c]
  {
    hide VictimOf;
    if |t.vvNew[b]| == NEW_BUCKET_SIZE {
      VictimIsKnown(t, b, nNow, picks, v);
      DroppedWithin(t, b, v);
      hide RefDropped;
    }
  }

  lemma DroppedWithin(t: Tables, b: nat, v: nat)
    requires Shuffled(t.mapInfo, t.vRandom) && v in t.mapInfo && b < |t.vvNew|
    ensures var r := RefDropped(t, b, v);
            && r.vvNew == t.vvNew[b := t.vvNew[b] - {v}]
            && (forall x :: x in r.mapAddr ==> x in t.mapAddr && r.mapAddr[x] == t.mapAddr[x])
            && (forall n :: n in r.mapInfo ==> n in t.mapInfo && r.mapInfo[n].source == t.mapInfo[n].source)
  {
    var m := t.mapInfo[v := Lowered(t.mapInfo[v])];
    TouchKeepsShuffled(t.mapInfo, t.vRandom, v, m[v]);
    SourcesStay(m, t.vRandom, v);
    hide Shuffled, ForgetInfos, ForgetSlot;
  }

  lemma OneAddress(e: Env, t: Tables, id: nat)
    requires Inv(e, t) && id in t.mapInfo
    ensures forall x :: x in t.mapAddr && t.mapAddr[x] == id ==> x == t.mapInfo[id].Net()
  {
  }

  // Where Add_ files: in a bucket of the announcing range, and nowhere else.
  ghost predicate FiledAt(e: Env, t: Tables, r: Tables, net: NetAddr, source: NetAddr, b: nat) {
    && b in NewBucketsOfSource(e, e.group(source)) && OnlyInto(t, r, net, b) && |r.vvNew| == |t.vvNew|
    && (forall c :: 0 <= c < |t.vvNew| && c != b ==> r.vvNew[c] == t.vvNew[c])
    && (forall s :: SitsIn(r, net, b, s) ==>
          if t.Knows(net) then s == t.mapInfo[t.mapAddr[net]].source else s == source)
  }

  lemma AddFiles(e: Env, t: Tables, r: Tables, addr: Address, source: NetAddr, nTimePenalty: int, nNow: int, fNew: bool)
    requires Inv(e, t) && AddStep(e, t, r, addr, source, nTimePenalty, nNow, fNew)
    ensures FiledAt(e, t, r, addr.service.net, source, NewBucketOf(e, addr.service.net, source))
  {
    hide Inv, AddKnownStep, AddUnknownStep, NewBucketsOfSource, NewBucketOf;
    var net := addr.service.net;
    NewBucketInGroup(e, net, source);
    if e.routable(net) && t.Knows(net) {
      AddKnownFiles(e, t, r, t.mapAddr[net], addr, source, nTimePenalty, nNow);
    } else if e.routable(net) {
      AddUnknownFiles(e, t, r, addr, source, nTimePenalty, nNow);
    }
  }

  lemma AddKnownFiles(e: Env, t: Tables, r: Tables, id: nat, addr: Address, source: NetAddr, nTimePenalty: int,
                      nNow: int)
    requires Inv(e, t) && id in t.mapInfo && AddKnownStep(e, t, r, id, addr, source, nTimePenalty, nNow)
    requires t.Knows(addr.service.net) && id == t.mapAddr[addr.service.net]
    requires NewBucketOf(e, addr.service.net, source) in NewBucketsOfSource(e, e.group(source))
    ensures FiledAt(e, t, r, addr.service.net, source, NewBucketOf(e, addr.service.net, source))
  {
    hide Inv, Filed, NothingNew, AddUpdated, NewBucketsOfSource, NewBucketOf, OnlyInto;
    var net := addr.service.net;
    var b := NewBucketOf(e, net, source);
    KnownIsIndexed(e, t, net);
    OneAddress(e, t, id);
    var info := AddUpdated(t.mapInfo[id], addr, nTimePenalty, nNow);
    UpdatedIs(t.mapInfo[id], addr, nTimePenalty, nNow);
    assert info.GetNewBucket(e, source) == b;
    if r != Touched(t, id, info) {
      var w := Touched(t, id, Raised(info));
      var picks, v :| Filed(w, r, id, b, nNow, picks, v);
      FiledWithin(w, r, id, b, nNow, picks, v);
    }
    WithinInto(t, r, id, b, net);
  }

  lemma AddUnknownFiles(e: Env, t: Tables, r: Tables, addr: Address, source: NetAddr, nTimePenalty: int, nNow: int)
    requires Inv(e, t) && !t.Knows(addr.service.net) && AddUnknownStep(e, t, r, addr, source, nTimePenalty, nNow)
    requires NewBucketOf(e, addr.service.net, source) in NewBucketsOfSource(e, e.group(source))
    ensures FiledAt(e, t, r, addr.service.net, source, NewBucketOf(e, addr.service.net, source))
  {
    hide Inv, Filed, NewBucketsOfSource, NewBucketOf;
    var net, id := addr.service.net, t.nIdCount;
    var b := NewBucketOf(e, net, source);
    var c := Created(t, addr.(nTime := Penalized(addr.nTime, nTimePenalty)), source);
    var picks, v :| Filed(c, r, id, b, nNow, picks, v);
    FiledWithin(c, r, id, b, nNow, picks, v);
    KnownIsIndexed(e, t, net);
    forall k | 0 <= k < |t.vvNew|
      ensures id !in t.vvNew[k]
    {
      PendingNotFiled(e, t, id, k);
    }
    NumbersAreUsed(e, t);
    WithinInto(c, r, id, b, net);
    assert forall x, k, s :: SitsIn(c, x, k, s) ==> SitsIn(t, x, k, s);
  }

  lemma NumbersAreUsed(e: Env, t: Tables)
    requires Inv(e, t)
    ensures forall x :: x in t.mapAddr ==> t.mapAddr[x] < t.nIdCount
  {
  }

  // Announcing addresses from one range touches no "new" bucket outside the 32
  // open to that range, whoever else has announced what.
  lemma AddStaysInside(e: Env, t: Tables, op: Op, r: Tables, b: nat)
    requires Inv(e, t) && Step(e, t, op, r) && op.Add?
    requires b < NEW_BUCKET_COUNT && b !in NewBucketsOfSource(e, e.group(op.source))
    ensures |r.vvNew| == |t.vvNew| == NEW_BUCKET_COUNT && r.vvNew[b] == t.vvNew[b]
  {
    hide Inv, AddStep, NewBucketsOfSource, OnlyInto, NewBucketOf;
    KnownIsIndexed(e, t, op.source);
    AddFiles(e, t, r, op.addr, op.source, op.nTimePenalty, op.nNow,
             AddStep(e, t, r, op.addr, op.source, op.nTimePenalty, op.nNow, true));
  }

  lemma RunAddsInside(e: Env, ops: seq<Op>, states: seq<Tables>, i: nat, b: nat)
    requires Run(e, ops, states) && i < |ops| && ops[i].Add?
    requires b < NEW_BUCKET_COUNT && b !in NewBucketsOfSource(e, e.group(ops[i].source))
    ensures |states[i + 1].vvNew| == |states[i].vvNew| == NEW_BUCKET_COUNT
    ensures states[i + 1].vvNew[b] == states[i].vvNew[b]
  {
    hide Inv, Step, NewBucketsOfSource;
    RunKeeps(e, ops[..i], states[..i + 1]);
    AddStaysInside(e, states[i], ops[i], states[i + 1], b);
  }

  // ---------------------------------------------------------------- what Good_ does with an evicted entry

  // Of the records m, n is in a "new" bucket that is not open to its source.
  ghost predicate Outside(e: Env, m: map<nat, AddrInfo>, vv: seq<set<nat>>, n: nat)
    requires n in m
  {
    exists b :: 0 <= b < |vv| && n in vv[b] && b !in NewBucketsOfSource(e, e.group(m[n].source))
  }

  // The entry a promotion drives out of its tried bucket ends in a bucket that is
  // not open to its source exactly when its own "new" bucket is full, apart from the
  // promoted entry, and the promoted one was found in a bucket not open to it.
  lemma EvictedOutside(e: Env, t: Tables, r: Tables, id: nat, nOrigin: nat, draws: seq<nat>, j: nat)
    requires Inv(e, t) && MovedToTried(e, t, r, id, nOrigin, draws, j)
    requires |t.vvTried[t.mapInfo[id].GetTriedBucket(e)]| == TRIED_BUCKET_SIZE
    ensures var row := Shuffle(t.vvTried[t.mapInfo[id].GetTriedBucket(e)], draws);
            var n := row[draws[j]];
            var own := t.mapInfo[n].GetNewBucket(e, t.mapInfo[n].source);
            Outside(e, t.mapInfo, r.vvNew, n)
            <==> |t.vvNew[own] - {id}| == NEW_BUCKET_SIZE
                 && nOrigin !in NewBucketsOfSource(e, e.group(t.mapInfo[n].source))
  {
    hide Inv, Selected, Shuffle, NewBucketsOfSource, NewBucketOf;
    var row := Shuffle(t.vvTried[t.mapInfo[id].GetTriedBucket(e)], draws);
    var n := row[draws[j]];
    NewBucketInGroup(e, t.mapInfo[n].Net(), t.mapInfo[n].source);
    EvictedWasTried(e, t, id, draws, j);
    TriedNowhereNew(e, t, n);
    var own := t.mapInfo[n].GetNewBucket(e, t.mapInfo[n].source);
    BucketSize(e, t, own, id);
    var u := RefugeOf(e, Erased(t.vvNew, id), t.mapInfo[n], nOrigin);
    assert n in r.vvNew[u];
    assert forall b :: 0 <= b < |r.vvNew| && n in r.vvNew[b] ==> b == u;
  }

  lemma EvictedWasTried(e: Env, t: Tables, id: nat, draws: seq<nat>, j: nat)
    requires Inv(e, t) && id in t.mapInfo && |t.vvTried| == TRIED_BUCKET_COUNT
    requires var row := t.vvTried[t.mapInfo[id].GetTriedBucket(e)]; Draws(draws, |row|) && j < |draws|
    ensures var row := t.vvTried[t.mapInfo[id].GetTriedBucket(e)];
            var n := Shuffle(row, draws)[draws[j]];
            n in row && n in t.mapInfo && t.mapInfo[n].fInTried
            && t.mapInfo[n].GetTriedBucket(e) == t.mapInfo[id].GetTriedBucket(e)
  {
    hide Indexed, NewSound;
    var row := t.vvTried[t.mapInfo[id].GetTriedBucket(e)];
    var mixed := Shuffle(row, draws);
    ShuffleKeepsMultiset(row, draws);
    hide Shuffle;
    DistinctTransfers(row, mixed);
    assert mixed[draws[j]] in mixed;
  }

  lemma TriedNowhereNew(e: Env, t: Tables, n: nat)
    requires Inv(e, t) && n in t.mapInfo && t.mapInfo[n].fInTried
    ensures forall b :: 0 <= b < |t.vvNew| ==> n !in t.vvNew[b]
  {
  }

  lemma BucketSize(e: Env, t: Tables, b: nat, id: nat)
    requires Inv(e, t) && b < |t.vvNew|
    ensures |t.vvNew[b] - {id}| <= NEW_BUCKET_SIZE
  {
    SubsetSize(t.vvNew[b] - {id}, t.vvNew[b]);
  }

  // ---------------------------------------------------------------- the share of a range in every run

  // Addresses heard of from range g in a bucket not open to g.
  ghost predicate Stray(e: Env, t: Tables, g: seq<int>, x: NetAddr) {
    x in t.mapAddr && exists b, s :: SitsIn(t, x, b, s) && e.group(s) == g && b !in NewBucketsOfSource(e, g)
  }

  ghost function Strays(e: Env, t: Tables, g: seq<int>): set<NetAddr> {
    set x | x in t.mapAddr && Stray(e, t, g, x)
  }

  // What can add to them: another range repeats an address heard of from g; or a
  // promotion finds the tried bucket full, and in it an entry of g that can be driven
  // out and whose own "new" bucket is full, while the promoted entry is in a bucket
  // not open to g.
  ghost predicate Spills(e: Env, t: Tables, op: Op, g: seq<int>) {
    match op
    case Add(addr, source, _, _) =>
      var net := addr.service.net;
      e.group(source) != g && t.Knows(net) && e.group(t.mapInfo[t.mapAddr[net]].source) == g
    case Good(s, _) => Exact(t, s) && Crowded(e, t, t.mapAddr[s.net], g)
    case _ => false
  }

  ghost predicate Crowded(e: Env, t: Tables, id: nat, g: seq<int>) {
    && id in t.mapInfo && t.mapInfo[id].GetTriedBucket(e) < |t.vvTried|
    && |t.vvTried[t.mapInfo[id].GetTriedBucket(e)]| >= TRIED_BUCKET_SIZE
    && (exists b :: 0 <= b < |t.vvNew| && id in t.vvNew[b] && b !in NewBucketsOfSource(e, g))
    && exists n :: MakesWay(e, t, id, t.vvTried[t.mapInfo[id].GetTriedBucket(e)], n, g)
  }

  // An entry of g that can be driven out of the bucket, and whose own is full.
  ghost predicate MakesWay(e: Env, t: Tables, id: nat, row: seq<nat>, n: nat, g: seq<int>)
    requires |row| >= 4
  {
    n in row && NoRoomFor(e, t, id, n, g) && Outlived(t.mapInfo, row, n)
  }

  ghost predicate NoRoomFor(e: Env, t: Tables, id: nat, n: nat, g: seq<int>) {
    && n in t.mapInfo && e.group(t.mapInfo[n].source) == g
    && var own := t.mapInfo[n].GetNewBucket(e, t.mapInfo[n].source);
       own < |t.vvNew| && |t.vvNew[own] - {id}| == NEW_BUCKET_SIZE
  }

  // y in bucket b is not a stray of g.
  ghost predicate Home(e: Env, r: Tables, y: NetAddr, b: int, g: seq<int>) {
    b in NewBucketsOfSource(e, g) || forall s :: SitsIn(r, y, b, s) ==> e.group(s) != g
  }

  lemma StraysGrow(e: Env, t: Tables, r: Tables, y: NetAddr, b: int, g: seq<int>)
    requires OnlyInto(t, r, y, b)
    ensures |Strays(e, r, g)| <= |Strays(e, t, g)| + if Home(e, r, y, b, g) then 0 else 1
  {
    hide NewBucketsOfSource;
    var was, now := Strays(e, t, g), Strays(e, r, g);
    forall x | x in now
      ensures x in was || (x == y && !Home(e, r, y, b, g))
    {
      var c, s :| SitsIn(r, x, c, s) && e.group(s) == g && c !in NewBucketsOfSource(e, g);
      if !(x == y && c == b) {
        assert SitsIn(t, x, c, s);
      }
    }
    hide Home, Stray;
    SubsetCount(now, was, y, Home(e, r, y, b, g));
  }

  lemma SubsetCount(now: set<NetAddr>, was: set<NetAddr>, y: NetAddr, home: bool)
    requires forall x :: x in now ==> x in was || (x == y && !home)
    ensures |now| <= |was| + if home then 0 else 1
  {
    var all := if home then was else was + {y};
    assert all == now + (all - now);
  }

  lemma AddSpills(e: Env, t: Tables, op: Op, r: Tables, g: seq<int>)
    requires Inv(e, t) && Step(e, t, op, r) && op.Add?
    ensures |Strays(e, r, g)| <= |Strays(e, t, g)| + if Spills(e, t, op, g) then 1 else 0
  {
    hide Inv, AddStep, NewBucketsOfSource, OnlyInto, NewBucketOf, Strays, SitsIn;
    var net, source := op.addr.service.net, op.source;
    var b := NewBucketOf(e, net, source);
    AddFiles(e, t, r, op.addr, source, op.nTimePenalty, op.nNow,
             AddStep(e, t, r, op.addr, source, op.nTimePenalty, op.nNow, true));
    StraysGrow(e, t, r, net, b, g);
  }

  lemma GoodSpills(e: Env, t: Tables, op: Op, r: Tables, g: seq<int>)
    requires Inv(e, t) && Step(e, t, op, r) && op.Good?
    ensures |Strays(e, r, g)| <= |Strays(e, t, g)| + if Spills(e, t, op, g) then 1 else 0
  {
    hide Inv, MovedToTried, NewBucketsOfSource, Crowded, Strays;
    if Exact(t, op.service) {
      var id := t.mapAddr[op.service.net];
      TouchedStrays(e, t, id, GoodUpdated(t.mapInfo[id], op.nTime), g);
      if !t.mapInfo[id].fInTried {
        var nOrigin, draws, j :| MovedToTried(e, Touched(t, id, GoodUpdated(t.mapInfo[id], op.nTime)), r, id, nOrigin,
                                              draws, j);
        GoodMoveSpills(e, t, r, id, op.nTime, nOrigin, draws, j, g);
      }
    }
  }

  lemma GoodMoveSpills(e: Env, t: Tables, r: Tables, id: nat, nTime: int, nOrigin: nat, draws: seq<nat>, j: nat,
                       g: seq<int>)
    requires Inv(e, t) && id in t.mapInfo && !t.mapInfo[id].fInTried
    requires MovedToTried(e, Touched(t, id, GoodUpdated(t.mapInfo[id], nTime)), r, id, nOrigin, draws, j)
    ensures |Strays(e, r, g)| <= |Strays(e, t, g)| + if Crowded(e, t, id, g) then 1 else 0
  {
    hide Indexed, NewSound, TriedSound, Counted, MovedToTried, NewBucketsOfSource, Crowded, Strays;
    var info := GoodUpdated(t.mapInfo[id], nTime);
    TouchKeeps(e, t, id, info, -1);
    TouchedStrays(e, t, id, info, g);
    MoveSpills(e, Touched(t, id, info), r, id, nOrigin, draws, j, g);
    CrowdedTouched(e, t, id, info, g);
  }

  lemma TouchedStrays(e: Env, t: Tables, id: nat, info: AddrInfo, g: seq<int>)
    requires id in t.mapInfo && info.source == t.mapInfo[id].source
    ensures Strays(e, Touched(t, id, info), g) == Strays(e, t, g)
  {
    var u := Touched(t, id, info);
    assert forall x, b, s :: SitsIn(u, x, b, s) <==> SitsIn(t, x, b, s);
    hide SitsIn, NewBucketsOfSource;
    assert forall x :: x in t.mapAddr ==> (Stray(e, u, g, x) <==> Stray(e, t, g, x));
  }

  lemma CrowdedTouched(e: Env, t: Tables, id: nat, info: AddrInfo, g: seq<int>)
    requires Inv(e, t) && id in t.mapInfo && !t.mapInfo[id].fInTried
    requires info.source == t.mapInfo[id].source && info.addr.service == t.mapInfo[id].addr.service
    ensures Crowded(e, Touched(t, id, info), id, g) <==> Crowded(e, t, id, g)
  {
    hide Inv, NewBucketsOfSource, NewBucketOf, TriedBucketOf, NoRoomFor, MakesWay;
    KnownIsIndexed(e, t, info.Net());
    var row := t.vvTried[t.mapInfo[id].GetTriedBucket(e)];
    FullRow(e, t, t.mapInfo[id].GetTriedBucket(e));
    assert info.GetTriedBucket(e) == t.mapInfo[id].GetTriedBucket(e);
    if |row| >= TRIED_BUCKET_SIZE {
      forall n
        ensures MakesWay(e, Touched(t, id, info), id, row, n, g) <==> MakesWay(e, t, id, row, n, g)
      {
        MakesWayTouched(e, t, id, info, row, n, g);
      }
    }
  }

  lemma MakesWayTouched(e: Env, t: Tables, id: nat, info: AddrInfo, row: seq<nat>, n: nat, g: seq<int>)
    requires id in t.mapInfo && |row| >= 4 && forall i :: 0 <= i < |row| ==> row[i] != id
    ensures MakesWay(e, Touched(t, id, info), id, row, n, g) <==> MakesWay(e, t, id, row, n, g)
  {
    hide NewBucketOf;
  }

  lemma MoveSpills(e: Env, t: Tables, r: Tables, id: nat, nOrigin: nat, draws: seq<nat>, j: nat, g: seq<int>)
    requires Inv(e, t) && MovedToTried(e, t, r, id, nOrigin, draws, j)
    ensures |Strays(e, r, g)| <= |Strays(e, t, g)| + if Crowded(e, t, id, g) then 1 else 0
  {
    hide Inv, Selected, Shuffle, NewBucketsOfSource, NewBucketOf, TriedBucketOf, Strays, OnlyInto, SitsIn, Home;
    var row := t.vvTried[t.mapInfo[id].GetTriedBucket(e)];
    OneAddress(e, t, id);
    if |row| < TRIED_BUCKET_SIZE {
      var net := t.mapInfo[id].Net();
      WithinInto(t, r, id, -1, net);
      NowhereIsHome(e, r, net, g);
      StraysGrow(e, t, r, net, -1, g);
    } else {
      var n := Shuffle(row, draws)[draws[j]];
      var net := t.mapInfo[n].Net();
      EvictedWasTried(e, t, id, draws, j);
      EvictedOutlived(e, t, r, id, nOrigin, draws, j);
      var u := RefugeOf(e, Erased(t.vvNew, id), t.mapInfo[n], nOrigin);
      OneAddress(e, t, n);
      WithinInto(t, r, n, u, net);
      StraysGrow(e, t, r, net, u, g);
      KnownIsIndexed(e, t, net);
      RefugeIsHome(e, t, r, id, n, nOrigin, g);
    }
  }

  lemma EvictedOutlived(e: Env, t: Tables, r: Tables, id: nat, nOrigin: nat, draws: seq<nat>, j: nat)
    requires Inv(e, t) && MovedToTried(e, t, r, id, nOrigin, draws, j)
    requires |t.vvTried[t.mapInfo[id].GetTriedBucket(e)]| >= TRIED_BUCKET_SIZE
    ensures var row := t.vvTried[t.mapInfo[id].GetTriedBucket(e)];
            |row| == TRIED_BUCKET_SIZE && Outlived(t.mapInfo, row, Shuffle(row, draws)[draws[j]])
  {
    var row := t.vvTried[t.mapInfo[id].GetTriedBucket(e)];
    FullRow(e, t, t.mapInfo[id].GetTriedBucket(e));
    hide Inv, Selected, Shuffle, Outlived, TriedBucketOf, Displaced;
    OnlyOutlived(t.mapInfo, row, draws, j, Shuffle(row, draws)[draws[j]]);
  }

  lemma FullRow(e: Env, t: Tables, k: nat)
    requires Inv(e, t) && k < |t.vvTried|
    ensures |t.vvTried[k]| <= TRIED_BUCKET_SIZE
    ensures forall i :: 0 <= i < |t.vvTried[k]| ==> t.vvTried[k][i] in t.mapInfo && t.mapInfo[t.vvTried[k][i]].fInTried
  {
  }

  lemma NowhereIsHome(e: Env, r: Tables, y: NetAddr, g: seq<int>)
    ensures Home(e, r, y, -1, g)
  {
    hide NewBucketsOfSource;
  }

  lemma RefugeIsHome(e: Env, t: Tables, r: Tables, id: nat, n: nat, nOrigin: nat, g: seq<int>)
    requires Inv(e, t) && id in t.mapInfo && n in t.mapInfo && nOrigin < |t.vvNew| == NEW_BUCKET_COUNT
    requires id in t.vvNew[nOrigin]
    requires t.mapInfo[id].GetTriedBucket(e) < |t.vvTried| && n in t.vvTried[t.mapInfo[id].GetTriedBucket(e)]
    requires |t.vvTried[t.mapInfo[id].GetTriedBucket(e)]| >= TRIED_BUCKET_SIZE
    requires r.mapAddr == t.mapAddr && t.mapInfo[n].Net() in t.mapAddr && t.mapAddr[t.mapInfo[n].Net()] == n
    requires n in r.mapInfo && r.mapInfo[n].source == t.mapInfo[n].source
    requires Outlived(t.mapInfo, t.vvTried[t.mapInfo[id].GetTriedBucket(e)], n)
    ensures var u := RefugeOf(e, Erased(t.vvNew, id), t.mapInfo[n], nOrigin);
            Home(e, r, t.mapInfo[n].Net(), u, g) || Crowded(e, t, id, g)
  {
    hide Inv, NewBucketsOfSource, NewBucketOf, TriedBucketOf, Outlived;
    NewBucketInGroup(e, t.mapInfo[n].Net(), t.mapInfo[n].source);
    BucketSize(e, t, t.mapInfo[n].GetNewBucket(e, t.mapInfo[n].source), id);
    if e.group(t.mapInfo[n].source) == g {
      var row := t.vvTried[t.mapInfo[id].GetTriedBucket(e)];
      assert NoRoomFor(e, t, id, n, g) ==> MakesWay(e, t, id, row, n, g);
      hide NoRoomFor, MakesWay;
      assert nOrigin in NewBucketsOfSource(e, g) || !MakesWay(e, t, id, row, n, g) || Crowded(e, t, id, g);
    }
  }

  // ---------------------------------------------------------------- when a promotion does spill over

  // From t to r the entry n of range g has gone from its tried bucket to a "new" one
  // that is not open to g.
  ghost predicate DrivenOut(e: Env, t: Tables, r: Tables, n: nat, g: seq<int>) {
    && n in t.mapInfo && t.mapInfo[n].fInTried && n in r.mapInfo && !r.mapInfo[n].fInTried
    && e.group(t.mapInfo[n].source) == g && Outside(e, t.mapInfo, r.vvNew, n)
  }

  lemma MoveDrivesOut(e: Env, t: Tables, r: Tables, id: nat, nOrigin: nat, draws: seq<nat>, j: nat, n: nat, g: seq<int>)
    requires Inv(e, t) && MovedToTried(e, t, r, id, nOrigin, draws, j) && DrivenOut(e, t, r, n, g)
    ensures Crowded(e, t, id, g)
  {
    hide Inv, Selected, Shuffle, NewBucketsOfSource, NewBucketOf, TriedBucketOf, Outlived, Outside;
    var row := t.vvTried[t.mapInfo[id].GetTriedBucket(e)];
    UntriedInBucket(e, t, nOrigin, id);
    assert |row| >= TRIED_BUCKET_SIZE && n == Shuffle(row, draws)[draws[j]];
    EvictedOutlived(e, t, r, id, nOrigin, draws, j);
    EvictedWasTried(e, t, id, draws, j);
    EvictedOutside(e, t, r, id, nOrigin, draws, j);
    KnownIsIndexed(e, t, t.mapInfo[n].Net());
    assert NoRoomFor(e, t, id, n, g) && MakesWay(e, t, id, row, n, g);
  }

  lemma CrowdedDrivesOut(e: Env, t: Tables, id: nat, g: seq<int>)
    returns (r: Tables, nOrigin: nat, draws: seq<nat>, j: nat, n: nat)
    requires Inv(e, t) && id in t.mapInfo && !t.mapInfo[id].fInTried && Crowded(e, t, id, g)
    ensures MovedToTried(e, t, r, id, nOrigin, draws, j) && DrivenOut(e, t, r, n, g)
  {
    nOrigin, n := CrowdedHas(e, t, id, g);
    hide Inv, Crowded, MovedToTried, DrivenOut, Outlived, MakesWay;
    var row := t.vvTried[t.mapInfo[id].GetTriedBucket(e)];
    EvictableExactly(t.mapInfo, row, n);
    draws, j :| Chosen(t.mapInfo, row, draws, j, n);
    r := ChosenDrivesOut(e, t, id, nOrigin, draws, j, n, g);
  }

  lemma CrowdedHas(e: Env, t: Tables, id: nat, g: seq<int>) returns (nOrigin: nat, n: nat)
    requires Inv(e, t) && id in t.mapInfo && Crowded(e, t, id, g)
    ensures nOrigin < |t.vvNew| && id in t.vvNew[nOrigin] && nOrigin !in NewBucketsOfSource(e, g)
    ensures var row := t.vvTried[t.mapInfo[id].GetTriedBucket(e)];
            && |row| == TRIED_BUCKET_SIZE && MakesWay(e, t, id, row, n, g) && n in t.mapInfo && n in row
            && Outlived(t.mapInfo, row, n) && forall i :: 0 <= i < |row| ==> row[i] in t.mapInfo
  {
    hide Inv, NewBucketsOfSource, NewBucketOf, TriedBucketOf, Outlived;
    var k := t.mapInfo[id].GetTriedBucket(e);
    nOrigin :| nOrigin < |t.vvNew| && id in t.vvNew[nOrigin] && nOrigin !in NewBucketsOfSource(e, g);
    n :| MakesWay(e, t, id, t.vvTried[k], n, g);
    FullRow(e, t, k);
  }

  lemma ChosenDrivesOut(e: Env, t: Tables, id: nat, nOrigin: nat, draws: seq<nat>, j: nat, n: nat, g: seq<int>)
    returns (r: Tables)
    requires Inv(e, t) && id in t.mapInfo && !t.mapInfo[id].fInTried && |t.vvTried| == TRIED_BUCKET_COUNT
    requires nOrigin < |t.vvNew| && id in t.vvNew[nOrigin] && nOrigin !in NewBucketsOfSource(e, g)
    requires var row := t.vvTried[t.mapInfo[id].GetTriedBucket(e)];
             |row| == TRIED_BUCKET_SIZE && MakesWay(e, t, id, row, n, g) && Chosen(t.mapInfo, row, draws, j, n)
    ensures MovedToTried(e, t, r, id, nOrigin, draws, j) && DrivenOut(e, t, r, n, g)
  {
    hide Inv, Selected, Shuffle, Outlived, NewBucketsOfSource, NewBucketOf, TriedBucketOf, RefugeOf, Outside;
    KnownIsIndexed(e, t, t.mapInfo[n].Net());
    EvictedWasTried(e, t, id, draws, j);
    r := Displaced(e, t, id, nOrigin, Shuffle(t.vvTried[t.mapInfo[id].GetTriedBucket(e)], draws), draws[j]);
    EvictedOutside(e, t, r, id, nOrigin, draws, j);
  }

  // Before the call: some draws make Good_ put an entry of g into a bucket not open
  // to g exactly when the condition of Spills holds.
  lemma GoodSpillsExactly(e: Env, t: Tables, op: Op, g: seq<int>)
    requires Inv(e, t) && op.Good?
    ensures Spills(e, t, op, g) <==> exists r, n :: Step(e, t, op, r) && DrivenOut(e, t, r, n, g)
  {
    hide Inv, MovedToTried, Crowded, NewBucketsOfSource, Outside;
    var s, nTime := op.service, op.nTime;
    if Exact(t, s) && !t.mapInfo[t.mapAddr[s.net]].fInTried {
      var id := t.mapAddr[s.net];
      var info := GoodUpdated(t.mapInfo[id], nTime);
      var u := Touched(t, id, info);
      GoodTouchKeeps(e, t, id, nTime);
      CrowdedTouched(e, t, id, info, g);
      if Crowded(e, t, id, g) {
        var r, nOrigin, draws, j, n := CrowdedDrivesOut(e, u, id, g);
        DrivenFrom(e, t, u, r, id, n, g);
        assert Step(e, t, op, r) && DrivenOut(e, t, r, n, g);
      }
      forall r, n | Step(e, t, op, r) && DrivenOut(e, t, r, n, g)
        ensures Crowded(e, t, id, g)
      {
        var nOrigin, draws, j :| MovedToTried(e, u, r, id, nOrigin, draws, j);
        DrivenFrom(e, t, u, r, id, n, g);
        MoveDrivesOut(e, u, r, id, nOrigin, draws, j, n, g);
      }
    } else if Exact(t, s) {
      TriedIsNotCrowded(e, t, t.mapAddr[s.net], g);
    }
  }

  lemma GoodTouchKeeps(e: Env, t: Tables, id: nat, nTime: int)
    requires Inv(e, t) && id in t.mapInfo
    ensures Inv(e, Touched(t, id, GoodUpdated(t.mapInfo[id], nTime)))
  {
    hide Indexed, NewSound, TriedSound, Counted;
    TouchKeeps(e, t, id, GoodUpdated(t.mapInfo[id], nTime), -1);
  }

  lemma DrivenFrom(e: Env, t: Tables, u: Tables, r: Tables, id: nat, n: nat, g: seq<int>)
    requires id in t.mapInfo && id in u.mapInfo && u.mapInfo == t.mapInfo[id := u.mapInfo[id]]
    requires u.mapInfo[id].source == t.mapInfo[id].source && u.mapInfo[id].fInTried == t.mapInfo[id].fInTried
    ensures DrivenOut(e, t, r, n, g) <==> DrivenOut(e, u, r, n, g)
  {
    hide NewBucketsOfSource;
  }

  lemma TriedIsNotCrowded(e: Env, t: Tables, id: nat, g: seq<int>)
    requires Inv(e, t) && id in t.mapInfo && t.mapInfo[id].fInTried
    ensures !Crowded(e, t, id, g)
  {
    hide Inv, NewBucketsOfSource, MakesWay;
    TriedNowhereNew(e, t, id);
  }

  lemma ReloadSpills(e: Env, t: Tables, r: Tables, g: seq<int>)
    requires Inv(e, t) && Reloaded(t, r)
    ensures |Strays(e, r, g)| <= |Strays(e, t, g)|
  {
    var ids, none := WriteOrder(t.mapInfo), NetAddr([]);
    RenamedInto(e, t, r, ids);
    NowhereIsHome(e, r, none, g);
    hide Inv, Reloaded, Strays, OnlyInto, Home;
    StraysGrow(e, t, r, none, -1, g);
  }

  lemma RenamedInto(e: Env, t: Tables, r: Tables, ids: seq<nat>)
    requires Inv(e, t) && Renamed(t, r, ids) && Packed(t, r, |ids|)
    ensures OnlyInto(t, r, NetAddr([]), -1)
  {
    hide Inv, Distinct;
    forall x, c, s | SitsIn(r, x, c, s)
      ensures SitsIn(t, x, c, s)
    {
      var i := r.mapAddr[x];
      assert ids[i] in t.mapInfo && Restored(t.mapInfo[ids[i]], r.mapInfo[i]);
      KnownIsIndexed(e, t, x);
    }
  }

  lemma StepSpills(e: Env, t: Tables, op: Op, r: Tables, g: seq<int>)
    requires Inv(e, t) && Step(e, t, op, r)
    ensures |Strays(e, r, g)| <= |Strays(e, t, g)| + if Spills(e, t, op, g) then 1 else 0
  {
    hide Inv, Strays;
    if op.Add? {
      AddSpills(e, t, op, r, g);
    } else if op.Good? {
      GoodSpills(e, t, op, r, g);
    } else if op.Reload? {
      hide Reloaded, Spills;
      ReloadSpills(e, t, r, g);
    } else {
      hide Spills;
      StaysPut(e, t, op, r, g);
    }
  }

  lemma StaysPut(e: Env, t: Tables, op: Op, r: Tables, g: seq<int>)
    requires Step(e, t, op, r) && (op.Attempt? || op.Connected? || op.GetAddr?)
    ensures |Strays(e, r, g)| <= |Strays(e, t, g)|
  {
    assert OnlyInto(t, r, NetAddr([]), -1);
    hide Step, OnlyInto, Strays, Home;
    NowhereIsHome(e, r, NetAddr([]), g);
    StraysGrow(e, t, r, NetAddr([]), -1, g);
  }

  // How many of the operations could have spilled over.
  ghost function SpillCount(e: Env, ops: seq<Op>, states: seq<Tables>, g: seq<int>): nat
    requires |states| == |ops| + 1
  {
    if ops == [] then 0
    else
      var last := |ops| - 1;
      SpillCount(e, ops[..last], states[..|ops|], g) + if Spills(e, states[last], ops[last], g) then 1 else 0
  }

  lemma {:induction false} RunSpills(e: Env, ops: seq<Op>, states: seq<Tables>, g: seq<int>)
    requires Run(e, ops, states)
    ensures |Strays(e, states[|ops|], g)| <= SpillCount(e, ops, states, g)
  {
    hide Inv, Step, Spills;
    if ops == [] {
      assert Strays(e, states[0], g) == {};
    } else {
      hide Strays;
      var last := |ops| - 1;
      RunKeeps(e, ops[..last], states[..|ops|]);
      RunSpills(e, ops[..last], states[..|ops|], g);
      StepSpills(e, states[last], ops[last], states[|ops|], g);
    }
  }

  ghost function NewFromGroup(e: Env, m: map<nat, AddrInfo>, g: seq<int>): set<nat> {
    set n | n in m && !m[n].fInTried && e.group(m[n].source) == g
  }

  lemma ImageSize(c: set<NetAddr>, a: map<NetAddr, nat>)
    requires c <= a.Keys
    ensures |set x | x in c :: a[x]| <= |c|
  {
    var image := set x | x in c :: a[x];
    if c != {} {
      var z :| z in c;
      ImageSize(c - {z}, a);
      assert image == (set x | x in c - {z} :: a[x]) + {a[z]};
    } else {
      assert image == {};
    }
  }

  // In a sound state the untried entries heard of from range g are its strays and
  // what sits in the 32 buckets open to g.
  lemma ShareIsBounded(e: Env, t: Tables, g: seq<int>)
    requires Inv(e, t)
    ensures |NewFromGroup(e, t.mapInfo, g)| <= NEW_BUCKETS_PER_SOURCE_GROUP * NEW_BUCKET_SIZE + |Strays(e, t, g)|
  {
    hide Inv;
    var B, S := NewBucketsOfSource(e, g), Strays(e, t, g);
    var ids := set x | x in S :: t.mapAddr[x];
    forall n | n in NewFromGroup(e, t.mapInfo, g)
      ensures n in Held(t.vvNew, B) + ids
    {
      KnownIsIndexed(e, t, t.mapInfo[n].Net());
      var b := NewSitsSomewhere(e, t, n);
      assert SitsIn(t, t.mapInfo[n].Net(), b, t.mapInfo[n].source);
      hide NewBucketsOfSource;
      if b !in B {
        assert t.mapInfo[n].Net() in S;
      }
    }
    hide Stray, NewBucketsOfSource;
    ImageSize(S, t.mapAddr);
    SourceBucketsAreFew(e, t, g);
    hide Held, Strays;
    SubsetSize(NewFromGroup(e, t.mapInfo, g), Held(t.vvNew, B) + ids);
  }

  lemma NewSitsSomewhere(e: Env, t: Tables, n: nat) returns (b: nat)
    requires Inv(e, t) && n in t.mapInfo && !t.mapInfo[n].fInTried
    ensures b < |t.vvNew| && n in t.vvNew[b]
  {
    RefsZero(t.vvNew, n);
    b :| b < |t.vvNew| && n in t.vvNew[b];
  }

  lemma SourceBucketsAreFew(e: Env, t: Tables, g: seq<int>)
    requires Inv(e, t)
    ensures |Held(t.vvNew, NewBucketsOfSource(e, g))| <= NEW_BUCKETS_PER_SOURCE_GROUP * NEW_BUCKET_SIZE
  {
    var B := NewBucketsOfSource(e, g);
    assert forall b :: 0 <= b < |t.vvNew| ==> |t.vvNew[b]| <= NEW_BUCKET_SIZE;
    hide Inv, Image;
    ImageIs(GroupHash(e, g, NEW_BUCKET_COUNT), NEW_BUCKETS_PER_SOURCE_GROUP);
    hide NewBucketsOfSource;
    HeldSize(t.vvNew, B, NEW_BUCKET_SIZE);
  }

  // In every run, whoever announces what: the untried entries heard of from range g
  // are at most 32 buckets full, and one for each operation that could spill over.
  lemma RunShare(e: Env, ops: seq<Op>, states: seq<Tables>, g: seq<int>)
    requires Run(e, ops, states)
    ensures |NewFromGroup(e, states[|ops|].mapInfo, g)|
         <= NEW_BUCKETS_PER_SOURCE_GROUP * NEW_BUCKET_SIZE + SpillCount(e, ops, states, g)
  {
    hide Inv, Step, Strays, SpillCount, NewFromGroup;
    RunKeeps(e, ops, states);
    RunSpills(e, ops, states, g);
    ShareIsBounded(e, states[|ops|], g);
  }
}
