// The address manager as a transition system: one relation per public
// operation, and what every run from the empty manager keeps.
module AddrRuns {
  import opened Ascending
  import opened AddrTables
  import opened AddrSteps
  import opened AddrMoves

  // ---------------------------------------------------------------- Good_

  // The manager has a record for exactly this address and port.
  ghost predicate Exact(t: Tables, s: Service) {
    t.Knows(s.net) && t.mapInfo[t.mapAddr[s.net]].addr.service == s
  }

  function GoodUpdated(info: AddrInfo, nTime: int): AddrInfo {
    info.(nLastSuccess := nTime, nLastTry := nTime, nAttempts := 0, addr := info.addr.(nTime := ToUint32(nTime)))
  }

  ghost predicate MovedToTried(e: Env, t: Tables, r: Tables, id: nat, nOrigin: nat, draws: seq<nat>, j: nat) {
    && id in t.mapInfo && |t.vvTried| == TRIED_BUCKET_COUNT && |t.vvNew| == NEW_BUCKET_COUNT
    && nOrigin < |t.vvNew| && id in t.vvNew[nOrigin]
    && var row := t.vvTried[t.mapInfo[id].GetTriedBucket(e)];
       if |row| < TRIED_BUCKET_SIZE then r == Promoted(e, t, id)
       else
         && Draws(draws, |row|) && j < |draws|
         && Selected(t.mapInfo, row, draws, j, Shuffle(row, draws), draws[j])
         && Shuffle(row, draws)[draws[j]] in t.mapInfo
         && r == Displaced(e, t, id, nOrigin, Shuffle(row, draws), draws[j])
  }

  ghost predicate GoodStep(e: Env, t: Tables, r: Tables, s: Service, nTime: int) {
    if !Exact(t, s) then r == t
    else
      var id := t.mapAddr[s.net];
      var u := Touched(t, id, GoodUpdated(t.mapInfo[id], nTime));
      if t.mapInfo[id].fInTried then r == u
      else exists nOrigin, draws, j :: MovedToTried(e, u, r, id, nOrigin, draws, j)
  }

  // ---------------------------------------------------------------- Add_

  function AddUpdated(info: AddrInfo, addr: Address, nTimePenalty: int, nNow: int): AddrInfo {
    var interval := if nNow - addr.nTime < 24 * 60 * 60 then 60 * 60 else 24 * 60 * 60;
    var stale := addr.nTime != 0 && (info.addr.nTime == 0 || info.addr.nTime < addr.nTime - interval - nTimePenalty);
    info.(addr := info.addr.(
      nTime := if stale then Penalized(addr.nTime, nTimePenalty) else info.addr.nTime,
      nServices := info.addr.nServices.Or(addr.nServices)))
  }

  function Penalized(nTime: int, nTimePenalty: int): int {
    ToUint32(if nTime - nTimePenalty < 0 then 0 else nTime - nTimePenalty)
  }

  predicate NothingNew(info: AddrInfo, addr: Address) {
    || addr.nTime == 0 || (info.addr.nTime != 0 && addr.nTime <= info.addr.nTime)
    || info.fInTried || info.nRefCount == NEW_BUCKETS_PER_ADDRESS
  }

  // The positions four draws can name.
  ghost predicate Picks(picks: set<nat>, n: nat) {
    1 <= |picks| <= 4 && forall i :: i in picks ==> i < n
  }

  ghost function Drawn(s: set<nat>, picks: set<nat>): set<nat> {
    set n | n in s && Rank(s, n) in picks
  }

  // The entry of c with the least nTime, the lowest id among equals.
  ghost predicate IsStalest(m: map<nat, AddrInfo>, c: set<nat>, v: int) {
    && v in c && c <= m.Keys
    && forall n :: n in c ==> m[v].addr.nTime <= m[n].addr.nTime && (m[v].addr.nTime == m[n].addr.nTime ==> v <= n)
  }

  // The entry ShrinkNew takes out of bucket b: the first that is terrible, or
  // else the one seen longest ago among those at four drawn positions.
  ghost predicate VictimOf(t: Tables, b: nat, nNow: int, picks: set<nat>, v: nat) {
    && b < |t.vvNew| && v in t.vvNew[b] && t.vvNew[b] <= t.mapInfo.Keys
    && if exists n :: n in t.vvNew[b] && t.mapInfo[n].IsTerrible(nNow) then
         t.mapInfo[v].IsTerrible(nNow) && forall n :: n in t.vvNew[b] && n < v ==> !t.mapInfo[n].IsTerrible(nNow)
       else
         Picks(picks, |t.vvNew[b]|) && IsStalest(t.mapInfo, Drawn(t.vvNew[b], picks), v)
  }

  // Putting an id whose reference is pending into bucket b, making room first
  // when the bucket is full.
  ghost predicate Filed(t: Tables, r: Tables, id: nat, b: nat, nNow: int, picks: set<nat>, v: nat) {
    && b < |t.vvNew|
    && if |t.vvNew[b]| == NEW_BUCKET_SIZE then
         && VictimOf(t, b, nNow, picks, v) && Shuffled(t.mapInfo, t.vRandom)
         && r == RefPlaced(RefDropped(t, b, v), b, id)
       else r == RefPlaced(t, b, id)
  }

  // Add_ of a known network address refreshes its record and may file it in one
  // more bucket, which gets harder with every bucket it is in already.
  ghost predicate AddKnownStep(e: Env, t: Tables, r: Tables, id: nat, addr: Address, source: NetAddr, nTimePenalty: int,
                               nNow: int)
    requires id in t.mapInfo
  {
    KnownStep(e, t, r, id, AddUpdated(t.mapInfo[id], addr, nTimePenalty, nNow), addr, source, nNow)
  }

  ghost predicate KnownStep(e: Env, t: Tables, r: Tables, id: nat, info: AddrInfo, addr: Address, source: NetAddr,
                            nNow: int) {
    var b := info.GetNewBucket(e, source);
    if NothingNew(info, addr) || (b < |t.vvNew| && id in t.vvNew[b]) then r == Touched(t, id, info)
    else
      || (r == Touched(t, id, info) && info.nRefCount >= 1)
      || exists picks, v :: Filed(Touched(t, id, Raised(info)), r, id, b, nNow, picks, v)
  }

  ghost predicate AddUnknownStep(e: Env, t: Tables, r: Tables, addr: Address, source: NetAddr, nTimePenalty: int,
                                 nNow: int) {
    var c := Created(t, addr.(nTime := Penalized(addr.nTime, nTimePenalty)), source);
    exists picks, v :: Filed(c, r, t.nIdCount, NewBucketOf(e, addr.service.net, source), nNow, picks, v)
  }

  ghost predicate AddStep(e: Env, t: Tables, r: Tables, addr: Address, source: NetAddr, nTimePenalty: int, nNow: int,
                          fNew: bool)
  {
    var net := addr.service.net;
    if !e.routable(net) then r == t && !fNew
    else if t.Knows(net) then !fNew && AddKnownStep(e, t, r, t.mapAddr[net], addr, source, nTimePenalty, nNow)
    else fNew && AddUnknownStep(e, t, r, addr, source, nTimePenalty, nNow)
  }

  // ---------------------------------------------------------------- Attempt_, Connected_, GetAddr_

  ghost predicate AttemptStep(t: Tables, r: Tables, s: Service, nTime: int) {
    if !Exact(t, s) then r == t
    else
      var id := t.mapAddr[s.net];
      r == Touched(t, id, t.mapInfo[id].(nLastTry := nTime, nAttempts := t.mapInfo[id].nAttempts + 1))
  }

  ghost predicate ConnectedStep(t: Tables, r: Tables, s: Service, nTime: int) {
    if !Exact(t, s) || nTime - t.mapInfo[t.mapAddr[s.net]].addr.nTime <= 20 * 60 then r == t
    else
      var id := t.mapAddr[s.net];
      r == Touched(t, id, t.mapInfo[id].(addr := t.mapInfo[id].addr.(nTime := ToUint32(nTime))))
  }

  function GetAddrCount(size: nat): (n: nat)
    ensures n <= size && n <= GETADDR_MAX
  {
    var n := GETADDR_MAX_PCT * size / 100;
    if n > GETADDR_MAX then GETADDR_MAX else n
  }

  // Records differ at most in their position in vRandom.
  ghost predicate SameButPos(m: map<nat, AddrInfo>, w: map<nat, AddrInfo>) {
    m.Keys == w.Keys && forall n :: n in m ==> w[n] == m[n].(nRandomPos := w[n].nRandomPos)
  }

  ghost predicate GetAddrStep(t: Tables, r: Tables, answer: seq<Address>) {
    && r == t.(mapInfo := r.mapInfo, vRandom := r.vRandom)
    && SameButPos(t.mapInfo, r.mapInfo) && Shuffled(r.mapInfo, r.vRandom)
    && multiset(r.vRandom) == multiset(t.vRandom) && |r.vRandom| == |t.vRandom|
    && |answer| == GetAddrCount(|t.vRandom|)
    && forall i :: 0 <= i < |answer| ==> answer[i] == r.mapInfo[r.vRandom[i]].addr
  }

  // ---------------------------------------------------------------- each step keeps the invariant

  lemma KnownIsIndexed(e: Env, t: Tables, net: NetAddr)
    requires Inv(e, t)
    ensures net in t.mapAddr ==> t.Knows(net) && t.mapInfo[t.mapAddr[net]].Net() == net
    ensures forall n :: n in t.mapInfo ==>
              n < t.nIdCount && t.Knows(t.mapInfo[n].Net()) && t.mapAddr[t.mapInfo[n].Net()] == n
    ensures |t.vvTried| == TRIED_BUCKET_COUNT && |t.vvNew| == NEW_BUCKET_COUNT
  {
  }

  lemma UntriedInBucket(e: Env, t: Tables, b: nat, n: nat)
    requires Inv(e, t) && b < |t.vvNew| && n in t.vvNew[b]
    ensures n in t.mapInfo && !t.mapInfo[n].fInTried
  {
  }

  lemma MoveKeeps(e: Env, t: Tables, r: Tables, id: nat, nOrigin: nat, draws: seq<nat>, j: nat)
    requires Inv(e, t) && MovedToTried(e, t, r, id, nOrigin, draws, j)
    ensures Inv(e, r) && !t.mapInfo[id].fInTried && MovedOnly(t, r, id)
  {
    hide Inv, Selected, Shuffle, MovedOnly, TriedBucketOf;
    var row := t.vvTried[t.mapInfo[id].GetTriedBucket(e)];
    UntriedInBucket(e, t, nOrigin, id);
    if |row| < TRIED_BUCKET_SIZE {
      PromoteKeeps(e, t, id);
      PromotedOnly(e, t, id);
    } else {
      var mixed := Shuffle(row, draws);
      ShuffleKeepsMultiset(row, draws);
      DisplaceKeeps(e, t, id, nOrigin, mixed, draws[j]);
      DisplacedOnly(e, t, id, nOrigin, mixed, draws[j]);
    }
  }

  lemma PromotedOnly(e: Env, t: Tables, id: nat)
    requires id in t.mapInfo && |t.vvTried| == TRIED_BUCKET_COUNT
    ensures MovedOnly(t, Promoted(e, t, id), id)
  {
    hide TriedBucketOf;
  }

  lemma DisplacedOnly(e: Env, t: Tables, id: nat, nOrigin: nat, row: seq<nat>, pos: nat)
    requires id in t.mapInfo && |t.vvTried| == TRIED_BUCKET_COUNT && |t.vvNew| == NEW_BUCKET_COUNT
    requires nOrigin < |t.vvNew| && pos < |row| && row[pos] != id
    requires row[pos] in t.mapInfo && t.mapInfo[row[pos]].fInTried
    ensures MovedOnly(t, Displaced(e, t, id, nOrigin, row, pos), id)
  {
    hide RefugeOf, TriedBucketOf;
  }

  // id has gone from new to tried, at most one other id from tried to new, and
  // nothing else about any record has changed.
  ghost predicate MovedOnly(t: Tables, r: Tables, id: nat) {
    && id in t.mapInfo && r.mapInfo.Keys == t.mapInfo.Keys && r.mapAddr == t.mapAddr
    && r.vRandom == t.vRandom && r.nIdCount == t.nIdCount
    && (|| r.mapInfo == t.mapInfo[id := ToTried(t.mapInfo[id])]
        || exists n :: n in t.mapInfo && n != id && t.mapInfo[n].fInTried
                       && r.mapInfo == t.mapInfo[n := ToNew(t.mapInfo[n])][id := ToTried(t.mapInfo[id])])
  }

  // Good_ forgets nothing, whatever time it is given.
  lemma GoodKeeps(e: Env, t: Tables, r: Tables, s: Service, nTime: int)
    requires Inv(e, t) && GoodStep(e, t, r, s, nTime)
    ensures Inv(e, r) && r.mapInfo.Keys == t.mapInfo.Keys && r.mapAddr == t.mapAddr && r.nIdCount == t.nIdCount
    ensures !Exact(t, s) ==> r == t
    ensures Exact(t, s) ==>
              var id := t.mapAddr[s.net];
              var u := Touched(t, id, GoodUpdated(t.mapInfo[id], nTime));
              r.mapInfo[id].fInTried && if t.mapInfo[id].fInTried then r == u else MovedOnly(u, r, id)
  {
    hide Indexed, NewSound, TriedSound;
    if Exact(t, s) {
      var id := t.mapAddr[s.net];
      var u := Touched(t, id, GoodUpdated(t.mapInfo[id], nTime));
      TouchKeeps(e, t, id, GoodUpdated(t.mapInfo[id], nTime), -1);
      if !t.mapInfo[id].fInTried {
        var nOrigin, draws, j :| MovedToTried(e, u, r, id, nOrigin, draws, j);
        MoveKeeps(e, u, r, id, nOrigin, draws, j);
      }
    }
  }

  ghost predicate FileEvicts(t: Tables, r: Tables, id: nat, b: nat, v: nat) {
    && b < |t.vvNew| && |t.vvNew[b]| == NEW_BUCKET_SIZE && v in t.vvNew[b] && v != id
    && v in t.mapInfo && !t.mapInfo[v].fInTried && t.mapInfo[v].nRefCount == 1
    && r.mapInfo.Keys == t.mapInfo.Keys - {v}
  }

  lemma FileKeeps(e: Env, t: Tables, r: Tables, id: nat, b: nat, nNow: int, picks: set<nat>, v: nat)
    requires InvWith(e, t, id) && id in t.mapInfo && !t.mapInfo[id].fInTried && b < |t.vvNew| && id !in t.vvNew[b]
    requires Filed(t, r, id, b, nNow, picks, v)
    ensures Inv(e, r)
    ensures r.mapInfo.Keys == t.mapInfo.Keys || FileEvicts(t, r, id, b, v)
  {
    hide Indexed, NewSound, TriedSound, Shuffled;
    if |t.vvNew[b]| == NEW_BUCKET_SIZE {
      InBucketIsNew(t.mapInfo, t.vvNew, id, b, v);
      DropKeeps(e, t, b, v, id);
      var d := RefDropped(t, b, v);
      assert d.vvNew[b] == t.vvNew[b] - {v};
      DropKeepsUntried(t, b, v, id);
      PlaceKeeps(e, d, b, id);
    } else {
      BucketFits(t.mapInfo, t.vvNew, id, b);
      PlaceKeeps(e, t, b, id);
    }
  }

  lemma BucketFits(m: map<nat, AddrInfo>, vv: seq<set<nat>>, pending: int, b: nat)
    requires NewSound(m, vv, pending) && b < |vv|
    ensures |vv[b]| <= NEW_BUCKET_SIZE
  {
  }

  lemma DropKeepsUntried(t: Tables, b: nat, v: nat, id: nat)
    requires Shuffled(t.mapInfo, t.vRandom) && v in t.mapInfo && b < |t.vvNew|
    requires id in t.mapInfo && !t.mapInfo[id].fInTried && v != id
    ensures id in RefDropped(t, b, v).mapInfo && !RefDropped(t, b, v).mapInfo[id].fInTried
  {
    var m := t.mapInfo[v := Lowered(t.mapInfo[v])];
    assert Shuffled(m, t.vRandom);
    hide Shuffled, ForgetInfos;
    ForgetKeepsShuffled(m, t.vRandom, v);
    assert id in m - {v};
  }

  lemma PendingNotFiled(e: Env, t: Tables, id: nat, b: nat)
    requires Inv(e, t) && b < |t.vvNew| && id !in t.mapInfo
    ensures id !in t.vvNew[b]
  {
  }

  lemma RefCountIsBounded(e: Env, t: Tables, id: nat)
    requires Inv(e, t) && id in t.mapInfo
    ensures t.mapInfo[id].nRefCount <= NEW_BUCKETS_PER_ADDRESS
    ensures !t.mapInfo[id].fInTried ==> t.mapInfo[id].nRefCount >= 1
  {
  }

  // The id v, untried and on its last reference, is forgotten from a full bucket.
  ghost predicate Evicts(t: Tables, had: set<nat>, r: Tables, v: nat) {
    && v in t.mapInfo && !t.mapInfo[v].fInTried && t.mapInfo[v].nRefCount == 1
    && r.mapInfo.Keys == had - {v}
    && exists b :: 0 <= b < |t.vvNew| && v in t.vvNew[b] && |t.vvNew[b]| == NEW_BUCKET_SIZE
  }

  // Add_ keeps the invariant; the one id it may forget is an untried one,
  // dropped from a full bucket by ShrinkNew together with its last reference.
  lemma AddKeeps(e: Env, t: Tables, r: Tables, addr: Address, source: NetAddr, nTimePenalty: int, nNow: int, fNew: bool)
    requires Inv(e, t) && AddStep(e, t, r, addr, source, nTimePenalty, nNow, fNew)
    ensures Inv(e, r)
    ensures fNew <==> e.routable(addr.service.net) && !t.Knows(addr.service.net)
    ensures var had := if fNew then t.mapInfo.Keys + {t.nIdCount} else t.mapInfo.Keys;
            r.mapInfo.Keys == had || exists v :: Evicts(t, had, r, v)
  {
    hide Inv, AddKnownStep, AddUnknownStep, Evicts;
    var net := addr.service.net;
    if e.routable(net) {
      if t.Knows(net) {
        AddKnownKeeps(e, t, r, t.mapAddr[net], addr, source, nTimePenalty, nNow);
      } else {
        AddUnknownKeeps(e, t, r, addr, source, nTimePenalty, nNow);
      }
    }
  }

  lemma UpdatedIs(was: AddrInfo, addr: Address, nTimePenalty: int, nNow: int)
    ensures var info := AddUpdated(was, addr, nTimePenalty, nNow);
            info == was.(addr := info.addr) && info.addr.service == was.addr.service
  {
  }

  lemma AddKnownKeeps(e: Env, t: Tables, r: Tables, id: nat, addr: Address, source: NetAddr, nTimePenalty: int,
                      nNow: int)
    requires Inv(e, t) && id in t.mapInfo && AddKnownStep(e, t, r, id, addr, source, nTimePenalty, nNow)
    ensures Inv(e, r)
    ensures r.mapInfo.Keys == t.mapInfo.Keys || exists v :: Evicts(t, t.mapInfo.Keys, r, v)
  {
    hide Inv, Evicts, KnownStep;
    UpdatedIs(t.mapInfo[id], addr, nTimePenalty, nNow);
    KnownKeeps(e, t, r, id, AddUpdated(t.mapInfo[id], addr, nTimePenalty, nNow), addr, source, nNow);
  }

  lemma KnownKeeps(e: Env, t: Tables, r: Tables, id: nat, info: AddrInfo, addr: Address, source: NetAddr, nNow: int)
    requires Inv(e, t) && id in t.mapInfo && KnownStep(e, t, r, id, info, addr, source, nNow)
    requires info == t.mapInfo[id].(addr := info.addr) && info.addr.service == t.mapInfo[id].addr.service
    ensures Inv(e, r)
    ensures r.mapInfo.Keys == t.mapInfo.Keys || exists v :: Evicts(t, t.mapInfo.Keys, r, v)
  {
    hide InvWith, Filed, Evicts;
    RefCountIsBounded(e, t, id);
    KnownIsIndexed(e, t, info.Net());
    var u := Touched(t, id, info);
    var b := info.GetNewBucket(e, source);
    TouchKeeps(e, t, id, info, -1);
    if r != u {
      var w := Touched(t, id, Raised(info));
      var picks, v :| Filed(w, r, id, b, nNow, picks, v);
      RaiseKeeps(e, u, id);
      assert u.mapInfo[id := Raised(info)] == t.mapInfo[id := Raised(info)];
      FileKeeps(e, w, r, id, b, nNow, picks, v);
      assert w.mapInfo.Keys == t.mapInfo.Keys && t.mapInfo.Keys + {id} == t.mapInfo.Keys;
      EvictsThrough(t, w, r, id, b, v);
    }
  }

  lemma EvictsThrough(t: Tables, w: Tables, r: Tables, id: nat, b: nat, v: nat)
    requires w.vvNew == t.vvNew && b < |t.vvNew|
    requires forall n :: n in t.mapInfo && n != id ==> n in w.mapInfo && w.mapInfo[n] == t.mapInfo[n]
    requires w.mapInfo.Keys == t.mapInfo.Keys + {id}
    requires r.mapInfo.Keys == w.mapInfo.Keys || FileEvicts(w, r, id, b, v)
    ensures r.mapInfo.Keys == w.mapInfo.Keys || Evicts(t, w.mapInfo.Keys, r, v)
  {
  }

  lemma AddUnknownKeeps(e: Env, t: Tables, r: Tables, addr: Address, source: NetAddr, nTimePenalty: int, nNow: int)
    requires Inv(e, t) && !t.Knows(addr.service.net) && AddUnknownStep(e, t, r, addr, source, nTimePenalty, nNow)
    ensures Inv(e, r)
    ensures var had := t.mapInfo.Keys + {t.nIdCount}; r.mapInfo.Keys == had || exists v :: Evicts(t, had, r, v)
  {
    hide InvWith, Filed;
    KnownIsIndexed(e, t, addr.service.net);
    var id, b := t.nIdCount, NewBucketOf(e, addr.service.net, source);
    var late := addr.(nTime := Penalized(addr.nTime, nTimePenalty));
    var c := Created(t, late, source);
    var picks, v :| Filed(c, r, id, b, nNow, picks, v);
    CreateKeeps(e, t, late, source);
    PendingNotFiled(e, t, id, b);
    FileKeeps(e, c, r, id, b, nNow, picks, v);
    EvictsThrough(t, c, r, id, b, v);
  }

  lemma AttemptKeeps(e: Env, t: Tables, r: Tables, s: Service, nTime: int)
    requires Inv(e, t) && AttemptStep(t, r, s, nTime)
    ensures Inv(e, r) && r.mapInfo.Keys == t.mapInfo.Keys
  {
    hide Indexed, NewSound, TriedSound;
    if Exact(t, s) {
      var id := t.mapAddr[s.net];
      TouchKeeps(e, t, id, t.mapInfo[id].(nLastTry := nTime, nAttempts := t.mapInfo[id].nAttempts + 1), -1);
    }
  }

  lemma ConnectedKeeps(e: Env, t: Tables, r: Tables, s: Service, nTime: int)
    requires Inv(e, t) && ConnectedStep(t, r, s, nTime)
    ensures Inv(e, r) && r.mapInfo.Keys == t.mapInfo.Keys
  {
    hide Indexed, NewSound, TriedSound;
    if r != t {
      var id := t.mapAddr[s.net];
      TouchKeeps(e, t, id, t.mapInfo[id].(addr := t.mapInfo[id].addr.(nTime := ToUint32(nTime))), -1);
    }
  }

  // GetAddr_ reshuffles and nothing else; the addresses it answers are known
  // ones with pairwise different network addresses.
  lemma GetAddrKeeps(e: Env, t: Tables, r: Tables, answer: seq<Address>)
    requires Inv(e, t) && GetAddrStep(t, r, answer)
    ensures Inv(e, r) && r.mapInfo.Keys == t.mapInfo.Keys
    ensures forall i :: 0 <= i < |answer| ==> t.Knows(answer[i].service.net)
    ensures forall i, j :: 0 <= i < j < |answer| ==> answer[i].service.net != answer[j].service.net
  {
    GetAddrAnswers(t.nIdCount, t.mapInfo, t.mapAddr, t.vRandom, r.mapInfo, r.vRandom, answer);
    hide Indexed, NewSound, TriedSound;
    RoleKeeps(e, t, r, -1);
  }

  lemma GetAddrAnswers(k: nat, m: map<nat, AddrInfo>, a: map<NetAddr, nat>, v: seq<nat>,
                       w: map<nat, AddrInfo>, u: seq<nat>, answer: seq<Address>)
    requires Indexed(k, m, a, v) && SameButPos(m, w) && Shuffled(w, u) && |answer| <= |u|
    requires forall i :: 0 <= i < |answer| ==> answer[i] == w[u[i]].addr
    ensures forall i :: 0 <= i < |answer| ==>
              answer[i].service.net in a && a[answer[i].service.net] == u[i] && u[i] in m
    ensures forall i, j :: 0 <= i < j < |answer| ==> answer[i].service.net != answer[j].service.net
  {
    forall i | 0 <= i < |answer|
      ensures answer[i].service.net in a && a[answer[i].service.net] == u[i] && u[i] in m
    {
      assert w[u[i]].Net() == m[u[i]].Net();
    }
    forall i, j | 0 <= i < j < |answer|
      ensures answer[i].service.net != answer[j].service.net
    {
      assert w[u[i]].nRandomPos == i && w[u[j]].nRandomPos == j;
    }
  }

  // ---------------------------------------------------------------- the clock values

  // After Good_ the clock values pass exactly when the time was positive or
  // the call changed nothing.
  lemma GoodTimes(e: Env, t: Tables, r: Tables, s: Service, nTime: int)
    requires Inv(e, t) && GoodStep(e, t, r, s, nTime) && TimesOk(t.mapInfo)
    ensures TimesOk(r.mapInfo) <==> nTime > 0 || !Exact(t, s)
  {
    hide Inv, GoodStep;
    GoodKeeps(e, t, r, s, nTime);
    if Exact(t, s) {
      assert r.mapInfo[t.mapAddr[s.net]].nLastSuccess == nTime;
    }
  }

  lemma AttemptTimes(t: Tables, r: Tables, s: Service, nTime: int)
    requires AttemptStep(t, r, s, nTime) && TimesOk(t.mapInfo)
    ensures TimesOk(r.mapInfo) <==> nTime >= 0 || !Exact(t, s)
  {
    if Exact(t, s) {
      assert r.mapInfo[t.mapAddr[s.net]].nLastTry == nTime;
    }
  }
}
