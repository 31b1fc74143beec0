// What each address-manager operation does to the tables, as functions and
// relations on values, and the proof that each keeps the invariant.
module AddrSteps {
  import opened AddrTables

  // ---------------------------------------------------------------- the elementary updates

  // Exchanging slots i and j of vRandom: the records and the vector.
  function SwapInfos(m: map<nat, AddrInfo>, v: seq<nat>, i: nat, j: nat): map<nat, AddrInfo>
    requires i < |v| && j < |v| && v[i] in m && v[j] in m
  {
    var w := m[v[i] := m[v[i]].(nRandomPos := j)];
    w[v[j] := w[v[j]].(nRandomPos := i)]
  }

  function SwapSlots(v: seq<nat>, i: nat, j: nat): (w: seq<nat>)
    requires i < |v| && j < |v|
    ensures |w| == |v|
  {
    v[i := v[j]][j := v[i]]
  }

  // Forgetting an id: its slot in vRandom is filled from the end.
  function ForgetInfos(m: map<nat, AddrInfo>, v: seq<nat>, id: nat): map<nat, AddrInfo>
    requires Shuffled(m, v) && id in m
  {
    SwapInfos(m, v, m[id].nRandomPos, |v| - 1) - {id}
  }

  function ForgetSlot(m: map<nat, AddrInfo>, v: seq<nat>, id: nat): seq<nat>
    requires Shuffled(m, v) && id in m
  {
    SwapSlots(v, m[id].nRandomPos, |v| - 1)[..|v| - 1]
  }

  function Forgotten(t: Tables, id: nat): Tables
    requires Shuffled(t.mapInfo, t.vRandom) && id in t.mapInfo
  {
    t.(vRandom := ForgetSlot(t.mapInfo, t.vRandom, id),
       mapAddr := t.mapAddr - {t.mapInfo[id].Net()},
       mapInfo := ForgetInfos(t.mapInfo, t.vRandom, id),
       nNew := t.nNew - 1)
  }

  function Touched(t: Tables, id: nat, info: AddrInfo): Tables {
    t.(mapInfo := t.mapInfo[id := info])
  }

  function Lowered(info: AddrInfo): AddrInfo { info.(nRefCount := info.nRefCount - 1) }

  function Raised(info: AddrInfo): AddrInfo { info.(nRefCount := info.nRefCount + 1) }

  // Taking an id out of one "new" bucket.
  function RefDropped(t: Tables, b: nat, id: nat): Tables
    requires Shuffled(t.mapInfo, t.vRandom) && id in t.mapInfo && b < |t.vvNew|
  {
    var s := Touched(t, id, Lowered(t.mapInfo[id])).(vvNew := t.vvNew[b := t.vvNew[b] - {id}]);
    if t.mapInfo[id].nRefCount == 1 then Forgotten(s, id) else s
  }

  function RefPlaced(t: Tables, b: nat, id: nat): Tables
    requires b < |t.vvNew|
  {
    t.(vvNew := t.vvNew[b := t.vvNew[b] + {id}])
  }

  // A new entry for addr, counted as new, its first reference pending.
  function Created(t: Tables, addr: Address, source: NetAddr): Tables {
    var id := t.nIdCount;
    t.(nIdCount := id + 1,
       mapInfo := t.mapInfo[id := Raised(FreshInfo(addr, source).(nRandomPos := |t.vRandom|))],
       mapAddr := t.mapAddr[addr.service.net := id],
       vRandom := t.vRandom + [id],
       nNew := t.nNew + 1)
  }

  // ---------------------------------------------------------------- what the invariant looks at

  // The tried entries are the same ones at the same addresses; untried ones
  // may have gone.
  ghost predicate SameSide(m: map<nat, AddrInfo>, w: map<nat, AddrInfo>) {
    && w.Keys <= m.Keys
    && (forall n :: n in w ==> m[n].fInTried == w[n].fInTried && m[n].addr.service == w[n].addr.service)
    && (forall n :: n in m && m[n].fInTried ==> n in w)
  }

  // Same ids, each in the same table with the same reference count, net
  // address and port.
  ghost predicate SameRole(m: map<nat, AddrInfo>, w: map<nat, AddrInfo>) {
    && m.Keys == w.Keys
    && forall n :: n in m ==> && m[n].fInTried == w[n].fInTried
                              && m[n].nRefCount == w[n].nRefCount
                              && m[n].addr.service == w[n].addr.service
  }

  lemma SideKeepsTried(e: Env, m: map<nat, AddrInfo>, w: map<nat, AddrInfo>, vv: seq<seq<nat>>)
    requires SameSide(m, w) && TriedSound(e, m, vv)
    ensures TriedSound(e, w, vv) && TriedIds(w) == TriedIds(m)
  {
    assert TriedIds(w) == TriedIds(m);
  }

  lemma RoleKeepsNew(m: map<nat, AddrInfo>, w: map<nat, AddrInfo>, vv: seq<set<nat>>, pending: int)
    requires SameRole(m, w) && NewSound(m, vv, pending)
    ensures NewSound(w, vv, pending) && NewIds(w) == NewIds(m)
  {
    assert NewIds(w) == NewIds(m);
  }

  lemma SideKeepsIndexed(k: nat, m: map<nat, AddrInfo>, a: map<NetAddr, nat>, v: seq<nat>,
                         w: map<nat, AddrInfo>, u: seq<nat>)
    requires Indexed(k, m, a, v) && SameSide(m, w) && m.Keys == w.Keys && Shuffled(w, u)
    ensures Indexed(k, w, a, u)
  {
  }

  lemma RoleKeeps(e: Env, t: Tables, s: Tables, pending: int)
    requires InvWith(e, t, pending)
    requires SameRole(t.mapInfo, s.mapInfo) && Shuffled(s.mapInfo, s.vRandom)
    requires s == t.(mapInfo := s.mapInfo, vRandom := s.vRandom)
    ensures InvWith(e, s, pending)
  {
    SideKeepsIndexed(t.nIdCount, t.mapInfo, t.mapAddr, t.vRandom, s.mapInfo, s.vRandom);
    RoleKeepsNew(t.mapInfo, s.mapInfo, t.vvNew, pending);
    SideKeepsTried(e, t.mapInfo, s.mapInfo, t.vvTried);
  }

  lemma SwapKeepsShuffled(m: map<nat, AddrInfo>, v: seq<nat>, i: nat, j: nat)
    requires Shuffled(m, v) && i < |v| && j < |v|
    ensures Shuffled(SwapInfos(m, v, i, j), SwapSlots(v, i, j))
    ensures SameRole(m, SwapInfos(m, v, i, j))
  {
  }

  lemma SwapInPlace(m: map<nat, AddrInfo>, v: seq<nat>, i: nat)
    requires Shuffled(m, v) && i < |v|
    ensures SwapInfos(m, v, i, i) == m && SwapSlots(v, i, i) == v
  {
  }

  lemma TouchKeepsShuffled(m: map<nat, AddrInfo>, v: seq<nat>, id: nat, info: AddrInfo)
    requires Shuffled(m, v) && id in m && info.nRandomPos == m[id].nRandomPos
    ensures Shuffled(m[id := info], v)
  {
  }

  lemma SlotOf(m: map<nat, AddrInfo>, v: seq<nat>, id: nat)
    requires Shuffled(m, v) && id in m
    ensures 0 <= m[id].nRandomPos < |v| && v[m[id].nRandomPos] == id
    ensures v[|v| - 1] in m
  {
  }

  lemma TouchKeepsIndexed(k: nat, m: map<nat, AddrInfo>, a: map<NetAddr, nat>, v: seq<nat>, id: nat, info: AddrInfo)
    requires Indexed(k, m, a, v) && id in m && info.addr.service == m[id].addr.service
    requires info.nRandomPos == m[id].nRandomPos
    ensures Indexed(k, m[id := info], a, v) && Shuffled(m[id := info], v)
  {
  }

  lemma TouchKeeps(e: Env, t: Tables, id: nat, info: AddrInfo, pending: int)
    requires InvWith(e, t, pending) && id in t.mapInfo
    requires info == t.mapInfo[id].(addr := info.addr, nLastTry := info.nLastTry,
                                    nLastSuccess := info.nLastSuccess, nAttempts := info.nAttempts)
    requires info.addr.service == t.mapInfo[id].addr.service
    ensures InvWith(e, Touched(t, id, info), pending)
  {
    hide Indexed, NewSound, TriedSound;
    TouchKeepsIndexed(t.nIdCount, t.mapInfo, t.mapAddr, t.vRandom, id, info);
    RoleKeepsNew(t.mapInfo, t.mapInfo[id := info], t.vvNew, pending);
    SideKeepsTried(e, t.mapInfo, t.mapInfo[id := info], t.vvTried);
  }

  // ---------------------------------------------------------------- creating and pending references

  lemma ExtendNew(m: map<nat, AddrInfo>, id: nat, info: AddrInfo, vv: seq<set<nat>>)
    requires NewSound(m, vv, -1) && id !in m && !info.fInTried && info.nRefCount == 1
    ensures NewSound(m[id := info], vv, id) && NewIds(m[id := info]) == NewIds(m) + {id}
  {
    assert NewIds(m[id := info]) == NewIds(m) + {id};
    RefsZero(vv, id);
  }

  lemma ExtendTried(e: Env, m: map<nat, AddrInfo>, id: nat, info: AddrInfo, vv: seq<seq<nat>>)
    requires TriedSound(e, m, vv) && id !in m && !info.fInTried
    ensures TriedSound(e, m[id := info], vv) && TriedIds(m[id := info]) == TriedIds(m)
  {
    assert TriedIds(m[id := info]) == TriedIds(m);
  }

  lemma ExtendIndexed(k: nat, m: map<nat, AddrInfo>, a: map<NetAddr, nat>, v: seq<nat>, info: AddrInfo)
    requires Indexed(k, m, a, v) && info.Net() !in a && info.nRandomPos == |v|
    ensures k !in m && Indexed(k + 1, m[k := info], a[info.Net() := k], v + [k])
  {
  }

  lemma CreateKeeps(e: Env, t: Tables, addr: Address, source: NetAddr)
    requires Inv(e, t) && addr.service.net !in t.mapAddr
    ensures InvWith(e, Created(t, addr, source), t.nIdCount)
  {
    var id := t.nIdCount;
    hide Indexed, NewSound, TriedSound;
    var info := Created(t, addr, source).mapInfo[id];
    ExtendIndexed(id, t.mapInfo, t.mapAddr, t.vRandom, info);
    ExtendNew(t.mapInfo, id, info, t.vvNew);
    ExtendTried(e, t.mapInfo, id, info, t.vvTried);
  }

  lemma RaiseNew(m: map<nat, AddrInfo>, id: nat, vv: seq<set<nat>>)
    requires NewSound(m, vv, -1) && id in m && !m[id].fInTried
    requires m[id].nRefCount < NEW_BUCKETS_PER_ADDRESS
    ensures NewSound(m[id := Raised(m[id])], vv, id) && NewIds(m[id := Raised(m[id])]) == NewIds(m)
  {
    assert NewIds(m[id := Raised(m[id])]) == NewIds(m);
  }

  lemma RaiseKeeps(e: Env, t: Tables, id: nat)
    requires Inv(e, t) && id in t.mapInfo && !t.mapInfo[id].fInTried
    requires t.mapInfo[id].nRefCount < NEW_BUCKETS_PER_ADDRESS
    ensures InvWith(e, Touched(t, id, Raised(t.mapInfo[id])), id)
  {
    hide Indexed, NewSound, TriedSound;
    RaiseNew(t.mapInfo, id, t.vvNew);
    SideKeepsTried(e, t.mapInfo, t.mapInfo[id := Raised(t.mapInfo[id])], t.vvTried);
    TouchKeepsIndexed(t.nIdCount, t.mapInfo, t.mapAddr, t.vRandom, id, Raised(t.mapInfo[id]));
  }

  lemma PlaceNew(m: map<nat, AddrInfo>, vv: seq<set<nat>>, b: nat, id: nat)
    requires NewSound(m, vv, id) && id in m && !m[id].fInTried
    requires b < |vv| && id !in vv[b] && |vv[b]| < NEW_BUCKET_SIZE
    ensures NewSound(m, vv[b := vv[b] + {id}], -1)
  {
    forall n | n in m
      ensures RefCountSound(m[n], Refs(vv[b := vv[b] + {id}], n))
    {
      RefsUpdate(vv, b, vv[b] + {id}, n);
    }
  }

  lemma PlaceKeeps(e: Env, t: Tables, b: nat, id: nat)
    requires InvWith(e, t, id) && id in t.mapInfo && !t.mapInfo[id].fInTried
    requires b < |t.vvNew| && id !in t.vvNew[b] && |t.vvNew[b]| < NEW_BUCKET_SIZE
    ensures Inv(e, RefPlaced(t, b, id))
  {
    hide Indexed, NewSound, TriedSound;
    PlaceNew(t.mapInfo, t.vvNew, b, id);
  }

  // ---------------------------------------------------------------- dropping a reference

  lemma PopKeepsShuffled(m: map<nat, AddrInfo>, v: seq<nat>)
    requires Shuffled(m, v) && |v| > 0
    ensures Shuffled(m - {v[|v| - 1]}, v[..|v| - 1])
  {
    var last := v[|v| - 1];
    assert forall n :: n in m && n != last ==> m[n].nRandomPos != |v| - 1;
  }

  lemma ForgetKeepsShuffled(m: map<nat, AddrInfo>, v: seq<nat>, id: nat)
    requires Shuffled(m, v) && id in m
    ensures Shuffled(ForgetInfos(m, v, id), ForgetSlot(m, v, id))
    ensures ForgetInfos(m, v, id).Keys == m.Keys - {id}
    ensures SameRole(m - {id}, ForgetInfos(m, v, id))
  {
    SwapKeepsShuffled(m, v, m[id].nRandomPos, |v| - 1);
    PopKeepsShuffled(SwapInfos(m, v, m[id].nRandomPos, |v| - 1), SwapSlots(v, m[id].nRandomPos, |v| - 1));
  }

  lemma ForgetKeepsIndexed(k: nat, m: map<nat, AddrInfo>, a: map<NetAddr, nat>, v: seq<nat>, id: nat)
    requires Indexed(k, m, a, v) && id in m
    ensures Indexed(k, ForgetInfos(m, v, id), a - {m[id].Net()}, ForgetSlot(m, v, id))
  {
    ForgetKeepsShuffled(m, v, id);
    var w := ForgetInfos(m, v, id);
    hide ForgetInfos, ForgetSlot, Shuffled;
    forall n | n in w
      ensures n < k && w[n].Net() in a - {m[id].Net()} && a[w[n].Net()] == n
    {
      assert n in m && n != id;
    }
  }

  lemma DropKeepsNew(m: map<nat, AddrInfo>, w: map<nat, AddrInfo>, vv: seq<set<nat>>, b: nat, id: nat, pending: int)
    requires NewSound(m, vv, pending) && b < |vv| && id in vv[b] && id != pending
    requires w.Keys == if m[id].nRefCount == 1 then m.Keys - {id} else m.Keys
    requires forall n :: n in w ==> w[n].fInTried == m[n].fInTried
    requires forall n :: n in w ==> w[n].nRefCount == m[n].nRefCount - (if n == id then 1 else 0)
    ensures NewSound(w, vv[b := vv[b] - {id}], pending)
    ensures NewIds(w) == if m[id].nRefCount == 1 then NewIds(m) - {id} else NewIds(m)
  {
    var ww := vv[b := vv[b] - {id}];
    forall n
      ensures Refs(ww, n) == Refs(vv, n) - (if n == id then 1 else 0)
    {
      RefsUpdate(vv, b, vv[b] - {id}, n);
    }
    RefsZero(ww, id);
    assert forall c, n :: 0 <= c < |ww| && n in ww[c] ==> n in vv[c];
    assert NewIds(w) == if m[id].nRefCount == 1 then NewIds(m) - {id} else NewIds(m);
  }

  lemma InBucketIsNew(m: map<nat, AddrInfo>, vv: seq<set<nat>>, pending: int, b: nat, n: nat)
    requires NewSound(m, vv, pending) && b < |vv| && n in vv[b]
    ensures n in m && !m[n].fInTried
  {
  }

  lemma DropKeeps(e: Env, t: Tables, b: nat, id: nat, pending: int)
    requires InvWith(e, t, pending) && b < |t.vvNew| && id in t.vvNew[b] && id != pending
    ensures id in t.mapInfo && Shuffled(t.mapInfo, t.vRandom) && InvWith(e, RefDropped(t, b, id), pending)
    ensures RefDropped(t, b, id).mapInfo.Keys
         == if t.mapInfo[id].nRefCount == 1 then t.mapInfo.Keys - {id} else t.mapInfo.Keys
  {
    hide Indexed, NewSound, TriedSound, Shuffled, ForgetInfos, ForgetSlot;
    InBucketIsNew(t.mapInfo, t.vvNew, pending, b, id);
    TouchKeepsIndexed(t.nIdCount, t.mapInfo, t.mapAddr, t.vRandom, id, t.mapInfo[id]);
    assert t.mapInfo[id := t.mapInfo[id]] == t.mapInfo;
    var m := t.mapInfo[id := Lowered(t.mapInfo[id])];
    TouchKeepsIndexed(t.nIdCount, t.mapInfo, t.mapAddr, t.vRandom, id, m[id]);
    if t.mapInfo[id].nRefCount == 1 {
      ForgetKeepsShuffled(m, t.vRandom, id);
      ForgetKeepsIndexed(t.nIdCount, m, t.mapAddr, t.vRandom, id);
    }
    var w := RefDropped(t, b, id).mapInfo;
    DropKeepsNew(t.mapInfo, w, t.vvNew, b, id, pending);
    SideKeepsTried(e, t.mapInfo, w, t.vvTried);
  }
}
