// The address manager's data: addresses, the per-address record, the seven
// linked tables, and the invariant that ties the tables together.
module AddrTables {
  import opened Ascending
  import opened Octets

  const TRIED_BUCKET_COUNT: nat := 64
  const TRIED_BUCKET_SIZE: nat := 64
  const NEW_BUCKET_COUNT: nat := 256
  const NEW_BUCKET_SIZE: nat := 64
  const TRIED_BUCKETS_PER_GROUP: nat := 4
  const NEW_BUCKETS_PER_SOURCE_GROUP: nat := 32
  const NEW_BUCKETS_PER_ADDRESS: nat := 4
  const TRIED_ENTRIES_INSPECT_ON_EVICT: nat := 4
  const HORIZON_DAYS: nat := 30
  const RETRIES: nat := 3
  const MAX_FAILURES: nat := 10
  const MIN_FAIL_DAYS: nat := 7
  const GETADDR_MAX_PCT: nat := 23
  const GETADDR_MAX: nat := 2500

  // A network address without its port: the key of mapAddr.
  datatype NetAddr = NetAddr(ip: seq<Byte>)

  datatype Service = Service(net: NetAddr, port: nat) {
    function GetKey(): seq<int> {
      net.ip + [port / 0x100, port % 0x100]
    }
  }

  // A 64-bit mask of services, as the set of the bits that are on.
  datatype Services = Services(on: set<nat>) {
    function Or(other: Services): Services { Services(on + other.on) }
  }

  // nTime is an unsigned 32-bit field; see ToUint32.
  datatype Address = Address(service: Service, nServices: Services, nTime: int)

  function ToUint32(x: int): int { x % 0x1_0000_0000 }

  // What is streamed into a hash.
  datatype Part = Raw(bytes: seq<int>) | Num(num: int)

  // The parts of the environment the address manager treats as given: the
  // 64-bit hash, the address-range classifier and the routability test.
  datatype Env = Env(nKey: seq<Byte>,
                     hash64: seq<Part> -> nat,
                     group: NetAddr -> seq<int>,
                     routable: NetAddr -> bool)

  datatype AddrInfo = AddrInfo(addr: Address,
                               source: NetAddr,
                               nLastTry: int,
                               nLastSuccess: int,
                               nAttempts: int,
                               nRefCount: int,
                               fInTried: bool,
                               nRandomPos: int)
  {
    function Net(): NetAddr { addr.service.net }

    function GetTriedBucket(e: Env): nat {
      TriedBucketOf(e, addr.service)
    }

    function GetNewBucket(e: Env, src: NetAddr): nat {
      NewBucketOf(e, Net(), src)
    }

    predicate IsTerrible(nNow: int) {
      if nLastTry != 0 && nLastTry >= nNow - 60 then false
      else if addr.nTime > nNow + 10 * 60 then true
      else if addr.nTime == 0 || nNow - addr.nTime > HORIZON_DAYS * 86400 then true
      else if nLastSuccess == 0 && nAttempts >= RETRIES then true
      else nNow - nLastSuccess > MIN_FAIL_DAYS * 86400 && nAttempts >= MAX_FAILURES
    }
  }

  function FreshInfo(addr: Address, source: NetAddr): AddrInfo {
    AddrInfo(addr, source, 0, 0, 0, 0, false, -1)
  }

  function TriedBucketOf(e: Env, s: Service): (k: nat)
    ensures k < TRIED_BUCKET_COUNT
  {
    var hash1 := e.hash64([Raw(e.nKey), Raw(s.GetKey())]);
    e.hash64([Raw(e.nKey), Raw(e.group(s.net)), Num(hash1 % TRIED_BUCKETS_PER_GROUP)]) % TRIED_BUCKET_COUNT
  }

  function NewBucketOf(e: Env, net: NetAddr, src: NetAddr): (u: nat)
    ensures u < NEW_BUCKET_COUNT
  {
    var hash1 := e.hash64([Raw(e.nKey), Raw(e.group(net)), Raw(e.group(src))]);
    e.hash64([Raw(e.nKey), Raw(e.group(src)), Num(hash1 % NEW_BUCKETS_PER_SOURCE_GROUP)]) % NEW_BUCKET_COUNT
  }

  // ---------------------------------------------------------------- tables

  datatype Tables = Tables(nIdCount: nat,
                           mapInfo: map<nat, AddrInfo>,
                           mapAddr: map<NetAddr, nat>,
                           vRandom: seq<nat>,
                           nTried: int,
                           vvTried: seq<seq<nat>>,
                           nNew: int,
                           vvNew: seq<set<nat>>)
  {
    // The id filed under a network address, as Find looks it up.
    predicate Knows(net: NetAddr) {
      net in mapAddr && mapAddr[net] in mapInfo
    }
  }

  function TriedIds(m: map<nat, AddrInfo>): set<nat> {
    set n | n in m && m[n].fInTried
  }

  function NewIds(m: map<nat, AddrInfo>): set<nat> {
    set n | n in m && !m[n].fInTried
  }

  // In how many "new" buckets an id sits.
  function Refs(vv: seq<set<nat>>, n: nat): (r: nat)
    ensures r <= |vv|
  {
    if |vv| == 0 then 0
    else Refs(vv[..|vv| - 1], n) + (if n in vv[|vv| - 1] then 1 else 0)
  }

  // id -> record, address -> id and the shuffled vector agree.
  ghost predicate Indexed(k: nat, m: map<nat, AddrInfo>, a: map<NetAddr, nat>, v: seq<nat>) {
    && (forall n :: n in m ==> n < k)
    && (forall n :: n in m ==> m[n].Net() in a && a[m[n].Net()] == n)
    && (forall x :: x in a ==> a[x] in m && m[a[x]].Net() == x)
    && Shuffled(m, v)
  }

  // vRandom and nRandomPos are inverse to each other.
  ghost predicate Shuffled(m: map<nat, AddrInfo>, v: seq<nat>) {
    && (forall n :: n in m ==> 0 <= m[n].nRandomPos < |v| && v[m[n].nRandomPos] == n)
    && (forall i :: 0 <= i < |v| ==> v[i] in m && m[v[i]].nRandomPos == i)
  }

  // The "new" buckets hold exactly the untried ids, each as often as its
  // reference count says. The id `pending` (if any) has had its count raised
  // for a bucket it has not been put into yet.
  ghost predicate NewSound(m: map<nat, AddrInfo>, vv: seq<set<nat>>, pending: int) {
    && |vv| == NEW_BUCKET_COUNT
    && (forall b :: 0 <= b < |vv| ==> |vv[b]| <= NEW_BUCKET_SIZE)
    && (forall b, n :: 0 <= b < |vv| && n in vv[b] ==> n in m && !m[n].fInTried)
    && (forall n :: n in m ==> RefCountSound(m[n], Refs(vv, n) + (if n == pending then 1 else 0)))
  }

  predicate RefCountSound(info: AddrInfo, refs: int) {
    info.nRefCount == refs && if info.fInTried then refs == 0 else 1 <= refs <= NEW_BUCKETS_PER_ADDRESS
  }

  // Every tried id is in the bucket its own address hashes to, once.
  ghost predicate TriedSound(e: Env, m: map<nat, AddrInfo>, vv: seq<seq<nat>>) {
    && |vv| == TRIED_BUCKET_COUNT
    && (forall k :: 0 <= k < |vv| ==> |vv[k]| <= TRIED_BUCKET_SIZE && Distinct(vv[k]))
    && (forall k, i :: 0 <= k < |vv| && 0 <= i < |vv[k]| ==>
          vv[k][i] in m && m[vv[k][i]].fInTried && m[vv[k][i]].GetTriedBucket(e) == k)
    && (forall n :: n in m && m[n].fInTried ==> n in vv[m[n].GetTriedBucket(e)])
  }

  ghost predicate Counted(m: map<nat, AddrInfo>, nTried: int, nNew: int) {
    nTried == |TriedIds(m)| && nNew == |NewIds(m)|
  }

  ghost predicate InvWith(e: Env, t: Tables, pending: int) {
    && Indexed(t.nIdCount, t.mapInfo, t.mapAddr, t.vRandom)
    && NewSound(t.mapInfo, t.vvNew, pending)
    && TriedSound(e, t.mapInfo, t.vvTried)
    && Counted(t.mapInfo, t.nTried, t.nNew)
  }

  ghost predicate Inv(e: Env, t: Tables) {
    InvWith(e, t, -1)
  }

  // The clock values Check_ insists on.
  ghost predicate TimesOk(m: map<nat, AddrInfo>) {
    forall n :: n in m ==> m[n].nLastTry >= 0 && m[n].nLastSuccess >= 0 && (m[n].fInTried ==> m[n].nLastSuccess != 0)
  }

  predicate IsEmpty(t: Tables) {
    && t.nIdCount == 0 && t.mapInfo == map[] && t.mapAddr == map[] && t.vRandom == [] && t.nTried == 0 && t.nNew == 0
    && |t.vvTried| == TRIED_BUCKET_COUNT && (forall k :: 0 <= k < |t.vvTried| ==> t.vvTried[k] == [])
    && |t.vvNew| == NEW_BUCKET_COUNT && (forall b :: 0 <= b < |t.vvNew| ==> t.vvNew[b] == {})
  }

  // ---------------------------------------------------------------- counting references

  lemma {:induction false} RefsZero(vv: seq<set<nat>>, n: nat)
    ensures Refs(vv, n) == 0 <==> forall b :: 0 <= b < |vv| ==> n !in vv[b]
  {
    if |vv| > 0 {
      var w := vv[..|vv| - 1];
      RefsZero(w, n);
      assert forall b :: 0 <= b < |w| ==> w[b] == vv[b];
    }
  }

  // Refs looks at membership only.
  lemma {:induction false} RefsSame(vv: seq<set<nat>>, ww: seq<set<nat>>, n: nat)
    requires |vv| == |ww|
    requires forall b :: 0 <= b < |vv| ==> (n in vv[b] <==> n in ww[b])
    ensures Refs(vv, n) == Refs(ww, n)
  {
    if |vv| > 0 {
      RefsSame(vv[..|vv| - 1], ww[..|ww| - 1], n);
    }
  }

  lemma {:induction false} RefsUpdate(vv: seq<set<nat>>, b: nat, s: set<nat>, n: nat)
    requires b < |vv|
    ensures Refs(vv[b := s], n)
         == Refs(vv, n) + (if n in s then 1 else 0) - (if n in vv[b] then 1 else 0)
  {
    var last := |vv| - 1;
    if b == last {
      assert vv[b := s][..last] == vv[..last];
    } else {
      assert vv[b := s][..last] == vv[..last][b := s];
      RefsUpdate(vv[..last], b, s, n);
    }
  }

  lemma {:induction false} RefsTakeOne(vv: seq<set<nat>>, i: nat, n: nat)
    requires i < |vv|
    ensures Refs(vv[..i + 1], n) == Refs(vv[..i], n) + (if n in vv[i] then 1 else 0)
  {
    assert vv[..i + 1][..i] == vv[..i];
  }

  lemma {:induction false} RefsGrow(vv: seq<set<nat>>, i: nat, n: nat)
    requires i <= |vv|
    ensures Refs(vv[..i], n) <= Refs(vv, n)
    decreases |vv|
  {
    if i == |vv| {
      assert vv[..i] == vv;
    } else {
      RefsGrow(vv[..|vv| - 1], i, n);
      assert vv[..|vv| - 1][..i] == vv[..i];
    }
  }
}
