// A sound manager in which a promotion drives an entry out of the "new" buckets
// open to its source.
module AddrSpill {
  import opened AddrTables
  import opened AddrMoves
  import opened AddrRuns
  import opened AddrBounds
  import opened AddrShares

  // All addresses are of one range; the range of source [0] has "new" bucket 0 and
  // that of source [1] has "new" bucket 1.
  function Net(i: nat): NetAddr
    requires i < 256
  {
    NetAddr([0, i])
  }

  function Hash(ps: seq<Part>): nat {
    if |ps| == 3 && ps[1].Raw? && |ps[1].bytes| == 1 && ps[1].bytes[0] == 1 then 1 else 0
  }

  function Range(n: NetAddr): seq<int> { if n.ip == [] then [] else [n.ip[0]] }

  function Octet(i: nat): nat { if i < 256 then i else 0 }

  function Narrow(): Env { Env([], Hash, Range, (n: NetAddr) => true) }

  // Ids up to 63 are tried; up to 127 new, heard of like those from source [0]; and
  // 128 is new, heard of from source [1].
  function Info(i: nat): AddrInfo {
    AddrInfo(Address(Service(Net(Octet(i)), 8333), Services({}), 1), NetAddr([if i == 128 then 1 else 0]),
             1, 1, 0, if i < 64 then 0 else 1, i < 64, i)
  }

  ghost function Infos(): map<nat, AddrInfo> { map i | i in UpTo(129) :: Info(i) }

  ghost function NewRows(): (vv: seq<set<nat>>)
    ensures |vv| == NEW_BUCKET_COUNT
  {
    seq(NEW_BUCKET_COUNT, b => {})[0 := UpTo(128) - UpTo(64)][1 := {128}]
  }

  function TriedRows(): (vv: seq<seq<nat>>)
    ensures |vv| == TRIED_BUCKET_COUNT
  {
    seq(TRIED_BUCKET_COUNT, k => [])[0 := seq(TRIED_BUCKET_SIZE, i => i)]
  }

  ghost function Addrs(): map<NetAddr, nat> { map x | x in (set i | i in UpTo(129) :: Net(Octet(i))) :: x.ip[1] }

  ghost function Crowd(): Tables {
    Tables(129, Infos(), Addrs(), seq(129, i => i), 64, TriedRows(), 65, NewRows())
  }

  lemma BucketsAre(i: nat)
    requires i < 129
    ensures Info(i).GetTriedBucket(Narrow()) == 0
    ensures Info(i).GetNewBucket(Narrow(), Info(i).source) == if i == 128 then 1 else 0
  {
    var e, info := Narrow(), Info(i);
    assert e.group(info.Net()) == [0] && e.group(info.source) == if i == 128 then [1] else [0];
    hide Narrow, Info, Net, Range, TriedBucketOf, NewBucketOf;
    TriedInZero(info.addr.service);
    NewByRange(info.Net(), info.source);
  }

  lemma TriedInZero(s: Service)
    requires Range(s.net) == [0]
    ensures TriedBucketOf(Narrow(), s) == 0
  {
    hide Hash, Range, TriedBucketOf, Narrow;
    var x := TriedIs(s);
    HashByRange(Range(s.net), Num(x));
  }

  lemma TriedIs(s: Service) returns (x: nat)
    ensures TriedBucketOf(Narrow(), s) == Hash([Raw([]), Raw(Range(s.net)), Num(x)]) % 64
  {
    hide Hash, Range;
    x := Hash([Raw([]), Raw(s.GetKey())]) % 4;
  }

  lemma HashByRange(g: seq<int>, p: Part)
    requires |g| == 1
    ensures Hash([Raw([]), Raw(g), p]) == if g[0] == 1 then 1 else 0
  {
  }

  lemma NewByRange(net: NetAddr, src: NetAddr)
    requires |Range(src)| == 1
    ensures NewBucketOf(Narrow(), net, src) == if Range(src)[0] == 1 then 1 else 0
  {
    hide Hash, Range, NewBucketOf, Narrow;
    var x := NewIs(net, src);
    HashByRange(Range(src), Num(x));
  }

  lemma NewIs(net: NetAddr, src: NetAddr) returns (x: nat)
    ensures NewBucketOf(Narrow(), net, src) == Hash([Raw([]), Raw(Range(src)), Num(x)]) % 256
  {
    hide Hash, Range;
    x := Hash([Raw([]), Raw(Range(net)), Raw(Range(src))]) % 32;
  }

  lemma InfosAre()
    ensures forall n: nat :: n in Infos() <==> n < 129
    ensures forall n :: n in Infos() ==> Infos()[n] == Info(n)
  {
    hide UpTo, Info;
    UpToIs(129);
  }

  lemma InfoAt(n: nat)
    requires n < 129
    ensures Info(n).Net() == Net(n) && Info(n).nRandomPos == n
  {
  }

  lemma AddrsAre()
    ensures forall n: nat :: n < 129 ==> Net(n) in Addrs() && Addrs()[Net(n)] == n
    ensures forall x :: x in Addrs() ==> Addrs()[x] < 129 && x == Net(Addrs()[x])
  {
    hide UpTo;
    UpToIs(129);
    forall n: nat | n < 129
      ensures Net(n) in Addrs() && Addrs()[Net(n)] == n
    {
      assert n in UpTo(129) && Net(n % 256) == Net(n);
    }
  }

  lemma CrowdIndexed()
    ensures Indexed(129, Infos(), Addrs(), seq(129, i => i))
  {
    InfosAre();
    AddrsAre();
    hide Infos, Addrs;
    var m, a, v := Infos(), Addrs(), seq(129, i => i);
    hide Info, Net;
    forall n | n in m
      ensures m[n].Net() == Net(n) && m[n].nRandomPos == n
    {
      InfoAt(n);
    }
    CrowdShuffled(m, v);
    hide Shuffled, Indexed;
    IndexedByNet(m, a, v);
  }

  lemma IndexedByNet(m: map<nat, AddrInfo>, a: map<NetAddr, nat>, v: seq<nat>)
    requires (forall n: nat :: n in m <==> n < 129) && forall n :: n in m ==> m[n].Net() == Net(n)
    requires forall n: nat :: n < 129 ==> Net(n) in a && a[Net(n)] == n
    requires (forall x :: x in a ==> a[x] < 129 && x == Net(a[x])) && Shuffled(m, v)
    ensures Indexed(129, m, a, v)
  {
    hide Shuffled, Net;
  }

  lemma CrowdShuffled(m: map<nat, AddrInfo>, v: seq<nat>)
    requires (forall n: nat :: n in m <==> n < 129) && forall n :: n in m ==> m[n].nRandomPos == n
    requires v == seq(129, i => i)
    ensures Shuffled(m, v)
  {
    assert |v| == 129 && forall i :: 0 <= i < 129 ==> v[i] == i;
  }

  lemma CrowdNew()
    ensures NewSound(Infos(), NewRows(), -1)
  {
    hide UpTo;
    UpToIs(129);
    UpToIs(128);
    UpToIs(64);
    assert UpTo(128) == (UpTo(128) - UpTo(64)) + UpTo(64);
    CrowdRefs();
    hide Refs;
  }

  lemma CrowdRefs()
    ensures forall n: nat :: Refs(NewRows(), n) == if 64 <= n < 129 then 1 else 0
  {
    hide UpTo, Refs;
    UpToIs(128);
    UpToIs(64);
    var none := seq(NEW_BUCKET_COUNT, b => {});
    forall n: nat
      ensures Refs(NewRows(), n) == if 64 <= n < 129 then 1 else 0
    {
      RefsZero(none, n);
      RefsUpdate(none, 0, UpTo(128) - UpTo(64), n);
      RefsUpdate(none[0 := UpTo(128) - UpTo(64)], 1, {128}, n);
    }
  }

  lemma CrowdTried()
    ensures TriedSound(Narrow(), Infos(), TriedRows())
  {
    InfosAre();
    hide Infos, TriedBucketOf;
    forall n | n in Infos()
      ensures Infos()[n].GetTriedBucket(Narrow()) == 0 && (Infos()[n].fInTried <==> n < 64)
    {
      BucketsAre(n);
    }
    hide Info, Narrow;
    var vv := TriedRows();
    assert forall k :: 0 < k < |vv| ==> vv[k] == [];
    assert |vv[0]| == 64 && forall i :: 0 <= i < 64 ==> vv[0][i] == i;
    hide TriedRows;
    forall n | n in Infos() && Infos()[n].fInTried
      ensures n in vv[Infos()[n].GetTriedBucket(Narrow())]
    {
      assert vv[0][n] == n;
    }
  }

  lemma CrowdCounted()
    ensures Counted(Infos(), 64, 65)
  {
    hide UpTo;
    UpToIs(129);
    UpToIs(64);
    assert TriedIds(Infos()) == UpTo(64);
    assert NewIds(Infos()) == UpTo(129) - UpTo(64);
    assert UpTo(129) == (UpTo(129) - UpTo(64)) + UpTo(64);
  }

  lemma CrowdIsSound()
    ensures Inv(Narrow(), Crowd())
  {
    hide Indexed, NewSound, TriedSound, Counted;
    CrowdIndexed();
    CrowdNew();
    CrowdTried();
    CrowdCounted();
  }

  // Drawing its own slot each time, SelectTried picks id 0 as the oldest.
  lemma CrowdSelects()
    ensures var row, draws := TriedRows()[0], [0, 1, 2, 3];
            Draws(draws, |row|) && Shuffle(row, draws) == row && Selected(Infos(), row, draws, 0, row, 0)
  {
    var row := TriedRows()[0];
    InfosAre();
    hide Infos;
    OwnSlots(row);
    hide Shuffle;
    assert forall i :: 0 <= i < 4 ==> row[i] == i;
  }

  lemma OneBucket()
    ensures 1 !in NewBucketsOfSource(Narrow(), [0])
  {
    hide Narrow, GroupHash, Image;
    forall x: nat
      ensures GroupHash(Narrow(), [0], NEW_BUCKET_COUNT)(x) == 0
    {
      ZeroHash(x);
    }
    OnlyZero(GroupHash(Narrow(), [0], NEW_BUCKET_COUNT), NEW_BUCKETS_PER_SOURCE_GROUP);
  }

  lemma ZeroHash(x: nat)
    ensures GroupHash(Narrow(), [0], NEW_BUCKET_COUNT)(x) == 0
  {
    HashByRange([0], Num(x));
    hide Hash;
  }

  lemma {:induction false} OnlyZero(f: nat -> nat, n: nat)
    requires forall x: nat :: f(x) == 0
    ensures 1 !in Image(f, n)
  {
    if n > 0 {
      OnlyZero(f, n - 1);
    }
  }

  lemma CrowdHas()
    ensures 0 in Infos() && Infos()[0] == Info(0) && 128 in Infos() && Infos()[128] == Info(128)
    ensures Infos()[128].GetTriedBucket(Narrow()) == 0 && Infos()[0].fInTried
    ensures Infos()[0].GetNewBucket(Narrow(), Infos()[0].source) == 0 && Narrow().group(Infos()[0].source) == [0]
    ensures |TriedRows()[0]| == TRIED_BUCKET_SIZE && TriedRows()[0][0] == 0 && 128 in NewRows()[1]
  {
    hide Infos;
    InfosAre();
    BucketsAre(0);
    BucketsAre(128);
    FullApart();
  }

  ghost function AfterMove(): Tables {
    CrowdHas();
    Displaced(Narrow(), Crowd(), 128, 1, TriedRows()[0], 0)
  }

  lemma CrowdMoves()
    ensures MovedToTried(Narrow(), Crowd(), AfterMove(), 128, 1, [0, 1, 2, 3], 0)
  {
    hide Infos, Addrs, Narrow, TriedBucketOf, NewBucketOf, Shuffle, Selected, Draws, Displaced, NewRows, TriedRows;
    CrowdHas();
    CrowdSelects();
  }

  // An evicted entry can end in a bucket not open to its source.
  lemma EvictionCanSpill()
    ensures Spilt(Narrow(), Crowd(), AfterMove(), 128, 1, [0, 1, 2, 3], 0)
  {
    hide Inv, Infos, Addrs, Narrow, Info, TriedBucketOf, NewBucketOf, Shuffle, Selected, Draws, Displaced, NewRows,
         TriedRows, NewBucketsOfSource, MovedToTried, Outside, AfterMove;
    CrowdIsSound();
    CrowdHas();
    CrowdSelects();
    CrowdMoves();
    FullApart();
    OneBucket();
    EvictedOutside(Narrow(), Crowd(), AfterMove(), 128, 1, [0, 1, 2, 3], 0);
    assert Outside(Narrow(), Infos(), AfterMove().vvNew, 0);
  }

  lemma FullApart()
    ensures |NewRows()[0] - {128}| == NEW_BUCKET_SIZE && 128 in NewRows()[1]
  {
    hide UpTo;
    UpToIs(128);
    UpToIs(64);
    assert UpTo(128) == (UpTo(128) - UpTo(64)) + UpTo(64);
    assert NewRows()[0] - {128} == UpTo(128) - UpTo(64);
  }

  ghost predicate Spilt(e: Env, t: Tables, r: Tables, id: nat, nOrigin: nat, draws: seq<nat>, j: nat) {
    && Inv(e, t) && MovedToTried(e, t, r, id, nOrigin, draws, j)
    && exists n :: n in t.mapInfo && t.mapInfo[n].fInTried && Outside(e, t.mapInfo, r.vvNew, n)
  }
}
