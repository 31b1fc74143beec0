// How many addresses the address manager has room for, and how many buckets one
// range of addresses can reach.
module AddrBounds {
  import opened Ascending
  import opened AddrTables

  // ---------------------------------------------------------------- how many addresses fit

  lemma {:induction false} ElemsSize(s: seq<nat>)
    ensures |Elems(s)| <= |s|
  {
    if s != [] {
      var last := |s| - 1;
      ElemsSize(s[..last]);
      assert s == s[..last] + [s[last]];
      assert Elems(s) == Elems(s[..last]) + {s[last]};
    }
  }

  // Everything in the buckets whose numbers are in B.
  ghost function Held(vv: seq<set<nat>>, B: set<nat>): set<nat> {
    set b, x | b in B && b < |vv| && x in vv[b] :: x
  }

  lemma {:induction false} HeldSize(vv: seq<set<nat>>, B: set<nat>, size: nat)
    requires forall b :: b in B && b < |vv| ==> |vv[b]| <= size
    ensures |Held(vv, B)| <= size * |B|
  {
    if B == {} {
      assert Held(vv, B) == {};
    } else {
      var b :| b in B;
      HeldSize(vv, B - {b}, size);
      HeldStep(vv, B, b);
      hide Held;
      var n := |B - {b}|;
      assert |B| == n + 1;
      OneMore(size, n);
    }
  }

  lemma OneMore(size: nat, n: nat)
    ensures size * (n + 1) == size * n + size
  {
  }

  lemma HeldStep(vv: seq<set<nat>>, B: set<nat>, b: nat)
    requires b in B
    ensures Held(vv, B) == Held(vv, B - {b}) + if b < |vv| then vv[b] else {}
  {
  }

  lemma SubsetSize(a: set<nat>, b: set<nat>)
    requires a <= b
    ensures |a| <= |b|
  {
    assert b == a + (b - a);
  }

  ghost function BucketSets(vv: seq<seq<nat>>): (ww: seq<set<nat>>)
    ensures |ww| == |vv| && forall k :: 0 <= k < |vv| ==> ww[k] == Elems(vv[k])
  {
    seq(|vv|, k requires 0 <= k < |vv| => Elems(vv[k]))
  }

  ghost function UpTo(n: nat): set<nat> {
    if n == 0 then {} else UpTo(n - 1) + {n - 1}
  }

  lemma {:induction false} UpToIs(n: nat)
    ensures |UpTo(n)| == n && forall b: nat :: b in UpTo(n) <==> b < n
  {
    if n > 0 {
      UpToIs(n - 1);
    }
  }

  lemma TriedInBuckets(e: Env, m: map<nat, AddrInfo>, vv: seq<seq<nat>>, c: set<nat>, K: set<nat>)
    requires TriedSound(e, m, vv)
    requires forall n :: n in c ==> n in m && m[n].fInTried && m[n].GetTriedBucket(e) in K
    ensures |c| <= TRIED_BUCKET_SIZE * |K|
  {
    var ww := BucketSets(vv);
    forall k | 0 <= k < |ww|
      ensures |ww[k]| <= TRIED_BUCKET_SIZE
    {
      ElemsSize(vv[k]);
    }
    HeldSize(ww, K, TRIED_BUCKET_SIZE);
    forall n | n in c
      ensures n in Held(ww, K)
    {
      var k := m[n].GetTriedBucket(e);
      assert n in vv[k];
      assert n in ww[k];
    }
    SubsetSize(c, Held(ww, K));
  }

  lemma NewInBuckets(m: map<nat, AddrInfo>, vv: seq<set<nat>>, c: set<nat>, B: set<nat>)
    requires NewSound(m, vv, -1)
    requires forall n :: n in c ==> n in m && !m[n].fInTried
    requires forall b :: 0 <= b < |vv| && vv[b] != {} ==> b in B
    ensures |c| <= NEW_BUCKET_SIZE * |B|
  {
    HeldSize(vv, B, NEW_BUCKET_SIZE);
    forall n | n in c
      ensures n in Held(vv, B)
    {
      RefsZero(vv, n);
      var b :| 0 <= b < |vv| && n in vv[b];
      assert b in B;
    }
    SubsetSize(c, Held(vv, B));
  }

  // The manager never holds more addresses than its buckets have room for.
  lemma NeverOverfull(e: Env, t: Tables)
    requires Inv(e, t)
    ensures |t.mapInfo| <= TRIED_BUCKET_COUNT * TRIED_BUCKET_SIZE + NEW_BUCKET_COUNT * NEW_BUCKET_SIZE
    ensures |t.vRandom| == |t.mapInfo| == |t.mapAddr| == t.nTried + t.nNew
  {
    hide UpTo;
    UpToIs(TRIED_BUCKET_COUNT);
    UpToIs(NEW_BUCKET_COUNT);
    var m := t.mapInfo;
    InvHasTried(e, t);
    hide TriedSound, NewSound, Indexed, Inv;
    TriedInBuckets(e, m, t.vvTried, TriedIds(m), UpTo(TRIED_BUCKET_COUNT));
    NewEverywhere(e, t);
    IdsSplit(m);
    InvHasSizes(e, t);
  }

  lemma NewEverywhere(e: Env, t: Tables)
    requires Inv(e, t)
    ensures |NewIds(t.mapInfo)| <= NEW_BUCKET_COUNT * NEW_BUCKET_SIZE
  {
    hide UpTo;
    UpToIs(NEW_BUCKET_COUNT);
    assert |t.vvNew| == NEW_BUCKET_COUNT;
    hide NewSound;
    NewInBuckets(t.mapInfo, t.vvNew, NewIds(t.mapInfo), UpTo(NEW_BUCKET_COUNT));
  }

  lemma InvHasSizes(e: Env, t: Tables)
    requires Inv(e, t)
    ensures |t.vRandom| == |t.mapInfo| == |t.mapAddr|
    ensures t.nTried == |TriedIds(t.mapInfo)| && t.nNew == |NewIds(t.mapInfo)|
  {
    hide Indexed;
    IndexSizes(t.nIdCount, t.mapInfo, t.mapAddr, t.vRandom);
  }

  lemma IdsSplit(m: map<nat, AddrInfo>)
    ensures |m| == |TriedIds(m)| + |NewIds(m)|
  {
    assert m.Keys == TriedIds(m) + NewIds(m);
    assert |m.Keys| == |m|;
  }

  lemma InjectiveImage(c: set<NetAddr>, a: map<NetAddr, nat>)
    requires c <= a.Keys && forall x, y :: x in c && y in c && x != y ==> a[x] != a[y]
    ensures |set x | x in c :: a[x]| == |c|
  {
    var image := set x | x in c :: a[x];
    if c != {} {
      var z :| z in c;
      InjectiveImage(c - {z}, a);
      assert image == (set x | x in c - {z} :: a[x]) + {a[z]};
    } else {
      assert image == {};
    }
  }

  lemma IndexSizes(k: nat, m: map<nat, AddrInfo>, a: map<NetAddr, nat>, v: seq<nat>)
    requires Indexed(k, m, a, v)
    ensures |v| == |m| == |a|
  {
    forall i, j | 0 <= i < j < |v|
      ensures v[i] != v[j]
    {
      assert m[v[i]].nRandomPos == i && m[v[j]].nRandomPos == j;
    }
    DistinctSize(v);
    assert Elems(v) == m.Keys;
    InjectiveImage(a.Keys, a);
    assert (set x | x in a.Keys :: a[x]) == m.Keys;
    assert |a.Keys| == |a| && |m.Keys| == |m|;
  }

  // ---------------------------------------------------------------- one group's share

  ghost function Image(f: nat -> nat, n: nat): set<nat> {
    if n == 0 then {} else Image(f, n - 1) + {f(n - 1)}
  }

  lemma {:induction false} ImageIs(f: nat -> nat, n: nat)
    ensures |Image(f, n)| <= n && forall x: nat :: x < n ==> f(x) in Image(f, n)
  {
    if n > 0 {
      ImageIs(f, n - 1);
    }
  }

  ghost function GroupHash(e: Env, g: seq<int>, n: nat): nat -> nat
    requires n > 0
  {
    x => e.hash64([Raw(e.nKey), Raw(g), Num(x)]) % n
  }

  // The tried buckets open to a range of addresses.
  ghost function TriedBucketsOfGroup(e: Env, g: seq<int>): set<nat> {
    Image(GroupHash(e, g, TRIED_BUCKET_COUNT), TRIED_BUCKETS_PER_GROUP)
  }

  // The new buckets open to addresses heard of from a range of sources.
  ghost function NewBucketsOfSource(e: Env, g: seq<int>): set<nat> {
    Image(GroupHash(e, g, NEW_BUCKET_COUNT), NEW_BUCKETS_PER_SOURCE_GROUP)
  }

  lemma TriedBucketInGroup(e: Env, s: Service)
    ensures TriedBucketOf(e, s) in TriedBucketsOfGroup(e, e.group(s.net))
  {
    hide Image;
    var f := GroupHash(e, e.group(s.net), TRIED_BUCKET_COUNT);
    ImageIs(f, TRIED_BUCKETS_PER_GROUP);
    var x := e.hash64([Raw(e.nKey), Raw(s.GetKey())]) % TRIED_BUCKETS_PER_GROUP;
    assert f(x) == TriedBucketOf(e, s);
  }

  lemma NewBucketInGroup(e: Env, net: NetAddr, src: NetAddr)
    ensures NewBucketOf(e, net, src) in NewBucketsOfSource(e, e.group(src))
  {
    hide Image;
    var f := GroupHash(e, e.group(src), NEW_BUCKET_COUNT);
    ImageIs(f, NEW_BUCKETS_PER_SOURCE_GROUP);
    var x := e.hash64([Raw(e.nKey), Raw(e.group(net)), Raw(e.group(src))]) % NEW_BUCKETS_PER_SOURCE_GROUP;
    assert f(x) == NewBucketOf(e, net, src);
  }

  ghost function TriedOfGroup(e: Env, m: map<nat, AddrInfo>, g: seq<int>): set<nat> {
    set n | n in m && m[n].fInTried && e.group(m[n].Net()) == g
  }

  // An address range gets at most 4 of the 64 tried buckets, hence at most 256
  // tried entries, whatever anyone does.
  lemma TriedGroupIsBounded(e: Env, t: Tables, g: seq<int>)
    requires Inv(e, t)
    ensures |TriedOfGroup(e, t.mapInfo, g)| <= TRIED_BUCKETS_PER_GROUP * TRIED_BUCKET_SIZE
  {
    var c := TriedOfGroup(e, t.mapInfo, g);
    hide InvWith, TriedBucketsOfGroup;
    var K := TriedBucketsOfGroup(e, g);
    forall n | n in c
      ensures t.mapInfo[n].GetTriedBucket(e) in K
    {
      TriedBucketInGroup(e, t.mapInfo[n].addr.service);
    }
    hide TriedSound;
    InvHasTried(e, t);
    TriedInBuckets(e, t.mapInfo, t.vvTried, c, K);
    TriedBucketsAreFew(e, g);
  }

  lemma TriedBucketsAreFew(e: Env, g: seq<int>)
    ensures |TriedBucketsOfGroup(e, g)| <= TRIED_BUCKETS_PER_GROUP
  {
    hide Image;
    ImageIs(GroupHash(e, g, TRIED_BUCKET_COUNT), TRIED_BUCKETS_PER_GROUP);
  }

  lemma InvHasTried(e: Env, t: Tables)
    requires Inv(e, t)
    ensures TriedSound(e, t.mapInfo, t.vvTried)
  {
    hide TriedSound;
  }

  // ---------------------------------------------------------------- what the buckets depend on

  // The key of a service is its address, then its port with the high byte first; so
  // services of one address family have different keys.
  lemma KeyTells(s: Service, z: Service)
    requires |s.net.ip| == |z.net.ip| && s.port < 0x1_0000 && z.port < 0x1_0000
    ensures |s.GetKey()| == |s.net.ip| + 2 && s.GetKey()[..|s.net.ip|] == s.net.ip
    ensures s.GetKey()[|s.net.ip|] * 256 + s.GetKey()[|s.net.ip| + 1] == s.port
    ensures s.GetKey() == z.GetKey() <==> s == z
  {
    var k, l, n := s.GetKey(), z.GetKey(), |s.net.ip|;
    assert k[n] == s.port / 0x100 && k[n + 1] == s.port % 0x100;
    assert l[n] == z.port / 0x100 && l[n + 1] == z.port % 0x100;
    assert k[..n] == s.net.ip && l[..n] == z.net.ip;
  }

  // The "new" bucket of an address is settled by its range and that of its source.
  lemma RangesSettle(e: Env, net: NetAddr, src: NetAddr, net2: NetAddr, src2: NetAddr)
    requires e.group(net) == e.group(net2) && e.group(src) == e.group(src2)
    ensures NewBucketOf(e, net, src) == NewBucketOf(e, net2, src2)
  {
  }

  // Its own range matters: there is a hash that tells two ranges apart.
  lemma OwnRangeMatters(e: Env, net: NetAddr, net2: NetAddr, src: NetAddr)
    requires e.group(net) != e.group(net2)
    ensures exists h :: NewBucketOf(e.(hash64 := h), net, src) != NewBucketOf(e.(hash64 := h), net2, src)
  {
    var one := [Raw(e.nKey), Raw(e.group(net)), Raw(e.group(src))];
    var h := TellApart(one);
    assert h([Raw(e.nKey), Raw(e.group(net2)), Raw(e.group(src))]) == 0 by {
      assert [Raw(e.nKey), Raw(e.group(net2)), Raw(e.group(src))][1] != one[1];
    }
    assert NewBucketOf(e.(hash64 := h), net, src) != NewBucketOf(e.(hash64 := h), net2, src);
  }

  // 1 for what is given, and what is hashed next then has 1 in it.
  function TellApart(one: seq<Part>): seq<Part> -> nat {
    ps => if ps == one || (|ps| == 3 && ps[2] == Num(1)) then 1 else 0
  }

  // And a service's own address and port matter for its tried bucket.
  lemma OwnKeyMatters(e: Env, s: Service, z: Service)
    requires e.group(s.net) == e.group(z.net) && s.GetKey() != z.GetKey()
    ensures exists h :: TriedBucketOf(e.(hash64 := h), s) != TriedBucketOf(e.(hash64 := h), z)
  {
    var one := [Raw(e.nKey), Raw(s.GetKey())];
    var h := TellApart(one);
    assert h([Raw(e.nKey), Raw(z.GetKey())]) == 0 by {
      assert [Raw(e.nKey), Raw(z.GetKey())][1] != one[1];
    }
    assert TriedBucketOf(e.(hash64 := h), s) != TriedBucketOf(e.(hash64 := h), z);
  }
}
