// How the address manager is laid out on disk, and what reading it back must
// restore.
module AddrDisk {
  import opened Ascending
  import opened AddrTables
  import opened Octets
  import opened AddrBounds

  // What is kept of a record: the last try, the reference count, the side and
  // the position in vRandom are not.
  datatype DiskInfo = DiskInfo(addr: Address, source: NetAddr, nLastSuccess: int, nAttempts: int)

  datatype Token = Count(n: int) | Key(key: seq<Byte>) | Record(info: DiskInfo)

  function ToDisk(info: AddrInfo): DiskInfo {
    DiskInfo(info.addr, info.source, info.nLastSuccess, info.nAttempts)
  }

  function FromDisk(d: DiskInfo): AddrInfo {
    FreshInfo(d.addr, d.source).(nLastSuccess := d.nLastSuccess, nAttempts := d.nAttempts)
  }

  // ---------------------------------------------------------------- the stream

  ghost function Records(m: map<nat, AddrInfo>, ids: seq<nat>): (s: seq<Token>)
    requires forall i :: 0 <= i < |ids| ==> ids[i] in m
    ensures |s| == |ids| && forall i :: 0 <= i < |ids| ==> s[i] == Record(ToDisk(m[ids[i]]))
  {
    seq(|ids|, i requires 0 <= i < |ids| => Record(ToDisk(m[ids[i]])))
  }

  // A "new" id is written as its rank among the "new" ids.
  ghost function Indices(news: set<nat>, ids: seq<nat>): (s: seq<Token>)
    ensures |s| == |ids| && forall i :: 0 <= i < |ids| ==> s[i] == Count(Rank(news, ids[i]))
  {
    seq(|ids|, i requires 0 <= i < |ids| => Count(Rank(news, ids[i])))
  }

  ghost function Buckets(news: set<nat>, vv: seq<set<nat>>): seq<Token> {
    if vv == [] then []
    else
      var last := vv[|vv| - 1];
      Buckets(news, vv[..|vv| - 1]) + [Count(|last|)] + Indices(news, Ordered(last))
  }

  ghost function Header(e: Env, t: Tables): seq<Token> {
    [Count(0), Key(e.nKey), Count(t.nNew), Count(t.nTried), Count(NEW_BUCKET_COUNT)]
  }

  // The ids in the order they are written: the untried ones, then the tried.
  ghost function WriteOrder(m: map<nat, AddrInfo>): seq<nat> {
    Ordered(NewIds(m)) + Ordered(TriedIds(m))
  }

  lemma WriteOrderIs(m: map<nat, AddrInfo>)
    ensures |WriteOrder(m)| == |m| && |Ordered(NewIds(m))| == |NewIds(m)|
    ensures Distinct(WriteOrder(m))
    ensures forall n :: n in WriteOrder(m) <==> n in m
    ensures forall i :: 0 <= i < |WriteOrder(m)| ==> (m[WriteOrder(m)[i]].fInTried <==> i >= |NewIds(m)|)
  {
    var a, b := Ordered(NewIds(m)), Ordered(TriedIds(m));
    OrderedIs(NewIds(m));
    OrderedIs(TriedIds(m));
    OrderedDistinct(NewIds(m));
    OrderedDistinct(TriedIds(m));
    IdsSplit(m);
    forall i | 0 <= i < |a| + |b|
      ensures (a + b)[i] in m && (m[(a + b)[i]].fInTried <==> i >= |a|)
    {
      if i < |a| {
        assert a[i] in a;
      } else {
        assert b[i - |a|] in b;
      }
    }
  }

  ghost function Stream(e: Env, t: Tables): seq<Token> {
    WriteOrderIs(t.mapInfo);
    Header(e, t) + Records(t.mapInfo, WriteOrder(t.mapInfo)) + Buckets(NewIds(t.mapInfo), t.vvNew)
  }

  // ---------------------------------------------------------------- what is restored

  // b is a with all that is kept and in its place; the last try starts anew.
  ghost predicate Restored(a: AddrInfo, b: AddrInfo) {
    ToDisk(a) == ToDisk(b) && a.nRefCount == b.nRefCount && a.fInTried == b.fInTried && b.nLastTry == 0
  }

  // r is t with id ids[i] renamed to i: same records, same "new" buckets, same
  // membership of the "tried" buckets.
  ghost predicate Renamed(t: Tables, r: Tables, ids: seq<nat>) {
    && Distinct(ids) && (forall n :: n in ids <==> n in t.mapInfo)
    && (forall i: nat :: i in r.mapInfo <==> i < |ids|)
    && (forall i :: 0 <= i < |ids| ==> Restored(t.mapInfo[ids[i]], r.mapInfo[i]))
    && |r.vvNew| == |t.vvNew| && |r.vvTried| == |t.vvTried|
    && (forall b, i :: 0 <= b < |t.vvNew| && 0 <= i < |ids| ==> (i in r.vvNew[b] <==> ids[i] in t.vvNew[b]))
    && (forall k, i :: 0 <= k < |t.vvTried| && 0 <= i < |ids| ==> (i in r.vvTried[k] <==> ids[i] in t.vvTried[k]))
    && r.nTried == t.nTried && r.nNew == t.nNew
  }

  // How a freshly read manager numbers its ids, and that its buckets hold
  // nothing else.
  ghost predicate Packed(t: Tables, r: Tables, n: nat) {
    && r.nIdCount == n && |r.vRandom| == n && (forall i: nat :: i in r.mapInfo <==> i < n)
    && (forall i :: 0 <= i < n ==> r.vRandom[i] == i && r.mapInfo[i].nRandomPos == i)
    && Addressed(r.mapInfo, r.mapAddr, n)
    && |r.vvNew| == |t.vvNew| && |r.vvTried| == |t.vvTried|
    && (forall b :: 0 <= b < |r.vvNew| ==> |r.vvNew[b]| <= |t.vvNew[b]| && forall i :: i in r.vvNew[b] ==> i < n)
    && (forall k :: 0 <= k < |r.vvTried| ==> |r.vvTried[k]| <= TRIED_BUCKET_SIZE && Distinct(r.vvTried[k]))
    && (forall k, i :: 0 <= k < |r.vvTried| && 0 <= i < |r.vvTried[k]| ==> r.vvTried[k][i] < n)
  }

  // mapAddr indexes exactly the first n records.
  ghost predicate Addressed(m: map<nat, AddrInfo>, a: map<NetAddr, nat>, n: nat) {
    && (forall i :: 0 <= i < n ==> i in m && m[i].Net() in a && a[m[i].Net()] == i)
    && (forall x :: x in a ==> a[x] < n && a[x] in m && m[a[x]].Net() == x)
  }

  lemma {:induction false} RefsRenamed(vv: seq<set<nat>>, ww: seq<set<nat>>, n: nat, i: nat)
    requires |vv| == |ww| && forall b :: 0 <= b < |vv| ==> (n in vv[b] <==> i in ww[b])
    ensures Refs(vv, n) == Refs(ww, i)
  {
    if |vv| > 0 {
      RefsRenamed(vv[..|vv| - 1], ww[..|ww| - 1], n, i);
    }
  }

  lemma RenamedNew(t: Tables, r: Tables, ids: seq<nat>)
    requires NewSound(t.mapInfo, t.vvNew, -1) && Renamed(t, r, ids) && Packed(t, r, |ids|)
    ensures NewSound(r.mapInfo, r.vvNew, -1)
  {
    forall b | 0 <= b < |r.vvNew|
      ensures |r.vvNew[b]| <= NEW_BUCKET_SIZE
      ensures forall i :: i in r.vvNew[b] ==> i in r.mapInfo && !r.mapInfo[i].fInTried
    {
      RenamedBucket(t, r, ids, b);
    }
    forall i | i in r.mapInfo
      ensures RefCountSound(r.mapInfo[i], Refs(r.vvNew, i))
    {
      RenamedRecord(t, r, ids, i);
    }
    assert |r.vvNew| == NEW_BUCKET_COUNT;
    hide Renamed, Packed, Refs, RefCountSound;
  }

  lemma RenamedBucket(t: Tables, r: Tables, ids: seq<nat>, b: nat)
    requires NewSound(t.mapInfo, t.vvNew, -1) && Renamed(t, r, ids) && Packed(t, r, |ids|) && b < |r.vvNew|
    ensures |r.vvNew[b]| <= NEW_BUCKET_SIZE
    ensures forall i :: i in r.vvNew[b] ==> i in r.mapInfo && !r.mapInfo[i].fInTried
  {
    hide Refs, Addressed, Distinct;
    forall i | i in r.vvNew[b]
      ensures i in r.mapInfo && !r.mapInfo[i].fInTried
    {
      assert ids[i] in t.vvNew[b];
    }
  }

  lemma RenamedRecord(t: Tables, r: Tables, ids: seq<nat>, i: nat)
    requires NewSound(t.mapInfo, t.vvNew, -1) && Renamed(t, r, ids) && i in r.mapInfo
    ensures RefCountSound(r.mapInfo[i], Refs(r.vvNew, i))
  {
    hide Refs, Distinct;
    assert ids[i] in t.mapInfo;
    RefsRenamed(t.vvNew, r.vvNew, ids[i], i);
  }

  lemma RenamedTried(e: Env, t: Tables, r: Tables, ids: seq<nat>)
    requires TriedSound(e, t.mapInfo, t.vvTried) && Renamed(t, r, ids) && Packed(t, r, |ids|)
    ensures TriedSound(e, r.mapInfo, r.vvTried)
  {
    forall k, i | 0 <= k < |r.vvTried| && 0 <= i < |r.vvTried[k]|
      ensures r.vvTried[k][i] in r.mapInfo && r.mapInfo[r.vvTried[k][i]].fInTried
              && r.mapInfo[r.vvTried[k][i]].GetTriedBucket(e) == k
    {
      var x := r.vvTried[k][i];
      assert x in r.vvTried[k];
      assert ids[x] in t.vvTried[k];
    }
    forall i | i in r.mapInfo && r.mapInfo[i].fInTried
      ensures i in r.vvTried[r.mapInfo[i].GetTriedBucket(e)]
    {
      assert ids[i] in t.mapInfo;
      assert ids[i] in t.vvTried[t.mapInfo[ids[i]].GetTriedBucket(e)];
    }
  }

  ghost function IdsOf(ids: seq<nat>, c: set<nat>): set<nat>
    requires forall i :: i in c ==> i < |ids|
  {
    set i | i in c :: ids[i]
  }

  lemma {:induction false} IdImage(ids: seq<nat>, c: set<nat>)
    requires Distinct(ids) && forall i :: i in c ==> i < |ids|
    ensures |IdsOf(ids, c)| == |c|
  {
    if c == {} {
      assert IdsOf(ids, c) == {};
    } else {
      var z :| z in c;
      IdImage(ids, c - {z});
      assert IdsOf(ids, c) == IdsOf(ids, c - {z}) + {ids[z]};
    }
  }

  lemma RenamedCounts(t: Tables, r: Tables, ids: seq<nat>)
    requires Renamed(t, r, ids)
    ensures |TriedIds(r.mapInfo)| == |TriedIds(t.mapInfo)| && |NewIds(r.mapInfo)| == |NewIds(t.mapInfo)|
    ensures r.nTried == t.nTried && r.nNew == t.nNew
  {
    IdImage(ids, TriedIds(r.mapInfo));
    IdImage(ids, NewIds(r.mapInfo));
    forall n
      ensures n in IdsOf(ids, TriedIds(r.mapInfo)) <==> n in TriedIds(t.mapInfo)
      ensures n in IdsOf(ids, NewIds(r.mapInfo)) <==> n in NewIds(t.mapInfo)
    {
      if n in t.mapInfo {
        assert n in ids;
        var i :| 0 <= i < |ids| && ids[i] == n;
        assert i in r.mapInfo;
      }
    }
    assert IdsOf(ids, TriedIds(r.mapInfo)) == TriedIds(t.mapInfo);
    assert IdsOf(ids, NewIds(r.mapInfo)) == NewIds(t.mapInfo);
  }

  lemma PackedIndexed(t: Tables, r: Tables, n: nat)
    requires Packed(t, r, n)
    ensures Indexed(n, r.mapInfo, r.mapAddr, r.vRandom)
  {
  }

  // A renamed copy of a sound manager, numbered as reading numbers it, is sound.
  lemma RenamedIsSound(e: Env, t: Tables, r: Tables, ids: seq<nat>)
    requires Inv(e, t) && Renamed(t, r, ids) && Packed(t, r, |ids|)
    ensures Inv(e, r)
  {
    hide Indexed, NewSound, TriedSound, Renamed;
    PackedIndexed(t, r, |ids|);
    RenamedNew(t, r, ids);
    RenamedTried(e, t, r, ids);
    RenamedCounts(t, r, ids);
  }

  // ---------------------------------------------------------------- the loops that write

  ghost function WrittenRecords(m: map<nat, AddrInfo>, c: set<nat>): seq<Token>
    requires c <= m.Keys
  {
    OrderedIs(c);
    Records(m, Ordered(c))
  }

  ghost predicate RecordsSoFar(m: map<nat, AddrInfo>, c: set<nat>, s: seq<Token>) {
    && c <= m.Keys && |s| <= |Ordered(c)|
    && forall i :: 0 <= i < |s| ==> Ordered(c)[i] in m && s[i] == Record(ToDisk(m[Ordered(c)[i]]))
  }

  lemma RecordsSplit(m: map<nat, AddrInfo>, a: seq<nat>, b: seq<nat>)
    requires forall i :: 0 <= i < |a| ==> a[i] in m
    requires forall i :: 0 <= i < |b| ==> b[i] in m
    ensures forall i :: 0 <= i < |a + b| ==> (a + b)[i] in m
    ensures Records(m, a + b) == Records(m, a) + Records(m, b)
  {
  }

  lemma StreamIs(e: Env, t: Tables)
    ensures Stream(e, t) == Header(e, t) + WrittenRecords(t.mapInfo, NewIds(t.mapInfo))
                          + WrittenRecords(t.mapInfo, TriedIds(t.mapInfo)) + Buckets(NewIds(t.mapInfo), t.vvNew)
  {
    OrderedIs(NewIds(t.mapInfo));
    OrderedIs(TriedIds(t.mapInfo));
    hide Ordered, Records, Buckets, Header;
    var a, b := Ordered(NewIds(t.mapInfo)), Ordered(TriedIds(t.mapInfo));
    assert forall i :: 0 <= i < |a| ==> a[i] in a;
    assert forall i :: 0 <= i < |b| ==> b[i] in b;
    RecordsSplit(t.mapInfo, a, b);
  }

  lemma RecordsStart(m: map<nat, AddrInfo>, c: set<nat>)
    requires c <= m.Keys
    ensures RecordsSoFar(m, c, [])
  {
  }

  lemma RecordsStep(m: map<nat, AddrInfo>, c: set<nat>, s: seq<Token>, n: nat)
    requires RecordsSoFar(m, c, s) && n in m && |s| < |Ordered(c)| && Ordered(c)[|s|] == n
    ensures RecordsSoFar(m, c, s + [Record(ToDisk(m[n]))])
  {
    hide Ordered;
  }

  lemma RecordsEnd(m: map<nat, AddrInfo>, c: set<nat>, s: seq<Token>)
    requires RecordsSoFar(m, c, s) && |s| == |c|
    ensures c <= m.Keys && s == WrittenRecords(m, c)
  {
    OrderedIs(c);
    hide Ordered;
  }

  // Scanning `all` upwards with `rest` to come meets the entries of c in order.
  lemma ScanRank(all: set<nat>, rest: set<nat>, c: set<nat>, n: nat)
    requires Below(all, rest) && c <= all && n in rest && forall x :: x in rest ==> n <= x
    ensures Below(all, rest - {n}) && Rank(c, n) == |c - rest|
  {
    NextBelow(all, rest, n);
    hide Below, Rank;
    RankSet(all, rest, c, n);
    RankSize(c, n, c - rest);
  }

  lemma ScanCount(c: set<nat>, rest: set<nat>, n: nat)
    requires n in rest
    ensures |c - (rest - {n})| == |c - rest| + (if n in c then 1 else 0)
  {
    if n in c {
      assert c - (rest - {n}) == (c - rest) + {n};
    } else {
      assert c - (rest - {n}) == c - rest;
    }
  }

  // k entries of c have been met.
  ghost predicate Scanning(all: set<nat>, rest: set<nat>, c: set<nat>, k: nat) {
    Below(all, rest) && rest <= all && c <= all && k == |c - rest|
  }

  lemma ScanStart(all: set<nat>, c: set<nat>)
    requires c <= all
    ensures Scanning(all, all, c, 0) && |Ordered(c)| == |c|
  {
    OrderedIs(c);
    assert c - all == {};
  }

  lemma ScanStep(all: set<nat>, rest: set<nat>, c: set<nat>, k: nat, n: nat)
    requires Scanning(all, rest, c, k) && n in rest && forall x :: x in rest ==> n <= x
    ensures n in all && Scanning(all, rest - {n}, c, if n in c then k + 1 else k)
    ensures n in c ==> Rank(c, n) == k < |Ordered(c)| && Ordered(c)[k] == n
  {
    hide Below, Rank, Ordered;
    ScanRank(all, rest, c, n);
    ScanCount(c, rest, n);
    if n in c {
      RankIs(c, n);
    }
  }

  lemma ScanEnd(all: set<nat>, rest: set<nat>, c: set<nat>, k: nat)
    requires Scanning(all, rest, c, k) && (rest == {} || k == |c|)
    ensures k == |c| && forall n :: n in c ==> n !in rest
  {
    if rest != {} {
      assert c == (c - rest) + (c * rest);
      assert |c * rest| == 0;
      assert forall n :: n in c && n in rest ==> n in c * rest;
    } else {
      assert c - rest == c;
    }
  }

  lemma RankSize(c: set<nat>, n: nat, d: set<nat>)
    requires (set y | y in c && y < n) == d
    ensures Rank(c, n) == |d|
  {
  }

  lemma RankSet(all: set<nat>, rest: set<nat>, c: set<nat>, n: nat)
    requires c <= all && (forall x :: x in all - rest ==> x < n) && forall x :: x in rest ==> n <= x
    ensures (set y | y in c && y < n) == c - rest
  {
    forall y | y in c
      ensures y < n <==> y !in rest
    {
      if y !in rest {
        assert y in all - rest;
      }
    }
  }

  // ---------------------------------------------------------------- the loops that read

  function Revived(info: AddrInfo, i: nat, tried: bool): AddrInfo {
    FromDisk(ToDisk(info)).(nRandomPos := i, fInTried := tried)
  }

  // The first n written records have been read, of which those from nNew on are
  // tried ones.
  ghost predicate Loaded(m: map<nat, AddrInfo>, ids: seq<nat>, nNew: nat,
                         w: map<nat, AddrInfo>, a: map<NetAddr, nat>, v: seq<nat>, n: nat) {
    && n <= |ids| && |v| == n && (forall i: nat :: i in w <==> i < n)
    && (forall i :: 0 <= i < n ==> ids[i] in m && v[i] == i && w[i] == Revived(m[ids[i]], i, i >= nNew))
    && Addressed(w, a, n)
  }

  // Every id is written once, and no two records share a network address.
  ghost predicate Separate(m: map<nat, AddrInfo>, ids: seq<nat>) {
    && Distinct(ids) && (forall i :: 0 <= i < |ids| ==> ids[i] in m)
    && forall i, j :: 0 <= i < j < |ids| ==> m[ids[i]].Net() != m[ids[j]].Net()
  }

  lemma LoadStep(m: map<nat, AddrInfo>, ids: seq<nat>, nNew: nat,
                 w: map<nat, AddrInfo>, a: map<NetAddr, nat>, v: seq<nat>, n: nat)
    requires Loaded(m, ids, nNew, w, a, v, n) && n < |ids| && Separate(m, ids)
    ensures ids[n] in m
    ensures var info := Revived(m[ids[n]], n, n >= nNew);
            Loaded(m, ids, nNew, w[n := info], a[info.Net() := n], v + [n], n + 1)
  {
    var info := Revived(m[ids[n]], n, n >= nNew);
    assert forall i :: 0 <= i < n ==> w[i].Net() == m[ids[i]].Net() && w[i].Net() != info.Net();
  }

  lemma InvSeparate(e: Env, t: Tables)
    requires Inv(e, t)
    ensures Separate(t.mapInfo, WriteOrder(t.mapInfo)) && |NewIds(t.mapInfo)| == t.nNew
    ensures |TriedIds(t.mapInfo)| == t.nTried
    ensures |WriteOrder(t.mapInfo)| == t.nNew + t.nTried
  {
    WriteOrderIs(t.mapInfo);
    IdsSplit(t.mapInfo);
    hide WriteOrder;
    IndexSeparate(t.nIdCount, t.mapInfo, t.mapAddr, t.vRandom, WriteOrder(t.mapInfo));
  }

  lemma IndexSeparate(k: nat, m: map<nat, AddrInfo>, a: map<NetAddr, nat>, v: seq<nat>, ids: seq<nat>)
    requires Indexed(k, m, a, v) && Distinct(ids) && forall n :: n in ids <==> n in m
    ensures Separate(m, ids)
  {
    forall i | 0 <= i < |ids|
      ensures ids[i] in m && m[ids[i]].Net() in a && a[m[ids[i]].Net()] == ids[i]
    {
      assert ids[i] in ids;
    }
  }

  // The tried ids read so far, bucket by bucket.
  ghost predicate TriedLoaded(e: Env, m: map<nat, AddrInfo>, ids: seq<nat>, nNew: nat, vv: seq<seq<nat>>, n: nat) {
    && |vv| == TRIED_BUCKET_COUNT && n <= |ids|
    && (forall i :: 0 <= i < |ids| ==> ids[i] in m)
    && (forall k :: 0 <= k < |vv| ==> |vv[k]| <= TRIED_BUCKET_SIZE && Distinct(vv[k]))
    && (forall k :: 0 <= k < |vv| ==> RowLoaded(e, m, ids, nNew, vv[k], k, n))
  }

  ghost predicate RowLoaded(e: Env, m: map<nat, AddrInfo>, ids: seq<nat>, nNew: nat, row: seq<nat>, k: nat, n: nat)
    requires n <= |ids| && forall i :: 0 <= i < |ids| ==> ids[i] in m
  {
    forall i: nat :: i in row <==> nNew <= i < n && m[ids[i]].GetTriedBucket(e) == k
  }

  // A bucket being read back has room for every id it held.
  lemma RoomForTried(e: Env, m: map<nat, AddrInfo>, was: seq<seq<nat>>, ids: seq<nat>, nNew: nat, vv: seq<seq<nat>>,
                     n: nat)
    requires TriedSound(e, m, was) && TriedLoaded(e, m, ids, nNew, vv, n) && Distinct(ids)
    requires nNew <= n < |ids| && forall i :: nNew <= i < |ids| ==> m[ids[i]].fInTried
    ensures |vv[m[ids[n]].GetTriedBucket(e)]| < TRIED_BUCKET_SIZE
  {
    var k := m[ids[n]].GetTriedBucket(e);
    var row := vv[k];
    DistinctSize(row);
    ElemsSize(was[k]);
    forall i: nat | i in Elems(row)
      ensures nNew <= i < n && m[ids[i]].GetTriedBucket(e) == k
    {
      assert i in vv[k] && RowLoaded(e, m, ids, nNew, vv[k], k, n);
    }
    IdImage(ids, Elems(row));
    var c := IdsOf(ids, Elems(row));
    assert ids[n] !in c;
    forall x | x in c + {ids[n]}
      ensures x in Elems(was[k])
    {
      assert m[x].fInTried && m[x].GetTriedBucket(e) == k;
    }
    SubsetSize(c + {ids[n]}, Elems(was[k]));
  }

  lemma TriedLoadStep(e: Env, m: map<nat, AddrInfo>, ids: seq<nat>, nNew: nat, vv: seq<seq<nat>>, n: nat)
    requires TriedLoaded(e, m, ids, nNew, vv, n) && nNew <= n < |ids|
    requires |vv[m[ids[n]].GetTriedBucket(e)]| < TRIED_BUCKET_SIZE
    ensures var k := m[ids[n]].GetTriedBucket(e);
            TriedLoaded(e, m, ids, nNew, vv[k := vv[k] + [n]], n + 1)
  {
    var k := m[ids[n]].GetTriedBucket(e);
    assert n !in vv[k];
  }

  // The first b "new" buckets have been read, and the first j ids of the next.
  ghost predicate NewLoaded(was: seq<set<nat>>, ids: seq<nat>, w: map<nat, AddrInfo>, b: nat, j: nat,
                            vv: seq<set<nat>>, x: map<nat, AddrInfo>) {
    && |vv| == |was| && b <= |was| && (b < |was| ==> j <= |Ordered(was[b])|) && (b == |was| ==> j == 0)
    && (forall c :: 0 <= c < b ==> BucketLoaded(Ordered(was[c]), ids, vv[c]))
    && (b < |was| ==> BucketLoaded(Ordered(was[b])[..j], ids, vv[b]))
    && (forall c :: b < c < |was| ==> vv[c] == {})
    && x.Keys == w.Keys && (forall i :: i in w ==> i < |ids|)
    && (forall i :: i in w ==> x[i] == w[i].(nRefCount := RefsRead(was, b, j, ids[i])))
  }

  ghost predicate BucketLoaded(o: seq<nat>, ids: seq<nat>, s: set<nat>) {
    && |s| <= |o| && (forall i :: i in s ==> i < |ids|)
    && forall i :: 0 <= i < |ids| ==> (i in s <==> ids[i] in o)
  }

  ghost function RefsRead(was: seq<set<nat>>, b: nat, j: nat, n: nat): nat
    requires b <= |was| && (b < |was| ==> j <= |Ordered(was[b])|)
  {
    Refs(was[..b], n) + (if b < |was| && n in Ordered(was[b])[..j] then 1 else 0)
  }

  lemma BucketStep(o: seq<nat>, j: nat, ids: seq<nat>, s: set<nat>, i: nat)
    requires j < |o| && Distinct(ids) && i < |ids| && ids[i] == o[j] && BucketLoaded(o[..j], ids, s)
    ensures BucketLoaded(o[..j + 1], ids, s + {i})
  {
    assert o[..j + 1] == o[..j] + [o[j]];
  }

  lemma RefsReadStep(was: seq<set<nat>>, b: nat, j: nat, n: nat)
    requires b < |was| && j < |Ordered(was[b])|
    ensures RefsRead(was, b, j + 1, n) == RefsRead(was, b, j, n) + (if n == Ordered(was[b])[j] then 1 else 0)
    ensures n == Ordered(was[b])[j] ==> RefsRead(was, b, j, n) < Refs(was, n)
  {
    var o := Ordered(was[b]);
    OrderedDistinct(was[b]);
    assert o[..j + 1] == o[..j] + [o[j]];
    hide Ordered, Refs;
    if n == o[j] {
      assert n in was[b] by {
        OrderedIs(was[b]);
        assert o[j] in o;
      }
      RefsTakeOne(was, b, n);
      RefsGrow(was, b + 1, n);
    }
  }

  // Reading one index of bucket b.
  lemma NewLoadStep(was: seq<set<nat>>, ids: seq<nat>, w: map<nat, AddrInfo>, b: nat, j: nat,
                    vv: seq<set<nat>>, x: map<nat, AddrInfo>, i: nat)
    requires NewLoaded(was, ids, w, b, j, vv, x) && b < |was| && j < |Ordered(was[b])| && Distinct(ids)
    requires i in w && i < |ids| && ids[i] == Ordered(was[b])[j]
    ensures i in x && x[i].nRefCount < Refs(was, ids[i])
    ensures NewLoaded(was, ids, w, b, j + 1, vv[b := vv[b] + {i}], x[i := Counted1(x[i])])
  {
    BucketStep(Ordered(was[b]), j, ids, vv[b], i);
    hide BucketLoaded;
    forall k | k in w
      ensures RefsRead(was, b, j + 1, ids[k]) == RefsRead(was, b, j, ids[k]) + (if k == i then 1 else 0)
    {
      RefsReadStep(was, b, j, ids[k]);
    }
    RefsReadStep(was, b, j, ids[i]);
    hide RefsRead, Ordered;
  }

  function Counted1(info: AddrInfo): AddrInfo { info.(nRefCount := info.nRefCount + 1) }

  // Bucket b is read to its end.
  lemma NewLoadNext(was: seq<set<nat>>, ids: seq<nat>, w: map<nat, AddrInfo>, b: nat, j: nat,
                    vv: seq<set<nat>>, x: map<nat, AddrInfo>)
    requires NewLoaded(was, ids, w, b, j, vv, x) && b < |was| && j == |Ordered(was[b])|
    ensures NewLoaded(was, ids, w, b + 1, 0, vv, x)
  {
    hide Ordered, RefsRead, BucketLoaded;
    var o := Ordered(was[b]);
    assert o[..j] == o;
    forall i | i in w
      ensures RefsRead(was, b + 1, 0, ids[i]) == RefsRead(was, b, j, ids[i])
    {
      RefsReadNext(was, b, j, ids[i]);
    }
    if b + 1 < |was| {
      assert Ordered(was[b + 1])[..0] == [];
      NothingLoaded(ids, vv[b + 1]);
    }
  }

  lemma RefsReadNext(was: seq<set<nat>>, b: nat, j: nat, n: nat)
    requires b < |was| && j == |Ordered(was[b])|
    ensures RefsRead(was, b + 1, 0, n) == RefsRead(was, b, j, n)
  {
    OrderedIs(was[b]);
    assert Ordered(was[b])[..j] == Ordered(was[b]);
    hide Ordered;
    RefsTakeOne(was, b, n);
  }

  lemma NothingLoaded(ids: seq<nat>, s: set<nat>)
    requires s == {}
    ensures BucketLoaded([], ids, s)
  {
  }

  lemma NewLoadStart(was: seq<set<nat>>, ids: seq<nat>, w: map<nat, AddrInfo>, vv: seq<set<nat>>)
    requires |vv| == |was| > 0 && (forall c :: 0 <= c < |vv| ==> vv[c] == {})
    requires forall i :: i in w ==> i < |ids| && w[i].nRefCount == 0
    ensures NewLoaded(was, ids, w, 0, 0, vv, w)
  {
    assert Ordered(was[0])[..0] == [];
    assert was[..0] == [];
  }

  // ---------------------------------------------------------------- where things are in the stream

  const HEADER_LENGTH: nat := 5

  ghost predicate HasRecords(s: seq<Token>, m: map<nat, AddrInfo>, ids: seq<nat>) {
    && |s| >= HEADER_LENGTH + |ids|
    && forall i :: 0 <= i < |ids| ==> ids[i] in m && s[HEADER_LENGTH + i] == Record(ToDisk(m[ids[i]]))
  }

  ghost predicate HasBuckets(s: seq<Token>, at: nat, news: set<nat>, was: seq<set<nat>>) {
    at <= |s| && s[at..] == Buckets(news, was)
  }

  lemma StreamLayout(e: Env, t: Tables)
    ensures var s, ids := Stream(e, t), WriteOrder(t.mapInfo);
            && |s| >= HEADER_LENGTH && s[..HEADER_LENGTH] == Header(e, t)
            && HasRecords(s, t.mapInfo, ids) && HasBuckets(s, HEADER_LENGTH + |ids|, NewIds(t.mapInfo), t.vvNew)
  {
    var ids := WriteOrder(t.mapInfo);
    WriteOrderIs(t.mapInfo);
    assert forall i :: 0 <= i < |ids| ==> ids[i] in ids;
    hide WriteOrder, Buckets;
    LayoutOf(Header(e, t), t.mapInfo, ids, Buckets(NewIds(t.mapInfo), t.vvNew));
  }

  lemma LayoutOf(h: seq<Token>, m: map<nat, AddrInfo>, ids: seq<nat>, tail: seq<Token>)
    requires |h| == HEADER_LENGTH && forall i :: 0 <= i < |ids| ==> ids[i] in m
    ensures var s := h + Records(m, ids) + tail;
            s[..HEADER_LENGTH] == h && HasRecords(s, m, ids) && s[HEADER_LENGTH + |ids|..] == tail
  {
  }

  lemma {:induction false} BucketsPrefix(news: set<nat>, vv: seq<set<nat>>, b: nat)
    requires b <= |vv|
    ensures Buckets(news, vv[..b]) <= Buckets(news, vv)
    decreases |vv|
  {
    if b == |vv| {
      assert vv[..b] == vv;
    } else {
      BucketsPrefix(news, vv[..|vv| - 1], b);
      assert vv[..|vv| - 1][..b] == vv[..b];
    }
  }

  // Bucket b starts at `at`.
  ghost predicate BucketStart(s: seq<Token>, base: nat, news: set<nat>, was: seq<set<nat>>, b: nat, at: nat) {
    HasBuckets(s, base, news, was) && b <= |was| && at == base + |Buckets(news, was[..b])|
  }

  ghost predicate HasBucket(s: seq<Token>, at: nat, news: set<nat>, o: seq<nat>) {
    at + |o| < |s| && s[at] == Count(|o|) && s[at + 1..][..|o|] == Indices(news, o)
  }

  lemma BucketAt(s: seq<Token>, base: nat, news: set<nat>, was: seq<set<nat>>, b: nat, at: nat)
    requires BucketStart(s, base, news, was, b, at) && b < |was|
    ensures HasBucket(s, at, news, Ordered(was[b]))
    ensures BucketStart(s, base, news, was, b + 1, at + 1 + |Ordered(was[b])|)
  {
    var o := Ordered(was[b]);
    OrderedIs(was[b]);
    BucketsPrefix(news, was, b + 1);
    assert was[..b + 1][..b] == was[..b];
    hide Ordered, Rank;
    var p := Buckets(news, was[..b]);
    var q := Indices(news, o);
    assert Buckets(news, was[..b + 1]) == p + [Count(|o|)] + q;
    hide Buckets, Indices;
    PieceOf(s, base, p, Count(|o|), q);
  }

  lemma PieceOf(s: seq<Token>, base: nat, p: seq<Token>, c: Token, q: seq<Token>)
    requires base <= |s| && p + [c] + q <= s[base..]
    ensures base + |p| + |q| < |s| && s[base + |p|] == c && s[base + |p| + 1..][..|q|] == q
  {
    var z := p + [c] + q;
    assert s[base..][..|z|] == z;
    assert s[base + |p|] == z[|p|];
    assert s[base + |p| + 1..][..|q|] == z[|p| + 1..];
  }

  lemma IndexAt(s: seq<Token>, at: nat, news: set<nat>, o: seq<nat>, j: nat)
    requires HasBucket(s, at, news, o) && j < |o|
    ensures at + 1 + j < |s| && s[at + 1 + j] == Count(Rank(news, o[j]))
  {
    assert s[at + 1 + j] == s[at + 1..][..|o|][j];
  }

  // An index in the stream is the position the id was written at.
  lemma IndexIs(m: map<nat, AddrInfo>, was: seq<set<nat>>, b: nat, j: nat)
    requires NewSound(m, was, -1) && b < |was| && j < |Ordered(was[b])|
    ensures var n := Ordered(was[b])[j];
            && n in NewIds(m) && Rank(NewIds(m), n) < |WriteOrder(m)| && WriteOrder(m)[Rank(NewIds(m), n)] == n
            && Refs(was, n) <= NEW_BUCKETS_PER_ADDRESS
  {
    var o := Ordered(was[b]);
    OrderedIs(was[b]);
    assert o[j] in o;
    hide Ordered;
    RankIs(NewIds(m), o[j]);
  }

  // ---------------------------------------------------------------- the whole of it

  // Everything has been read: w and a after the records, the rest after the
  // buckets.
  ghost predicate ReadBack(e: Env, t: Tables, ids: seq<nat>, w: map<nat, AddrInfo>, r: Tables) {
    && t.nNew >= 0 && Loaded(t.mapInfo, ids, t.nNew, w, r.mapAddr, r.vRandom, |ids|)
    && TriedLoaded(e, t.mapInfo, ids, t.nNew, r.vvTried, |ids|)
    && NewLoaded(t.vvNew, ids, w, |t.vvNew|, 0, r.vvNew, r.mapInfo)
    && r.nIdCount == |ids| && r.nTried == t.nTried && r.nNew == t.nNew
  }

  // Which ids have been written where.
  ghost predicate Sides(m: map<nat, AddrInfo>, ids: seq<nat>, nNew: int) {
    && Distinct(ids) && (forall n :: n in ids <==> n in m)
    && forall i :: 0 <= i < |ids| ==> ids[i] in m && (m[ids[i]].fInTried <==> i >= nNew)
  }

  lemma RefsAllRead(m: map<nat, AddrInfo>, was: seq<set<nat>>, n: nat)
    requires NewSound(m, was, -1) && n in m
    ensures RefsRead(was, |was|, 0, n) == m[n].nRefCount
  {
    assert was[..|was|] == was;
  }

  lemma ReadRecord(e: Env, t: Tables, ids: seq<nat>, w: map<nat, AddrInfo>, r: Tables, i: nat)
    requires NewSound(t.mapInfo, t.vvNew, -1) && ReadBack(e, t, ids, w, r) && Sides(t.mapInfo, ids, t.nNew)
    requires i < |ids|
    ensures i in w && i in r.mapInfo && Restored(t.mapInfo[ids[i]], r.mapInfo[i]) && r.mapInfo[i].nRandomPos == i
    ensures r.mapInfo[i].Net() == w[i].Net()
  {
    RefsAllRead(t.mapInfo, t.vvNew, ids[i]);
    hide NewSound, RefsRead, TriedLoaded, BucketLoaded, Addressed;
  }

  lemma ReadRecords(e: Env, t: Tables, ids: seq<nat>, w: map<nat, AddrInfo>, r: Tables)
    requires NewSound(t.mapInfo, t.vvNew, -1) && ReadBack(e, t, ids, w, r) && Sides(t.mapInfo, ids, t.nNew)
    ensures forall i: nat :: i in r.mapInfo <==> i < |ids|
    ensures forall i :: 0 <= i < |ids| ==> Restored(t.mapInfo[ids[i]], r.mapInfo[i]) && r.mapInfo[i].nRandomPos == i
    ensures Addressed(r.mapInfo, r.mapAddr, |ids|)
  {
    hide NewSound, ReadBack, Sides, Restored, Addressed;
    ReadKeys(e, t, ids, w, r);
    forall i | 0 <= i < |ids|
      ensures i in w && i in r.mapInfo && ids[i] in t.mapInfo && Restored(t.mapInfo[ids[i]], r.mapInfo[i])
              && r.mapInfo[i].nRandomPos == i && r.mapInfo[i].Net() == w[i].Net()
    {
      ReadRecord(e, t, ids, w, r, i);
      InSides(t.mapInfo, ids, t.nNew, i);
    }
    AddressedAs(w, r.mapInfo, r.mapAddr, |ids|);
  }

  lemma ReadKeys(e: Env, t: Tables, ids: seq<nat>, w: map<nat, AddrInfo>, r: Tables)
    requires ReadBack(e, t, ids, w, r)
    ensures w.Keys == r.mapInfo.Keys && Addressed(w, r.mapAddr, |ids|) && forall i: nat :: i in w <==> i < |ids|
  {
    hide TriedLoaded, Addressed, BucketLoaded, RefsRead;
  }

  lemma AddressedAs(w: map<nat, AddrInfo>, m: map<nat, AddrInfo>, a: map<NetAddr, nat>, n: nat)
    requires Addressed(w, a, n) && forall i :: 0 <= i < n ==> i in w && i in m && m[i].Net() == w[i].Net()
    ensures Addressed(m, a, n)
  {
  }

  lemma InSides(m: map<nat, AddrInfo>, ids: seq<nat>, nNew: int, i: nat)
    requires Sides(m, ids, nNew) && i < |ids|
    ensures ids[i] in m
  {
  }

  lemma ReadTriedBuckets(e: Env, t: Tables, ids: seq<nat>, r: Tables)
    requires TriedSound(e, t.mapInfo, t.vvTried)
    requires t.nNew >= 0 && TriedLoaded(e, t.mapInfo, ids, t.nNew, r.vvTried, |ids|)
    requires Sides(t.mapInfo, ids, t.nNew)
    ensures |r.vvTried| == |t.vvTried|
    ensures forall k, i :: 0 <= k < |t.vvTried| && 0 <= i < |ids| ==> (i in r.vvTried[k] <==> ids[i] in t.vvTried[k])
    ensures forall k, i :: 0 <= k < |r.vvTried| && 0 <= i < |r.vvTried[k]| ==> r.vvTried[k][i] < |ids|
  {
    forall k, i | 0 <= k < |t.vvTried| && 0 <= i < |ids|
      ensures i in r.vvTried[k] <==> ids[i] in t.vvTried[k]
    {
      assert RowLoaded(e, t.mapInfo, ids, t.nNew, r.vvTried[k], k, |ids|);
    }
    forall k, i | 0 <= k < |r.vvTried| && 0 <= i < |r.vvTried[k]|
      ensures r.vvTried[k][i] < |ids|
    {
      assert RowLoaded(e, t.mapInfo, ids, t.nNew, r.vvTried[k], k, |ids|);
      assert r.vvTried[k][i] in r.vvTried[k];
    }
  }

  lemma ReadNewBuckets(e: Env, t: Tables, ids: seq<nat>, w: map<nat, AddrInfo>, r: Tables)
    requires NewLoaded(t.vvNew, ids, w, |t.vvNew|, 0, r.vvNew, r.mapInfo)
    ensures |r.vvNew| == |t.vvNew|
    ensures forall b, i :: 0 <= b < |t.vvNew| && 0 <= i < |ids| ==> (i in r.vvNew[b] <==> ids[i] in t.vvNew[b])
    ensures forall b :: 0 <= b < |r.vvNew| ==> |r.vvNew[b]| <= |t.vvNew[b]| && forall i :: i in r.vvNew[b] ==> i < |ids|
  {
    forall b | 0 <= b < |t.vvNew|
      ensures |r.vvNew[b]| <= |t.vvNew[b]| && (forall i :: i in r.vvNew[b] ==> i < |ids|)
              && forall i :: 0 <= i < |ids| ==> (i in r.vvNew[b] <==> ids[i] in t.vvNew[b])
    {
      OrderedIs(t.vvNew[b]);
      assert BucketLoaded(Ordered(t.vvNew[b]), ids, r.vvNew[b]);
      hide Ordered;
    }
  }

  lemma InvSides(e: Env, t: Tables)
    requires Inv(e, t)
    ensures Sides(t.mapInfo, WriteOrder(t.mapInfo), t.nNew)
  {
    hide Indexed, NewSound, TriedSound;
    WriteOrderIs(t.mapInfo);
  }

  // What has been read is a renamed copy of what was written, and sound.
  lemma ReadIsRenamed(e: Env, t: Tables, w: map<nat, AddrInfo>, r: Tables)
    requires Inv(e, t) && ReadBack(e, t, WriteOrder(t.mapInfo), w, r)
    ensures Renamed(t, r, WriteOrder(t.mapInfo)) && Packed(t, r, |WriteOrder(t.mapInfo)|) && Inv(e, r)
  {
    hide Indexed, NewSound, TriedSound, WriteOrder, Renamed, Packed;
    InvSides(e, t);
    ReadParts(e, t, WriteOrder(t.mapInfo), w, r);
    RenamedIsSound(e, t, r, WriteOrder(t.mapInfo));
  }

  lemma ReadParts(e: Env, t: Tables, ids: seq<nat>, w: map<nat, AddrInfo>, r: Tables)
    requires NewSound(t.mapInfo, t.vvNew, -1) && TriedSound(e, t.mapInfo, t.vvTried) && ReadBack(e, t, ids, w, r)
    requires Sides(t.mapInfo, ids, t.nNew)
    ensures Renamed(t, r, ids) && Packed(t, r, |ids|)
  {
    hide NewSound, TriedSound, Addressed, TriedLoaded, NewLoaded, Loaded, Restored, Distinct;
    ReadRecords(e, t, ids, w, r);
    ReadTriedBuckets(e, t, ids, r);
    ReadNewBuckets(e, t, ids, w, r);
    ReadPacked(e, t, ids, w, r);
  }

  lemma ReadPacked(e: Env, t: Tables, ids: seq<nat>, w: map<nat, AddrInfo>, r: Tables)
    requires ReadBack(e, t, ids, w, r)
    ensures |r.vRandom| == |ids| && forall i :: 0 <= i < |ids| ==> r.vRandom[i] == i
    ensures forall k :: 0 <= k < |r.vvTried| ==> |r.vvTried[k]| <= TRIED_BUCKET_SIZE && Distinct(r.vvTried[k])
  {
  }
}
