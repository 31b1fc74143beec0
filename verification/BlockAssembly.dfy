// CreateNewBlock's collection of transactions: a priority queue fed by a graph
// of waiting transactions whose dependency sets are struck off in place.
module BlockAssembly {
  import opened Ascending
  import opened BlockPlan
  import opened BlockRounds
  import opened Options

  // A transaction waiting for others of the pool.
  class Orphan {
    const tx: Hash
    var setDependsOn: set<Hash>
    var dPriority: real
    var dFeePerKb: real
    var nFee: int

    constructor (tx: Hash)
      ensures this.tx == tx && setDependsOn == {} && dPriority == 0.0 && dFeePerKb == 0.0 && nFee == 0
    {
      this.tx := tx;
      setDependsOn, dPriority, dFeePerKb, nFee := {}, 0.0, 0.0, 0;
    }
  }

  // The front of the heap: an entry none of the others comes before.
  method Best(vec: seq<TxPriority>, byFee: bool) returns (k: nat)
    requires vec != []
    ensures k < |vec| && IsBest(vec, byFee, k)
  {
    k := 0;
    var i := 1;
    while i < |vec|
      invariant k < i <= |vec| && forall j :: 0 <= j < i ==> !Less(byFee, vec[k], vec[j])
    {
      if Less(byFee, vec[k], vec[i]) {
        k := i;
      }
      i := i + 1;
    }
  }

  // ---------------------------------------------------------------- what waits is worth

  // What a waiting transaction is queued with once nothing holds it back.
  ghost predicate OrphanRated(a: Assembly, o: Orphan)
    reads o
  {
    && Known(a.pool, o.tx) && o.nFee == 0 && a.pool.Parents(a.pool.mapTx[o.tx]) != {}
    && o.dPriority == PriorityOf(a, o.tx) && o.dFeePerKb == FeeRateOf(a, o.tx)
  }

  ghost predicate AllRated(a: Assembly, orphans: map<Hash, Orphan>)
    reads orphans.Values
  {
    forall h :: h in orphans ==> OrphanRated(a, orphans[h])
  }

  lemma RatedIsQuoted(a: Assembly, o: Orphan)
    requires OrphanRated(a, o)
    ensures Quoted(a, TxPriority(o.dPriority, o.dFeePerKb, o.nFee, o.tx))
  {
  }

  lemma QuotedMore(a: Assembly, vec: seq<TxPriority>, t: TxPriority)
    requires AllQuoted(a, vec) && Quoted(a, t)
    ensures AllQuoted(a, vec + [t]) && Txs(vec + [t]) == Txs(vec) + [t.tx]
  {
  }

  // ---------------------------------------------------------------- the graph of waiting transactions

  ghost function DepsOf(orphans: map<Hash, Orphan>): map<Hash, set<Hash>>
    reads orphans.Values
  {
    map h | h in orphans :: orphans[h].setDependsOn
  }

  // Each orphan is filed under its own hash, and mapDependers lists orphans
  // only, every one under each of the hashes it waits for.
  ghost predicate Linked(orphans: map<Hash, Orphan>, mapDependers: map<Hash, seq<Orphan>>) {
    && (forall h :: h in orphans ==> orphans[h].tx == h)
    && (forall q, i :: q in mapDependers && 0 <= i < |mapDependers[q]| ==> Filed(orphans, mapDependers[q][i]))
  }

  ghost predicate Filed(orphans: map<Hash, Orphan>, o: Orphan) {
    o.tx in orphans && orphans[o.tx] == o
  }

  ghost predicate Listed(orphans: map<Hash, Orphan>, mapDependers: map<Hash, seq<Orphan>>, deps: map<Hash, set<Hash>>) {
    deps.Keys == orphans.Keys
    && forall h, q :: h in orphans && q in deps[h] ==> q in mapDependers && orphans[h] in mapDependers[q]
  }

  // Strikes hash off the sets of its dependers and queues those left with none.
  method Release(ghost a: Assembly, hash: Hash, mapDependers: map<Hash, seq<Orphan>>, vec: seq<TxPriority>,
                 ghost orphans: map<Hash, Orphan>)
    returns (r: seq<TxPriority>, ghost freed: seq<TxPriority>)
    requires Linked(orphans, mapDependers) && Listed(orphans, mapDependers, DepsOf(orphans)) && AllRated(a, orphans)
    modifies orphans.Values
    ensures r == vec + freed && AllQuoted(a, freed) && AllRated(a, orphans)
    ensures DepsOf(orphans) == Struck(old(DepsOf(orphans)), hash)
    ensures Listed(orphans, mapDependers, DepsOf(orphans))
    ensures Distinct(Txs(freed)) && forall x :: x in Txs(freed) <==> x in Freed(old(DepsOf(orphans)), hash)
  {
    hide Distinct, Listed, Linked, Txs, AllQuoted, OrphanRated, Covered, FreedFor, AllFiled;
    ghost var was, done := DepsOf(orphans), {};
    ListedStruck(orphans, mapDependers, was, hash);
    NoneFreed(a, was, hash);
    r, freed := vec, [];
    if hash in mapDependers {
      ListIsFiled(orphans, mapDependers, hash);
      r, freed, done := StrikeAll(a, hash, mapDependers[hash], vec, orphans);
    } else {
      assert forall h :: h in orphans ==> was[h] - Met(done, h, hash) == was[h];
    }
    AllStruck(orphans, mapDependers, was, hash, done);
    FreedAll(a, freed, was, done, hash);
  }

  // The loop over the dependers of hash; done are the ones met.
  method StrikeAll(ghost a: Assembly, hash: Hash, list: seq<Orphan>, vec: seq<TxPriority>,
                   ghost orphans: map<Hash, Orphan>)
    returns (r: seq<TxPriority>, ghost freed: seq<TxPriority>, ghost done: set<Hash>)
    requires AllRated(a, orphans) && AllFiled(orphans, list)
    modifies orphans.Values
    ensures r == vec + freed && AllRated(a, orphans) && Covered(list, |list|, done)
    ensures FreedFor(a, freed, old(DepsOf(orphans)), done, hash)
    ensures forall h :: h in orphans ==>
              orphans[h].setDependsOn == old(orphans[h].setDependsOn) - Met(done, h, hash)
  {
    hide Quoted, OrphanRated, Covered, FreedFor, AllFiled;
    ghost var was := DepsOf(orphans);
    r, freed, done := vec, [], {};
    NoneFreed(a, was, hash);
    NoneCovered(list);
    assert forall h :: h in orphans ==> was[h] - Met(done, h, hash) == was[h];
    var i := 0;
    while i < |list|
      invariant i <= |list| && Covered(list, i, done)
      invariant forall h :: h in orphans ==> orphans[h].setDependsOn == was[h] - Met(done, h, hash)
      invariant r == vec + freed && AllRated(a, orphans) && FreedFor(a, freed, was, done, hash)
    {
      var porphan := list[i];
      FiledAt(orphans, list, i);
      ghost var ready;
      r, ready := Strike(a, hash, porphan, r);
      ghost var t := TxPriority(porphan.dPriority, porphan.dFeePerKb, porphan.nFee, porphan.tx);
      FreedNext(a, freed, was, done, hash, t, ready);
      freed := if ready then freed + [t] else freed;
      CoveredNext(list, i, done);
      done := done + {porphan.tx};
      i := i + 1;
    }
  }

  ghost function Met(done: set<Hash>, h: Hash, hash: Hash): set<Hash> { if h in done then {hash} else {} }

  ghost predicate AllFiled(orphans: map<Hash, Orphan>, list: seq<Orphan>) {
    && (forall h :: h in orphans ==> orphans[h].tx == h)
    && (forall i :: 0 <= i < |list| ==> Filed(orphans, list[i]))
  }

  lemma ListIsFiled(orphans: map<Hash, Orphan>, mapDependers: map<Hash, seq<Orphan>>, q: Hash)
    requires Linked(orphans, mapDependers) && q in mapDependers
    ensures AllFiled(orphans, mapDependers[q])
  {
  }

  // Those of done that waited for hash alone, once each, as they are queued.
  ghost predicate FreedFor(a: Assembly, freed: seq<TxPriority>, was: map<Hash, set<Hash>>, done: set<Hash>,
                           hash: Hash) {
    && AllQuoted(a, freed) && Distinct(Txs(freed))
    && forall x :: x in Txs(freed) <==> x in was && x in done && was[x] == {hash}
  }

  lemma FreedNext(a: Assembly, freed: seq<TxPriority>, was: map<Hash, set<Hash>>, done: set<Hash>, hash: Hash,
                  t: TxPriority, ready: bool)
    requires FreedFor(a, freed, was, done, hash) && t.tx in was && Quoted(a, t)
    requires ready <==> t.tx !in done && was[t.tx] == {hash}
    ensures FreedFor(a, if ready then freed + [t] else freed, was, done + {t.tx}, hash)
  {
    hide Quoted, AllQuoted, Distinct;
    if ready {
      QuotedMore(a, freed, t);
      DistinctOne(Txs(freed), t.tx);
    }
  }

  lemma FreedAll(a: Assembly, freed: seq<TxPriority>, was: map<Hash, set<Hash>>, done: set<Hash>, hash: Hash)
    requires FreedFor(a, freed, was, done, hash) && forall h :: h in was && was[h] == {hash} ==> h in done
    ensures AllQuoted(a, freed) && Distinct(Txs(freed)) && forall x :: x in Txs(freed) <==> x in Freed(was, hash)
  {
    hide AllQuoted, Distinct;
  }

  // Everyone who waited for hash is in its list, so all have had it struck off.
  lemma AllStruck(orphans: map<Hash, Orphan>, mapDependers: map<Hash, seq<Orphan>>, was: map<Hash, set<Hash>>,
                  hash: Hash, done: set<Hash>)
    requires Linked(orphans, mapDependers) && Listed(orphans, mapDependers, was)
    requires hash in mapDependers ==> Covered(mapDependers[hash], |mapDependers[hash]|, done)
    requires forall h :: h in orphans ==> orphans[h].setDependsOn == was[h] - Met(done, h, hash)
    ensures DepsOf(orphans) == Struck(was, hash) && forall h :: h in was && was[h] == {hash} ==> h in done
  {
    assert was.Keys == orphans.Keys;
    hide Linked, Listed, Covered;
    forall h | h in orphans
      ensures orphans[h].setDependsOn == was[h] - {hash} && (was[h] == {hash} ==> h in done)
    {
      Awaited(orphans, mapDependers, was, hash, h);
      if hash in mapDependers {
        CoveredAll(mapDependers[hash], done, h);
      }
    }
  }

  lemma NoneFreed(a: Assembly, was: map<Hash, set<Hash>>, hash: Hash)
    ensures FreedFor(a, [], was, {}, hash)
  {
  }

  // The transactions of the first i are in done.
  ghost predicate Covered(list: seq<Orphan>, i: nat, done: set<Hash>)
    requires i <= |list|
  {
    forall j :: 0 <= j < i ==> list[j].tx in done
  }

  lemma NoneCovered(list: seq<Orphan>)
    ensures Covered(list, 0, {})
  {
  }

  lemma CoveredNext(list: seq<Orphan>, i: nat, done: set<Hash>)
    requires i < |list| && Covered(list, i, done)
    ensures Covered(list, i + 1, done + {list[i].tx})
  {
  }

  lemma CoveredAll(list: seq<Orphan>, done: set<Hash>, h: Hash)
    requires Covered(list, |list|, done)
    ensures (exists j :: 0 <= j < |list| && list[j].tx == h) ==> h in done
  {
  }

  // One dependant: queued once it waits for nothing more.
  method Strike(ghost a: Assembly, hash: Hash, porphan: Orphan, vec: seq<TxPriority>)
    returns (r: seq<TxPriority>, ghost ready: bool)
    requires OrphanRated(a, porphan)
    modifies porphan`setDependsOn
    ensures porphan.setDependsOn == old(porphan.setDependsOn) - {hash} && OrphanRated(a, porphan)
    ensures ready <==> old(porphan.setDependsOn) == {hash}
    ensures var t := TxPriority(porphan.dPriority, porphan.dFeePerKb, porphan.nFee, porphan.tx);
            Quoted(a, t) && r == if ready then vec + [t] else vec
  {
    RatedIsQuoted(a, porphan);
    hide Quoted, OrphanRated;
    r, ready := vec, false;
    if porphan.setDependsOn != {} {
      ready := porphan.setDependsOn == {hash};
      porphan.setDependsOn := porphan.setDependsOn - {hash};
      if porphan.setDependsOn == {} {
        r := r + [TxPriority(porphan.dPriority, porphan.dFeePerKb, porphan.nFee, porphan.tx)];
      }
    }
  }

  lemma FiledAt(orphans: map<Hash, Orphan>, list: seq<Orphan>, i: nat)
    requires AllFiled(orphans, list) && i < |list|
    ensures list[i].tx in orphans && orphans[list[i].tx] == list[i]
    ensures forall h :: h in orphans && orphans[h] == list[i] ==> h == list[i].tx
  {
    assert Filed(orphans, list[i]);
  }

  // Whoever waits for hash is in its list.
  lemma Awaited(orphans: map<Hash, Orphan>, mapDependers: map<Hash, seq<Orphan>>, deps: map<Hash, set<Hash>>,
                hash: Hash, h: Hash)
    requires Linked(orphans, mapDependers) && Listed(orphans, mapDependers, deps) && h in orphans
    ensures h in deps && (hash in deps[h] ==>
              hash in mapDependers && exists j :: 0 <= j < |mapDependers[hash]| && mapDependers[hash][j].tx == h)
    ensures hash !in deps[h] ==> deps[h] - {hash} == deps[h] && deps[h] != {hash}
  {
  }

  lemma ListedStruck(orphans: map<Hash, Orphan>, mapDependers: map<Hash, seq<Orphan>>, deps: map<Hash, set<Hash>>,
                     hash: Hash)
    requires Listed(orphans, mapDependers, deps)
    ensures Listed(orphans, mapDependers, Struck(deps, hash))
  {
  }

  // ---------------------------------------------------------------- taking stock of the pool

  // What the scan of one transaction's inputs adds to mapDependers.
  ghost predicate Extended(was: map<Hash, seq<Orphan>>, now: map<Hash, seq<Orphan>>, o: Orphan?, parents: set<Hash>) {
    && was.Keys <= now.Keys
    && (forall q, i :: q in now && 0 <= i < |now[q]| ==> now[q][i] == o || (q in was && now[q][i] in was[q]))
    && (forall q, i :: q in was && 0 <= i < |was[q]| ==> was[q][i] in now[q])
    && (forall q :: q in parents ==> q in now && o != null && o in now[q])
    && (o == null ==> now == was)
  }

  ghost function ParentsUpTo(p: Pool, tx: Tx, n: nat): set<Hash>
    requires n <= |tx.vin|
  {
    set i | 0 <= i < n && p.Waits(tx, i) :: tx.vin[i].prevout.hash
  }

  lemma ParentsStep(p: Pool, tx: Tx, n: nat)
    requires n < |tx.vin|
    ensures ParentsUpTo(p, tx, n + 1)
         == if p.Waits(tx, n) then ParentsUpTo(p, tx, n) + {tx.vin[n].prevout.hash} else ParentsUpTo(p, tx, n)
    ensures ParentsUpTo(p, tx, |tx.vin|) == p.Parents(tx) && ParentsUpTo(p, tx, 0) == {}
  {
  }

  // The loop over the inputs of one transaction.
  method ScanInputs(p: Pool, h: Hash, mapDependers: map<Hash, seq<Orphan>>)
    returns (porphan: Orphan?, md: map<Hash, seq<Orphan>>, fMissing: bool, nTotalIn: int, dPriority: real)
    requires p.Sane() && h in p.mapTx
    ensures fMissing <==> !p.Resolved(p.mapTx[h])
    ensures porphan != null ==> fresh(porphan) && porphan.tx == h && porphan.nFee == 0
    ensures porphan != null ==> porphan.dPriority == porphan.dFeePerKb == 0.0
    ensures fMissing ==> md == mapDependers
    ensures !fMissing ==> (porphan == null <==> p.Parents(p.mapTx[h]) == {})
    ensures !fMissing && porphan != null ==> porphan.setDependsOn == p.Parents(p.mapTx[h])
    ensures !fMissing ==> Extended(mapDependers, md, porphan, p.Parents(p.mapTx[h]))
    ensures !fMissing ==> nTotalIn == ValueIn(p, p.mapTx[h], |p.mapTx[h].vin|)
    ensures !fMissing ==> dPriority == AgedIn(p, p.mapTx[h], |p.mapTx[h].vin|)
  {
    hide Extended, p.Sane, ParentsUpTo;
    var tx := p.mapTx[h];
    assert p.SaneTx(tx) by { SaneAt(p, h); }
    ExtendedNone(mapDependers);
    porphan, md, fMissing, nTotalIn, dPriority := null, mapDependers, false, 0, 0.0;
    ParentsNone(p, tx);
    var i := 0;
    while i < |tx.vin|
      invariant i <= |tx.vin| && forall j :: 0 <= j < i ==> !p.Missing(tx, j)
      invariant porphan != null ==> fresh(porphan) && porphan.tx == h && porphan.nFee == 0
      invariant porphan != null ==> porphan.dPriority == porphan.dFeePerKb == 0.0
      invariant porphan == null <==> ParentsUpTo(p, tx, i) == {}
      invariant porphan != null ==> porphan.setDependsOn == ParentsUpTo(p, tx, i)
      invariant Extended(mapDependers, md, porphan, ParentsUpTo(p, tx, i))
      invariant nTotalIn == ValueIn(p, tx, i) && dPriority == AgedIn(p, tx, i)
    {
      ParentsStep(p, tx, i);
      var txin := tx.vin[i];
      if tx.anonVersion && txin.anon {
      } else if txin.prevout !in p.disk {
        if txin.prevout.hash !in p.mapTx {
          NoneBefore(p, tx, i);
          ExtendedNothing(mapDependers, md, {});
          return null, md, true, nTotalIn, dPriority;
        }
        ghost var before := porphan;
        if porphan == null {
          porphan := new Orphan(h);
        }
        var q := txin.prevout.hash;
        var o: Orphan := porphan;
        var list := if q in md then md[q] else [];
        ExtendStep(mapDependers, md, before, ParentsUpTo(p, tx, i), q, o);
        md := md[q := list + [o]];
        porphan.setDependsOn := porphan.setDependsOn + {q};
        nTotalIn := nTotalIn + p.mapTx[q].vout[txin.prevout.n];
      } else {
        var coin := p.disk[txin.prevout];
        nTotalIn := nTotalIn + coin.value;
        dPriority := dPriority + coin.value as real * coin.depth as real;
      }
      i := i + 1;
    }
    ParentsAll(p, tx);
  }

  lemma SaneAt(p: Pool, h: Hash)
    requires p.Sane() && h in p.mapTx
    ensures p.SaneTx(p.mapTx[h])
  {
  }

  lemma ExtendedNone(was: map<Hash, seq<Orphan>>)
    ensures Extended(was, was, null, {})
  {
  }

  lemma ExtendStep(was: map<Hash, seq<Orphan>>, now: map<Hash, seq<Orphan>>, p: Orphan?, parents: set<Hash>, q: Hash,
                   o: Orphan)
    requires Extended(was, now, p, parents) && (p == o || (p == null && parents == {}))
    ensures Extended(was, now[q := (if q in now then now[q] else []) + [o]], o, parents + {q})
  {
  }

  lemma NoneBefore(p: Pool, tx: Tx, n: nat)
    requires p.SaneTx(tx) && n < |tx.vin| && p.Missing(tx, n)
    ensures ParentsUpTo(p, tx, n) == {} && !p.Resolved(tx)
  {
  }

  lemma ParentsNone(p: Pool, tx: Tx)
    ensures ParentsUpTo(p, tx, 0) == {}
  {
  }

  lemma ParentsAll(p: Pool, tx: Tx)
    ensures ParentsUpTo(p, tx, |tx.vin|) == p.Parents(tx)
  {
  }

  lemma StockQueue(a: Assembly, q: seq<Hash>, deps: map<Hash, set<Hash>>, done: set<Hash>, h: Hash)
    requires Stocked(a, q, deps, done) && h !in done && Known(a.pool, h) && a.pool.mapTx[h].selectable
    requires a.pool.Resolved(a.pool.mapTx[h]) && a.pool.Parents(a.pool.mapTx[h]) == {} && !Unrated(a, h)
    ensures Stocked(a, q + [h], deps, done + {h})
  {
    assert Ready(a, h);
    DistinctOne(q, h);
    hide Distinct, Eligible;
  }

  lemma StockOrphan(a: Assembly, q: seq<Hash>, deps: map<Hash, set<Hash>>, done: set<Hash>, h: Hash)
    requires Stocked(a, q, deps, done) && h in a.pool.mapTx && h !in done && a.pool.mapTx[h].selectable
    requires a.pool.Resolved(a.pool.mapTx[h]) && a.pool.Parents(a.pool.mapTx[h]) != {}
    ensures Stocked(a, q, deps[h := a.pool.Parents(a.pool.mapTx[h])], done + {h})
  {
    assert Waits(a, h);
    hide Distinct, Eligible;
  }

  lemma StockSkip(a: Assembly, q: seq<Hash>, deps: map<Hash, set<Hash>>, done: set<Hash>, h: Hash)
    requires Stocked(a, q, deps, done) && Known(a.pool, h) && h !in done
    requires var tx := a.pool.mapTx[h];
             !tx.selectable || !a.pool.Resolved(tx) || (a.pool.Parents(tx) == {} && Unrated(a, h))
    ensures Stocked(a, q, deps, done + {h})
  {
    assert !Eligible(a, h);
    hide Distinct, Eligible;
  }

  lemma LinkedExtends(orphans: map<Hash, Orphan>, md: map<Hash, seq<Orphan>>, next: map<Hash, seq<Orphan>>, h: Hash,
                      o: Orphan, parents: set<Hash>)
    requires Linked(orphans, md) && Extended(md, next, o, parents) && h !in orphans && o.tx == h
    ensures Linked(orphans[h := o], next)
  {
    forall q, i | q in next && 0 <= i < |next[q]|
      ensures Filed(orphans[h := o], next[q][i])
    {
      if next[q][i] != o {
        var j :| 0 <= j < |md[q]| && md[q][j] == next[q][i];
        assert Filed(orphans, md[q][j]);
      }
    }
  }

  lemma ListedExtends(orphans: map<Hash, Orphan>, md: map<Hash, seq<Orphan>>, next: map<Hash, seq<Orphan>>, h: Hash,
                      o: Orphan, deps: map<Hash, set<Hash>>, parents: set<Hash>)
    requires Listed(orphans, md, deps) && Extended(md, next, o, parents) && h !in orphans
    ensures Listed(orphans[h := o], next, deps[h := parents])
  {
    forall x | x in orphans
      ensures forall q :: q in deps[x] ==> q in next && orphans[x] in next[q]
    {
      forall q | q in deps[x]
        ensures q in next && orphans[x] in next[q]
      {
        var j :| 0 <= j < |md[q]| && md[q][j] == orphans[x];
        assert md[q][j] in next[q];
      }
    }
  }

  // The first half: sort the pool into the queue and the waiting orphans.
  method TakeStock(a: Assembly)
    returns (vec: seq<TxPriority>, md: map<Hash, seq<Orphan>>, ghost orphans: map<Hash, Orphan>)
    requires a.pool.Sane()
    ensures fresh(orphans.Values) && Linked(orphans, md) && Listed(orphans, md, DepsOf(orphans))
    ensures Stocked(a, Txs(vec), DepsOf(orphans), a.pool.mapTx.Keys) && AllQuoted(a, vec) && AllRated(a, orphans)
  {
    hide Linked, Listed, Stocked, Extended, Distinct, Txs, OrphanRated, Quoted;
    vec, md, orphans := [], map[], map[];
    NothingStocked(a);
    assert DepsOf(orphans) == map[];
    var rest := a.pool.mapTx.Keys;
    assert a.pool.mapTx.Keys - rest == {};
    while rest != {}
      invariant rest <= a.pool.mapTx.Keys && orphans.Keys <= a.pool.mapTx.Keys - rest
      invariant forall x :: x in orphans ==> fresh(orphans[x])
      invariant Linked(orphans, md) && Listed(orphans, md, DepsOf(orphans))
      invariant Stocked(a, Txs(vec), DepsOf(orphans), a.pool.mapTx.Keys - rest) && AllQuoted(a, vec)
      invariant AllRated(a, orphans)
      decreases rest
    {
      var h :| h in rest;
      vec, md, orphans := StockOne(a, h, vec, md, orphans, a.pool.mapTx.Keys - rest);
      assert a.pool.mapTx.Keys - (rest - {h}) == (a.pool.mapTx.Keys - rest) + {h};
      rest := rest - {h};
    }
    assert a.pool.mapTx.Keys - rest == a.pool.mapTx.Keys;
  }

  method StockOne(a: Assembly, h: Hash, vec0: seq<TxPriority>, md0: map<Hash, seq<Orphan>>,
                  ghost orphans0: map<Hash, Orphan>, ghost done: set<Hash>)
    returns (vec: seq<TxPriority>, md: map<Hash, seq<Orphan>>, ghost orphans: map<Hash, Orphan>)
    requires a.pool.Sane() && h in a.pool.mapTx && h !in done && orphans0.Keys <= done
    requires Linked(orphans0, md0) && Listed(orphans0, md0, DepsOf(orphans0))
    requires Stocked(a, Txs(vec0), DepsOf(orphans0), done)
    requires AllQuoted(a, vec0) && AllRated(a, orphans0)
    ensures AllQuoted(a, vec) && AllRated(a, orphans) && orphans.Keys <= orphans0.Keys + {h}
    ensures forall x :: x in orphans ==> (x in orphans0 && orphans[x] == orphans0[x]) || fresh(orphans[x])
    ensures Linked(orphans, md) && Listed(orphans, md, DepsOf(orphans))
    ensures Stocked(a, Txs(vec), DepsOf(orphans), done + {h})
  {
    hide Linked, Listed, Stocked, Extended, Distinct, Txs, a.pool.Parents, a.pool.Resolved, a.pool.Sane, AllQuoted,
         Quoted, ValueIn, AgedIn, ValueOut, PriorityOf, FeeRateOf, StockFee, OrphanRated, Unrated, Eligible;
    vec, md, orphans := vec0, md0, orphans0;
    ghost var deps := DepsOf(orphans0);
    var tx := a.pool.mapTx[h];
    SizeIsPositive(a.pool, h);
    if !tx.selectable {
      StockSkip(a, Txs(vec), deps, done, h);
      return;
    }
    var porphan, fMissing, nTotalIn, dPriority;
    porphan, md, fMissing, nTotalIn, dPriority := ScanInputs(a.pool, h, md0);
    if fMissing {
      StockSkip(a, Txs(vec), deps, done, h);
      assert DepsOf(orphans) == deps;
      return;
    }
    if porphan != null {
      LinkedExtends(orphans0, md0, md, h, porphan, a.pool.Parents(tx));
      ListedExtends(orphans0, md0, md, h, porphan, deps, a.pool.Parents(tx));
      StockOrphan(a, Txs(vec), deps, done, h);
      orphans := orphans[h := porphan];
      assert DepsOf(orphans) == deps[h := a.pool.Parents(tx)];
    } else {
      assert md == md0 by { ExtendedNothing(md0, md, a.pool.Parents(tx)); }
    }
    var t := PriceOne(a, h, porphan, nTotalIn, dPriority);
    if porphan != null {
      assert DepsOf(orphans) == deps[h := a.pool.Parents(tx)];
    } else {
      assert DepsOf(orphans) == deps;
      if t.Some? {
        StockQueue(a, Txs(vec), deps, done, h);
        QuotedMore(a, vec, t.value);
        vec := vec + [t.value];
      } else {
        StockSkip(a, Txs(vec), deps, done, h);
      }
    }
  }

  // The rates of a transaction whose inputs have been scanned: kept in its orphan,
  // or in the queue entry of one that need not wait.
  method PriceOne(a: Assembly, h: Hash, porphan: Orphan?, nTotalIn0: int, dPriority0: real)
    returns (t: Option<TxPriority>)
    requires Known(a.pool, h) && nTotalIn0 == ValueIn(a.pool, a.pool.mapTx[h], |a.pool.mapTx[h].vin|)
    requires dPriority0 == AgedIn(a.pool, a.pool.mapTx[h], |a.pool.mapTx[h].vin|)
    requires porphan != null <==> a.pool.Parents(a.pool.mapTx[h]) != {}
    requires porphan != null ==> porphan.tx == h && porphan.nFee == 0 && porphan.dPriority == porphan.dFeePerKb == 0.0
    modifies if porphan == null then {} else {porphan}
    ensures porphan != null ==> t.None? && OrphanRated(a, porphan) && porphan.setDependsOn == old(porphan.setDependsOn)
    ensures porphan == null ==> (t.Some? <==> !Unrated(a, h)) && (t.Some? ==> Quoted(a, t.value) && t.value.tx == h)
  {
    hide ValueIn, AgedIn, ValueOut, PriorityOf, FeeRateOf, StockFee, a.pool.Parents;
    var tx, nTotalIn, dPriority := a.pool.mapTx[h], nTotalIn0, dPriority0;
    t := None;
    if tx.anonVersion {
      if !a.ask(h).stockAnonOk {
        UnratedIsZero(a, h);
        return;
      }
      nTotalIn := nTotalIn + a.ask(h).nStockAnon;
    }
    RatesAre(a, h, nTotalIn, dPriority);
    dPriority := dPriority / (tx.nSize as real);
    var nFee := nTotalIn - ValueOut(tx.vout);
    var dFeePerKb := nFee as real / (tx.nSize as real / 1000.0);
    if porphan != null {
      porphan.dPriority := dPriority;
      porphan.dFeePerKb := dFeePerKb;
    } else {
      t := Some(TxPriority(dPriority, dFeePerKb, nFee, h));
    }
  }

  lemma UnratedIsZero(a: Assembly, h: Hash)
    requires Known(a.pool, h) && Unrated(a, h)
    ensures PriorityOf(a, h) == 0.0 == FeeRateOf(a, h)
  {
  }

  lemma RatesAre(a: Assembly, h: Hash, nTotalIn: int, dPriority: real)
    requires Known(a.pool, h) && !Unrated(a, h)
    requires var tx := a.pool.mapTx[h];
             && dPriority == AgedIn(a.pool, tx, |tx.vin|)
             && nTotalIn == ValueIn(a.pool, tx, |tx.vin|) + if tx.anonVersion then a.ask(h).nStockAnon else 0
    ensures var tx := a.pool.mapTx[h];
            var nFee := nTotalIn - ValueOut(tx.vout);
            && dPriority / (tx.nSize as real) == PriorityOf(a, h)
            && nFee == StockFee(a, h) && nFee as real / (tx.nSize as real / 1000.0) == FeeRateOf(a, h)
  {
    hide ValueIn, AgedIn, ValueOut;
  }

  lemma NothingStocked(a: Assembly)
    ensures Stocked(a, Txs([]), map[], {}) && Linked(map[], map[]) && Listed(map[], map[], map[])
  {
  }

  lemma ExtendedNothing(was: map<Hash, seq<Orphan>>, now: map<Hash, seq<Orphan>>, parents: set<Hash>)
    requires Extended(was, now, null, parents)
    ensures now == was
  {
  }

  lemma SizeIsPositive(p: Pool, h: Hash)
    requires p.Sane() && h in p.mapTx
    ensures Known(p, h)
  {
  }

  // ---------------------------------------------------------------- filling the block

  // Everything one transaction has to pass once it is taken off the queue.
  method Consider(a: Assembly, t: TxPriority, byFee0: bool, nBlockSize: nat, nBlockSigOps: nat)
    returns (e: Option<Entry>, byFee: bool)
    requires Quoted(a, t)
    ensures e == if Barred(a, t.tx, byFee0, nBlockSize, nBlockSigOps) then None else Some(EntryFor(a, t.tx))
    ensures byFee == (byFee0 || TurnsToFees(a, t.tx, nBlockSize, nBlockSigOps))
  {
    var tx, l, answers := a.pool.mapTx[t.tx], a.limits, a.ask(t.tx);
    e, byFee := None, byFee0;
    var nTxSize := tx.nSize;
    if nBlockSize + nTxSize >= l.nBlockMaxSize {
      return;
    }
    var nTxSigOps := tx.nLegacySigOps;
    if nBlockSigOps + nTxSigOps >= MAX_BLOCK_SIGOPS {
      return;
    }
    if answers.late {
      return;
    }
    var nMinFee := answers.nMinFee;
    if byFee && t.dFeePerKb < l.nMinTxFee && nBlockSize + nTxSize >= l.nBlockMinSize {
      return;
    }
    if !byFee && (nBlockSize + nTxSize >= l.nBlockPrioritySize || t.dPriority < HIGH_PRIORITY) {
      byFee := true;
    }
    if !answers.fetched {
      return;
    }
    var nFee := t.nFee;
    if nFee == 0 {
      var nTxFees := answers.nValueIn - ValueOut(tx.vout);
      if tx.anonVersion {
        if !answers.anonOk {
          return;
        }
        nTxFees := nTxFees + answers.nSumAnon;
      }
      nFee := nTxFees;
    }
    if nFee < nMinFee {
      return;
    }
    nTxSigOps := nTxSigOps + answers.nP2SHSigOps;
    if nBlockSigOps + nTxSigOps >= MAX_BLOCK_SIGOPS {
      return;
    }
    if !answers.connected {
      return;
    }
    e := Some(Entry(t.tx, nTxSize, nTxSigOps, nFee));
  }

  // The second half: fill the block from the queue, releasing waiting
  // transactions. The log it leaves is a run of rounds to an empty queue.
  method Fill(a: Assembly, vec0: seq<TxPriority>, md: map<Hash, seq<Orphan>>, ghost orphans: map<Hash, Orphan>)
    returns (block: seq<Entry>, nBlockSize: nat, nBlockSigOps: nat, nFees: int, byFee: bool, ghost log: seq<Filling>)
    requires a.pool.Sane() && Linked(orphans, md) && Listed(orphans, md, DepsOf(orphans)) && AllRated(a, orphans)
    requires Stocked(a, Txs(vec0), DepsOf(orphans), a.pool.mapTx.Keys) && AllQuoted(a, vec0)
    modifies orphans.Values
    ensures log != [] && Run(a, log)
    ensures log[0].vec == vec0 && log[0].deps == old(DepsOf(orphans))
    ensures var s := log[|log| - 1]; s.vec == [] && s.block == block && s.byFee == byFee && s.deps == DepsOf(orphans)
    ensures nBlockSize == FIRST_SIZE + Sizes(block) && nBlockSigOps == FIRST_SIGOPS + SigOps(block)
    ensures nFees == Fees(block)
  {
    hide Linked, Listed, Distinct, Txs, AllQuoted, OrphanRated, Logged, Run, Round, IsBest, Stocked, Barred,
         TurnsToFees, Known, EntryFor, Sizes, SigOps, Fees, Done, Tracked;
    var vec := vec0;
    block, nBlockSize, nBlockSigOps, nFees := [], FIRST_SIZE, FIRST_SIGOPS, 0;
    byFee := a.limits.nBlockPrioritySize <= 0;
    ghost var s := Filling(vec, DepsOf(orphans), byFee, [], {});
    log := [s];
    ghost var first, all := s, Tracked(s.AsPlan());
    LoggedFirst(a, s);
    while vec != []
      invariant Linked(orphans, md) && Listed(orphans, md, DepsOf(orphans)) && AllRated(a, orphans)
      invariant Logged(a, log, first, s, all)
      invariant s == Filling(vec, DepsOf(orphans), byFee, block, s.refused)
      invariant nBlockSize == s.Size() && nBlockSigOps == s.Ops() && nFees == Fees(block)
      decreases all - Done(s)
    {
      LoggedQueue(a, log, first, s, all);
      var e;
      ghost var was, k, freed := s, 0, [];
      e, vec, byFee, k, freed, s := Turn(a, vec, byFee, nBlockSize, nBlockSigOps, md, orphans, s);
      if e.Some? {
        TotalsGrow(block, e.value);
        block := block + [e.value];
        nBlockSize, nBlockSigOps := nBlockSize + e.value.nSize, nBlockSigOps + e.value.nSigOps;
        nFees := nFees + e.value.nFee;
      }
      LoggedGrows(a, log, first, was, all, k, freed, s);
      log := log + [s];
    }
    LoggedIs(a, log, first, s, all);
  }

  // One round: take a best entry off the queue, consider it, and when it is taken
  // in, queue those that waited for it alone.
  method Turn(a: Assembly, vec0: seq<TxPriority>, byFee0: bool, nBlockSize: nat, nBlockSigOps: nat,
              md: map<Hash, seq<Orphan>>, ghost orphans: map<Hash, Orphan>, ghost s: Filling)
    returns (e: Option<Entry>, vec: seq<TxPriority>, byFee: bool,
             ghost k: nat, ghost freed: seq<TxPriority>, ghost t: Filling)
    requires Linked(orphans, md) && Listed(orphans, md, DepsOf(orphans)) && AllRated(a, orphans)
    requires vec0 != [] && AllQuoted(a, vec0) && nBlockSize == s.Size() && nBlockSigOps == s.Ops()
    requires s.vec == vec0 && s.deps == DepsOf(orphans) && s.byFee == byFee0
    modifies orphans.Values
    ensures Listed(orphans, md, DepsOf(orphans)) && AllRated(a, orphans) && Round(a, s, k, freed, t)
    ensures t == Filling(vec, DepsOf(orphans), byFee, s.block + if e.Some? then [e.value] else [], t.refused)
  {
    hide Linked, Listed, Distinct, Txs, AllQuoted, OrphanRated, Round, IsBest, Barred, TurnsToFees, Known,
         EntryFor, Sizes, SigOps;
    var i := Best(vec0, byFee0);
    k, freed := i, [];
    QuotedRest(a, vec0, k);
    e, byFee := Consider(a, vec0[i], byFee0, nBlockSize, nBlockSigOps);
    vec := vec0[..i] + vec0[i + 1..];
    if e.None? {
      t := Filling(vec, s.deps, byFee, s.block, s.refused + {vec0[i].tx});
      RefusedRound(a, s, k, t);
    } else {
      vec, freed := Release(a, vec0[i].tx, md, vec, orphans);
      t := Filling(vec, DepsOf(orphans), byFee, s.block + [e.value], s.refused);
      AddedRound(a, s, k, freed, t);
    }
  }

  // The rounds so far lead to s, and all of the transactions once tracked still are.
  ghost predicate Logged(a: Assembly, log: seq<Filling>, first: Filling, s: Filling, all: set<Hash>) {
    && log != [] && Run(a, log) && log[0] == first && log[|log| - 1] == s && Sound(a, s) && Tracked(s.AsPlan()) == all
  }

  lemma LoggedFirst(a: Assembly, s: Filling)
    requires a.pool.Sane() && Stocked(a, Txs(s.vec), s.deps, a.pool.mapTx.Keys) && AllQuoted(a, s.vec)
    requires s.byFee == (a.limits.nBlockPrioritySize <= 0) && s.block == [] && s.refused == {}
    ensures s.Size() == FIRST_SIZE && s.Ops() == FIRST_SIGOPS && Fees(s.block) == 0
    ensures Logged(a, [s], s, s, Tracked(s.AsPlan()))
  {
    RunSound(a, [s], 0);
  }

  lemma LoggedGrows(a: Assembly, log: seq<Filling>, first: Filling, s: Filling, all: set<Hash>, k: nat,
                    freed: seq<TxPriority>, t: Filling)
    requires Logged(a, log, first, s, all) && Round(a, s, k, freed, t)
    ensures Logged(a, log + [t], first, t, all) && all - Done(t) < all - Done(s)
  {
    QueuedIsOpen(a, s, k);
    hide Sound, Run, Round, Tracked, Done;
    RunGrows(a, log, k, freed, t);
    TurnIsNew(a, s, k, freed, t);
    StepKeeps(a, s, t);
  }

  lemma LoggedQueue(a: Assembly, log: seq<Filling>, first: Filling, s: Filling, all: set<Hash>)
    requires Logged(a, log, first, s, all)
    ensures AllQuoted(a, s.vec)
  {
  }

  lemma LoggedIs(a: Assembly, log: seq<Filling>, first: Filling, s: Filling, all: set<Hash>)
    requires Logged(a, log, first, s, all)
    ensures Run(a, log) && log != [] && log[0] == first && log[|log| - 1] == s
  {
  }

  lemma RefusedRound(a: Assembly, s: Filling, k: nat, t: Filling)
    requires IsBest(s.vec, s.byFee, k) && k < |s.vec| && Known(a.pool, s.vec[k].tx)
    requires Barred(a, s.vec[k].tx, s.byFee, s.Size(), s.Ops())
    requires t.byFee == (s.byFee || TurnsToFees(a, s.vec[k].tx, s.Size(), s.Ops()))
    requires t == Filling(s.vec[..k] + s.vec[k + 1..], s.deps, t.byFee, s.block, s.refused + {s.vec[k].tx})
    ensures Round(a, s, k, [], t)
  {
  }

  lemma AddedRound(a: Assembly, s: Filling, k: nat, freed: seq<TxPriority>, t: Filling)
    requires IsBest(s.vec, s.byFee, k) && k < |s.vec| && Known(a.pool, s.vec[k].tx)
    requires !Barred(a, s.vec[k].tx, s.byFee, s.Size(), s.Ops())
    requires t.byFee == (s.byFee || TurnsToFees(a, s.vec[k].tx, s.Size(), s.Ops()))
    requires AllQuoted(a, freed) && Distinct(Txs(freed))
    requires forall x :: x in Txs(freed) <==> x in Freed(s.deps, s.vec[k].tx)
    requires t == Filling(s.vec[..k] + s.vec[k + 1..] + freed, Struck(s.deps, s.vec[k].tx), t.byFee,
                          s.block + [EntryFor(a, s.vec[k].tx)], s.refused)
    ensures Round(a, s, k, freed, t)
  {
  }

  // What a block assembled from a sound pool is, whatever the checks answer: the
  // end of a run of rounds, so in order, within its limits, its fees the sum of
  // those taken in, all cleared; and with no eligible transaction left out that
  // it would still take.
  method CollectTransactions(a: Assembly)
    returns (block: seq<Entry>, nBlockSize: nat, nBlockSigOps: nat, nFees: int, byFee: bool, ghost log: seq<Filling>)
    requires a.pool.Sane()
    ensures log != [] && Run(a, log) && log[|log| - 1].vec == [] && log[|log| - 1].block == block
    ensures log[|log| - 1].byFee == byFee && forall i :: 0 < i < |log| ==> TookHighest(a, log[i - 1], log[i])
    ensures nBlockSize == FIRST_SIZE + Sizes(block) && nBlockSigOps == FIRST_SIGOPS + SigOps(block)
    ensures nFees == Fees(block)
    ensures (block != [] ==> nBlockSize < a.limits.nBlockMaxSize) && nBlockSigOps < MAX_BLOCK_SIGOPS
    ensures InOrder(a.pool, block) && AllCleared(a, block)
    ensures forall i, j :: 0 <= i < j < |block| ==> Earned(a, block, i) || Earned(a, block, j)
    ensures forall h :: h in Included(block) ==> Eligible(a, h)
    ensures forall h :: Eligible(a, h) && h !in Included(block) ==> Excused(a, log[|log| - 1], h)
  {
    hide Run, Stocked, Linked, Listed, AllRated, Distinct, Txs, Quoted, Tracked, Sizes, SigOps, Fees, Eligible,
         Included, InOrder, AllCleared, Earned, Excused, TookHighest, a.pool.Sane, Sound;
    var vec, md;
    ghost var orphans;
    vec, md, orphans := TakeStock(a);
    block, nBlockSize, nBlockSigOps, nFees, byFee, log := Fill(a, vec, md, orphans);
    RunSound(a, log, |log| - 1);
    SoundBlock(a, log[|log| - 1]);
    RunTakesHighest(a, log);
    NothingForgotten(a, log);
  }

  lemma SoundBlock(a: Assembly, s: Filling)
    requires Sound(a, s)
    ensures (s.block != [] ==> s.Size() < a.limits.nBlockMaxSize) && s.Ops() < MAX_BLOCK_SIGOPS
    ensures InOrder(a.pool, s.block) && AllCleared(a, s.block)
    ensures forall i, j :: 0 <= i < j < |s.block| ==> Earned(a, s.block, i) || Earned(a, s.block, j)
  {
    hide Earned;
  }
}
