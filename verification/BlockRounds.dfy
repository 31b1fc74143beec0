// The rounds by which CreateNewBlock fills a block from its priority queue:
// which entry is taken, what it has to pass, and what that means for the block
// in the end.
module BlockRounds {
  import opened Ascending
  import opened BlockPlan

  datatype TxPriority = TxPriority(dPriority: real, dFeePerKb: real, nFee: int, tx: Hash)

  datatype Limits = Limits(nBlockMaxSize: nat, nBlockPrioritySize: nat, nBlockMinSize: nat, nMinTxFee: real)

  // What the ring signature check answers about a transaction when the pool is
  // sorted; and what the clock, the fee policy, the chain and the scripts answer
  // when its turn has come. Every transaction has one turn (TurnsDiffer), so
  // answers that also depend on the moment are no more than answers per transaction.
  datatype Answers = Answers(stockAnonOk: bool,
                             nStockAnon: int,
                             late: bool,
                             nMinFee: int,
                             fetched: bool,
                             nValueIn: int,
                             anonOk: bool,
                             nSumAnon: int,
                             nP2SHSigOps: nat,
                             connected: bool)

  datatype Assembly = Assembly(pool: Pool, limits: Limits, ask: Hash -> Answers)

  // ---------------------------------------------------------------- what a transaction is worth

  // The value of one input, and its value times its depth; an anonymous input
  // counts for neither, an unconfirmed one has no depth.
  function InputValue(p: Pool, tx: Tx, i: nat): int
    requires i < |tx.vin|
  {
    var o := tx.vin[i].prevout;
    if tx.anonVersion && tx.vin[i].anon then 0
    else if o in p.disk then p.disk[o].value
    else if o.hash in p.mapTx && o.n < |p.mapTx[o.hash].vout| then p.mapTx[o.hash].vout[o.n]
    else 0
  }

  function InputAge(p: Pool, tx: Tx, i: nat): real
    requires i < |tx.vin|
  {
    var o := tx.vin[i].prevout;
    if !(tx.anonVersion && tx.vin[i].anon) && o in p.disk then p.disk[o].value as real * p.disk[o].depth as real
    else 0.0
  }

  function ValueIn(p: Pool, tx: Tx, n: nat): int
    requires n <= |tx.vin|
  {
    if n == 0 then 0 else ValueIn(p, tx, n - 1) + InputValue(p, tx, n - 1)
  }

  function AgedIn(p: Pool, tx: Tx, n: nat): real
    requires n <= |tx.vin|
  {
    if n == 0 then 0.0 else AgedIn(p, tx, n - 1) + InputAge(p, tx, n - 1)
  }

  function ValueOut(vout: seq<int>): int {
    if vout == [] then 0 else ValueOut(vout[..|vout| - 1]) + vout[|vout| - 1]
  }

  predicate Known(p: Pool, h: Hash) { h in p.mapTx && p.mapTx[h].nSize > 0 }

  // What the inputs exceed the outputs by, with the hidden value the rings spend.
  function StockFee(a: Assembly, h: Hash): int
    requires Known(a.pool, h)
  {
    var tx := a.pool.mapTx[h];
    ValueIn(a.pool, tx, |tx.vin|) - ValueOut(tx.vout) + if tx.anonVersion then a.ask(h).nStockAnon else 0
  }

  // Without good rings a waiting transaction keeps the zeros it was made with.
  predicate Unrated(a: Assembly, h: Hash)
    requires Known(a.pool, h)
  {
    a.pool.mapTx[h].anonVersion && !a.ask(h).stockAnonOk
  }

  function PriorityOf(a: Assembly, h: Hash): real
    requires Known(a.pool, h)
  {
    var tx := a.pool.mapTx[h];
    if Unrated(a, h) then 0.0 else AgedIn(a.pool, tx, |tx.vin|) / (tx.nSize as real)
  }

  function FeeRateOf(a: Assembly, h: Hash): real
    requires Known(a.pool, h)
  {
    if Unrated(a, h) then 0.0 else StockFee(a, h) as real / (a.pool.mapTx[h].nSize as real / 1000.0)
  }

  // The fee is left at zero for a transaction that had to wait.
  function QueuedFee(a: Assembly, h: Hash): int
    requires Known(a.pool, h)
  {
    if a.pool.Parents(a.pool.mapTx[h]) != {} then 0 else StockFee(a, h)
  }

  ghost predicate Quoted(a: Assembly, t: TxPriority) {
    Known(a.pool, t.tx) && t == TxPriority(PriorityOf(a, t.tx), FeeRateOf(a, t.tx), QueuedFee(a, t.tx), t.tx)
  }

  ghost predicate AllQuoted(a: Assembly, vec: seq<TxPriority>) { forall i :: 0 <= i < |vec| ==> Quoted(a, vec[i]) }

  lemma QuotedJoin(a: Assembly, vec: seq<TxPriority>, more: seq<TxPriority>)
    requires AllQuoted(a, vec) && AllQuoted(a, more)
    ensures AllQuoted(a, vec + more)
  {
  }

  lemma QuotedRest(a: Assembly, vec: seq<TxPriority>, k: nat)
    requires AllQuoted(a, vec) && k < |vec|
    ensures AllQuoted(a, vec[..k] + vec[k + 1..]) && Quoted(a, vec[k]) && Known(a.pool, vec[k].tx)
  {
  }

  // ---------------------------------------------------------------- the priority queue

  // TxPriorityCompare: a comes after b.
  predicate Less(byFee: bool, a: TxPriority, b: TxPriority) {
    if byFee then
      if a.dFeePerKb == b.dFeePerKb then a.dPriority < b.dPriority else a.dFeePerKb < b.dFeePerKb
    else
      if a.dPriority == b.dPriority then a.dFeePerKb < b.dFeePerKb else a.dPriority < b.dPriority
  }

  ghost predicate IsBest(vec: seq<TxPriority>, byFee: bool, k: nat) {
    k < |vec| && forall i :: 0 <= i < |vec| ==> !Less(byFee, vec[k], vec[i])
  }

  function Txs(vec: seq<TxPriority>): (r: seq<Hash>)
    ensures |r| == |vec| && forall i :: 0 <= i < |vec| ==> r[i] == vec[i].tx
  {
    seq(|vec|, i requires 0 <= i < |vec| => vec[i].tx)
  }

  lemma TxsJoin(vec: seq<TxPriority>, more: seq<TxPriority>)
    ensures Txs(vec + more) == Txs(vec) + Txs(more)
  {
  }

  lemma TxsWithout(vec: seq<TxPriority>, k: nat)
    requires k < |vec|
    ensures Txs(vec[..k] + vec[k + 1..]) == Without(Txs(vec), k) && Txs(vec)[k] == vec[k].tx
  {
  }

  // ---------------------------------------------------------------- what it has to pass

  // A transaction whose fee is unknown when its turn comes is priced then.
  function FeeTaken(a: Assembly, h: Hash): int
    requires Known(a.pool, h)
  {
    var tx := a.pool.mapTx[h];
    if QueuedFee(a, h) != 0 then QueuedFee(a, h)
    else a.ask(h).nValueIn - ValueOut(tx.vout) + if tx.anonVersion then a.ask(h).nSumAnon else 0
  }

  function EntryFor(a: Assembly, h: Hash): Entry
    requires Known(a.pool, h)
  {
    var tx := a.pool.mapTx[h];
    Entry(h, tx.nSize, tx.nLegacySigOps + a.ask(h).nP2SHSigOps, FeeTaken(a, h))
  }

  // The checks that have nothing to do with the block.
  predicate Cleared(a: Assembly, h: Hash)
    requires Known(a.pool, h)
  {
    && !a.ask(h).late && a.ask(h).fetched && a.ask(h).connected && FeeTaken(a, h) >= a.ask(h).nMinFee
    && (a.pool.mapTx[h].anonVersion && QueuedFee(a, h) == 0 ==> a.ask(h).anonOk)
  }

  predicate TooCheap(a: Assembly, h: Hash, byFee: bool, nBlockSize: nat)
    requires Known(a.pool, h)
  {
    byFee && FeeRateOf(a, h) < a.limits.nMinTxFee && nBlockSize + a.pool.mapTx[h].nSize >= a.limits.nBlockMinSize
  }

  // A block of this size, with this many signature operations, does not take h.
  predicate Barred(a: Assembly, h: Hash, byFee: bool, nBlockSize: nat, nBlockSigOps: nat)
    requires Known(a.pool, h)
  {
    || nBlockSize + a.pool.mapTx[h].nSize >= a.limits.nBlockMaxSize
    || nBlockSigOps + EntryFor(a, h).nSigOps >= MAX_BLOCK_SIGOPS
    || TooCheap(a, h, byFee, nBlockSize) || !Cleared(a, h)
  }

  // Of too low a priority, or past the part of the block kept for priority.
  predicate Ordinary(a: Assembly, h: Hash, nBlockSize: nat)
    requires Known(a.pool, h)
  {
    nBlockSize + a.pool.mapTx[h].nSize >= a.limits.nBlockPrioritySize || PriorityOf(a, h) < HIGH_PRIORITY
  }

  // The order turns to fees at the first such transaction there is room and time for.
  predicate TurnsToFees(a: Assembly, h: Hash, nBlockSize: nat, nBlockSigOps: nat)
    requires Known(a.pool, h)
  {
    && nBlockSize + a.pool.mapTx[h].nSize < a.limits.nBlockMaxSize
    && nBlockSigOps + a.pool.mapTx[h].nLegacySigOps < MAX_BLOCK_SIGOPS
    && !a.ask(h).late && Ordinary(a, h, nBlockSize)
  }

  // What bars a transaction bars it from every larger block.
  lemma BarredLater(a: Assembly, h: Hash, byFee: bool, size: nat, ops: nat, later: bool, more: nat, most: nat)
    requires Known(a.pool, h) && Barred(a, h, byFee, size, ops) && (byFee ==> later) && size <= more && ops <= most
    ensures Barred(a, h, later, more, most)
  {
  }

  // ---------------------------------------------------------------- the rounds

  // The queue, the parents others wait for, how the queue is ordered, the block
  // so far, and those whose turn came to nothing.
  datatype Filling = Filling(vec: seq<TxPriority>, deps: map<Hash, set<Hash>>, byFee: bool, block: seq<Entry>,
                             refused: set<Hash>) {
    function Size(): nat { FIRST_SIZE + Sizes(block) }

    function Ops(): nat { FIRST_SIGOPS + SigOps(block) }

    ghost function AsPlan(): Plan { Plan(Txs(vec), deps, block, refused) }
  }

  // One round: a best entry leaves the queue; barred, it is refused; else it goes
  // into the block and those that waited for it alone join the queue.
  ghost predicate Round(a: Assembly, s: Filling, k: nat, freed: seq<TxPriority>, t: Filling) {
    && IsBest(s.vec, s.byFee, k) && Known(a.pool, s.vec[k].tx)
    && var h, rest := s.vec[k].tx, s.vec[..k] + s.vec[k + 1..];
       && t.byFee == (s.byFee || TurnsToFees(a, h, s.Size(), s.Ops()))
       && if Barred(a, h, s.byFee, s.Size(), s.Ops()) then
            freed == [] && t == Filling(rest, s.deps, t.byFee, s.block, s.refused + {h})
          else
            && AllQuoted(a, freed) && Distinct(Txs(freed)) && (forall x :: x in Txs(freed) <==> x in Freed(s.deps, h))
            && t == Filling(rest + freed, Struck(s.deps, h), t.byFee, s.block + [EntryFor(a, h)], s.refused)
  }

  ghost predicate Step(a: Assembly, s: Filling, t: Filling) {
    exists k: nat, freed :: Round(a, s, k, freed, t)
  }

  // A transaction that can be queued or has to wait; with bad rings it can only wait.
  ghost predicate Eligible(a: Assembly, h: Hash) {
    && h in a.pool.mapTx && a.pool.mapTx[h].selectable && a.pool.Resolved(a.pool.mapTx[h])
    && (a.pool.Parents(a.pool.mapTx[h]) == {} && a.pool.mapTx[h].anonVersion ==> a.ask(h).stockAnonOk)
  }

  ghost predicate Ready(a: Assembly, h: Hash) { Eligible(a, h) && a.pool.Parents(a.pool.mapTx[h]) == {} }

  ghost predicate Waits(a: Assembly, h: Hash) { Eligible(a, h) && a.pool.Parents(a.pool.mapTx[h]) != {} }

  // The queue and the orphans after the transactions in done have been seen.
  ghost predicate Stocked(a: Assembly, q: seq<Hash>, deps: map<Hash, set<Hash>>, done: set<Hash>) {
    && done <= a.pool.mapTx.Keys && Distinct(q)
    && (forall h :: h in q <==> h in done && Ready(a, h))
    && (forall h :: h in deps <==> h in done && Waits(a, h))
    && (forall h :: h in deps ==> deps[h] == a.pool.Parents(a.pool.mapTx[h]))
  }

  ghost predicate Started(a: Assembly, s: Filling) {
    && Stocked(a, Txs(s.vec), s.deps, a.pool.mapTx.Keys) && AllQuoted(a, s.vec)
    && s.byFee == (a.limits.nBlockPrioritySize == 0) && s.block == [] && s.refused == {}
  }

  ghost predicate Run(a: Assembly, log: seq<Filling>) {
    log != [] && Started(a, log[0]) && forall i :: 0 < i < |log| ==> Step(a, log[i - 1], log[i])
  }

  lemma RunGrows(a: Assembly, log: seq<Filling>, k: nat, freed: seq<TxPriority>, t: Filling)
    requires Run(a, log) && Round(a, log[|log| - 1], k, freed, t)
    ensures Run(a, log + [t])
  {
    hide Started, Round;
    var next := log + [t];
    forall i | 0 < i < |next|
      ensures Step(a, next[i - 1], next[i])
    {
      assert i < |log| ==> next[i] == log[i];
      assert next[i - 1] == log[i - 1];
    }
  }

  // ---------------------------------------------------------------- what every round keeps

  // Everything in the block passed the checks and pays what it was priced at.
  ghost predicate AllCleared(a: Assembly, block: seq<Entry>) {
    forall i :: 0 <= i < |block| ==>
      Known(a.pool, block[i].tx) && Cleared(a, block[i].tx) && block[i] == EntryFor(a, block[i].tx)
  }

  ghost predicate AllBarred(a: Assembly, refused: set<Hash>, byFee: bool, size: nat, ops: nat) {
    forall h :: h in refused ==> Known(a.pool, h) && Barred(a, h, byFee, size, ops)
  }

  // Entry i pays the least rate, or fitted the part of the block kept for free
  // transactions, or the part kept for old coins.
  ghost predicate Earned(a: Assembly, block: seq<Entry>, i: nat)
    requires i < |block|
  {
    && Known(a.pool, block[i].tx)
    && var size := FIRST_SIZE + Sizes(block[..i]);
       || FeeRateOf(a, block[i].tx) >= a.limits.nMinTxFee
       || size + a.pool.mapTx[block[i].tx].nSize < a.limits.nBlockMinSize
       || !Ordinary(a, block[i].tx, size)
  }

  // All earned their place, but for one at which the order turned to fees.
  ghost predicate Earning(a: Assembly, s: Filling) {
    && (!s.byFee ==> forall i :: 0 <= i < |s.block| ==> Earned(a, s.block, i))
    && (forall i, j :: 0 <= i < j < |s.block| ==> Earned(a, s.block, i) || Earned(a, s.block, j))
  }

  ghost predicate Limited(a: Assembly, s: Filling) {
    (s.block == [] || s.Size() < a.limits.nBlockMaxSize) && s.Ops() < MAX_BLOCK_SIGOPS
  }

  ghost predicate Sound(a: Assembly, s: Filling) {
    && AllQuoted(a, s.vec) && Kept(a.pool, s.AsPlan()) && Limited(a, s)
    && AllCleared(a, s.block) && AllBarred(a, s.refused, s.byFee, s.Size(), s.Ops()) && Earning(a, s)
  }

  lemma TotalsGrow(block: seq<Entry>, e: Entry)
    ensures Sizes(block + [e]) == Sizes(block) + e.nSize
    ensures SigOps(block + [e]) == SigOps(block) + e.nSigOps
    ensures Fees(block + [e]) == Fees(block) + e.nFee
  {
    assert (block + [e])[..|block|] == block;
  }

  lemma BarredGrows(a: Assembly, refused: set<Hash>, byFee: bool, size: nat, ops: nat, later: bool, more: nat,
                    most: nat)
    requires AllBarred(a, refused, byFee, size, ops) && (byFee ==> later) && size <= more && ops <= most
    ensures AllBarred(a, refused, later, more, most)
  {
    forall h | h in refused
      ensures Known(a.pool, h) && Barred(a, h, later, more, most)
    {
      BarredLater(a, h, byFee, size, ops, later, more, most);
    }
  }

  lemma BarredMore(a: Assembly, refused: set<Hash>, byFee: bool, size: nat, ops: nat, h: Hash)
    requires AllBarred(a, refused, byFee, size, ops) && Known(a.pool, h) && Barred(a, h, byFee, size, ops)
    ensures AllBarred(a, refused + {h}, byFee, size, ops)
  {
    hide Barred;
  }

  lemma EarnedStays(a: Assembly, block: seq<Entry>, e: Entry, i: nat)
    requires i < |block|
    ensures Earned(a, block + [e], i) <==> Earned(a, block, i)
  {
    assert (block + [e])[..i] == block[..i];
  }

  // The round that adds h: only the one that turns the order to fees can add what
  // has not earned its place.
  lemma EarningGrows(a: Assembly, s: Filling, h: Hash, t: Filling)
    requires Earning(a, s) && Known(a.pool, h) && !Barred(a, h, s.byFee, s.Size(), s.Ops())
    requires t.block == s.block + [EntryFor(a, h)] && t.byFee == (s.byFee || TurnsToFees(a, h, s.Size(), s.Ops()))
    ensures Earning(a, t)
  {
    var n := |s.block|;
    assert t.block[..n] == s.block;
    assert s.byFee || !t.byFee ==> Earned(a, t.block, n);
    forall i | 0 <= i < n
      ensures Earned(a, t.block, i) <==> Earned(a, s.block, i)
    {
      EarnedStays(a, s.block, EntryFor(a, h), i);
    }
    hide Earned;
  }

  // The rate of h is too low, the block is past the part for free transactions, and
  // it was not yet ordered by fees, but h is not one for the priority part either.
  ghost predicate RidesFree(a: Assembly, s: Filling, h: Hash) {
    && Known(a.pool, h) && !s.byFee && Ordinary(a, h, s.Size())
    && FeeRateOf(a, h) < a.limits.nMinTxFee && s.Size() + a.pool.mapTx[h].nSize >= a.limits.nBlockMinSize
  }

  // What is taken in has not earned its place exactly then: the code tests the rate
  // before it turns the order to fees.
  lemma UnearnedAtTheTurn(a: Assembly, s: Filling, k: nat, freed: seq<TxPriority>, t: Filling)
    requires Round(a, s, k, freed, t) && t.block != s.block
    ensures |t.block| == |s.block| + 1 && t.block[|s.block|].tx == s.vec[k].tx
    ensures !Earned(a, t.block, |s.block|) <==> RidesFree(a, s, s.vec[k].tx)
  {
    assert t.block[..|s.block|] == s.block;
    hide IsBest, AllQuoted, Distinct, Txs;
  }

  ghost predicate AllEarned(a: Assembly, block: seq<Entry>) { forall i :: 0 <= i < |block| ==> Earned(a, block, i) }

  // The round from s to t took in one that had not earned its place.
  ghost predicate RodeFree(a: Assembly, s: Filling, t: Filling) {
    |t.block| == |s.block| + 1 && RidesFree(a, s, t.block[|s.block|].tx)
  }

  lemma StepEarned(a: Assembly, s: Filling, t: Filling)
    requires Step(a, s, t)
    ensures AllEarned(a, t.block) <==> AllEarned(a, s.block) && !RodeFree(a, s, t)
  {
    var k: nat, freed :| Round(a, s, k, freed, t);
    if t.block != s.block {
      UnearnedAtTheTurn(a, s, k, freed, t);
      var n := |s.block|;
      assert t.block[..n] == s.block && t.block == s.block + [t.block[n]];
      hide Round, RidesFree;
      forall i | 0 <= i < n
        ensures Earned(a, t.block, i) <==> Earned(a, s.block, i)
      {
        EarnedStays(a, s.block, t.block[n], i);
      }
      hide Earned;
    }
  }

  // A whole block is earned exactly when no round took in such a one.
  lemma {:induction false} RunEarned(a: Assembly, log: seq<Filling>)
    requires Run(a, log)
    ensures AllEarned(a, log[|log| - 1].block) <==> forall i :: 0 < i < |log| ==> !RodeFree(a, log[i - 1], log[i])
    decreases |log|
  {
    hide RodeFree, AllEarned, Step, Started;
    if |log| > 1 {
      var last := |log| - 1;
      assert forall i :: 0 <= i < last ==> log[..last][i] == log[i];
      RunEarned(a, log[..last]);
      StepEarned(a, log[last - 1], log[last]);
    } else {
      NoneEarned(a, log[0]);
    }
  }

  lemma NoneEarned(a: Assembly, s: Filling)
    requires Started(a, s)
    ensures AllEarned(a, s.block)
  {
  }

  // It does happen: a free transaction of no priority goes into a block that keeps
  // no room for free ones.
  lemma FreeRide()
    ensures FreePool().pool.Sane() && Run(FreePool(), FreeLog()) && FreeLog()[1].vec == []
    ensures RodeFree(FreePool(), FreeLog()[0], FreeLog()[1]) && !AllEarned(FreePool(), FreeLog()[1].block)
  {
    hide Run, Started, Step, Round, RodeFree, AllEarned, FreePool, FreeLog, Known, EntryFor, PriorityOf, FeeRateOf;
    var a := FreePool();
    FreeIsWorth(a);
    FreeLogIs();
    var s0, s1 := FreeLog()[0], FreeLog()[1];
    FreeStarts(a, s0);
    FreeRound(a, s0, s1);
    FreeRun(a, s0, s1);
    FreeRides(a, s0, s1);
    RunEarned(a, FreeLog());
  }

  function FreeLog(): seq<Filling> {
    FreeIsWorth(FreePool());
    [Filling([TxPriority(PriorityOf(FreePool(), 1), 0.0, 0, 1)], map[], false, [], {}),
     Filling([], map[], true, [EntryFor(FreePool(), 1)], {})]
  }

  lemma FreeLogIs()
    ensures Known(FreePool().pool, 1) && |FreeLog()| == 2 && FreeLog()[1].vec == []
    ensures FreeLog() == [FreeLog()[0], FreeLog()[1]]
    ensures FreeLog()[0] == Filling([TxPriority(PriorityOf(FreePool(), 1), 0.0, 0, 1)], map[], false, [], {})
    ensures FreeLog()[1] == Filling([], map[], true, [EntryFor(FreePool(), 1)], {})
  {
    hide PriorityOf, EntryFor;
  }

  function FreePool(): Assembly {
    var tx := Tx([TxIn(OutPoint(9, 0), false)], [5], true, false, 200, 1);
    var clear := Answers(true, 0, false, 0, true, 5, true, 0, 0, true);
    Assembly(Pool(map[1 := tx], map[OutPoint(9, 0) := Coin(5, 1)]), Limits(1000000, 27000, 0, 1.0), h => clear)
  }

  lemma FreeIsWorth(a: Assembly)
    requires a == FreePool()
    ensures a.pool.Sane() && Known(a.pool, 1) && StockFee(a, 1) == 0 && FeeRateOf(a, 1) == 0.0 && PriorityOf(a, 1) < 1.0
    ensures a.pool.Parents(a.pool.mapTx[1]) == {} && Eligible(a, 1)
  {
    var p := a.pool;
    var tx := p.mapTx[1];
    assert !p.Waits(tx, 0) && p.SaneTx(tx);
    assert ValueIn(p, tx, 1) == ValueIn(p, tx, 0) + 5 && AgedIn(p, tx, 1) == AgedIn(p, tx, 0) + 5.0;
    assert ValueOut([5]) == 5 by { assert [5][..0] == []; }
  }

  lemma FreeStarts(a: Assembly, s0: Filling)
    requires a == FreePool() && Known(a.pool, 1)
    requires s0 == Filling([TxPriority(PriorityOf(a, 1), 0.0, 0, 1)], map[], false, [], {})
    ensures Started(a, s0)
  {
    FreeIsWorth(a);
    assert Txs(s0.vec) == [1];
    hide a.pool.Sane, a.pool.Parents, PriorityOf, FeeRateOf, StockFee;
    forall h
      ensures h in Txs(s0.vec) <==> Ready(a, h)
      ensures !Waits(a, h)
    {
      assert h in Txs(s0.vec) <==> h == 1;
    }
  }

  lemma FreeRound(a: Assembly, s0: Filling, s1: Filling)
    requires a == FreePool() && Known(a.pool, 1)
    requires s0 == Filling([TxPriority(PriorityOf(a, 1), 0.0, 0, 1)], map[], false, [], {})
    requires s1 == Filling([], map[], true, [EntryFor(a, 1)], {})
    ensures Round(a, s0, 0, [], s1)
  {
    FreeIsWorth(a);
    hide a.pool.Sane, a.pool.Parents, PriorityOf, FeeRateOf, StockFee, ValueIn, AgedIn, Eligible;
    assert FeeTaken(a, 1) == 0 by { assert ValueOut([5]) == 5 by { assert [5][..0] == []; } }
    assert Struck(map[], 1) == map[] && Txs([]) == [];
    assert !Barred(a, 1, false, s0.Size(), s0.Ops()) && TurnsToFees(a, 1, s0.Size(), s0.Ops());
  }

  lemma FreeRun(a: Assembly, s0: Filling, s1: Filling)
    requires Started(a, s0) && Round(a, s0, 0, [], s1)
    ensures Run(a, [s0, s1])
  {
    assert [s0] + [s1] == [s0, s1];
    hide Started, Round;
    RunGrows(a, [s0], 0, [], s1);
  }

  lemma FreeRides(a: Assembly, s0: Filling, s1: Filling)
    requires a == FreePool() && Known(a.pool, 1) && s0.block == [] && !s0.byFee && s1.block == [EntryFor(a, 1)]
    ensures RodeFree(a, s0, s1)
  {
    FreeIsWorth(a);
    hide a.pool.Sane, a.pool.Parents, PriorityOf, FeeRateOf, StockFee, ValueIn, AgedIn, Eligible;
  }

  lemma ClearedGrows(a: Assembly, block: seq<Entry>, h: Hash)
    requires AllCleared(a, block) && Known(a.pool, h) && Cleared(a, h)
    ensures AllCleared(a, block + [EntryFor(a, h)])
  {
    hide Cleared, Known;
  }

  lemma RefuseRound(a: Assembly, s: Filling, k: nat, t: Filling)
    requires Sound(a, s) && Round(a, s, k, [], t) && Barred(a, s.vec[k].tx, s.byFee, s.Size(), s.Ops())
    ensures Sound(a, t) && Tracked(t.AsPlan()) == Tracked(s.AsPlan())
  {
    assert k < |s.vec|;
    hide IsBest, Kept, AllQuoted, Tracked, AllCleared, AllBarred, Barred, TurnsToFees, Known;
    TxsWithout(s.vec, k);
    RefuseKeeps(a.pool, s.AsPlan(), k);
    QuotedRest(a, s.vec, k);
    BarredMore(a, s.refused, s.byFee, s.Size(), s.Ops(), s.vec[k].tx);
    BarredGrows(a, t.refused, s.byFee, s.Size(), s.Ops(), t.byFee, t.Size(), t.Ops());
    assert t.AsPlan() == s.AsPlan().(queue := Without(Txs(s.vec), k), refused := t.refused);
    EarningSame(a, s, t);
    hide Earning;
  }

  lemma EarningSame(a: Assembly, s: Filling, t: Filling)
    requires Earning(a, s) && t.block == s.block && (s.byFee ==> t.byFee)
    ensures Earning(a, t)
  {
  }

  lemma IncludeRound(a: Assembly, s: Filling, k: nat, freed: seq<TxPriority>, t: Filling)
    requires Sound(a, s) && Round(a, s, k, freed, t) && !Barred(a, s.vec[k].tx, s.byFee, s.Size(), s.Ops())
    ensures Sound(a, t) && Tracked(t.AsPlan()) == Tracked(s.AsPlan())
  {
    var h := s.vec[k].tx;
    var e := EntryFor(a, h);
    TotalsGrow(s.block, e);
    IncludeLimits(a, s, h, t);
    EarningGrows(a, s, h, t);
    assert Cleared(a, h) && k < |s.vec|;
    hide IsBest, Kept, AllQuoted, Tracked, AllCleared, AllBarred, Barred, Cleared, TurnsToFees, Earning, Limited,
         Distinct;
    TxsWithout(s.vec, k);
    QuotedRest(a, s.vec, k);
    QuotedJoin(a, s.vec[..k] + s.vec[k + 1..], freed);
    TxsJoin(s.vec[..k] + s.vec[k + 1..], freed);
    ClearedGrows(a, s.block, h);
    BarredGrows(a, s.refused, s.byFee, s.Size(), s.Ops(), t.byFee, t.Size(), t.Ops());
    IncludeKeeps(a.pool, s.AsPlan(), k, e, Txs(freed));
    assert t.AsPlan() == Plan(Without(Txs(s.vec), k) + Txs(freed), Struck(s.deps, h), t.block, s.refused);
  }

  lemma IncludeLimits(a: Assembly, s: Filling, h: Hash, t: Filling)
    requires Known(a.pool, h) && !Barred(a, h, s.byFee, s.Size(), s.Ops()) && t.block == s.block + [EntryFor(a, h)]
    ensures Limited(a, t)
  {
    TotalsGrow(s.block, EntryFor(a, h));
  }

  // Every round keeps all of it and loses track of nothing.
  lemma StepKeeps(a: Assembly, s: Filling, t: Filling)
    requires Sound(a, s) && Step(a, s, t)
    ensures Sound(a, t) && Tracked(t.AsPlan()) == Tracked(s.AsPlan())
  {
    var k: nat, freed :| Round(a, s, k, freed, t);
    var barred := Barred(a, s.vec[k].tx, s.byFee, s.Size(), s.Ops());
    assert barred ==> freed == [];
    hide Sound, Round, Barred, Tracked;
    if barred {
      RefuseRound(a, s, k, t);
    } else {
      IncludeRound(a, s, k, freed, t);
    }
  }

  // The loop begins soundly, with every eligible transaction tracked.
  lemma StartedSound(a: Assembly, s: Filling)
    requires a.pool.Sane() && Started(a, s)
    ensures Sound(a, s) && forall h :: h in Tracked(s.AsPlan()) <==> Eligible(a, h)
  {
    StockedKept(a, Txs(s.vec), s.deps);
    hide Kept, Stocked, Eligible;
  }

  lemma StockedKept(a: Assembly, q: seq<Hash>, deps: map<Hash, set<Hash>>)
    requires Stocked(a, q, deps, a.pool.mapTx.Keys)
    ensures Kept(a.pool, Plan(q, deps, [], {}))
    ensures forall h :: h in Tracked(Plan(q, deps, [], {})) <==> Eligible(a, h)
  {
    assert Included([]) == {};
    hide a.pool.Resolved, a.pool.Parents;
    var s := Plan(q, deps, [], {});
    forall h
      ensures h in Tracked(s) <==> Eligible(a, h)
    {
      assert h in s.Queued() <==> Ready(a, h);
      assert h in s.Waiting() <==> Waits(a, h);
    }
  }

  lemma {:induction false} RunSound(a: Assembly, log: seq<Filling>, i: nat)
    requires a.pool.Sane() && Run(a, log) && i < |log|
    ensures Sound(a, log[i]) && forall h :: h in Tracked(log[i].AsPlan()) <==> Eligible(a, h)
  {
    if i == 0 {
      hide Sound, Tracked;
      StartedSound(a, log[0]);
    } else {
      RunSound(a, log, i - 1);
      hide Sound, Step, Tracked;
      StepKeeps(a, log[i - 1], log[i]);
    }
  }

  // ---------------------------------------------------------------- turns

  ghost function Done(s: Filling): set<Hash> { Included(s.block) + s.refused }

  // A turn is the only one its transaction gets.
  lemma TurnIsNew(a: Assembly, s: Filling, k: nat, freed: seq<TxPriority>, t: Filling)
    requires Sound(a, s) && Round(a, s, k, freed, t)
    ensures s.vec[k].tx !in Done(s) && Done(t) == Done(s) + {s.vec[k].tx}
  {
    var h := s.vec[k].tx;
    QueuedIsOpen(a, s, k);
    IncludedGrows(s.block, EntryFor(a, h));
    hide AllQuoted, Barred, Included, Kept, IsBest, TurnsToFees, AllCleared, AllBarred, Earning;
  }

  lemma QueuedIsOpen(a: Assembly, s: Filling, k: nat)
    requires Kept(a.pool, s.AsPlan()) && k < |s.vec|
    ensures s.vec[k].tx !in Done(s) && s.vec[k].tx in Tracked(s.AsPlan()) && Txs(s.vec)[k] == s.vec[k].tx
  {
    var q := s.AsPlan().queue;
    assert q[k] in q && q[k] in s.AsPlan().Queued();
  }

  lemma {:induction false} DoneGrows(a: Assembly, log: seq<Filling>, i: nat, j: nat)
    requires a.pool.Sane() && Run(a, log) && i <= j < |log|
    ensures Done(log[i]) <= Done(log[j])
    decreases j
  {
    hide Round, Sound, Started, Done;
    if i < j {
      DoneGrows(a, log, i, j - 1);
      RunSound(a, log, j - 1);
      var k: nat, freed :| Round(a, log[j - 1], k, freed, log[j]);
      TurnIsNew(a, log[j - 1], k, freed, log[j]);
    }
  }

  // The round from s to t has the transaction of the highest fee rate, and of equal
  // ones the highest priority, once the order is by fees; and before, of the highest
  // priority, and of equal ones the highest fee rate.
  ghost predicate TookHighest(a: Assembly, s: Filling, t: Filling) {
    exists h :: Highest(a, s, h) && h !in Done(s) && Done(t) == Done(s) + {h}
  }

  ghost predicate Highest(a: Assembly, s: Filling, h: Hash) {
    && h in Txs(s.vec) && Known(a.pool, h)
    && (forall g :: g in Txs(s.vec) ==> Known(a.pool, g))
    && (s.byFee ==> forall g :: g in Txs(s.vec) ==>
          && FeeRateOf(a, g) <= FeeRateOf(a, h)
          && (FeeRateOf(a, g) == FeeRateOf(a, h) ==> PriorityOf(a, g) <= PriorityOf(a, h)))
    && (!s.byFee ==> forall g :: g in Txs(s.vec) ==>
          && PriorityOf(a, g) <= PriorityOf(a, h)
          && (PriorityOf(a, g) == PriorityOf(a, h) ==> FeeRateOf(a, g) <= FeeRateOf(a, h)))
  }

  lemma BestIsHighest(a: Assembly, s: Filling, k: nat)
    requires AllQuoted(a, s.vec) && IsBest(s.vec, s.byFee, k)
    ensures Highest(a, s, s.vec[k].tx)
  {
    hide PriorityOf, FeeRateOf, QueuedFee, Known;
    var h := s.vec[k].tx;
    assert Quoted(a, s.vec[k]) && Txs(s.vec)[k] == h;
    forall g | g in Txs(s.vec)
      ensures exists i :: && 0 <= i < |s.vec| && s.vec[i].tx == g && Quoted(a, s.vec[i])
                          && !Less(s.byFee, s.vec[k], s.vec[i])
    {
      var i :| 0 <= i < |s.vec| && Txs(s.vec)[i] == g;
      assert Quoted(a, s.vec[i]);
    }
  }

  lemma StepTakesHighest(a: Assembly, s: Filling, t: Filling)
    requires Sound(a, s) && Step(a, s, t)
    ensures TookHighest(a, s, t)
  {
    var k: nat, freed :| Round(a, s, k, freed, t);
    hide Highest, Kept, Limited, AllCleared, AllBarred, Earning, Done, Barred;
    BestIsHighest(a, s, k);
    hide IsBest, Round, Sound;
    TurnIsNew(a, s, k, freed, t);
  }

  lemma RunTakesHighest(a: Assembly, log: seq<Filling>)
    requires a.pool.Sane() && Run(a, log)
    ensures forall i :: 0 < i < |log| ==> TookHighest(a, log[i - 1], log[i])
  {
    hide Sound, Step, Started, TookHighest;
    forall i | 0 < i < |log|
      ensures TookHighest(a, log[i - 1], log[i])
    {
      RunSound(a, log, i - 1);
      StepTakesHighest(a, log[i - 1], log[i]);
    }
  }

  lemma RoundPicks(a: Assembly, s: Filling, k: nat, freed: seq<TxPriority>, t: Filling)
    requires Round(a, s, k, freed, t)
    ensures k < |s.vec|
  {
  }

  lemma TurnsDiffer(a: Assembly, log: seq<Filling>, i: nat, j: nat, k: nat, m: nat, f: seq<TxPriority>,
                    g: seq<TxPriority>)
    requires a.pool.Sane() && Run(a, log) && i + 1 < j + 1 < |log|
    requires Round(a, log[i], k, f, log[i + 1]) && Round(a, log[j], m, g, log[j + 1])
    ensures log[i].vec[k].tx != log[j].vec[m].tx
  {
    RoundPicks(a, log[i], k, f, log[i + 1]);
    RoundPicks(a, log[j], m, g, log[j + 1]);
    hide Sound, Run, Round, Done;
    RunSound(a, log, i);
    RunSound(a, log, j);
    DoneGrows(a, log, i + 1, j);
    TurnIsNew(a, log[i], k, f, log[i + 1]);
    TurnIsNew(a, log[j], m, g, log[j + 1]);
  }

  // ---------------------------------------------------------------- the block in the end

  // Left out for cause: barred from the block as it stands, or spending a
  // transaction that is not in it.
  ghost predicate Excused(a: Assembly, s: Filling, h: Hash) {
    && Known(a.pool, h)
    && (|| Barred(a, h, s.byFee, s.Size(), s.Ops())
        || exists q :: q in a.pool.Parents(a.pool.mapTx[h]) && q !in Included(s.block))
  }

  // With the queue empty no eligible transaction is left out without cause, and
  // nothing that is not eligible got in.
  lemma NothingForgotten(a: Assembly, log: seq<Filling>)
    requires a.pool.Sane() && Run(a, log) && log[|log| - 1].vec == []
    ensures var s := log[|log| - 1];
            && (forall h :: Eligible(a, h) && h !in Included(s.block) ==> Excused(a, s, h))
            && (forall h :: h in Included(s.block) ==> Eligible(a, h))
  {
    var s := log[|log| - 1];
    RunSound(a, log, |log| - 1);
    hide Run, Eligible;
    forall h | Eligible(a, h) && h !in Included(s.block)
      ensures Excused(a, s, h)
    {
      EligibleIsKnown(a, h);
      hide Kept, Tracked, AllCleared, Earning, Barred, Included;
      NothingIsLost(a.pool, s.AsPlan(), h);
    }
  }

  lemma EligibleIsKnown(a: Assembly, h: Hash)
    requires a.pool.Sane() && Eligible(a, h)
    ensures Known(a.pool, h)
  {
  }
}
