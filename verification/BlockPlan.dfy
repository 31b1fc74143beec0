// What assembling a block from the memory pool must respect: the order of
// dependencies, no repetition, and the limits; and the invariant that keeps it.
module BlockPlan {
  import opened Ascending

  type Hash = nat

  const MAX_BLOCK_SIGOPS: nat := 20000
  const FIRST_SIZE: nat := 1000
  const FIRST_SIGOPS: nat := 100
  const HIGH_PRIORITY: real := 57600000.0

  datatype OutPoint = OutPoint(hash: Hash, n: nat)

  datatype TxIn = TxIn(prevout: OutPoint, anon: bool)

  datatype Tx = Tx(vin: seq<TxIn>,
                   vout: seq<int>,
                   selectable: bool,  // neither coinbase nor coinstake, and final
                   anonVersion: bool,
                   nSize: nat,
                   nLegacySigOps: nat)

  // A coin of the chain: its value and its depth.
  datatype Coin = Coin(value: int, depth: int)

  datatype Pool = Pool(mapTx: map<Hash, Tx>, disk: map<OutPoint, Coin>) {
    // An input that is neither anonymous nor in the chain.
    predicate Unconfirmed(tx: Tx, i: nat)
      requires i < |tx.vin|
    {
      !(tx.anonVersion && tx.vin[i].anon) && tx.vin[i].prevout !in disk
    }

    predicate Waits(tx: Tx, i: nat)
      requires i < |tx.vin|
    {
      Unconfirmed(tx, i) && tx.vin[i].prevout.hash in mapTx
    }

    predicate Missing(tx: Tx, i: nat)
      requires i < |tx.vin|
    {
      Unconfirmed(tx, i) && tx.vin[i].prevout.hash !in mapTx
    }

    // The transactions of the pool that tx spends.
    function Parents(tx: Tx): set<Hash> {
      set i | 0 <= i < |tx.vin| && Waits(tx, i) :: tx.vin[i].prevout.hash
    }

    ghost predicate Resolved(tx: Tx) {
      forall i :: 0 <= i < |tx.vin| ==> !Missing(tx, i)
    }

    // What the code relies on: sizes are positive, spent outputs exist, and
    // no transaction is found to have a missing input after it has already been
    // queued as waiting for another.
    ghost predicate Sane() {
      forall h :: h in mapTx ==> SaneTx(mapTx[h])
    }

    ghost predicate SaneTx(tx: Tx) {
      && tx.nSize > 0
      && (forall i :: 0 <= i < |tx.vin| && Waits(tx, i) ==> tx.vin[i].prevout.n < |mapTx[tx.vin[i].prevout.hash].vout|)
      && (forall i, j :: 0 <= i < j < |tx.vin| && Waits(tx, i) ==> !Missing(tx, j))
    }
  }

  // One transaction as it goes into the block.
  datatype Entry = Entry(tx: Hash, nSize: nat, nSigOps: nat, nFee: int)

  function Sizes(b: seq<Entry>): nat { if b == [] then 0 else Sizes(b[..|b| - 1]) + b[|b| - 1].nSize }

  function SigOps(b: seq<Entry>): nat { if b == [] then 0 else SigOps(b[..|b| - 1]) + b[|b| - 1].nSigOps }

  function Fees(b: seq<Entry>): int { if b == [] then 0 else Fees(b[..|b| - 1]) + b[|b| - 1].nFee }

  ghost function Included(b: seq<Entry>): set<Hash> { set i | 0 <= i < |b| :: b[i].tx }

  // Each transaction once, after all it spends.
  ghost predicate InOrder(p: Pool, b: seq<Entry>) {
    && (forall i :: 0 <= i < |b| ==>
          b[i].tx in p.mapTx && p.mapTx[b[i].tx].selectable && b[i].nSize == p.mapTx[b[i].tx].nSize)
    && (forall i, j :: 0 <= i < j < |b| ==> b[i].tx != b[j].tx)
    && (forall i :: 0 <= i < |b| ==> p.Parents(p.mapTx[b[i].tx]) <= Included(b[..i]))
  }

  lemma IncludedGrows(b: seq<Entry>, e: Entry)
    ensures Included(b + [e]) == Included(b) + {e.tx}
  {
    assert forall i :: 0 <= i < |b| ==> (b + [e])[i] == b[i];
    assert (b + [e])[|b|] == e;
  }

  lemma InOrderGrows(p: Pool, b: seq<Entry>, e: Entry)
    requires InOrder(p, b) && e.tx in p.mapTx && p.mapTx[e.tx].selectable && e.nSize == p.mapTx[e.tx].nSize
    requires e.tx !in Included(b) && p.Parents(p.mapTx[e.tx]) <= Included(b)
    ensures InOrder(p, b + [e])
  {
    var c := b + [e];
    forall i | 0 <= i < |c|
      ensures p.Parents(p.mapTx[c[i].tx]) <= Included(c[..i])
    {
      if i < |b| {
        assert c[..i] == b[..i];
      } else {
        assert c[..i] == b;
      }
    }
    forall i, j | 0 <= i < j < |c|
      ensures c[i].tx != c[j].tx
    {
      if j == |b| {
        assert c[i].tx in Included(b);
      }
    }
  }

  // ---------------------------------------------------------------- the bookkeeping

  // Where a selectable transaction stands: in the priority queue, waiting for
  // the parents in deps, in the block, or refused when its turn came.
  datatype Plan = Plan(queue: seq<Hash>, deps: map<Hash, set<Hash>>, block: seq<Entry>, refused: set<Hash>) {
    ghost function Waiting(): set<Hash> { set h | h in deps && deps[h] != {} }

    ghost function Queued(): set<Hash> { set h | h in queue }
  }

  ghost function Tracked(s: Plan): set<Hash> {
    s.Queued() + s.Waiting() + Included(s.block) + s.refused
  }

  // What is kept from one round to the next.
  ghost predicate Kept(p: Pool, s: Plan) {
    && InOrder(p, s.block) && Distinct(s.queue)
    && s.Queued() !! s.Waiting() && s.Queued() !! Included(s.block) && s.Queued() !! s.refused
    && s.Waiting() !! Included(s.block) && s.Waiting() !! s.refused && Included(s.block) !! s.refused
    && (forall h :: h in s.queue ==>
          h in p.mapTx && p.mapTx[h].selectable && p.Parents(p.mapTx[h]) <= Included(s.block))
    && (forall h :: h in s.deps ==> DepsKept(p, h, s.deps[h], Included(s.block)))
  }

  ghost predicate DepsKept(p: Pool, h: Hash, dep: set<Hash>, included: set<Hash>) {
    && h in p.mapTx && p.mapTx[h].selectable
    && dep <= p.Parents(p.mapTx[h]) && p.Parents(p.mapTx[h]) <= dep + included && dep !! included
  }

  // The plan once the transaction at position k of the queue is refused.
  function Without(q: seq<Hash>, k: nat): (r: seq<Hash>)
    requires k < |q|
    ensures |r| == |q| - 1
  {
    q[..k] + q[k + 1..]
  }

  lemma WithoutIs(q: seq<Hash>, k: nat)
    requires k < |q| && Distinct(q)
    ensures Distinct(Without(q, k)) && (forall h :: h in Without(q, k) <==> h in q && h != q[k])
  {
    var r := Without(q, k);
    forall h
      ensures h in r <==> h in q && h != q[k]
    {
      if h in q && h != q[k] {
        var i :| 0 <= i < |q| && q[i] == h;
        assert r[if i < k then i else i - 1] == h;
      }
    }
  }

  lemma RefuseKeeps(p: Pool, s: Plan, k: nat)
    requires Kept(p, s) && k < |s.queue|
    ensures var r := s.(queue := Without(s.queue, k), refused := s.refused + {s.queue[k]});
            Kept(p, r) && Tracked(r) == Tracked(s)
  {
    WithoutIs(s.queue, k);
    hide InOrder, DepsKept, Without, Distinct;
    var r := s.(queue := Without(s.queue, k), refused := s.refused + {s.queue[k]});
    assert s.queue[k] in s.queue;
    assert s.Queued() == r.Queued() + {s.queue[k]};
  }

  // Parents struck off after h has gone into the block.
  function Struck(deps: map<Hash, set<Hash>>, h: Hash): map<Hash, set<Hash>> {
    map x | x in deps :: deps[x] - {h}
  }

  // Those that waited for h alone.
  ghost function Freed(deps: map<Hash, set<Hash>>, h: Hash): set<Hash> {
    set x | x in deps && deps[x] == {h}
  }

  lemma IncludeKeeps(p: Pool, s: Plan, k: nat, e: Entry, freed: seq<Hash>)
    requires Kept(p, s) && k < |s.queue| && e.tx == s.queue[k] && e.nSize == p.mapTx[e.tx].nSize
    requires Distinct(freed) && forall x :: x in freed <==> x in Freed(s.deps, e.tx)
    ensures var r := Plan(Without(s.queue, k) + freed, Struck(s.deps, e.tx), s.block + [e], s.refused);
            Kept(p, r) && Tracked(r) == Tracked(s)
  {
    var h := e.tx;
    WithoutIs(s.queue, k);
    assert h in s.queue;
    InOrderGrows(p, s.block, e);
    IncludedGrows(s.block, e);
    var r := Plan(Without(s.queue, k) + freed, Struck(s.deps, h), s.block + [e], s.refused);
    var was, now := Included(s.block), Included(r.block);
    assert s.Waiting() == r.Waiting() + Freed(s.deps, h);
    DepsStruck(p, s.deps, h, was);
    FreedIsReady(p, s.deps, h, was);
    hide InOrder, DepsKept, Without, Included;
    DistinctJoin(Without(s.queue, k), freed);
    assert r.Queued() == (s.Queued() - {h}) + Freed(s.deps, h);
  }

  lemma DepsStruck(p: Pool, deps: map<Hash, set<Hash>>, h: Hash, was: set<Hash>)
    requires forall x :: x in deps ==> DepsKept(p, x, deps[x], was)
    ensures forall x :: x in deps ==> DepsKept(p, x, Struck(deps, h)[x], was + {h})
  {
    forall x | x in deps
      ensures DepsKept(p, x, Struck(deps, h)[x], was + {h})
    {
      assert DepsKept(p, x, deps[x], was);
    }
  }

  lemma FreedIsReady(p: Pool, deps: map<Hash, set<Hash>>, h: Hash, was: set<Hash>)
    requires forall x :: x in deps ==> DepsKept(p, x, deps[x], was)
    ensures forall x :: x in Freed(deps, h) ==>
              x in p.mapTx && p.mapTx[x].selectable && p.Parents(p.mapTx[x]) <= was + {h}
  {
    forall x | x in Freed(deps, h)
      ensures x in p.mapTx && p.mapTx[x].selectable && p.Parents(p.mapTx[x]) <= was + {h}
    {
      assert DepsKept(p, x, deps[x], was);
    }
  }

  lemma DistinctOne(a: seq<Hash>, h: Hash)
    requires Distinct(a) && h !in a
    ensures Distinct(a + [h])
  {
  }

  lemma DistinctJoin(a: seq<Hash>, b: seq<Hash>)
    requires Distinct(a) && Distinct(b) && forall x :: x in a ==> x !in b
    ensures Distinct(a + b)
  {
    forall i, j | 0 <= i < j < |a + b|
      ensures (a + b)[i] != (a + b)[j]
    {
      if i < |a| <= j {
        assert a[i] in a && b[j - |a|] in b;
      }
    }
  }

  // When the queue has run dry, whatever was taken up is in the block, or was
  // refused, or still waits for a parent that is not in the block.
  lemma NothingIsLost(p: Pool, s: Plan, h: Hash)
    requires Kept(p, s) && s.queue == [] && h in Tracked(s)
    ensures h in Included(s.block) || h in s.refused
         || (h in p.mapTx && exists q :: q in p.Parents(p.mapTx[h]) && q !in Included(s.block))
  {
    if h in s.Waiting() {
      assert DepsKept(p, h, s.deps[h], Included(s.block));
      var q :| q in s.deps[h];
    }
  }
}
