// CBloomFilter: bits of a byte array, read as the set of positions that are set.
module Bloom {
  import opened Bits
  import opened Octets

  type Key = seq<Byte>

  const BLOOM_UPDATE_ALL: nat := 1
  const BLOOM_UPDATE_P2PUBKEY_ONLY: nat := 2
  const BLOOM_ACCEPT_STEALTH: nat := 4

  // MurmurHash3, as a function of seed and data.
  type Murmur = (nat, Key) -> nat

  datatype Params = Params(nBits: nat, nHashFuncs: nat, nTweak: nat, H: Murmur) {
    function Index(i: nat, k: Key): nat
      requires nBits > 0
    {
      H((i * 0xFBA4C795 + nTweak) % 0x1_0000_0000, k) % nBits
    }

    // The positions of a key.
    function Indices(k: Key): set<nat>
      requires nBits > 0
    {
      set i | 0 <= i < nHashFuncs :: Index(i, k)
    }

    predicate Holds(bits: set<nat>, k: Key)
      requires nBits > 0
    {
      Indices(k) <= bits
    }
  }

  // A script: the data of its operations, up to the first that cannot be read.
  type Script = seq<Key>

  datatype OutPoint = OutPoint(hash: Key, n: nat)

  datatype TxOut = TxOut(scriptPubKey: Script, pubKeyOrMultisig: bool)

  datatype TxIn = TxIn(prevout: OutPoint, scriptSig: Script)

  datatype Tx = Tx(hash: Key, vin: seq<TxIn>, vout: seq<TxOut>, hasStealthOutput: bool)

  // How keys are made.
  datatype Coding = Coding(serial: OutPoint -> Key, hash160: Key -> Key)

  // ---------------------------------------------------------------- what a filter does

  predicate ElementMatches(p: Params, c: Coding, bits: set<nat>, e: Key)
    requires p.nBits > 0
  {
    (|e| == 33 && c.hash160(e) != [] && p.Holds(bits, c.hash160(e))) || (e != [] && p.Holds(bits, e))
  }

  predicate OutputMatches(p: Params, c: Coding, bits: set<nat>, o: TxOut)
    requires p.nBits > 0
  {
    exists j :: 0 <= j < |o.scriptPubKey| && ElementMatches(p, c, bits, o.scriptPubKey[j])
  }

  predicate InputMatches(p: Params, c: Coding, bits: set<nat>, txin: TxIn)
    requires p.nBits > 0
  {
    || p.Holds(bits, c.serial(txin.prevout))
    || exists j :: 0 <= j < |txin.scriptSig| && txin.scriptSig[j] != [] && p.Holds(bits, txin.scriptSig[j])
  }

  // The transaction itself is wanted, whatever its outputs.
  predicate Wanted(p: Params, bits: set<nat>, empty: bool, flags: nat, tx: Tx)
    requires p.nBits > 0
  {
    (flags / BLOOM_ACCEPT_STEALTH % 2 == 1 && tx.hasStealthOutput && !empty) || p.Holds(bits, tx.hash)
  }

  predicate Relevant(p: Params, c: Coding, bits: set<nat>, empty: bool, flags: nat, tx: Tx)
    requires p.nBits > 0
  {
    || Wanted(p, bits, empty, flags, tx)
    || (exists i :: 0 <= i < |tx.vout| && OutputMatches(p, c, bits, tx.vout[i]))
    || (exists i :: 0 <= i < |tx.vin| && InputMatches(p, c, bits, tx.vin[i]))
  }

  // Output i or one before it matches, or the transaction itself is wanted.
  ghost predicate FoundBy(p: Params, c: Coding, bits: set<nat>, empty: bool, flags: nat, tx: Tx, i: nat)
    requires p.nBits > 0 && i < |tx.vout|
  {
    Wanted(p, bits, empty, flags, tx) || exists j :: 0 <= j <= i && OutputMatches(p, c, bits, tx.vout[j])
  }

  predicate Updates(flags: nat, o: TxOut) {
    flags % 4 == BLOOM_UPDATE_ALL || (flags % 4 == BLOOM_UPDATE_P2PUBKEY_ONLY && o.pubKeyOrMultisig)
  }

  predicate Updatable(flags: nat, o: TxOut) { o.scriptPubKey != [] && Updates(flags, o) }

  // The outputs the code adds: from the first match on, all that the update mode
  // allows, not only those that match.
  ghost predicate Added(p: Params, c: Coding, bits: set<nat>, empty: bool, flags: nat, tx: Tx, i: nat)
    requires p.nBits > 0 && i < |tx.vout|
  {
    FoundBy(p, c, bits, empty, flags, tx, i) && Updatable(flags, tx.vout[i])
  }

  ghost function BitsUpTo(p: Params, c: Coding, bits: set<nat>, empty: bool, flags: nat, tx: Tx, n: nat): set<nat>
    requires p.nBits > 0 && n <= |tx.vout|
  {
    if n == 0 then bits
    else
      var b := BitsUpTo(p, c, bits, empty, flags, tx, n - 1);
      if Added(p, c, bits, empty, flags, tx, n - 1) then b + p.Indices(c.serial(OutPoint(tx.hash, n - 1))) else b
  }

  ghost function BitsAfter(p: Params, c: Coding, bits: set<nat>, empty: bool, flags: nat, tx: Tx): set<nat>
    requires p.nBits > 0
  {
    BitsUpTo(p, c, bits, empty, flags, tx, |tx.vout|)
  }

  // ---------------------------------------------------------------- runs

  datatype Op = Insert(k: Key) | UpdateEmptyFull | See(tx: Tx)

  datatype State = State(bits: set<nat>, empty: bool)

  ghost function Step(p: Params, c: Coding, flags: nat, s: State, op: Op): State
    requires p.nBits > 0
  {
    match op
    case Insert(k) => State(s.bits + p.Indices(k), false)
    case UpdateEmptyFull => State(s.bits, s.bits == {})
    case See(tx) => State(BitsAfter(p, c, s.bits, s.empty, flags, tx), s.empty)
  }

  ghost predicate Full(p: Params, bits: set<nat>) { forall n :: 0 <= n < p.nBits ==> n in bits }

  ghost function Run(p: Params, c: Coding, flags: nat, s: State, ops: seq<Op>): State
    requires p.nBits > 0
    decreases |ops|
  {
    if ops == [] then s else Run(p, c, flags, Step(p, c, flags, s, ops[0]), ops[1..])
  }

  lemma {:induction false} BitsUpToGrow(p: Params, c: Coding, bits: set<nat>, empty: bool, flags: nat, tx: Tx, n: nat)
    requires p.nBits > 0 && n <= |tx.vout|
    ensures bits <= BitsUpTo(p, c, bits, empty, flags, tx, n)
    ensures forall i :: 0 <= i < n && Added(p, c, bits, empty, flags, tx, i) ==>
              p.Holds(BitsUpTo(p, c, bits, empty, flags, tx, n), c.serial(OutPoint(tx.hash, i)))
  {
    if n > 0 {
      BitsUpToGrow(p, c, bits, empty, flags, tx, n - 1);
    }
  }

  lemma {:induction false} RunGrows(p: Params, c: Coding, flags: nat, s: State, ops: seq<Op>)
    requires p.nBits > 0
    ensures s.bits <= Run(p, c, flags, s, ops).bits
    decreases |ops|
  {
    if ops != [] {
      if ops[0].See? {
        BitsUpToGrow(p, c, s.bits, s.empty, flags, ops[0].tx, |ops[0].tx.vout|);
      }
      RunGrows(p, c, flags, Step(p, c, flags, s, ops[0]), ops[1..]);
    }
  }

  // What contains answers for a filter whose flags are true of its data.
  ghost predicate Contained(p: Params, s: State, k: Key)
    requires p.nBits > 0
  {
    !s.empty && p.Holds(s.bits, k)
  }

  // An inserted key stays in the filter, given a hash function to find it with.
  lemma NeverForgets(p: Params, c: Coding, flags: nat, s: State, k: Key, later: seq<Op>)
    requires p.nBits > 0 && p.nHashFuncs > 0
    ensures Contained(p, Run(p, c, flags, s, [Insert(k)] + later), k)
  {
    var ops := [Insert(k)] + later;
    assert ops[1..] == later;
    var next := Step(p, c, flags, s, Insert(k));
    assert p.Index(0, k) in p.Indices(k);
    RunGrows(p, c, flags, next, later);
    StaysInUse(p, c, flags, next, later);
  }

  lemma {:induction false} StaysInUse(p: Params, c: Coding, flags: nat, s: State, ops: seq<Op>)
    requires p.nBits > 0 && !s.empty && s.bits != {}
    ensures !Run(p, c, flags, s, ops).empty
    decreases |ops|
  {
    if ops != [] {
      RunGrows(p, c, flags, s, [ops[0]]);
      assert Run(p, c, flags, s, [ops[0]]) == Step(p, c, flags, s, ops[0]);
      StaysInUse(p, c, flags, Step(p, c, flags, s, ops[0]), ops[1..]);
    }
  }

  // Without one it forgets what it was given.
  lemma NeedsHashes(p: Params, c: Coding, flags: nat, k: Key)
    requires p.nBits > 0
    ensures p.nHashFuncs > 0 <==>
              forall later: seq<Op> :: Contained(p, Run(p, c, flags, State({}, true), [Insert(k)] + later), k)
  {
    var s := State({}, true);
    if p.nHashFuncs > 0 {
      forall later: seq<Op>
        ensures Contained(p, Run(p, c, flags, s, [Insert(k)] + later), k)
      {
        NeverForgets(p, c, flags, s, k, later);
      }
    } else {
      var ops := [Insert(k)] + [UpdateEmptyFull];
      var next := Step(p, c, flags, s, Insert(k));
      assert ops[1..] == [UpdateEmptyFull] && [UpdateEmptyFull][1..] == [];
      assert next.bits == {};
      assert Run(p, c, flags, s, ops) == Run(p, c, flags, next, [UpdateEmptyFull]) == State({}, true);
      assert !Contained(p, Run(p, c, flags, s, [Insert(k)] + [UpdateEmptyFull]), k);
    }
  }

  // Under BLOOM_UPDATE_ALL, and under BLOOM_UPDATE_P2PUBKEY_ONLY for outputs that pay
  // to public keys, a transaction that spends a matched output is relevant whenever it
  // is seen.
  lemma SpendIsSeen(p: Params, c: Coding, flags: nat, s: State, tx: Tx, i: nat, later: seq<Op>, spend: Tx, j: nat)
    requires p.nBits > 0 && i < |tx.vout| && (flags % 4 == 1 || (flags % 4 == 2 && tx.vout[i].pubKeyOrMultisig))
    requires OutputMatches(p, c, s.bits, tx.vout[i])
    requires j < |spend.vin| && spend.vin[j].prevout == OutPoint(tx.hash, i)
    ensures var t := Run(p, c, flags, s, [See(tx)] + later); Relevant(p, c, t.bits, t.empty, flags, spend)
  {
    hide p.Indices, Wanted;
    assert Added(p, c, s.bits, s.empty, flags, tx, i);
    BitsUpToGrow(p, c, s.bits, s.empty, flags, tx, |tx.vout|);
    var ops := [See(tx)] + later;
    assert ops[1..] == later;
    RunGrows(p, c, flags, Step(p, c, flags, s, See(tx)), later);
    assert InputMatches(p, c, Run(p, c, flags, s, ops).bits, spend.vin[j]);
  }

  // In the other modes, and under BLOOM_UPDATE_P2PUBKEY_ONLY for transactions that pay
  // to no public key, nothing is added.
  lemma {:induction false} OthersAddNothing(p: Params, c: Coding, bits: set<nat>, empty: bool, flags: nat, tx: Tx,
                                            n: nat)
    requires p.nBits > 0 && n <= |tx.vout|
    requires flags % 4 == 0 || flags % 4 == 3
          || (flags % 4 == 2 && forall i :: 0 <= i < |tx.vout| ==> !tx.vout[i].pubKeyOrMultisig)
    ensures BitsUpTo(p, c, bits, empty, flags, tx, n) == bits
  {
    if n > 0 {
      OthersAddNothing(p, c, bits, empty, flags, tx, n - 1);
    }
  }

  // ---------------------------------------------------------------- what is added

  // Where adding begins: at once, or at the first output that matches.
  function First(p: Params, c: Coding, bits: set<nat>, empty: bool, flags: nat, tx: Tx): nat
    requires p.nBits > 0
  {
    if Wanted(p, bits, empty, flags, tx) then 0 else FirstMatch(p, c, bits, tx.vout)
  }

  function FirstMatch(p: Params, c: Coding, bits: set<nat>, vout: seq<TxOut>): (n: nat)
    requires p.nBits > 0
    ensures n <= |vout| && (n < |vout| ==> OutputMatches(p, c, bits, vout[n]))
    ensures forall j :: 0 <= j < n ==> !OutputMatches(p, c, bits, vout[j])
  {
    if vout == [] || OutputMatches(p, c, bits, vout[0]) then 0 else 1 + FirstMatch(p, c, bits, vout[1..])
  }

  lemma AddedFrom(p: Params, c: Coding, bits: set<nat>, empty: bool, flags: nat, tx: Tx, i: nat)
    requires p.nBits > 0 && i < |tx.vout|
    ensures Added(p, c, bits, empty, flags, tx, i) <==>
            First(p, c, bits, empty, flags, tx) <= i && Updatable(flags, tx.vout[i])
  {
    hide OutputMatches, Wanted, Updatable;
  }

  // Only outputs that match are added exactly when, from where adding begins,
  // every output with data that the mode updates matches.
  lemma OnlyMatchesAdded(p: Params, c: Coding, bits: set<nat>, empty: bool, flags: nat, tx: Tx)
    requires p.nBits > 0
    ensures (forall i :: 0 <= i < |tx.vout| && Added(p, c, bits, empty, flags, tx, i) ==>
               OutputMatches(p, c, bits, tx.vout[i]))
       <==> forall i :: First(p, c, bits, empty, flags, tx) <= i < |tx.vout| && Updatable(flags, tx.vout[i]) ==>
              OutputMatches(p, c, bits, tx.vout[i])
  {
    hide OutputMatches, Updatable, Added, First;
    forall i | 0 <= i < |tx.vout|
      ensures Added(p, c, bits, empty, flags, tx, i) <==>
              First(p, c, bits, empty, flags, tx) <= i && Updatable(flags, tx.vout[i])
    {
      AddedFrom(p, c, bits, empty, flags, tx, i);
    }
  }

  // The second output does not match and is added: the filter then holds its
  // outpoint, which it did not before.
  lemma UnmatchedIsAdded()
    ensures var p, c, tx, bits := ByLength(), Coded(), TwoOutputs(), {3};
            && |tx.hash| == 32 && |c.serial(OutPoint(tx.hash, 1))| == 36
            && |tx.vout| == 2 && !OutputMatches(p, c, bits, tx.vout[1])
            && !p.Holds(bits, c.serial(OutPoint(tx.hash, 1)))
            && p.Holds(BitsAfter(p, c, bits, false, BLOOM_UPDATE_ALL, tx), c.serial(OutPoint(tx.hash, 1)))
  {
    var p, c, tx, bits := ByLength(), Coded(), TwoOutputs(), {3};
    assert ToLe32(1)[0] == 1 && c.serial(OutPoint(tx.hash, 1))[32] == 1;
    HeldAt(bits, [7, 7, 7]);
    HeldAt(bits, [7, 7]);
    HeldAt(bits, c.serial(OutPoint(tx.hash, 1)));
    hide p.Holds, ByLength, ToLe32;
    assert ElementMatches(p, c, bits, tx.vout[0].scriptPubKey[0]);
    assert !OutputMatches(p, c, bits, tx.vout[1]);
    assert Added(p, c, bits, false, BLOOM_UPDATE_ALL, tx, 1) by { assert OutputMatches(p, c, bits, tx.vout[0]); }
    hide Added, Coded;
    BitsUpToGrow(p, c, bits, false, BLOOM_UPDATE_ALL, tx, 2);
  }

  // A filter of one byte. The one position of a short key is its length, and that of
  // an outpoint the low byte of its index.
  function Spot(k: Key): nat { if |k| > 32 then k[32] % 8 else |k| % 8 }

  function ByLength(): Params { Params(8, 1, 0, (n, k: Key) => Spot(k)) }

  function Coded(): Coding { Coding((o: OutPoint) => o.hash + ToLe32(o.n), (k: Key) => []) }

  function TwoOutputs(): Tx {
    Tx(Zeros(32), [], [TxOut([[7, 7, 7]], false), TxOut([[7, 7]], false)], false)
  }

  lemma HeldAt(bits: set<nat>, k: Key)
    ensures ByLength().Holds(bits, k) <==> Spot(k) in bits
  {
    var p := ByLength();
    assert p.Index(0, k) == Spot(k);
    assert p.Indices(k) == {Spot(k)};
  }

  // ---------------------------------------------------------------- the class

  class CBloomFilter {
    const vData: array<Byte>
    var isFull: bool
    var isEmpty: bool
    const nHashFuncs: nat
    const nTweak: nat
    const nFlags: nat
    const H: Murmur

    constructor (nBytes: nat, nHashFuncs: nat, nTweak: nat, nFlags: nat, H: Murmur)
      ensures vData.Length == nBytes && this.nHashFuncs == nHashFuncs && this.nTweak == nTweak && this.nFlags == nFlags
      ensures this.H == H
      ensures fresh(vData) && SetBits() == {} && !isFull && !isEmpty
    {
      this.nHashFuncs, this.nTweak, this.nFlags, this.H := nHashFuncs, nTweak, nFlags, H;
      vData := new Byte[nBytes](_ => 0);
      isFull, isEmpty := false, false;
      new;
      forall n: nat | n < 8 * nBytes
        ensures BitOf(vData[n / 8], n % 8) == 0
      {
        ZeroBits(n % 8);
      }
    }

    function P(): Params { Params(8 * vData.Length, nHashFuncs, nTweak, H) }

    ghost predicate IsSet(n: nat)
      reads vData
      requires n < 8 * vData.Length
    {
      BitOf(vData[n / 8], n % 8) == 1
    }

    ghost function SetBits(): set<nat>
      reads vData
    {
      set n: nat | n < 8 * vData.Length && IsSet(n)
    }

    ghost function View(): State
      reads this, vData
    {
      State(SetBits(), isEmpty)
    }

    // What holds of a filter with data and hash functions once UpdateEmptyFull or
    // clear has seen its data.
    ghost predicate Valid()
      reads this, vData
    {
      && vData.Length > 0 && nHashFuncs > 0
      && (isFull ==> Full(P(), SetBits()))
      && (isEmpty ==> SetBits() == {})
    }

    // The data decides.
    ghost predicate InUse()
      reads this, vData
    {
      vData.Length > 0 && !isFull && !isEmpty
    }

    method Hash(nHashNum: nat, vDataToHash: Key) returns (n: nat)
      requires vData.Length > 0
      ensures n < 8 * vData.Length && n == P().Index(nHashNum, vDataToHash)
    {
      n := H((nHashNum * 0xFBA4C795 + nTweak) % 0x1_0000_0000, vDataToHash) % (vData.Length * 8);
    }

    // Sets one bit.
    method SetBit(nIndex: nat)
      requires nIndex < 8 * vData.Length
      modifies vData
      ensures SetBits() == old(SetBits()) + {nIndex}
    {
      ghost var was := vData[nIndex / 8];
      vData[nIndex / 8] := ToByte(Or(vData[nIndex / 8], Shl(1, nIndex % 8)));
      forall n: nat | n < 8 * vData.Length
        ensures IsSet(n) <==> old(IsSet(n)) || n == nIndex
      {
        if n / 8 == nIndex / 8 {
          BitSet(was, nIndex % 8, n % 8);
        }
      }
    }

    method Insert(vKey: Key)
      requires isFull || vData.Length > 0
      modifies this`isEmpty, vData
      ensures isFull == old(isFull) && (isFull ==> SetBits() == old(SetBits()) && isEmpty == old(isEmpty))
      ensures !isFull ==> vData.Length > 0 && SetBits() == old(SetBits()) + P().Indices(vKey) && !isEmpty
      ensures old(Valid()) ==> Valid() && SetBits() == old(SetBits()) + P().Indices(vKey) && !isEmpty
    {
      if isFull {
        if Valid() {
          assert P().Indices(vKey) <= SetBits() && 0 in SetBits();
        }
        return;
      }
      InsertBits(vKey);
      isEmpty := false;
    }

    // The loop over the hash functions.
    method InsertBits(vKey: Key)
      requires vData.Length > 0
      modifies vData
      ensures SetBits() == old(SetBits()) + P().Indices(vKey)
    {
      ghost var done: set<nat> := {};
      var i := 0;
      while i < nHashFuncs
        invariant 0 <= i <= nHashFuncs && done == set j | 0 <= j < i :: P().Index(j, vKey)
        invariant SetBits() == old(SetBits()) + done
      {
        var nIndex := Hash(i, vKey);
        SetBit(nIndex);
        done := done + {nIndex};
        i := i + 1;
      }
    }

    method Contains(vKey: Key) returns (r: bool)
      requires isFull || isEmpty || vData.Length > 0
      ensures r <==> isFull || (!isEmpty && P().Holds(SetBits(), vKey))
      ensures Valid() ==> (r <==> P().Holds(SetBits(), vKey))
    {
      if isFull {
        return true;
      }
      if isEmpty {
        if Valid() {
          assert P().Index(0, vKey) in P().Indices(vKey);
        }
        return false;
      }
      var i := 0;
      while i < nHashFuncs
        invariant 0 <= i <= nHashFuncs && forall j :: 0 <= j < i ==> P().Index(j, vKey) in SetBits()
      {
        var nIndex := Hash(i, vKey);
        BitTested(vData[nIndex / 8], nIndex % 8);
        if And(vData[nIndex / 8], Shl(1, nIndex % 8)) == 0 {
          assert nIndex in P().Indices(vKey) && nIndex !in SetBits();
          return false;
        }
        i := i + 1;
      }
      return true;
    }

    method Clear()
      modifies this`isFull, this`isEmpty, vData
      ensures SetBits() == {} && isEmpty && !isFull
    {
      forall i | 0 <= i < vData.Length {
        vData[i] := 0;
      }
      forall n: nat | n < 8 * vData.Length
        ensures !IsSet(n)
      {
        ZeroBits(n % 8);
      }
      isFull := false;
      isEmpty := true;
    }

    // Exact whatever the flags were before.
    method UpdateEmptyFull()
      modifies this`isFull, this`isEmpty
      ensures isFull <==> Full(P(), SetBits())
      ensures isEmpty <==> SetBits() == {}
      ensures vData.Length > 0 && nHashFuncs > 0 ==> Valid()
    {
      var full, empty := true, true;
      var i := 0;
      while i < vData.Length
        invariant i <= vData.Length
        invariant full <==> forall n: nat :: n < 8 * i ==> IsSet(n)
        invariant empty <==> forall n: nat :: n < 8 * i ==> !IsSet(n)
      {
        BytesOfOneBit(vData[i]);
        EightMore(i, 1);
        EightMore(i, 0);
        full := full && vData[i] == 0xff;
        empty := empty && vData[i] == 0;
        i := i + 1;
      }
      assert empty ==> SetBits() == {};
      if !empty {
        ghost var n: nat :| n < 8 * vData.Length && IsSet(n);
        assert n in SetBits();
      }
      if !full {
        ghost var n: nat :| n < 8 * vData.Length && !IsSet(n);
        assert 0 <= n < P().nBits && n !in SetBits();
      }
      isFull := full;
      isEmpty := empty;
    }

    // The scan of one output's script; it stops at the first match.
    method ScanOutput(tx: Tx, c: Coding, i: nat, fFound0: bool) returns (fFound: bool)
      requires InUse() && i < |tx.vout|
      modifies this`isEmpty, vData
      ensures InUse()
      ensures fFound <==> fFound0 || OutputMatches(P(), c, old(SetBits()), tx.vout[i])
      ensures var adds := fFound && tx.vout[i].scriptPubKey != [] && Updates(nFlags, tx.vout[i]);
              SetBits() == if adds then old(SetBits()) + P().Indices(c.serial(OutPoint(tx.hash, i))) else old(SetBits())
    {
      hide P().Holds, P().Indices;
      fFound := fFound0;
      var script, pc := tx.vout[i].scriptPubKey, 0;
      while pc < |script|
        invariant pc <= |script| && InUse() && SetBits() == old(SetBits())
        invariant fFound0 ==> pc == 0
        invariant fFound == fFound0 && forall j :: 0 <= j < pc ==> !ElementMatches(P(), c, SetBits(), script[j])
      {
        var data := script[pc];
        if |data| == 33 {
          var dataHash160 := c.hash160(data);
          if dataHash160 != [] {
            var hit := Contains(dataHash160);
            if hit {
              fFound := true;
            }
          }
        }
        if !fFound && |data| != 0 {
          fFound := Contains(data);
        }
        if fFound {
          assert fFound0 || ElementMatches(P(), c, SetBits(), script[pc]);
          if nFlags % 4 == BLOOM_UPDATE_ALL {
            Insert(c.serial(OutPoint(tx.hash, i)));
          } else if nFlags % 4 == BLOOM_UPDATE_P2PUBKEY_ONLY {
            if tx.vout[i].pubKeyOrMultisig {
              Insert(c.serial(OutPoint(tx.hash, i)));
            }
          }
          return;
        }
        pc := pc + 1;
      }
    }

    // The scan of one input's script.
    method ScanInput(txin: TxIn, c: Coding) returns (found: bool)
      requires InUse()
      ensures found <==> InputMatches(P(), c, SetBits(), txin)
    {
      var spends := Contains(c.serial(txin.prevout));
      if spends {
        return true;
      }
      var pc := 0;
      while pc < |txin.scriptSig|
        invariant pc <= |txin.scriptSig|
        invariant forall j :: 0 <= j < pc ==> txin.scriptSig[j] == [] || !P().Holds(SetBits(), txin.scriptSig[j])
      {
        var data := txin.scriptSig[pc];
        if |data| != 0 {
          found := Contains(data);
          if found {
            return;
          }
        }
        pc := pc + 1;
      }
      return false;
    }

    // The flags decide first; what they say is what the data would.
    method IsRelevantAndUpdate(tx: Tx, c: Coding) returns (relevant: bool)
      requires isFull || isEmpty || vData.Length > 0
      modifies this`isEmpty, vData
      ensures isFull == old(isFull) && isEmpty == old(isEmpty)
      ensures isFull || isEmpty ==> relevant == isFull && SetBits() == old(SetBits())
      ensures !isFull && !isEmpty ==>
                && (relevant <==> Relevant(P(), c, old(SetBits()), false, nFlags, tx))
                && SetBits() == BitsAfter(P(), c, old(SetBits()), false, nFlags, tx)
      ensures old(Valid()) ==>
                && Valid() && View() == Step(P(), c, nFlags, old(View()), See(tx))
                && (relevant <==> Relevant(P(), c, old(SetBits()), old(isEmpty), nFlags, tx))
    {
      ghost var p, bits := P(), SetBits();
      if isFull {
        if Valid() {
          FullStays(p, c, bits, isEmpty, nFlags, tx, |tx.vout|);
          FullHolds(p, bits, tx.hash);
        }
        return true;
      }
      if isEmpty {
        if Valid() {
          EmptyStays(p, c, nFlags, tx, |tx.vout|);
        }
        return false;
      }
      var fFound := false;
      var holdsHash := Contains(tx.hash);
      if (nFlags / BLOOM_ACCEPT_STEALTH % 2 == 1 && tx.hasStealthOutput) || holdsHash {
        fFound := true;
      }
      fFound := ScanOutputs(tx, c, fFound);
      if fFound {
        return true;
      }
      relevant := ScanInputs(tx, c);
    }

    // The loop over the outputs.
    method ScanOutputs(tx: Tx, c: Coding, wanted: bool) returns (fFound: bool)
      requires InUse() && (wanted <==> Wanted(P(), SetBits(), false, nFlags, tx))
      modifies this`isEmpty, vData
      ensures InUse()
      ensures SetBits() == BitsAfter(P(), c, old(SetBits()), false, nFlags, tx)
      ensures fFound <==> wanted || exists j :: 0 <= j < |tx.vout| && OutputMatches(P(), c, old(SetBits()), tx.vout[j])
      ensures !fFound ==> SetBits() == old(SetBits())
    {
      hide P().Holds, P().Indices, Wanted, OutputMatches;
      ghost var p, bits := P(), SetBits();
      fFound := wanted;
      var i := 0;
      while i < |tx.vout|
        invariant i <= |tx.vout| && InUse()
        invariant SetBits() == BitsUpTo(p, c, bits, false, nFlags, tx, i)
        invariant fFound <==> wanted || exists j :: 0 <= j < i && OutputMatches(p, c, bits, tx.vout[j])
        invariant !fFound ==> SetBits() == bits
      {
        fFound := ScanOutput(tx, c, i, fFound);
        i := i + 1;
      }
    }

    // The loop over the inputs.
    method ScanInputs(tx: Tx, c: Coding) returns (found: bool)
      requires InUse()
      ensures found <==> exists i :: 0 <= i < |tx.vin| && InputMatches(P(), c, SetBits(), tx.vin[i])
    {
      hide InputMatches;
      var i := 0;
      while i < |tx.vin|
        invariant i <= |tx.vin| && forall j :: 0 <= j < i ==> !InputMatches(P(), c, SetBits(), tx.vin[j])
      {
        found := ScanInput(tx.vin[i], c);
        if found {
          return true;
        }
        i := i + 1;
      }
      return false;
    }

    lemma EightMore(i: nat, b: Bit)
      requires i < vData.Length
      ensures AllBits(vData[i], b) <==> forall n: nat :: 8 * i <= n < 8 * (i + 1) ==> (IsSet(n) <==> b == 1)
    {
      if AllBits(vData[i], b) {
        forall n: nat | 8 * i <= n < 8 * (i + 1)
          ensures IsSet(n) <==> b == 1
        {
          assert n / 8 == i;
        }
      } else {
        var q :| 0 <= q < 8 && BitOf(vData[i], q) != b;
        assert (8 * i + q) / 8 == i && (8 * i + q) % 8 == q;
        assert !(IsSet(8 * i + q) <==> b == 1);
      }
    }
  }

  ghost predicate AllBits(v: Byte, b: Bit) { forall q :: 0 <= q < 8 ==> BitOf(v, q) == b }

  lemma BitSet(v: Byte, k: nat, q: nat)
    requires k < 8 && q < 8
    ensures BitOf(ToByte(Or(v, Shl(1, k))), q) == if q == k then 1 else BitOf(v, q)
  {
    ToByteBit(Or(v, Shl(1, k)), q);
    OrBit(v, Shl(1, k), q);
    OneAt(k, q);
  }

  lemma OneAt(k: nat, q: nat)
    ensures BitOf(Shl(1, k), q) == if q == k then 1 else 0
  {
    ShlBit(1, k, q);
    if q > k {
      ZeroBits(q - k - 1);
    }
  }

  lemma BitTested(v: Byte, k: nat)
    ensures And(v, Shl(1, k)) != 0 <==> BitOf(v, k) == 1
  {
    var n := And(v, Shl(1, k));
    forall q: nat
      ensures BitOf(n, q) == if q == k then BitOf(v, k) else 0
    {
      AndBit(v, Shl(1, k), q);
      OneAt(k, q);
      ZeroTimes(BitOf(v, q));
    }
    if BitOf(v, k) == 0 {
      forall q | q >= 0
        ensures BitOf(n, q) == 0
      {
      }
      BitsAreSmall(n, 0);
    } else {
      ZeroBits(k);
    }
  }

  lemma ZeroTimes(b: Bit)
    ensures b * 0 == 0 && b * 1 == b
  {
  }

  lemma BytesOfOneBit(v: Byte)
    ensures (v == 0xff <==> AllBits(v, 1)) && (v == 0 <==> AllBits(v, 0))
  {
    var full: Byte, none: Byte := 0xff, 0;
    OnesAre();
    forall q | 0 <= q < 8
      ensures BitOf(full, q) == 1 && BitOf(none, q) == 0
    {
      OnesBit(8, q);
      ZeroBits(q);
    }
    if AllBits(v, 1) {
      SameBits(v, full, 8);
    }
    if AllBits(v, 0) {
      SameBits(v, none, 8);
    }
  }

  lemma FullHolds(p: Params, bits: set<nat>, k: Key)
    requires p.nBits > 0 && Full(p, bits)
    ensures p.Holds(bits, k)
  {
  }

  lemma {:induction false} FullStays(p: Params, c: Coding, bits: set<nat>, empty: bool, flags: nat, tx: Tx, n: nat)
    requires p.nBits > 0 && Full(p, bits) && n <= |tx.vout|
    ensures BitsUpTo(p, c, bits, empty, flags, tx, n) == bits
  {
    if n > 0 {
      FullStays(p, c, bits, empty, flags, tx, n - 1);
      FullHolds(p, bits, c.serial(OutPoint(tx.hash, n - 1)));
    }
  }

  // An empty filter holds nothing, so nothing is relevant and nothing is added.
  lemma NothingHeld(p: Params, k: Key)
    requires p.nBits > 0 && p.nHashFuncs > 0
    ensures !p.Holds({}, k)
  {
    assert p.Index(0, k) in p.Indices(k);
  }

  lemma {:induction false} EmptyStays(p: Params, c: Coding, flags: nat, tx: Tx, n: nat)
    requires p.nBits > 0 && p.nHashFuncs > 0 && n <= |tx.vout|
    ensures BitsUpTo(p, c, {}, true, flags, tx, n) == {} && !Relevant(p, c, {}, true, flags, tx)
    decreases n
  {
    forall k: Key
      ensures !p.Holds({}, k)
    {
      NothingHeld(p, k);
    }
    hide p.Holds;
    if n > 0 {
      EmptyStays(p, c, flags, tx, n - 1);
    }
  }
}
