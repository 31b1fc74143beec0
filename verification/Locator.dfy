// CBlockLocator: hashes of a chain at growing distances from its tip, and where
// a peer finds the first of them it shares.
module Locator {
  import opened Arithmetic

  type Hash = nat

  datatype Index = Index(hash: Hash, inMainChain: bool)

  // Blocks between entry k of a locator and the next.
  function Step(k: nat): (s: nat)
    ensures s > 0
  {
    if k < 11 then 1 else 2 * Step(k - 1)
  }

  // How far below the tip entry k is.
  function Depth(k: nat): (d: nat)
    ensures d >= k
  {
    if k == 0 then 0 else Depth(k - 1) + Step(k - 1)
  }

  // The entries from number k on; chain runs from the genesis block to the tip.
  function From(chain: seq<Hash>, k: nat): seq<Hash>
    decreases if Depth(k) < |chain| then |chain| - Depth(k) else 0
  {
    if Depth(k) < |chain| then [chain[|chain| - 1 - Depth(k)]] + From(chain, k + 1) else []
  }

  function Entries(chain: seq<Hash>, genesis: Hash): seq<Hash> { From(chain, 0) + [genesis] }

  // ---------------------------------------------------------------- what the depths are

  lemma {:induction false} DepthIs(k: nat)
    ensures k <= 11 ==> Depth(k) == k
    ensures k >= 10 ==> Step(k) == Pow(2, k - 10) && Depth(k) == 9 + Pow(2, k - 10)
    decreases k
  {
    if k > 0 {
      DepthIs(k - 1);
    }
  }

  // Past eleven, the next entry is not quite twice as deep: from anything deeper
  // than entry k - 1, entry k is at most 2 f - 11 deep.
  lemma NextDepth(k: nat, f: nat)
    requires k > 0 && Depth(k - 1) < f <= Depth(k)
    ensures f <= 11 ==> Depth(k) == f
    ensures f > 11 ==> Depth(k) <= 2 * f - 11
  {
    DepthIs(k);
    DepthIs(k - 1);
  }

  // That bound is met.
  lemma BoundIsMet(k: nat)
    requires k > 11
    ensures var f := Depth(k - 1) + 1; f > 11 && Depth(k) == 2 * f - 11
  {
    DepthIs(k);
    DepthIs(k - 1);
  }

  lemma {:induction false} DepthGrows(j: nat, k: nat)
    requires j < k
    ensures Depth(j) < Depth(k)
    decreases k
  {
    if j < k - 1 {
      DepthGrows(j, k - 1);
    }
  }

  lemma {:induction false} FromAt(chain: seq<Hash>, k: nat, i: nat)
    ensures i < |From(chain, k)| <==> Depth(k + i) < |chain|
    ensures i < |From(chain, k)| ==> From(chain, k)[i] == chain[|chain| - 1 - Depth(k + i)]
    decreases i
  {
    if i > 0 {
      FromAt(chain, k + 1, i - 1);
      DepthGrows(k, k + i);
    }
  }

  // ---------------------------------------------------------------- the first hit

  predicate Hits(mapBlockIndex: map<Hash, Index>, hash: Hash) {
    hash in mapBlockIndex && mapBlockIndex[hash].inMainChain
  }

  function FirstHit(mapBlockIndex: map<Hash, Index>, vHave: seq<Hash>): (j: nat)
    ensures j <= |vHave| && (j < |vHave| ==> Hits(mapBlockIndex, vHave[j]))
    ensures forall i :: 0 <= i < j ==> !Hits(mapBlockIndex, vHave[i])
  {
    if vHave == [] || Hits(mapBlockIndex, vHave[0]) then 0 else 1 + FirstHit(mapBlockIndex, vHave[1..])
  }

  // The sender's chain leaves the peer's main chain f blocks below the tip.
  ghost predicate Forks(chain: seq<Hash>, mapBlockIndex: map<Hash, Index>, f: nat) {
    f < |chain| && forall i :: 0 <= i < |chain| ==> (Hits(mapBlockIndex, chain[i]) <==> i + f < |chain|)
  }

  // The peer's first hit is the fork itself if that is no deeper than eleven
  // blocks; otherwise at most 2 f - 11 blocks deep, or the genesis block that ends
  // the locator. No block above the fork is ever hit.
  lemma HitIsNear(chain: seq<Hash>, mapBlockIndex: map<Hash, Index>, f: nat)
    requires Forks(chain, mapBlockIndex, f)
    ensures var v := Entries(chain, chain[0]);
            var j := FirstHit(mapBlockIndex, v);
            && j < |v|
            && (j < |v| - 1 ==>
                 && f <= Depth(j) < |chain| && v[j] == chain[|chain| - 1 - Depth(j)]
                 && (f <= 11 ==> Depth(j) == f) && (f > 11 ==> Depth(j) <= 2 * f - 11))
            && (j == |v| - 1 ==> v[j] == chain[0] && f > 11 && (j > 0 ==> Depth(j - 1) < f))
  {
    hide From, Depth, Step, Hits;
    var v, regular := Entries(chain, chain[0]), From(chain, 0);
    var j := FirstHit(mapBlockIndex, v);
    var last := |chain| - 1;
    assert v[|regular|] == chain[0] && Hits(mapBlockIndex, chain[0]);
    ShallowIs(j);
    if j > 0 {
      FromAt(chain, 0, j - 1);
      assert v[j - 1] == regular[j - 1] == chain[last - Depth(j - 1)];
    }
    FromAt(chain, 0, j);
    if j < |regular| {
      assert v[j] == regular[j];
      if j > 0 {
        NextDepth(j, f);
      }
    } else {
      assert Depth(j) > last >= f;
    }
  }

  lemma ShallowIs(j: nat)
    ensures Depth(0) == 0 && (j > 0 ==> if Depth(j) > 11 then Depth(j - 1) >= 11 else Depth(j - 1) == Depth(j) - 1)
  {
    DepthIs(j);
    if j > 0 {
      DepthIs(j - 1);
    }
  }

  // ---------------------------------------------------------------- the class

  class CBlockLocator {
    var vHave: seq<Hash>

    constructor ()
      ensures vHave == []
    {
      vHave := [];
    }

    method Set(chain: seq<Hash>, genesis: Hash)
      modifies this
      ensures vHave == Entries(chain, genesis)
    {
      vHave := [];
      var nStep := 1;
      var pindex := |chain| - 1;  // -1 stands for a null pointer
      assert [] + From(chain, 0) == From(chain, 0);
      while pindex >= 0
        invariant -1 <= pindex < |chain| && nStep == Step(|vHave|)
        invariant pindex == if Depth(|vHave|) < |chain| then |chain| - 1 - Depth(|vHave|) else -1
        invariant vHave + From(chain, |vHave|) == From(chain, 0)
        decreases pindex
      {
        ghost var k, was := |vHave|, pindex;
        assert vHave + ([chain[pindex]] + From(chain, k + 1)) == vHave + [chain[pindex]] + From(chain, k + 1);
        vHave := vHave + [chain[pindex]];
        var i := 0;
        while pindex >= 0 && i < nStep
          invariant 0 <= i <= nStep && pindex == (if was - i >= 0 then was - i else -1)
          decreases nStep - i
        {
          pindex := pindex - 1;
          i := i + 1;
        }
        if |vHave| > 10 {
          nStep := nStep * 2;
        }
      }
      assert From(chain, |vHave|) == [] && vHave + [] == vHave;
      vHave := vHave + [genesis];
    }

    method SetThin(fromHash: Hash, genesis: Hash)
      modifies this
      ensures vHave == [fromHash, genesis]
    {
      vHave := [];
      vHave := vHave + [fromHash];
      vHave := vHave + [genesis];
    }

    // The depth of the first hit, as long as that is a regular entry.
    method GetDistanceBack(mapBlockIndex: map<Hash, Index>) returns (nDistance: nat)
      ensures nDistance == Depth(FirstHit(mapBlockIndex, vHave))
    {
      nDistance := 0;
      var nStep, k := 1, 0;
      while k < |vHave|
        invariant k <= |vHave| && nDistance == Depth(k) && nStep == Step(k)
        invariant forall i :: 0 <= i < k ==> !Hits(mapBlockIndex, vHave[i])
      {
        var hash := vHave[k];
        if hash in mapBlockIndex {
          var pindex := mapBlockIndex[hash];
          if pindex.inMainChain {
            FirstIs(mapBlockIndex, vHave, k);
            return nDistance;
          }
        }
        DepthPasses(k);
        nDistance := nDistance + nStep;
        if nDistance > 10 {
          nStep := nStep * 2;
        }
        k := k + 1;
      }
      FirstIs(mapBlockIndex, vHave, k);
    }

    method GetBlockIndex(mapBlockIndex: map<Hash, Index>, pindexGenesisBlock: Index) returns (pindex: Index)
      ensures var j := FirstHit(mapBlockIndex, vHave);
              pindex == if j < |vHave| then mapBlockIndex[vHave[j]] else pindexGenesisBlock
    {
      var k := 0;
      while k < |vHave|
        invariant k <= |vHave| && forall i :: 0 <= i < k ==> !Hits(mapBlockIndex, vHave[i])
      {
        var hash := vHave[k];
        if hash in mapBlockIndex {
          pindex := mapBlockIndex[hash];
          if pindex.inMainChain {
            FirstIs(mapBlockIndex, vHave, k);
            return;
          }
        }
        k := k + 1;
      }
      FirstIs(mapBlockIndex, vHave, k);
      return pindexGenesisBlock;
    }
  }

  lemma FirstIs(mapBlockIndex: map<Hash, Index>, vHave: seq<Hash>, j: nat)
    requires j <= |vHave| && (j < |vHave| ==> Hits(mapBlockIndex, vHave[j]))
    requires forall i :: 0 <= i < j ==> !Hits(mapBlockIndex, vHave[i])
    ensures FirstHit(mapBlockIndex, vHave) == j
  {
  }

  lemma DepthPasses(k: nat)
    ensures Depth(k) + Step(k) > 10 <==> k + 1 > 10
  {
    DepthIs(k);
    DepthIs(k + 1);
  }

  // What a peer makes of a locator from a chain that left its own f blocks back.
  method Locate(chain: seq<Hash>, mapBlockIndex: map<Hash, Index>, pindexGenesisBlock: Index, ghost f: nat)
    returns (pindex: Index, nDistance: nat)
    requires Forks(chain, mapBlockIndex, f)
    ensures nDistance >= f && (f <= 11 ==> nDistance == f)
    ensures var hit := chain[if nDistance < |chain| then |chain| - 1 - nDistance else 0];
            Hits(mapBlockIndex, hit) && pindex == mapBlockIndex[hit]
    ensures nDistance < |chain| && f > 11 ==> nDistance <= 2 * f - 11
  {
    var locator := new CBlockLocator();
    locator.Set(chain, chain[0]);
    pindex := locator.GetBlockIndex(mapBlockIndex, pindexGenesisBlock);
    nDistance := locator.GetDistanceBack(mapBlockIndex);
    HitIsNear(chain, mapBlockIndex, f);
    FromAt(chain, 0, FirstHit(mapBlockIndex, locator.vHave));
  }

  // What a peer that has the genesis block makes of a thin client's locator: the
  // block asked from, or the genesis block, which it takes to be one block back
  // however far back it is.
  method LocateThin(fromHash: Hash, genesis: Hash, mapBlockIndex: map<Hash, Index>, pindexGenesisBlock: Index)
    returns (pindex: Index, nDistance: nat)
    requires Hits(mapBlockIndex, genesis)
    ensures if Hits(mapBlockIndex, fromHash) then pindex == mapBlockIndex[fromHash] && nDistance == 0
            else pindex == mapBlockIndex[genesis] && nDistance == 1
  {
    var locator := new CBlockLocator();
    locator.SetThin(fromHash, genesis);
    pindex := locator.GetBlockIndex(mapBlockIndex, pindexGenesisBlock);
    nDistance := locator.GetDistanceBack(mapBlockIndex);
    FirstIs(mapBlockIndex, locator.vHave, if Hits(mapBlockIndex, fromHash) then 0 else 1);
    DepthIs(1);
  }
}
