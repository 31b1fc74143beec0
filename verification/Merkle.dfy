// CBlock's Merkle tree: a flat array of levels, the branch of a leaf, and the
// check of a branch.
module Merkle {
  import opened Arithmetic

  type Hash = nat

  // Hash of two hashes, one after the other.
  type Pairing = (Hash, Hash) -> Hash

  // ---------------------------------------------------------------- the tree

  // An odd one out is paired with itself.
  function Paired(H: Pairing, level: seq<Hash>, i: nat): Hash
    requires 2 * i < |level|
  {
    H(level[2 * i], level[Min(2 * i + 1, |level| - 1)])
  }

  // The level above.
  function Up(H: Pairing, level: seq<Hash>): (r: seq<Hash>)
    ensures |r| == (|level| + 1) / 2
    ensures forall i {:trigger r[i]} :: 0 <= i < |r| ==> r[i] == Paired(H, level, i)
  {
    seq((|level| + 1) / 2, i requires 0 <= i < (|level| + 1) / 2 => Paired(H, level, i))
  }

  // All levels, one after the other, the leaves first.
  function Flat(H: Pairing, level: seq<Hash>): seq<Hash>
    decreases |level|
  {
    if |level| <= 1 then level else level + Flat(H, Up(H, level))
  }

  function Root(H: Pairing, level: seq<Hash>): Hash
    requires level != []
    decreases |level|
  {
    if |level| == 1 then level[0] else Root(H, Up(H, level))
  }

  function Height(n: nat): nat { if n <= 1 then 0 else 1 + Height((n + 1) / 2) }

  // The number of nodes at a given height.
  function CalcTreeWidth(nTransactions: nat, height: nat): nat {
    PowPositive(2, height);
    (nTransactions + Pow(2, height) - 1) / Pow(2, height)
  }

  lemma WidthStep(n: nat, h: nat)
    ensures CalcTreeWidth(n, 0) == n && CalcTreeWidth(n, h + 1) == (CalcTreeWidth(n, h) + 1) / 2
  {
    PowPositive(2, h);
    WidthOfLeaves(n);
    HalvedUp(n, Pow(2, h));
  }

  lemma WidthOfLeaves(n: nat)
    ensures CalcTreeWidth(n, 0) == n
  {
  }

  // Dividing by 2 p, rounding up, is dividing by p and then by two.
  lemma HalvedUp(n: nat, p: nat)
    requires p > 0
    ensures (n + 2 * p - 1) / (2 * p) == ((n + p - 1) / p + 1) / 2
  {
    var w, r := (n + p - 1) / p, (n + p - 1) % p;
    Divided(n + p - 1, p);
    var q, s := (w + 1) / 2, (w + 1) % 2;
    Regroup(p, w, q, s, r);
    OddOne(p, s, r);
    DivMod(2 * p, q, s * p + r);
  }

  lemma OddOne(p: nat, s: nat, r: nat)
    requires s <= 1 && r < p
    ensures 0 <= s * p + r < 2 * p
  {
    if s == 0 {
      assert s * p == 0;
    } else {
      assert s * p == p;
    }
  }

  lemma Regroup(p: nat, w: nat, q: nat, s: nat, r: nat)
    requires w + 1 == 2 * q + s
    ensures p * w + r + p == (2 * p) * q + (s * p + r)
  {
    assert p * w + p == p * (w + 1) == p * (2 * q + s);
  }

  // The node of the tree over leaves at a height and position.
  function Node(H: Pairing, leaves: seq<Hash>, h: nat, pos: nat): Hash
    requires pos < CalcTreeWidth(|leaves|, h)
    decreases h
  {
    WidthStep(|leaves|, if h == 0 then 0 else h - 1);
    if h == 0 then leaves[pos]
    else H(Node(H, leaves, h - 1, 2 * pos),
           Node(H, leaves, h - 1, Min(2 * pos + 1, CalcTreeWidth(|leaves|, h - 1) - 1)))
  }

  function LevelAt(H: Pairing, leaves: seq<Hash>, h: nat): seq<Hash>
    decreases h
  {
    if h == 0 then leaves else Up(H, LevelAt(H, leaves, h - 1))
  }

  lemma {:induction false} LevelWidth(H: Pairing, leaves: seq<Hash>, h: nat)
    ensures |LevelAt(H, leaves, h)| == CalcTreeWidth(|leaves|, h)
    decreases h
  {
    hide CalcTreeWidth;
    WidthStep(|leaves|, if h == 0 then 0 else h - 1);
    if h > 0 {
      LevelWidth(H, leaves, h - 1);
    }
  }

  lemma {:induction false} LevelIsNodes(H: Pairing, leaves: seq<Hash>, h: nat, pos: nat)
    requires pos < CalcTreeWidth(|leaves|, h)
    ensures |LevelAt(H, leaves, h)| == CalcTreeWidth(|leaves|, h)
    ensures LevelAt(H, leaves, h)[pos] == Node(H, leaves, h, pos)
    decreases h
  {
    hide CalcTreeWidth;
    LevelWidth(H, leaves, h);
    if h > 0 {
      WidthStep(|leaves|, h - 1);
      LevelIsNodes(H, leaves, h - 1, 2 * pos);
      LevelIsNodes(H, leaves, h - 1, Min(2 * pos + 1, CalcTreeWidth(|leaves|, h - 1) - 1));
    }
  }

  // Where a level starts in the flat array.
  function Offset(n: nat, h: nat): nat { if h == 0 then 0 else Offset(n, h - 1) + CalcTreeWidth(n, h - 1) }

  lemma {:induction false} FlatFrom(H: Pairing, leaves: seq<Hash>, h: nat)
    requires leaves != [] && h <= Height(|leaves|)
    ensures var level := LevelAt(H, leaves, h);
            && level != [] && |level| == CalcTreeWidth(|leaves|, h) && Height(|level|) == Height(|leaves|) - h
            && |Flat(H, leaves)| == Offset(|leaves|, h) + |Flat(H, level)|
            && Flat(H, leaves)[Offset(|leaves|, h)..] == Flat(H, level)
            && Root(H, level) == Root(H, leaves)
    decreases h
  {
    hide CalcTreeWidth;
    WidthStep(|leaves|, 0);
    LevelWidth(H, leaves, h);
    if h > 0 {
      FlatFrom(H, leaves, h - 1);
      WidthStep(|leaves|, h - 1);
      var level := LevelAt(H, leaves, h - 1);
      var all, at := Flat(H, leaves), Offset(|leaves|, h - 1);
      assert all[at..] == level + Flat(H, Up(H, level));
      assert all[at + |level|..] == all[at..][|level|..];
    }
  }

  // The flat array is the tree: node by node, level by level, as wide as
  // CalcTreeWidth says, the root last.
  lemma FlatIsTree(H: Pairing, leaves: seq<Hash>, h: nat, pos: nat)
    requires leaves != [] && h <= Height(|leaves|) && pos < CalcTreeWidth(|leaves|, h)
    ensures Offset(|leaves|, h) + pos < |Flat(H, leaves)|
    ensures Flat(H, leaves)[Offset(|leaves|, h) + pos] == Node(H, leaves, h, pos)
    ensures CalcTreeWidth(|leaves|, Height(|leaves|)) == 1
    ensures Root(H, leaves) == Node(H, leaves, Height(|leaves|), 0) == Flat(H, leaves)[|Flat(H, leaves)| - 1]
  {
    FlatFrom(H, leaves, h);
    LevelIsNodes(H, leaves, h, pos);
    var level := LevelAt(H, leaves, h);
    assert Flat(H, level)[..|level|] == level;
    assert Flat(H, leaves)[Offset(|leaves|, h)..][pos] == level[pos];
    RootIsTop(H, leaves);
  }

  lemma RootIsTop(H: Pairing, leaves: seq<Hash>)
    requires leaves != []
    ensures CalcTreeWidth(|leaves|, Height(|leaves|)) == 1
    ensures Root(H, leaves) == Node(H, leaves, Height(|leaves|), 0) == Flat(H, leaves)[|Flat(H, leaves)| - 1]
  {
    var top := Height(|leaves|);
    FlatFrom(H, leaves, top);
    var level := LevelAt(H, leaves, top);
    OneLeft(|level|);
    LevelIsNodes(H, leaves, top, 0);
    assert Flat(H, leaves)[Offset(|leaves|, top)..][0] == level[0];
  }

  lemma OneLeft(n: nat)
    requires n > 0 && Height(n) == 0
    ensures n == 1
  {
  }

  // ---------------------------------------------------------------- branches

  function Sibling(i: nat): nat { if i % 2 == 0 then i + 1 else i - 1 }

  function Branch(H: Pairing, level: seq<Hash>, nIndex: nat): (b: seq<Hash>)
    ensures |b| == Height(|level|)
    decreases |level|
  {
    if |level| <= 1 then [] else [level[Min(Sibling(nIndex), |level| - 1)]] + Branch(H, Up(H, level), nIndex / 2)
  }

  function Climb(H: Pairing, hash: Hash, branch: seq<Hash>, nIndex: int): Hash
    decreases |branch|
  {
    if branch == [] then hash
    else Climb(H, if nIndex % 2 == 1 then H(branch[0], hash) else H(hash, branch[0]), branch[1..], nIndex / 2)
  }

  // The branch of every leaf leads to the root.
  lemma {:induction false} BranchChecks(H: Pairing, level: seq<Hash>, i: nat)
    requires i < |level|
    ensures Climb(H, level[i], Branch(H, level, i), i) == Root(H, level)
    decreases |level|
  {
    hide Up;
    if |level| > 1 {
      UpAt(H, level, i / 2);
      BranchChecks(H, Up(H, level), i / 2);
      assert Branch(H, level, i)[1..] == Branch(H, Up(H, level), i / 2);
    }
  }

  lemma UpAt(H: Pairing, level: seq<Hash>, i: nat)
    requires 2 * i < |level|
    ensures i < |Up(H, level)| == (|level| + 1) / 2 && Up(H, level)[i] == Paired(H, level, i)
  {
  }

  ghost predicate Injective(H: Pairing) {
    forall a, b, c, d :: H(a, b) == H(c, d) ==> a == c && b == d
  }

  // When pairs hash injectively, a branch of the tree's height that leads from
  // a hash to the root at index i is the branch of leaf i, and the hash is that leaf.
  lemma {:induction false} OnlyTheBranchChecks(H: Pairing, level: seq<Hash>, i: nat, hash: Hash, branch: seq<Hash>)
    requires Injective(H) && i < |level| && |branch| == Height(|level|)
    ensures Climb(H, hash, branch, i) == Root(H, level) <==> hash == level[i] && branch == Branch(H, level, i)
    decreases |level|
  {
    if |level| > 1 {
      OneLevel(H, level, i, hash, branch[0]);
      hide Injective, Paired;
      var up := Up(H, level);
      var next := if i % 2 == 1 then H(branch[0], hash) else H(hash, branch[0]);
      OnlyTheBranchChecks(H, up, i / 2, next, branch[1..]);
      assert branch == [branch[0]] + branch[1..];
      var b := Branch(H, level, i);
      assert b[0] == level[Min(Sibling(i), |level| - 1)] && b[1..] == Branch(H, up, i / 2) && b == [b[0]] + b[1..];
    }
  }

  lemma OneLevel(H: Pairing, level: seq<Hash>, i: nat, hash: Hash, other: Hash)
    requires Injective(H) && i < |level| && |level| > 1
    ensures (if i % 2 == 1 then H(other, hash) else H(hash, other)) == Up(H, level)[i / 2] <==>
              hash == level[i] && other == level[Min(Sibling(i), |level| - 1)]
  {
    assert Up(H, level)[i / 2] == Paired(H, level, i / 2) == H(level[2 * (i / 2)],
                                                               level[Min(2 * (i / 2) + 1, |level| - 1)]);
  }

  // The root binds the transactions, among lists of one length.
  lemma {:induction false} RootBinds(H: Pairing, xs: seq<Hash>, ys: seq<Hash>)
    requires Injective(H) && |xs| == |ys| > 0
    ensures Root(H, xs) == Root(H, ys) <==> xs == ys
    decreases |xs|
  {
    if |xs| > 1 && Root(H, xs) == Root(H, ys) {
      RootBinds(H, Up(H, xs), Up(H, ys));
      forall i | 0 <= i < |xs|
        ensures xs[i] == ys[i]
      {
        assert Up(H, xs)[i / 2] == Up(H, ys)[i / 2];
      }
    }
  }

  // Not among lists of different lengths: repeating an odd last transaction
  // leaves the root as it was.
  lemma RepeatedLast(H: Pairing, xs: seq<Hash>)
    requires |xs| % 2 == 1 && |xs| > 1
    ensures Root(H, xs + [xs[|xs| - 1]]) == Root(H, xs)
    ensures Climb(H, xs[|xs| - 1], Branch(H, xs, |xs|), |xs|) == Root(H, xs)
  {
    UpRepeated(H, xs);
    var up, n := Up(H, xs), |xs|;
    BranchChecks(H, up, n / 2);
    var b := Branch(H, xs, n);
    assert b[0] == xs[n - 1] && b[1..] == Branch(H, up, n / 2);
    assert up[n / 2] == Paired(H, xs, n / 2) == H(xs[n - 1], xs[n - 1]);
    hide Root, Up, Branch;
  }

  lemma UpRepeated(H: Pairing, xs: seq<Hash>)
    requires |xs| % 2 == 1
    ensures Up(H, xs + [xs[|xs| - 1]]) == Up(H, xs)
  {
    var ys := xs + [xs[|xs| - 1]];
    forall i | 0 <= i < |Up(H, xs)|
      ensures Up(H, ys)[i] == Up(H, xs)[i]
    {
      assert Paired(H, ys, i) == Paired(H, xs, i);
    }
  }

  // ---------------------------------------------------------------- CBlock

  class Block {
    const H: Pairing
    var vtx: seq<Hash>
    var vMerkleTree: seq<Hash>

    constructor (H: Pairing, vtx: seq<Hash>)
      ensures this.H == H && this.vtx == vtx && Valid()
    {
      this.H, this.vtx, vMerkleTree := H, vtx, [];
    }

    // The cached tree, if there is one, is that of the transactions.
    ghost predicate Valid()
      reads this
    {
      vMerkleTree == [] || vMerkleTree == Flat(H, vtx)
    }

    method BuildMerkleTree() returns (root: Hash)
      modifies this`vMerkleTree
      ensures Valid() && vMerkleTree == Flat(H, vtx)
      ensures root == if vtx == [] then 0 else Root(H, vtx)
    {
      hide Flat, Up, Root;
      vMerkleTree := vtx;
      var j := 0;
      var nSize := |vtx|;
      ghost var level := vtx;
      assert [] + vtx == vtx;
      while nSize > 1
        invariant nSize == |level| && j >= 0 && |vMerkleTree| == j + nSize && vMerkleTree[j..] == level
        invariant (nSize == 0 <==> vtx == []) && (nSize > 0 ==> Root(H, level) == Root(H, vtx))
        invariant vMerkleTree[..j] + Flat(H, level) == Flat(H, vtx)
        decreases nSize
      {
        ghost var was := vMerkleTree;
        LevelsUp(H, level);
        AddLevel(j, nSize);
        assert was == was[..j] + level;
        assert was[..j] + (level + Flat(H, Up(H, level))) == was + Flat(H, Up(H, level));
        j := j + nSize;
        nSize, level := (nSize + 1) / 2, Up(H, level);
      }
      TopLevel(H, level);
      assert vMerkleTree == vMerkleTree[..j] + vMerkleTree[j..];
      if vtx != [] {
        assert vMerkleTree[|vMerkleTree| - 1] == vMerkleTree[j..][0];
      }
      root := if vMerkleTree == [] then 0 else vMerkleTree[|vMerkleTree| - 1];
    }

    // The inner loop: one level more.
    method AddLevel(j: nat, nSize: nat)
      requires j + nSize == |vMerkleTree|
      modifies this`vMerkleTree
      ensures vMerkleTree == old(vMerkleTree) + Up(H, old(vMerkleTree[j..]))
    {
      ghost var was, level := vMerkleTree, vMerkleTree[j..];
      var i := 0;
      while i < nSize
        invariant 0 <= i <= nSize + 1 && i % 2 == 0
        invariant vMerkleTree == was + Up(H, level)[..i / 2]
      {
        var i2 := Min(i + 1, nSize - 1);
        assert vMerkleTree[j + i] == level[i] && vMerkleTree[j + i2] == level[i2];
        assert Up(H, level)[i / 2] == Paired(H, level, i / 2);
        assert Up(H, level)[..i / 2 + 1] == Up(H, level)[..i / 2] + [Up(H, level)[i / 2]];
        vMerkleTree := vMerkleTree + [H(vMerkleTree[j + i], vMerkleTree[j + i2])];
        i := i + 2;
      }
      assert Up(H, level)[..i / 2] == Up(H, level);
    }

    method GetMerkleBranch(nIndex0: nat) returns (vMerkleBranch: seq<Hash>)
      requires Valid()
      modifies this`vMerkleTree
      ensures Valid() && vMerkleBranch == Branch(H, vtx, nIndex0)
    {
      hide Flat, Branch, Up, Root, Height;
      if vMerkleTree == [] {
        var _ := BuildMerkleTree();
      }
      vMerkleBranch := [];
      var nIndex, j, nSize := nIndex0, 0, |vtx|;
      ghost var level := vtx;
      assert [] + Branch(H, vtx, nIndex0) == Branch(H, vtx, nIndex0);
      while nSize > 1
        invariant nSize == |level| && 0 <= j && 0 <= nIndex && j <= |vMerkleTree| && vMerkleTree[j..] == Flat(H, level)
        invariant vMerkleTree == Flat(H, vtx) && vMerkleBranch + Branch(H, level, nIndex) == Branch(H, vtx, nIndex0)
        decreases nSize
      {
        var i := Min(if nIndex % 2 == 0 then nIndex + 1 else nIndex - 1, nSize - 1);
        LevelOfTree(H, vMerkleTree, j, level, nIndex);
        ghost var rest := Branch(H, Up(H, level), nIndex / 2);
        assert vMerkleBranch + ([level[i]] + rest) == vMerkleBranch + [level[i]] + rest;
        vMerkleBranch := vMerkleBranch + [vMerkleTree[j + i]];
        nIndex := nIndex / 2;
        j := j + nSize;
        nSize, level := (nSize + 1) / 2, Up(H, level);
      }
      BranchOfRoot(H, level, nIndex);
      assert vMerkleBranch + [] == vMerkleBranch;
    }
  }

  lemma LevelsUp(H: Pairing, level: seq<Hash>)
    requires |level| > 1
    ensures |Up(H, level)| == (|level| + 1) / 2 && Root(H, level) == Root(H, Up(H, level))
    ensures Flat(H, level) == level + Flat(H, Up(H, level))
  {
  }

  lemma TopLevel(H: Pairing, level: seq<Hash>)
    requires |level| <= 1
    ensures Flat(H, level) == level && (level != [] ==> Root(H, level) == level[0])
  {
  }

  // A level of the tree, in the flat array at j, and what is left above it.
  lemma LevelOfTree(H: Pairing, tree: seq<Hash>, j: nat, level: seq<Hash>, nIndex: nat)
    requires |level| > 1 && j <= |tree| && tree[j..] == Flat(H, level)
    ensures var i := Min(Sibling(nIndex), |level| - 1);
            && j + |level| <= |tree| && tree[j + i] == level[i] && tree[j + |level|..] == Flat(H, Up(H, level))
            && |Up(H, level)| == (|level| + 1) / 2
            && Branch(H, level, nIndex) == [level[i]] + Branch(H, Up(H, level), nIndex / 2)
  {
    assert tree[j..] == level + Flat(H, Up(H, level));
    assert tree[j + |level|..] == tree[j..][|level|..];
    var i := Min(Sibling(nIndex), |level| - 1);
    assert tree[j + i] == tree[j..][i];
  }

  lemma BranchOfRoot(H: Pairing, level: seq<Hash>, nIndex: nat)
    requires |level| <= 1
    ensures Branch(H, level, nIndex) == []
  {
  }

  method CheckMerkleBranch(H: Pairing, hash0: Hash, vMerkleBranch: seq<Hash>, nIndex0: int) returns (hash: Hash)
    ensures hash == if nIndex0 == -1 then 0 else Climb(H, hash0, vMerkleBranch, nIndex0)
  {
    if nIndex0 == -1 {
      return 0;
    }
    hash := hash0;
    var nIndex, k := nIndex0, 0;
    while k < |vMerkleBranch|
      invariant k <= |vMerkleBranch|
      invariant Climb(H, hash, vMerkleBranch[k..], nIndex) == Climb(H, hash0, vMerkleBranch, nIndex0)
    {
      var otherside := vMerkleBranch[k];
      assert vMerkleBranch[k..][1..] == vMerkleBranch[k + 1..];
      hash := if nIndex % 2 == 1 then H(otherside, hash) else H(hash, otherside);
      nIndex := nIndex / 2;
      k := k + 1;
    }
  }
}
