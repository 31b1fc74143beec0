// The stake modifier: sixty-four rounds, each choosing one block out of a
// window of the chain, each block giving one bit.
module StakeModifier {
  import opened Arithmetic
  import opened Bits
  import opened Options
  import opened Sequences
  import opened Sorting

  const MODIFIER_INTERVAL: nat := 600
  const MODIFIER_INTERVAL_RATIO: nat := 3

  datatype Index = Index(nTime: nat, hash: nat, hashProof: nat, proofOfStake: bool, entropyBit: Bit,
                         nStakeModifier: nat, generated: bool)

  datatype Candidate = Candidate(time: nat, hash: nat)

  // Hash of a proof hash and the previous modifier.
  type Hashing = (nat, nat) -> nat

  // ---------------------------------------------------------------- intervals

  function GetStakeModifierSelectionIntervalSection(nSection: nat): nat
    requires nSection < 64
  {
    MODIFIER_INTERVAL * 63 / (63 + (63 - nSection) * (MODIFIER_INTERVAL_RATIO - 1))
  }

  // Section r is the whole part of 600 * 63 / (189 - 2 r).
  lemma SectionIs(r: nat)
    requires r < 64
    ensures var s := GetStakeModifierSelectionIntervalSection(r);
            s * (189 - 2 * r) <= 600 * 63 < (s + 1) * (189 - 2 * r)
  {
    Divided(600 * 63, 189 - 2 * r);
    Commutes(GetStakeModifierSelectionIntervalSection(r), 189 - 2 * r);
  }

  lemma Commutes(a: nat, b: nat)
    ensures a * b == b * a && (a + 1) * b == b * a + b
  {
  }

  // Sections grow from a third of the interval to the whole of it.
  lemma SectionsGrow(r: nat, q: nat)
    requires r <= q < 64
    ensures GetStakeModifierSelectionIntervalSection(r) <= GetStakeModifierSelectionIntervalSection(q)
    ensures GetStakeModifierSelectionIntervalSection(0) == MODIFIER_INTERVAL / MODIFIER_INTERVAL_RATIO == 200
    ensures GetStakeModifierSelectionIntervalSection(63) == MODIFIER_INTERVAL == 600
  {
    hide GetStakeModifierSelectionIntervalSection;
    SectionIs(r);
    SectionIs(q);
    SectionIs(0);
    SectionIs(63);
    var s, z := GetStakeModifierSelectionIntervalSection(r), GetStakeModifierSelectionIntervalSection(q);
    SmallerFits(s, z, 189 - 2 * r, 189 - 2 * q, 600 * 63);
  }

  lemma SmallerFits(s: nat, z: nat, d: nat, e: nat, n: nat)
    requires 0 < e <= d && s * d <= n < (z + 1) * e
    ensures s <= z
  {
    if s > z {
      MoreThan(z + 1, s, e, d);
    }
  }

  lemma MoreThan(a: nat, b: nat, c: nat, d: nat)
    requires a <= b && c <= d
    ensures a * c <= b * d
  {
    assert b * d == a * c + a * (d - c) + (b - a) * d;
    NonNegative(a, d - c);
    NonNegative(b - a, d);
  }

  // The sum of the first n sections.
  function Sections(n: nat): nat
    requires n <= 64
  {
    if n == 0 then 0 else Sections(n - 1) + GetStakeModifierSelectionIntervalSection(n - 1)
  }

  method GetStakeModifierSelectionInterval() returns (nSelectionInterval: nat)
    ensures nSelectionInterval == Sections(64)
  {
    hide GetStakeModifierSelectionIntervalSection;
    nSelectionInterval := 0;
    var nSection := 0;
    while nSection < 64
      invariant 0 <= nSection <= 64 && nSelectionInterval == Sections(nSection)
    {
      nSelectionInterval := nSelectionInterval + GetStakeModifierSelectionIntervalSection(nSection);
      nSection := nSection + 1;
    }
  }

  function Boundary(t: nat): nat { t / MODIFIER_INTERVAL * MODIFIER_INTERVAL }

  function Start(t: nat): int { Boundary(t) - Sections(64) }

  function Stop(t: nat, round: nat): int
    requires round < 64
  {
    Start(t) + Sections(round + 1)
  }

  // Rounds reach further and further, and the last one to the last interval
  // boundary at or before the previous block.
  lemma {:induction false} StopsGrow(t: nat, r: nat)
    requires r < 64
    ensures Start(t) < Stop(t, r) <= Stop(t, 63) == Boundary(t) <= t < Boundary(t) + MODIFIER_INTERVAL
    ensures r > 0 ==> Stop(t, r - 1) < Stop(t, r)
    decreases 64 - r
  {
    hide Boundary;
    BoundaryIs(t);
    SectionIsPositive(r);
    if r < 63 {
      StopsGrow(t, r + 1);
    }
  }

  lemma BoundaryIs(t: nat)
    ensures Boundary(t) <= t < Boundary(t) + MODIFIER_INTERVAL
  {
  }

  lemma SectionIsPositive(r: nat)
    requires r < 64
    ensures 200 <= GetStakeModifierSelectionIntervalSection(r) <= MODIFIER_INTERVAL
  {
  }

  // ---------------------------------------------------------------- the last modifier

  ghost predicate LastGenerated(chain: seq<Index>, k: nat) {
    k < |chain| && chain[k].generated && forall j :: k < j < |chain| ==> !chain[j].generated
  }

  // chain runs from the genesis block to pindex; it is empty for a null pindex.
  method GetLastStakeModifier(chain: seq<Index>) returns (ok: bool, nStakeModifier: nat, nModifierTime: nat,
                                                          ghost at: nat)
    ensures ok <==> exists j :: 0 <= j < |chain| && chain[j].generated
    ensures ok ==> LastGenerated(chain, at)
    ensures ok ==> nStakeModifier == chain[at].nStakeModifier && nModifierTime == chain[at].nTime
  {
    ok, nStakeModifier, nModifierTime, at := false, 0, 0, 0;
    if chain == [] {
      return;
    }
    var i := |chain| - 1;
    while i > 0 && !chain[i].generated
      invariant 0 <= i < |chain| && forall j :: i < j < |chain| ==> !chain[j].generated
    {
      i := i - 1;
    }
    if !chain[i].generated {
      return;
    }
    return true, chain[i].nStakeModifier, chain[i].nTime, i;
  }

  // ---------------------------------------------------------------- candidates

  function Pair(b: Index): Candidate { Candidate(b.nTime, b.hash) }

  predicate InTurn(a: Candidate, b: Candidate) { a.time < b.time || (a.time == b.time && a.hash <= b.hash) }

  // By time, and of equal times by hash.
  ghost predicate InTime(s: seq<Candidate>) {
    forall i, j :: 0 <= i < j < |s| ==>
      s[i].time <= s[j].time && (s[i].time == s[j].time ==> s[i].hash <= s[j].hash)
  }

  function SortCandidates(s: seq<Candidate>): seq<Candidate> { Sort(s, InTurn) }

  lemma CandidatesSorted(s: seq<Candidate>)
    ensures InTime(SortCandidates(s)) && multiset(SortCandidates(s)) == multiset(s)
  {
    SortSorts(s, InTurn);
  }

  // The blocks at the end of the chain that are no older than start.
  function Window(chain: seq<Index>, start: int): seq<Candidate> {
    if chain == [] || chain[|chain| - 1].nTime < start then []
    else Window(chain[..|chain| - 1], start) + [Pair(chain[|chain| - 1])]
  }

  // Every block of the chain is found in mapBlockIndex under its own hash.
  ghost predicate Filed(chain: seq<Index>, mapBlockIndex: map<nat, Index>) {
    && (forall i :: 0 <= i < |chain| ==> chain[i].hash in mapBlockIndex && mapBlockIndex[chain[i].hash] == chain[i])
    && (forall i, j :: 0 <= i < j < |chain| ==> chain[i].hash != chain[j].hash)
  }

  ghost predicate Known(cands: seq<Candidate>, mapBlockIndex: map<nat, Index>) {
    && (forall i :: 0 <= i < |cands| ==> FoundAt(cands[i], mapBlockIndex))
    && (forall i, j :: 0 <= i < j < |cands| ==> cands[i].hash != cands[j].hash)
  }

  ghost predicate FoundAt(c: Candidate, mapBlockIndex: map<nat, Index>) {
    c.hash in mapBlockIndex && Pair(mapBlockIndex[c.hash]) == c
  }

  lemma {:induction false} WindowIs(chain: seq<Index>, start: int)
    ensures var w := Window(chain, start);
            && |w| <= |chain|
            && (forall i :: 0 <= i < |w| ==> w[i] == Pair(chain[|chain| - |w| + i]) && w[i].time >= start)
            && (|w| < |chain| ==> chain[|chain| - |w| - 1].nTime < start)
    decreases |chain|
  {
    if chain != [] && chain[|chain| - 1].nTime >= start {
      WindowIs(chain[..|chain| - 1], start);
    }
  }

  lemma WindowIsKnown(chain: seq<Index>, start: int, mapBlockIndex: map<nat, Index>)
    requires Filed(chain, mapBlockIndex)
    ensures Known(Window(chain, start), mapBlockIndex)
  {
    WindowIs(chain, start);
    hide Window;
  }

  // Whatever order the same candidates stand in.
  lemma KnownSorted(a: seq<Candidate>, b: seq<Candidate>, mapBlockIndex: map<nat, Index>)
    requires Known(a, mapBlockIndex) && multiset(a) == multiset(b)
    ensures Known(b, mapBlockIndex)
  {
    forall i | 0 <= i < |b|
      ensures FoundAt(b[i], mapBlockIndex)
    {
      assert b[i] in multiset(a);
    }
    forall i, j | 0 <= i < j < |b|
      ensures b[i].hash != b[j].hash
    {
      if b[i].hash == b[j].hash {
        assert FoundAt(b[i], mapBlockIndex) && FoundAt(b[j], mapBlockIndex);
        TwiceIn(b, i, j);
        OnceIn(a, b[i], mapBlockIndex);
      }
    }
  }

  lemma TwiceIn(s: seq<Candidate>, i: nat, j: nat)
    requires i < j < |s| && s[i] == s[j]
    ensures multiset(s)[s[i]] >= 2
  {
    assert s == s[..j] + [s[j]] + s[j + 1..];
    assert s[..j][i] in multiset(s[..j]);
  }

  lemma {:induction false} OnceIn(s: seq<Candidate>, c: Candidate, mapBlockIndex: map<nat, Index>)
    requires Known(s, mapBlockIndex)
    ensures multiset(s)[c] <= 1
    decreases |s|
  {
    if s != [] {
      assert s == [s[0]] + s[1..];
      OnceIn(s[1..], c, mapBlockIndex);
      if s[0] == c {
        assert c !in s[1..];
      }
    }
  }

  // ---------------------------------------------------------------- one round

  predicate Open(cands: seq<Candidate>, selected: set<nat>, j: nat)
    requires j < |cands|
  {
    cands[j].hash !in selected
  }

  // The selection hash; blocks with a proof of stake are favoured.
  function Weight(H: Hashing, b: Index, nStakeModifierPrev: nat): nat {
    var h := H(b.hashProof, nStakeModifierPrev);
    if b.proofOfStake then h / 0x1_0000_0000 else h
  }

  function WeightAt(H: Hashing, cands: seq<Candidate>, mapBlockIndex: map<nat, Index>, m: nat, j: nat): nat
    requires j < |cands| && cands[j].hash in mapBlockIndex
  {
    Weight(H, mapBlockIndex[cands[j].hash], m)
  }

  // k is what a round picks: of the open candidates up to the stop time the one
  // with the smallest selection hash, the first among equals; or the earliest
  // open candidate, if none is that early.
  ghost predicate IsChoice(H: Hashing, cands: seq<Candidate>, mapBlockIndex: map<nat, Index>, selected: set<nat>,
                           stop: int, m: nat, k: nat)
    requires Known(cands, mapBlockIndex)
  {
    && k < |cands| && Open(cands, selected, k)
    && (if cands[k].time <= stop
        then forall j :: 0 <= j < |cands| && Open(cands, selected, j) && cands[j].time <= stop ==>
               Beats(H, cands, mapBlockIndex, m, k, j)
        else forall j :: 0 <= j < |cands| && Open(cands, selected, j) ==> k <= j && cands[j].time > stop)
  }

  ghost predicate Beats(H: Hashing, cands: seq<Candidate>, mapBlockIndex: map<nat, Index>, m: nat, k: nat, j: nat)
    requires Known(cands, mapBlockIndex) && k < |cands| && j < |cands|
  {
    assert FoundAt(cands[k], mapBlockIndex) && FoundAt(cands[j], mapBlockIndex);
    var wk, wj := WeightAt(H, cands, mapBlockIndex, m, k), WeightAt(H, cands, mapBlockIndex, m, j);
    wk < wj || (wk == wj && k <= j)
  }

  // A round has no second choice.
  lemma OneChoice(H: Hashing, cands: seq<Candidate>, mapBlockIndex: map<nat, Index>, selected: set<nat>, stop: int,
                  m: nat, k: nat, l: nat)
    requires Known(cands, mapBlockIndex)
    requires IsChoice(H, cands, mapBlockIndex, selected, stop, m, k)
    requires IsChoice(H, cands, mapBlockIndex, selected, stop, m, l)
    ensures k == l
  {
    if cands[k].time <= stop && cands[l].time <= stop {
      assert Beats(H, cands, mapBlockIndex, m, k, l) && Beats(H, cands, mapBlockIndex, m, l, k);
    }
  }

  // How far a round's scan has come: i candidates seen, first the first open
  // one, k the best.
  ghost predicate Scanned(H: Hashing, cands: seq<Candidate>, mapBlockIndex: map<nat, Index>, selected: set<nat>,
                          stop: int, m: nat, i: nat, first: nat, k: nat)
    requires Known(cands, mapBlockIndex)
  {
    && first <= k < i <= |cands| && Open(cands, selected, first) && Open(cands, selected, k)
    && (forall j :: 0 <= j < first ==> !Open(cands, selected, j))
    && (forall j :: first < j < i ==> cands[j].time <= stop || !Open(cands, selected, j))
    && (forall j :: 0 <= j < i && Open(cands, selected, j) ==> Beats(H, cands, mapBlockIndex, m, k, j))
  }

  lemma ScanEnds(H: Hashing, cands: seq<Candidate>, mapBlockIndex: map<nat, Index>, selected: set<nat>, stop: int,
                 m: nat, i: nat, first: nat, k: nat)
    requires Known(cands, mapBlockIndex) && InTime(cands)
    requires Scanned(H, cands, mapBlockIndex, selected, stop, m, i, first, k)
    requires i < |cands| ==> cands[i].time > stop
    ensures IsChoice(H, cands, mapBlockIndex, selected, stop, m, k)
  {
    hide Beats, Known;
    forall j | i <= j < |cands|
      ensures cands[j].time > stop
    {
      if j > i {
        assert InTurn(cands[i], cands[j]);
      }
    }
    if k != first {
      assert InTurn(cands[first], cands[k]);
    }
    forall j | first < j < |cands|
      ensures cands[first].time <= cands[j].time
    {
      assert InTurn(cands[first], cands[j]);
    }
  }

  method SelectBlockFromCandidates(H: Hashing, vSortedByTimestamp: seq<Candidate>, mapSelectedBlocks: map<nat, Index>,
                                   nSelectionIntervalStop: int, nStakeModifierPrev: nat, mapBlockIndex: map<nat, Index>)
    returns (fSelected: bool, pindexSelected: Option<Index>, ghost k: nat)
    requires InTime(vSortedByTimestamp)
    ensures Known(vSortedByTimestamp, mapBlockIndex) ==>
              (fSelected <==>
                 exists j :: 0 <= j < |vSortedByTimestamp| && Open(vSortedByTimestamp, mapSelectedBlocks.Keys, j))
    ensures Known(vSortedByTimestamp, mapBlockIndex) && fSelected ==>
              && IsChoice(H, vSortedByTimestamp, mapBlockIndex, mapSelectedBlocks.Keys, nSelectionIntervalStop,
                          nStakeModifierPrev, k)
              && vSortedByTimestamp[k].hash in mapBlockIndex
              && pindexSelected == Some(mapBlockIndex[vSortedByTimestamp[k].hash])
  {
    hide InTime, Known, Scanned, Beats, IsChoice, Weight;
    fSelected, pindexSelected, k := false, None, 0;
    var hashBest := 0;
    ghost var known := Known(vSortedByTimestamp, mapBlockIndex);
    ghost var selected, first := mapSelectedBlocks.Keys, 0;
    var i := 0;
    while i < |vSortedByTimestamp|
      invariant i <= |vSortedByTimestamp|
      invariant !fSelected && known ==> forall j :: 0 <= j < i ==> !Open(vSortedByTimestamp, selected, j)
      invariant fSelected && known ==>
                  Scanned(H, vSortedByTimestamp, mapBlockIndex, selected, nSelectionIntervalStop, nStakeModifierPrev, i,
                          first, k)
      invariant fSelected && known ==>
                  && k < |vSortedByTimestamp| && vSortedByTimestamp[k].hash in mapBlockIndex
                  && pindexSelected == Some(mapBlockIndex[vSortedByTimestamp[k].hash])
                  && hashBest == Weight(H, pindexSelected.value, nStakeModifierPrev)
    {
      var item := vSortedByTimestamp[i];
      if known {
        KnownAt(vSortedByTimestamp, mapBlockIndex, i);
      }
      if item.hash !in mapBlockIndex {
        return false, pindexSelected, k;
      }
      var pindex := mapBlockIndex[item.hash];
      if fSelected && pindex.nTime > nSelectionIntervalStop {
        break;
      }
      if pindex.hash in mapSelectedBlocks {
        if known && fSelected {
          ScanSkips(H, vSortedByTimestamp, mapBlockIndex, selected, nSelectionIntervalStop, nStakeModifierPrev, i,
                    first, k);
        }
        i := i + 1;
        continue;
      }
      var hashSelection := H(pindex.hashProof, nStakeModifierPrev);
      if pindex.proofOfStake {
        hashSelection := hashSelection / 0x1_0000_0000;
      }
      assert hashSelection == Weight(H, pindex, nStakeModifierPrev) by { WeightIs(H, pindex, nStakeModifierPrev); }
      if known {
        if fSelected {
          ScanSees(H, vSortedByTimestamp, mapBlockIndex, selected, nSelectionIntervalStop, nStakeModifierPrev, i, first,
                   k);
        } else {
          ScanBegins(H, vSortedByTimestamp, mapBlockIndex, selected, nSelectionIntervalStop, nStakeModifierPrev, i);
        }
      }
      if fSelected && hashSelection < hashBest {
        hashBest := hashSelection;
        pindexSelected, k := Some(pindex), i;
      } else if !fSelected {
        fSelected := true;
        hashBest := hashSelection;
        pindexSelected, k, first := Some(pindex), i, i;
      }
      i := i + 1;
    }
    if known && fSelected {
      ScanEnds(H, vSortedByTimestamp, mapBlockIndex, selected, nSelectionIntervalStop, nStakeModifierPrev, i, first, k);
      ChoiceIsOpen(H, vSortedByTimestamp, mapBlockIndex, selected, nSelectionIntervalStop, nStakeModifierPrev, k);
    }
  }

  lemma WeightIs(H: Hashing, b: Index, m: nat)
    ensures Weight(H, b, m) == if b.proofOfStake then H(b.hashProof, m) / 0x1_0000_0000 else H(b.hashProof, m)
  {
  }

  lemma KnownAt(cands: seq<Candidate>, mapBlockIndex: map<nat, Index>, i: nat)
    requires Known(cands, mapBlockIndex) && i < |cands|
    ensures cands[i].hash in mapBlockIndex
    ensures mapBlockIndex[cands[i].hash].hash == cands[i].hash && mapBlockIndex[cands[i].hash].nTime == cands[i].time
  {
    assert FoundAt(cands[i], mapBlockIndex);
  }

  lemma ChoiceIsOpen(H: Hashing, cands: seq<Candidate>, mapBlockIndex: map<nat, Index>, selected: set<nat>, stop: int,
                     m: nat, k: nat)
    requires Known(cands, mapBlockIndex) && IsChoice(H, cands, mapBlockIndex, selected, stop, m, k)
    ensures k < |cands| && Open(cands, selected, k)
  {
  }

  lemma ScanSkips(H: Hashing, cands: seq<Candidate>, mapBlockIndex: map<nat, Index>, selected: set<nat>, stop: int,
                  m: nat, i: nat, first: nat, k: nat)
    requires Known(cands, mapBlockIndex) && Scanned(H, cands, mapBlockIndex, selected, stop, m, i, first, k)
    requires i < |cands| && !Open(cands, selected, i)
    ensures Scanned(H, cands, mapBlockIndex, selected, stop, m, i + 1, first, k)
  {
    hide Beats, Known;
  }

  lemma ScanBegins(H: Hashing, cands: seq<Candidate>, mapBlockIndex: map<nat, Index>, selected: set<nat>, stop: int,
                   m: nat, i: nat)
    requires Known(cands, mapBlockIndex) && i < |cands| && Open(cands, selected, i)
    requires forall j :: 0 <= j < i ==> !Open(cands, selected, j)
    ensures Scanned(H, cands, mapBlockIndex, selected, stop, m, i + 1, i, i)
  {
    assert Beats(H, cands, mapBlockIndex, m, i, i);
    hide Beats, Known;
  }

  lemma ScanSees(H: Hashing, cands: seq<Candidate>, mapBlockIndex: map<nat, Index>, selected: set<nat>, stop: int,
                 m: nat, i: nat, first: nat, k: nat)
    requires Known(cands, mapBlockIndex) && Scanned(H, cands, mapBlockIndex, selected, stop, m, i, first, k)
    requires i < |cands| && Open(cands, selected, i) && cands[i].time <= stop
    ensures cands[i].hash in mapBlockIndex && k < i && cands[k].hash in mapBlockIndex
    ensures var better := Weight(H, mapBlockIndex[cands[i].hash], m) < Weight(H, mapBlockIndex[cands[k].hash], m);
            Scanned(H, cands, mapBlockIndex, selected, stop, m, i + 1, first, if better then i else k)
  {
    KnownAt(cands, mapBlockIndex, i);
    KnownAt(cands, mapBlockIndex, k);
    hide Weight, Known;
  }

  // ---------------------------------------------------------------- all rounds

  ghost function Hashes(cands: seq<Candidate>, picks: seq<nat>): set<nat>
    requires forall r :: 0 <= r < |picks| ==> picks[r] < |cands|
  {
    set r | 0 <= r < |picks| :: cands[picks[r]].hash
  }

  // What the rounds picked, each against those before.
  ghost predicate Rounds(H: Hashing, cands: seq<Candidate>, mapBlockIndex: map<nat, Index>, t: nat, m: nat,
                         picks: seq<nat>)
    requires Known(cands, mapBlockIndex)
  {
    && |picks| <= 64 && (forall r :: 0 <= r < |picks| ==> picks[r] < |cands|)
    && (forall r :: 0 <= r < |picks| ==>
          IsChoice(H, cands, mapBlockIndex, Hashes(cands, picks[..r]), Stop(t, r), m, picks[r]))
  }

  lemma PicksDiffer(H: Hashing, cands: seq<Candidate>, mapBlockIndex: map<nat, Index>, t: nat, m: nat, picks: seq<nat>,
                    q: nat, r: nat)
    requires Known(cands, mapBlockIndex) && Rounds(H, cands, mapBlockIndex, t, m, picks) && q < r < |picks|
    ensures picks[q] != picks[r] && cands[picks[q]].hash != cands[picks[r]].hash
  {
    hide Known;
    assert IsChoice(H, cands, mapBlockIndex, Hashes(cands, picks[..r]), Stop(t, r), m, picks[r]);
    ChoiceIsOpen(H, cands, mapBlockIndex, Hashes(cands, picks[..r]), Stop(t, r), m, picks[r]);
    assert picks[..r][q] == picks[q];
  }

  // While fewer have been picked than there are, one is open.
  lemma OneIsOpen(cands: seq<Candidate>, mapBlockIndex: map<nat, Index>, picks: seq<nat>)
    requires Known(cands, mapBlockIndex) && |picks| < |cands| && forall r :: 0 <= r < |picks| ==> picks[r] < |cands|
    ensures exists j :: 0 <= j < |cands| && Open(cands, Hashes(cands, picks), j)
  {
    var j := Spare(picks, |cands|);
    forall r | 0 <= r < |picks|
      ensures cands[picks[r]].hash != cands[j].hash
    {
      assert picks[r] in picks;
    }
    assert Open(cands, Hashes(cands, picks), j);
  }

  // An index below n that is not in s.
  lemma {:induction false} Spare(s: seq<nat>, n: nat) returns (j: nat)
    requires |s| < n
    ensures j < n && j !in s
    decreases n
  {
    if n - 1 !in s {
      j := n - 1;
    } else {
      var i :| 0 <= i < |s| && s[i] == n - 1;
      var rest := s[..i] + s[i + 1..];
      j := Spare(rest, n - 1);
      forall l | 0 <= l < |s|
        ensures s[l] != j
      {
        if l != i {
          assert rest[if l < i then l else l - 1] == s[l];
        }
      }
    }
  }

  lemma RoundAdds(H: Hashing, cands: seq<Candidate>, mapBlockIndex: map<nat, Index>, t: nat, m: nat, picks: seq<nat>,
                  k: nat)
    requires Known(cands, mapBlockIndex) && Rounds(H, cands, mapBlockIndex, t, m, picks) && |picks| < 64
    requires IsChoice(H, cands, mapBlockIndex, Hashes(cands, picks), Stop(t, |picks|), m, k)
    ensures k < |cands| && Rounds(H, cands, mapBlockIndex, t, m, picks + [k])
    ensures Hashes(cands, picks + [k]) == Hashes(cands, picks) + {cands[k].hash}
  {
    hide Known, Stop;
    ChoiceIsOpen(H, cands, mapBlockIndex, Hashes(cands, picks), Stop(t, |picks|), m, k);
    hide IsChoice;
    var p := picks + [k];
    forall r | 0 <= r < |p|
      ensures IsChoice(H, cands, mapBlockIndex, Hashes(cands, p[..r]), Stop(t, r), m, p[r])
    {
      if r < |picks| {
        assert p[..r] == picks[..r];
      } else {
        assert p[..r] == picks;
      }
    }
    HashesAdd(cands, picks, k);
  }

  lemma HashesAdd(cands: seq<Candidate>, picks: seq<nat>, k: nat)
    requires k < |cands| && forall r :: 0 <= r < |picks| ==> picks[r] < |cands|
    ensures Hashes(cands, picks + [k]) == Hashes(cands, picks) + {cands[k].hash}
  {
    var p := picks + [k];
    assert p[|picks|] == k;
    forall h | h in Hashes(cands, picks)
      ensures h in Hashes(cands, p)
    {
      var r :| 0 <= r < |picks| && cands[picks[r]].hash == h;
      assert p[r] == picks[r];
    }
  }

  // Bit r of the modifier is the entropy bit of the block picked in round r.
  ghost predicate SpelledBy(cands: seq<Candidate>, mapBlockIndex: map<nat, Index>, picks: seq<nat>, modifier: nat)
    requires Known(cands, mapBlockIndex)
  {
    forall r :: 0 <= r ==> BitOf(modifier, r) == PickedBit(cands, mapBlockIndex, picks, r)
  }

  ghost function PickedBit(cands: seq<Candidate>, mapBlockIndex: map<nat, Index>, picks: seq<nat>, r: nat): Bit {
    if r < |picks| && picks[r] < |cands| && cands[picks[r]].hash in mapBlockIndex
    then mapBlockIndex[cands[picks[r]].hash].entropyBit else 0
  }

  lemma BitAdded(cands: seq<Candidate>, mapBlockIndex: map<nat, Index>, picks: seq<nat>, modifier: nat, k: nat)
    requires Known(cands, mapBlockIndex) && SpelledBy(cands, mapBlockIndex, picks, modifier) && k < |cands|
    requires cands[k].hash in mapBlockIndex
    ensures SpelledBy(cands, mapBlockIndex, picks + [k],
                      Or(modifier, Shl(mapBlockIndex[cands[k].hash].entropyBit, |picks|)))
  {
    hide Known, Or, Shl;
    var b, n := mapBlockIndex[cands[k].hash].entropyBit, |picks|;
    forall r | 0 <= r
      ensures BitOf(Or(modifier, Shl(b, n)), r) == PickedBit(cands, mapBlockIndex, picks + [k], r)
    {
      assert BitOf(modifier, r) == PickedBit(cands, mapBlockIndex, picks, r);
      OrBit(modifier, Shl(b, n), r);
      ShlBit(b, n, r);
      OneBit(b, if r < n then 0 else r - n);
    }
  }

  lemma OneBit(b: Bit, j: nat)
    ensures BitOf(b, j) == if j == 0 then b else 0
  {
    if j > 0 {
      ZeroBits(j - 1);
    }
  }

  // The candidates before a block with time t at the end of chain.
  function Candidates(chain: seq<Index>): seq<Candidate>
    requires chain != []
  {
    SortCandidates(Window(chain, Start(chain[|chain| - 1].nTime)))
  }

  lemma CandidatesAre(chain: seq<Index>, mapBlockIndex: map<nat, Index>)
    requires chain != [] && Filed(chain, mapBlockIndex)
    ensures var w := Window(chain, Start(chain[|chain| - 1].nTime));
            InTime(Candidates(chain)) && Known(Candidates(chain), mapBlockIndex)
            && multiset(Candidates(chain)) == multiset(w) && w != []
  {
    var t := chain[|chain| - 1].nTime;
    StopsGrow(t, 0);
    var w := Window(chain, Start(t));
    WindowIsKnown(chain, Start(t), mapBlockIndex);
    CandidatesSorted(w);
    KnownSorted(w, SortCandidates(w), mapBlockIndex);
    hide SortCandidates, Known, InTime, Start;
  }

  // The loop that gathers the candidates, from the previous block back.
  method GatherCandidates(chain: seq<Index>, nSelectionIntervalStart: int) returns (vSortedByTimestamp: seq<Candidate>)
    ensures vSortedByTimestamp == SortCandidates(Window(chain, nSelectionIntervalStart))
  {
    hide SortCandidates, Window;
    var back: seq<Candidate> := [];
    var i := |chain|;
    assert chain[..i] == chain;
    assert Window(chain, nSelectionIntervalStart) + [] == Window(chain, nSelectionIntervalStart);
    while i > 0 && chain[i - 1].nTime >= nSelectionIntervalStart
      invariant 0 <= i <= |chain|
      invariant Window(chain[..i], nSelectionIntervalStart) + Reversed(back) == Window(chain, nSelectionIntervalStart)
    {
      WindowTake(chain, i, nSelectionIntervalStart);
      ReversedMore(back, Pair(chain[i - 1]));
      back := back + [Pair(chain[i - 1])];
      i := i - 1;
    }
    WindowTake(chain, i, nSelectionIntervalStart);
    assert [] + Reversed(back) == Reversed(back);
    vSortedByTimestamp := SortCandidates(Reversed(back));
  }

  lemma WindowTake(chain: seq<Index>, i: nat, start: int)
    requires i <= |chain|
    ensures Window(chain[..i], start)
         == if i == 0 || chain[i - 1].nTime < start then [] else Window(chain[..i - 1], start) + [Pair(chain[i - 1])]
  {
    if i > 0 {
      assert chain[..i][..i - 1] == chain[..i - 1] && chain[..i][i - 1] == chain[i - 1];
    }
  }

  method ComputeNextStakeModifier(H: Hashing, chain: seq<Index>, mapBlockIndex: map<nat, Index>)
    returns (ok: bool, nStakeModifier: nat, fGeneratedStakeModifier: bool, ghost at: nat, ghost picks: seq<nat>)
    requires Filed(chain, mapBlockIndex)
    ensures chain == [] ==> ok && nStakeModifier == 0 && fGeneratedStakeModifier
    ensures chain != [] ==> (ok <==> exists j :: 0 <= j < |chain| && chain[j].generated)
    ensures chain != [] && ok ==>
              && LastGenerated(chain, at)
              && (fGeneratedStakeModifier <==>
                    chain[at].nTime / MODIFIER_INTERVAL < chain[|chain| - 1].nTime / MODIFIER_INTERVAL)
    ensures chain != [] && ok && !fGeneratedStakeModifier ==> nStakeModifier == chain[at].nStakeModifier
    ensures chain != [] && ok && fGeneratedStakeModifier ==>
              var cands := Candidates(chain);
              && Known(cands, mapBlockIndex) && |picks| == Min(64, |cands|)
              && Rounds(H, cands, mapBlockIndex, chain[|chain| - 1].nTime, chain[at].nStakeModifier, picks)
              && SpelledBy(cands, mapBlockIndex, picks, nStakeModifier)
  {
    hide Filed, Candidates, Known, Rounds, SpelledBy, Sections, Boundary, Start, LastGenerated, InTime;
    ok, nStakeModifier, fGeneratedStakeModifier, at, picks := true, 0, false, 0, [];
    if chain == [] {
      fGeneratedStakeModifier := true;
      return;
    }
    var pindexPrev := chain[|chain| - 1];
    var found, nModifierTime;
    found, nStakeModifier, nModifierTime, at := GetLastStakeModifier(chain);
    if !found {
      ok := false;
      return;
    }
    GeneratedAt(chain, at);
    if nModifierTime / MODIFIER_INTERVAL >= pindexPrev.nTime / MODIFIER_INTERVAL {
      return;
    }
    CandidatesAre(chain, mapBlockIndex);
    var nSelectionInterval := GetStakeModifierSelectionInterval();
    var nSelectionIntervalStart := pindexPrev.nTime / MODIFIER_INTERVAL * MODIFIER_INTERVAL - nSelectionInterval;
    StartIs(pindexPrev.nTime);
    var vSortedByTimestamp := GatherCandidates(chain, nSelectionIntervalStart);
    CandidatesSay(chain);
    nStakeModifier, picks := RunRounds(H, vSortedByTimestamp, nSelectionIntervalStart, nStakeModifier, mapBlockIndex,
                                       pindexPrev.nTime);
    fGeneratedStakeModifier := true;
  }

  lemma GeneratedAt(chain: seq<Index>, at: nat)
    requires LastGenerated(chain, at)
    ensures at < |chain| && chain[at].generated
  {
  }

  lemma StartIs(t: nat)
    ensures Start(t) == t / MODIFIER_INTERVAL * MODIFIER_INTERVAL - Sections(64)
  {
    hide Sections;
  }

  lemma CandidatesSay(chain: seq<Index>)
    requires chain != []
    ensures Candidates(chain) == SortCandidates(Window(chain, Start(chain[|chain| - 1].nTime)))
  {
  }

  method RunRounds(H: Hashing, vSortedByTimestamp: seq<Candidate>, nSelectionIntervalStart: int, nStakeModifier: nat,
                   mapBlockIndex: map<nat, Index>, ghost t: nat)
    returns (nStakeModifierNew: nat, ghost picks: seq<nat>)
    requires InTime(vSortedByTimestamp) && Known(vSortedByTimestamp, mapBlockIndex)
    requires nSelectionIntervalStart == Start(t)
    ensures |picks| == Min(64, |vSortedByTimestamp|)
    ensures Rounds(H, vSortedByTimestamp, mapBlockIndex, t, nStakeModifier, picks)
    ensures SpelledBy(vSortedByTimestamp, mapBlockIndex, picks, nStakeModifierNew)
  {
    hide Known, Rounds, SpelledBy, Sections, Start, InTime, IsChoice, GetStakeModifierSelectionIntervalSection, Or, Shl;
    nStakeModifierNew, picks := 0, [];
    var nSelectionIntervalStop := nSelectionIntervalStart;
    var mapSelectedBlocks: map<nat, Index> := map[];
    NoRounds(H, vSortedByTimestamp, mapBlockIndex, t, nStakeModifier);
    NoSections();
    var nRound := 0;
    while nRound < Min(64, |vSortedByTimestamp|)
      invariant 0 <= nRound == |picks| <= Min(64, |vSortedByTimestamp|)
      invariant nSelectionIntervalStop == Start(t) + Sections(nRound)
      invariant Rounds(H, vSortedByTimestamp, mapBlockIndex, t, nStakeModifier, picks)
      invariant forall r :: 0 <= r < |picks| ==> picks[r] < |vSortedByTimestamp|
      invariant mapSelectedBlocks.Keys == Hashes(vSortedByTimestamp, picks)
      invariant SpelledBy(vSortedByTimestamp, mapBlockIndex, picks, nStakeModifierNew)
    {
      SectionsStep(nRound);
      nSelectionIntervalStop := nSelectionIntervalStop + GetStakeModifierSelectionIntervalSection(nRound);
      OneIsOpen(vSortedByTimestamp, mapBlockIndex, picks);
      var fSelected, pindex;
      ghost var k;
      fSelected, pindex, k := SelectBlockFromCandidates(H, vSortedByTimestamp, mapSelectedBlocks,
                                                        nSelectionIntervalStop,
                                                        nStakeModifier, mapBlockIndex);
      RoundAdds(H, vSortedByTimestamp, mapBlockIndex, t, nStakeModifier, picks, k);
      BitAdded(vSortedByTimestamp, mapBlockIndex, picks, nStakeModifierNew, k);
      KnownAt(vSortedByTimestamp, mapBlockIndex, k);
      nStakeModifierNew := Or(nStakeModifierNew, Shl(pindex.value.entropyBit, nRound));
      mapSelectedBlocks := mapSelectedBlocks[pindex.value.hash := pindex.value];
      picks := picks + [k];
      nRound := nRound + 1;
    }
  }

  lemma NoRounds(H: Hashing, cands: seq<Candidate>, mapBlockIndex: map<nat, Index>, t: nat, m: nat)
    requires Known(cands, mapBlockIndex)
    ensures Rounds(H, cands, mapBlockIndex, t, m, []) && Hashes(cands, []) == {}
    ensures SpelledBy(cands, mapBlockIndex, [], 0)
  {
    forall r | 0 <= r
      ensures BitOf(0, r) == 0
    {
      ZeroBits(r);
    }
  }

  lemma NoSections()
    ensures Sections(0) == 0
  {
  }

  lemma SectionsStep(n: nat)
    requires n < 64
    ensures Sections(n + 1) == Sections(n) + GetStakeModifierSelectionIntervalSection(n)
  {
  }
}
