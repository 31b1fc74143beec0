// LockedPageManagerBase: counts of how many locked ranges touch each page.
module PageLock {
  import opened Arithmetic

  const SIZE_MAX: nat := 0x1_0000_0000_0000_0000

  datatype Range = Range(p: nat, size: nat)

  // The page an address lies on; masking the low bits of a power of two.
  function PageOf(page_size: nat, addr: nat): (page: nat)
    requires page_size > 0
    ensures page <= addr < page + page_size && page % page_size == 0
  {
    Divided(addr, page_size);
    DivMod(page_size, addr / page_size, 0);
    addr - addr % page_size
  }

  // The page and the range have an address in common.
  predicate Touches(page_size: nat, r: Range, page: nat)
    requires page_size > 0
  {
    page % page_size == 0 && r.size > 0 && page < r.p + r.size && r.p < page + page_size
  }

  function Pages(page_size: nat, r: Range): (s: set<nat>)
    requires page_size > 0
    ensures forall page: nat :: page in s <==> Touches(page_size, r, page)
  {
    set page: nat | page < r.p + r.size && Touches(page_size, r, page)
  }

  // A multiple of the page size at or past one page is that page or past the next.
  lemma NextPage(page_size: nat, page: nat, x: nat)
    requires page_size > 0 && page % page_size == 0 && x % page_size == 0
    ensures (page + page_size) % page_size == 0 && (x > page ==> x >= page + page_size)
  {
    var k, m := page / page_size, x / page_size;
    Divided(page, page_size);
    Divided(x, page_size);
    assert page + page_size == page_size * (k + 1) + 0 by { assert page_size * (k + 1) == page_size * k + page_size; }
    DivMod(page_size, k + 1, 0);
    assert x - page == page_size * (m - k);
    NoMultipleBetween(page_size, m - k);
  }

  // The loop from the first page of a range to the last meets exactly its pages.
  lemma PagesAre(page_size: nat, r: Range, page: nat)
    requires page_size > 0 && r.size > 0 && page % page_size == 0
    ensures Touches(page_size, r, page) <==> PageOf(page_size, r.p) <= page <= PageOf(page_size, r.p + r.size - 1)
  {
    var first, last := PageOf(page_size, r.p), PageOf(page_size, r.p + r.size - 1);
    NextPage(page_size, page, first);
    NextPage(page_size, first, page);
    NextPage(page_size, last, page);
  }

  // ---------------------------------------------------------------- the histogram

  type Histogram = map<nat, nat>

  function Get(h: Histogram, page: nat): nat { if page in h then h[page] else 0 }

  function Raised(h: Histogram, pages: set<nat>): Histogram {
    map x | x in h.Keys + pages :: Get(h, x) + if x in pages then 1 else 0
  }

  function Lowered(h: Histogram, pages: set<nat>): Histogram {
    map x | x in h && !(x in pages && h[x] <= 1) :: if x in pages then h[x] - 1 else h[x]
  }

  // How many of the ranges touch a page.
  function Count(page_size: nat, held: seq<Range>, page: nat): nat
    requires page_size > 0
  {
    if held == [] then 0
    else Count(page_size, held[..|held| - 1], page) + if Touches(page_size, held[|held| - 1], page) then 1 else 0
  }

  // The counts are those of the ranges held, and only touched pages have one.
  ghost predicate Matches(page_size: nat, h: Histogram, held: seq<Range>)
    requires page_size > 0
  {
    && (forall page: nat :: Get(h, page) == Count(page_size, held, page))
    && (forall page: nat :: page in h ==> h[page] > 0)
  }

  function Without(held: seq<Range>, i: nat): seq<Range>
    requires i < |held|
  {
    held[..i] + held[i + 1..]
  }

  lemma {:induction false} CountJoin(page_size: nat, a: seq<Range>, b: seq<Range>, page: nat)
    requires page_size > 0
    ensures Count(page_size, a + b, page) == Count(page_size, a, page) + Count(page_size, b, page)
    decreases |b|
  {
    if b == [] {
      assert a + b == a;
    } else {
      assert (a + b)[..|a + b| - 1] == a + b[..|b| - 1];
      CountJoin(page_size, a, b[..|b| - 1], page);
    }
  }

  lemma CountWithout(page_size: nat, held: seq<Range>, i: nat, page: nat)
    requires page_size > 0 && i < |held|
    ensures Count(page_size, held, page)
         == Count(page_size, Without(held, i), page) + if Touches(page_size, held[i], page) then 1 else 0
  {
    hide Touches;
    assert held == held[..i] + ([held[i]] + held[i + 1..]);
    CountJoin(page_size, held[..i], [held[i]] + held[i + 1..], page);
    CountJoin(page_size, [held[i]], held[i + 1..], page);
    CountJoin(page_size, held[..i], held[i + 1..], page);
    assert [held[i]][..0] == [];
  }

  lemma LockKeeps(page_size: nat, h: Histogram, held: seq<Range>, r: Range)
    requires page_size > 0 && Matches(page_size, h, held)
    ensures Matches(page_size, Raised(h, Pages(page_size, r)), held + [r])
  {
    hide Touches;
    forall page: nat
      ensures Get(Raised(h, Pages(page_size, r)), page) == Count(page_size, held + [r], page)
    {
      assert (held + [r])[..|held|] == held;
    }
  }

  // A range that is held can be unlocked: each of its pages has a count.
  lemma UnlockKeeps(page_size: nat, h: Histogram, held: seq<Range>, i: nat)
    requires page_size > 0 && Matches(page_size, h, held) && i < |held|
    ensures Pages(page_size, held[i]) <= h.Keys
    ensures Matches(page_size, Lowered(h, Pages(page_size, held[i])), Without(held, i))
  {
    hide Touches, Without;
    var pages := Pages(page_size, held[i]);
    forall page: nat
      ensures page in pages ==> page in h
      ensures Get(Lowered(h, pages), page) == Count(page_size, Without(held, i), page)
    {
      CountWithout(page_size, held, i, page);
      assert Get(h, page) == Count(page_size, held, page);
    }
  }

  // ---------------------------------------------------------------- runs

  // Locking a range, or unlocking one of those held.
  datatype Op = Lock(r: Range) | Unlock(i: nat)

  datatype State = State(h: Histogram, held: seq<Range>)

  ghost predicate Allowed(s: State, op: Op) { op.Unlock? ==> op.i < |s.held| }

  ghost function Step(page_size: nat, s: State, op: Op): State
    requires page_size > 0 && Allowed(s, op)
  {
    match op
    case Lock(r) => State(Raised(s.h, Pages(page_size, r)), s.held + [r])
    case Unlock(i) => State(Lowered(s.h, Pages(page_size, s.held[i])), Without(s.held, i))
  }

  ghost predicate Run(page_size: nat, s: State, ops: seq<Op>, t: State)
    requires page_size > 0
    decreases |ops|
  {
    if ops == [] then t == s
    else Allowed(s, ops[0]) && Run(page_size, Step(page_size, s, ops[0]), ops[1..], t)
  }

  // After any run, each page's count is the number of held ranges that touch it,
  // and the pages with a count are those that some held range touches.
  lemma {:induction false} RunMatches(page_size: nat, s: State, ops: seq<Op>, t: State)
    requires page_size > 0 && Matches(page_size, s.h, s.held) && Run(page_size, s, ops, t)
    ensures Matches(page_size, t.h, t.held)
    ensures forall page: nat :: page in t.h <==> exists i :: 0 <= i < |t.held| && Touches(page_size, t.held[i], page)
    decreases |ops|
  {
    if ops == [] {
      forall page: nat
        ensures page in t.h <==> exists i :: 0 <= i < |t.held| && Touches(page_size, t.held[i], page)
      {
        CountPositive(page_size, t.held, page);
        assert Get(t.h, page) == Count(page_size, t.held, page);
      }
    } else {
      hide Matches;
      if ops[0].Lock? {
        LockKeeps(page_size, s.h, s.held, ops[0].r);
      } else {
        UnlockKeeps(page_size, s.h, s.held, ops[0].i);
      }
      RunMatches(page_size, Step(page_size, s, ops[0]), ops[1..], t);
    }
  }

  lemma {:induction false} CountPositive(page_size: nat, held: seq<Range>, page: nat)
    requires page_size > 0
    ensures Count(page_size, held, page) > 0 <==> exists i :: 0 <= i < |held| && Touches(page_size, held[i], page)
    decreases |held|
  {
    if held != [] {
      hide Touches;
      var last := |held| - 1;
      CountPositive(page_size, held[..last], page);
      if i :| 0 <= i < last && Touches(page_size, held[..last][i], page) {
        assert Touches(page_size, held[i], page);
      }
      forall i | 0 <= i < last && Touches(page_size, held[i], page)
        ensures Touches(page_size, held[..last][i], page)
      {
      }
    }
  }

  lemma NoneTouches(page_size: nat, h: Histogram, page: nat)
    requires page_size > 0 && Matches(page_size, h, [])
    ensures Get(h, page) == 0 && page !in h
  {
    assert Count(page_size, [], page) == 0;
  }

  // Once everything is unlocked nothing is left.
  lemma AllUnlocked(page_size: nat, h: Histogram)
    requires page_size > 0 && Matches(page_size, h, [])
    ensures h == map[]
  {
    forall page: nat
      ensures page !in h
    {
      NoneTouches(page_size, h, page);
    }
  }

  // ---------------------------------------------------------------- the class

  class LockedPageManager {
    const page_size: nat
    var histogram: Histogram
    var locked: set<nat>  // the pages the operating system keeps in memory

    constructor (page_size: nat)
      requires page_size > 0
      ensures Valid() && this.page_size == page_size && histogram == map[]
    {
      this.page_size, histogram, locked := page_size, map[], {};
    }

    // Exactly the pages with a count are locked.
    ghost predicate Valid()
      reads this
    {
      page_size > 0 && locked == histogram.Keys && forall page :: page in histogram ==> histogram[page] > 0
    }

    method LockRange(p: nat, size: nat)
      requires Valid() && p + size + page_size <= SIZE_MAX
      modifies this
      ensures Valid() && histogram == Raised(old(histogram), Pages(page_size, Range(p, size)))
    {
      hide Passed, Pages, Touches, Raised;
      RaisedNone(histogram);
      if size == 0 {
        NoPages(page_size, Range(p, size));
        return;
      }
      var start_page, end_page := PageOf(page_size, p), PageOf(page_size, p + size - 1);
      ghost var done: set<nat> := {};
      NonePassed(page_size, start_page);
      var page := start_page;
      while page <= end_page
        invariant Valid() && start_page <= page <= end_page + page_size && page % page_size == 0
        invariant Passed(page_size, done, start_page, page)
        invariant histogram == Raised(old(histogram), done)
        decreases end_page + page_size - page
      {
        PassedNext(page_size, done, start_page, page);
        if page !in histogram {
          locked := locked + {page};
          histogram := histogram[page := 1];
        } else {
          histogram := histogram[page := histogram[page] + 1];
        }
        RaisedMore(old(histogram), done, page);
        done := done + {page};
        page := page + page_size;
      }
      AllPages(page_size, Range(p, size), page, done);
    }

    // The assertion in the loop holds when ok; otherwise the program ends there.
    method UnlockRange(p: nat, size: nat) returns (ok: bool)
      requires Valid() && p + size + page_size <= SIZE_MAX
      modifies this
      ensures Valid()
      ensures ok <==> Pages(page_size, Range(p, size)) <= old(histogram).Keys
      ensures ok ==> histogram == Lowered(old(histogram), Pages(page_size, Range(p, size)))
    {
      hide Passed, Touches;
      ghost var pages := Pages(page_size, Range(p, size));
      if size == 0 {
        NoPages(page_size, Range(p, size));
        assert histogram == Lowered(histogram, {});
        return true;
      }
      var start_page, end_page := PageOf(page_size, p), PageOf(page_size, p + size - 1);
      ghost var done: set<nat> := {};
      NonePassed(page_size, start_page);
      var page := start_page;
      while page <= end_page
        invariant Valid() && start_page <= page <= end_page + page_size && page % page_size == 0
        invariant Passed(page_size, done, start_page, page)
        invariant done <= old(histogram).Keys && histogram == Lowered(old(histogram), done)
        decreases end_page + page_size - page
      {
        PassedNext(page_size, done, start_page, page);
        PagesAre(page_size, Range(p, size), page);
        if page !in histogram {
          return false;
        }
        histogram := histogram[page := histogram[page] - 1];
        if histogram[page] == 0 {
          locked := locked - {page};
          histogram := histogram - {page};
        }
        LoweredMore(old(histogram), done, page);
        done := done + {page};
        page := page + page_size;
      }
      AllPages(page_size, Range(p, size), page, done);
      return true;
    }

    method GetLockedPageCount() returns (n: nat)
      requires Valid()
      ensures n == |locked|
    {
      n := |histogram|;
    }
  }

  // The pages from first up to page.
  ghost predicate Passed(page_size: nat, done: set<nat>, first: nat, page: nat)
    requires page_size > 0
  {
    forall x: nat :: x in done <==> x % page_size == 0 && first <= x < page
  }

  lemma NonePassed(page_size: nat, first: nat)
    requires page_size > 0
    ensures Passed(page_size, {}, first, first)
  {
  }

  lemma PassedNext(page_size: nat, done: set<nat>, first: nat, page: nat)
    requires page_size > 0 && page % page_size == 0 && first <= page && Passed(page_size, done, first, page)
    ensures (page + page_size) % page_size == 0 && page !in done
    ensures Passed(page_size, done + {page}, first, page + page_size)
  {
    NextPage(page_size, page, page);
    forall x: nat | x % page_size == 0
      ensures x > page ==> x >= page + page_size
    {
      NextPage(page_size, page, x);
    }
  }

  lemma NoPages(page_size: nat, r: Range)
    requires page_size > 0 && r.size == 0
    ensures Pages(page_size, r) == {}
  {
  }

  lemma RaisedNone(h: Histogram)
    ensures Raised(h, {}) == h
  {
  }

  lemma RaisedMore(h: Histogram, done: set<nat>, page: nat)
    requires page !in done
    ensures Raised(h, done + {page}) == Raised(h, done)[page := Get(Raised(h, done), page) + 1]
  {
  }

  lemma LoweredMore(h: Histogram, done: set<nat>, page: nat)
    requires page !in done && page in h
    ensures page in Lowered(h, done) && Lowered(h, done)[page] == h[page]
    ensures Lowered(h, done + {page})
         == if h[page] <= 1 then Lowered(h, done) - {page} else Lowered(h, done)[page := h[page] - 1]
  {
  }

  lemma AllPages(page_size: nat, r: Range, page: nat, done: set<nat>)
    requires page_size > 0 && r.size > 0 && page % page_size == 0
    requires PageOf(page_size, r.p + r.size - 1) < page <= PageOf(page_size, r.p + r.size - 1) + page_size
    requires Passed(page_size, done, PageOf(page_size, r.p), page)
    ensures done == Pages(page_size, r)
  {
    forall x: nat
      ensures x in done <==> x in Pages(page_size, r)
    {
      if x % page_size == 0 {
        PagesAre(page_size, r, x);
        NextPage(page_size, PageOf(page_size, r.p + r.size - 1), x);
      }
    }
  }
}
