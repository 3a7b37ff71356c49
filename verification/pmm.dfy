/** The physical page allocator seen as a set of free pages and a cursor.

    `Alloc` and `Free` say what the bitmap allocator of kernel/mm/pmm.c does to that set;
    class `PageAllocator` below does it on the bitmap. */
module PageFrames {
  import opened Options

  const PAGE_SIZE: nat := 4096

  datatype Frames = Frames(base: nat, total: nat, free: set<nat>, last: nat)

  /** Physical memory ends below 2^47, and no page sits at address 0. */
  predicate Placed(base: nat, total: nat) {
    0 < base && base % PAGE_SIZE == 0 && base + total * PAGE_SIZE <= 0x8000_0000_0000
  }

  ghost predicate Proper(f: Frames) {
    && Placed(f.base, f.total)
    && (forall p | p in f.free :: p < f.total)
    && (f.total > 0 ==> f.last < f.total)
  }

  function Addr(f: Frames, page: nat): nat {
    f.base + page * PAGE_SIZE
  }

  /** Pages visited by the search before p, when it starts at `from`. */
  function Dist(total: nat, from: nat, p: nat): int {
    if from <= p then p - from else p - from + total
  }

  /** The first free page among the candidates i, i+1, ... of the wrap-around search. */
  function Scan(f: Frames, i: nat): Option<nat>
    decreases f.total - i
  {
    if i >= f.total then None
    else
      var page := (f.last + i) % f.total;
      if page in f.free then Some(page) else Scan(f, i + 1)
  }

  function Take(f: Frames, page: nat): Frames
    requires f.total > 0
  {
    f.(free := f.free - {page}, last := (page + 1) % f.total)
  }

  /** pmm_alloc: the page's address, or 0 when memory is exhausted. */
  function Alloc(f: Frames): (Frames, nat) {
    match Scan(f, 0)
    case None => (f, 0)
    case Some(page) => if f.total == 0 then (f, 0) else (Take(f, page), Addr(f, page))
  }

  /** pmm_free: pointers outside the region and pages already free are ignored. */
  function Free(f: Frames, ptr: nat): Frames {
    if ptr == 0 || ptr < f.base then f
    else
      var page := (ptr - f.base) / PAGE_SIZE;
      if page >= f.total then f else f.(free := f.free + {page})
  }

  // --- one allocation --------------------------------------------------------------

  lemma ModOnce(a: nat, d: nat)
    requires 0 < d && a < 2 * d
    ensures a % d == if a < d then a else a - d
  {
    var q := a / d;
    assert a == d * q + a % d;
    if q >= 2 { MulGrows(d, 2, q); }
  }

  lemma MulGrows(d: nat, m: nat, q: nat)
    requires m <= q
    ensures d * m <= d * q
  {
  }

  lemma WrapStep(total: nat, last: nat, i: nat)
    requires last < total && i < total
    ensures (last + i) % total < total
    ensures Dist(total, last, (last + i) % total) == i
  {
    ModOnce(last + i, total);
  }

  /** The search returns the free page that comes first in cyclic order from the cursor,
      and fails exactly when no page at distance i or more is free. */
  lemma {:induction false} ScanIsNearest(f: Frames, i: nat)
    requires Proper(f) && i <= f.total
    ensures Scan(f, i).None? <==> forall q | q in f.free :: Dist(f.total, f.last, q) < i
    ensures Scan(f, i).Some? ==>
              var p := Scan(f, i).value;
              && p in f.free && i <= Dist(f.total, f.last, p)
              && forall q | q in f.free && i <= Dist(f.total, f.last, q) ::
                   Dist(f.total, f.last, p) <= Dist(f.total, f.last, q)
    decreases f.total - i
  {
    if i < f.total {
      WrapStep(f.total, f.last, i);
      var page := (f.last + i) % f.total;
      ScanIsNearest(f, i + 1);
      forall q | q in f.free && Dist(f.total, f.last, q) == i ensures q == page {}
    }
  }

  lemma AllocFacts(f: Frames)
    requires Proper(f)
    ensures Alloc(f).1 == 0 <==> f.free == {}
    ensures Alloc(f).1 == 0 ==> Alloc(f).0 == f
    ensures Alloc(f).1 != 0 ==>
              var p := Scan(f, 0).value;
              && Scan(f, 0).Some? && p in f.free && Alloc(f) == (Take(f, p), Addr(f, p))
              && (forall q | q in f.free :: Dist(f.total, f.last, p) <= Dist(f.total, f.last, q))
    ensures Proper(Alloc(f).0)
  {
    ScanIsNearest(f, 0);
  }

  // --- allocation and release --------------------------------------------------------

  /** Releasing a page just allocated restores the set of free pages. */
  lemma AllocThenFree(f: Frames)
    requires Proper(f) && f.free != {}
    ensures var (g, a) := Alloc(f); a != 0 && Free(g, a).free == f.free
    ensures var (g, a) := Alloc(f); |g.free| + 1 == |f.free|
  {
    AllocFacts(f);
    var (g, a) := Alloc(f);
    var p := Scan(f, 0).value;
    assert (a - f.base) / PAGE_SIZE == p;
    assert g.free + {p} == f.free;
  }

  /** Releasing a page twice is the same as releasing it once, whatever the pointer. */
  lemma FreeIdempotent(f: Frames, ptr: nat)
    ensures Free(Free(f, ptr), ptr) == Free(f, ptr)
  {
  }

  /** Besides the ignored pointers, pmm_free releases the page the pointer lies in, wherever in
      the page it points, and nothing else. */
  lemma FreeExact(f: Frames, ptr: nat)
    requires Proper(f)
    ensures var g := Free(f, ptr);
      && g == f.(free := g.free)
      && forall p: nat :: p in g.free <==> p in f.free || (p < f.total && Addr(f, p) <= ptr < Addr(f, p) + PAGE_SIZE)
  {
  }

  /** The cursor moves on: a page that is released at once comes back at the next allocation
      exactly when no other page is free. */
  lemma NextFit(f: Frames)
    requires Proper(f) && f.free != {}
    ensures var (g, a) := Alloc(f);
      Alloc(Free(g, a)).1 == a <==> forall q | q in f.free :: Addr(f, q) == a
  {
    AllocFacts(f);
    AllocThenFree(f);
    var (g, a) := Alloc(f);
    var p := Scan(f, 0).value;
    var h := Free(g, a);
    FreeProper(g, a);
    AllocFacts(h);
    assert h.free == f.free && h.last == (p + 1) % f.total;
    hide Alloc, Free, Scan, Dist;
    forall q | q in f.free && q != p ensures Dist(f.total, h.last, q) < Dist(f.total, h.last, p) {
      LastInTurn(f.total, p, q);
    }
  }

  /** Going round from the page behind p, p itself comes last. */
  lemma LastInTurn(total: nat, p: nat, q: nat)
    requires p < total && q < total && q != p
    ensures Dist(total, (p + 1) % total, q) < Dist(total, (p + 1) % total, p)
  {
    ModOnce(p + 1, total);
  }

  lemma FreeProper(f: Frames, ptr: nat)
    requires Proper(f)
    ensures Proper(Free(f, ptr))
  {
  }

  // --- exhausting the allocator --------------------------------------------------------

  /** The pages handed out by k successive allocations, as long as they succeed. */
  function AllocRun(f: Frames, k: nat): seq<nat>
    decreases k
  {
    if k == 0 then []
    else
      match Scan(f, 0)
      case None => []
      case Some(page) => if f.total == 0 then [] else [page] + AllocRun(Take(f, page), k - 1)
  }

  /** Seen from the original cursor, everything free lies at distance `gone` or more. */
  ghost predicate Swept(origin: nat, gone: nat, f: Frames) {
    && origin < f.total && gone <= f.total
    && f.last == (if origin + gone < f.total then origin + gone else origin + gone - f.total)
    && forall q | q in f.free :: gone <= Dist(f.total, origin, q)
  }

  lemma SweptStep(origin: nat, gone: nat, f: Frames) returns (p: nat)
    requires Proper(f) && Swept(origin, gone, f) && f.free != {}
    ensures Scan(f, 0) == Some(p) && p in f.free
    ensures gone <= Dist(f.total, origin, p) < f.total
    ensures Swept(origin, Dist(f.total, origin, p) + 1, Take(f, p)) && Proper(Take(f, p))
  {
    ScanIsNearest(f, 0);
    p := Scan(f, 0).value;
    ModOnce(p + 1, f.total);
  }

  /** A run of pages taken from `free`, each at least `gone` from origin, in cyclic order. */
  ghost predicate Ordered(run: seq<nat>, free: set<nat>, total: nat, origin: nat, gone: nat) {
    && (forall i | 0 <= i < |run| :: run[i] in free && gone <= Dist(total, origin, run[i]))
    && (forall i, j | 0 <= i < j < |run| :: Dist(total, origin, run[i]) < Dist(total, origin, run[j]))
  }

  lemma OrderedCons(p: nat, rest: seq<nat>, free: set<nat>, total: nat, origin: nat, gone: nat)
    requires p in free && gone <= Dist(total, origin, p)
    requires Ordered(rest, free - {p}, total, origin, Dist(total, origin, p) + 1)
    ensures Ordered([p] + rest, free, total, origin, gone)
  {
    var run := [p] + rest;
    forall i | 0 <= i < |run| ensures run[i] in free && gone <= Dist(total, origin, run[i]) {
      if i > 0 { assert run[i] == rest[i - 1]; }
    }
    forall i, j | 0 <= i < j < |run| ensures Dist(total, origin, run[i]) < Dist(total, origin, run[j]) {
      assert run[j] == rest[j - 1];
      if i > 0 { assert run[i] == rest[i - 1]; }
    }
  }

  lemma {:induction false} RunFrom(origin: nat, gone: nat, f: Frames, k: nat)
    requires Proper(f) && Swept(origin, gone, f)
    ensures |AllocRun(f, k)| == if k <= |f.free| then k else |f.free|
    ensures Ordered(AllocRun(f, k), f.free, f.total, origin, gone)
    decreases k
  {
    if k > 0 {
      if f.free == {} {
        ScanIsNearest(f, 0);
      } else {
        var p := SweptStep(origin, gone, f);
        var g := Take(f, p);
        RunFrom(origin, Dist(f.total, origin, p) + 1, g, k - 1);
        OrderedCons(p, AllocRun(g, k - 1), f.free, f.total, origin, gone);
        assert f.free == g.free + {p};
      }
    }
  }

  /** From |free| free pages exactly that many allocations succeed; the pages they
      return are free, different from one another, and in cyclic order from the cursor. */
  lemma ExhaustInOrder(f: Frames, k: nat)
    requires Proper(f)
    ensures |AllocRun(f, k)| == if k <= |f.free| then k else |f.free|
    ensures forall i | 0 <= i < |AllocRun(f, k)| :: AllocRun(f, k)[i] in f.free
    ensures forall i, j | 0 <= i < j < |AllocRun(f, k)| ::
              && AllocRun(f, k)[i] != AllocRun(f, k)[j]
              && Dist(f.total, f.last, AllocRun(f, k)[i]) < Dist(f.total, f.last, AllocRun(f, k)[j])
  {
    if f.total > 0 {
      RunFrom(f.last, 0, f, k);
      assert Ordered(AllocRun(f, k), f.free, f.total, f.last, 0);
    } else {
      assert f.free == {};
      if k > 0 { assert Scan(f, 0).None?; }
    }
  }
}

/** kernel/mm/pmm.c: a bitmap of 64-bit words, one bit a page, set when the page is used. */
module Pmm {
  import opened Bits
  import opened Options
  import opened PageFrames

  const MAX_PAGES: nat := 131072
  const BITMAP_SIZE: nat := 2048

  predicate IsBitmap(bm: seq<nat>) {
    |bm| == BITMAP_SIZE && forall i | 0 <= i < |bm| :: bm[i] < TWO64
  }

  predicate Used(bm: seq<nat>, page: nat)
    requires |bm| == BITMAP_SIZE && page < MAX_PAGES
  {
    Bit(bm[page / 64], page % 64)
  }

  function WithUsed(bm: seq<nat>, page: nat): seq<nat>
    requires |bm| == BITMAP_SIZE && page < MAX_PAGES
  {
    bm[page / 64 := Or(bm[page / 64], Pow2(page % 64))]
  }

  function WithFree(bm: seq<nat>, page: nat): seq<nat>
    requires |bm| == BITMAP_SIZE && page < MAX_PAGES
  {
    bm[page / 64 := AndNot(bm[page / 64], Pow2(page % 64))]
  }

  ghost function FreeSet(bm: seq<nat>, total: nat): set<nat>
    requires |bm| == BITMAP_SIZE && total <= MAX_PAGES
  {
    set p: nat | p < total && !Used(bm, p)
  }

  /** Pages past the end of the region count as used for good. */
  ghost predicate Represents(bm: seq<nat>, f: Frames) {
    && IsBitmap(bm) && f.total <= MAX_PAGES
    && f.free == FreeSet(bm, f.total)
    && (forall p: nat | f.total <= p < MAX_PAGES :: Used(bm, p))
    && Proper(f)
  }

  lemma UsedAfterSet(bm: seq<nat>, page: nat, q: nat)
    requires IsBitmap(bm) && page < MAX_PAGES && q < MAX_PAGES
    ensures Used(WithUsed(bm, page), q) <==> q == page || Used(bm, q)
  {
    if q / 64 == page / 64 {
      BitOfOr(bm[page / 64], Pow2(page % 64), q % 64);
      BitOfPow2(page % 64, q % 64);
    }
  }

  lemma UsedAfterClear(bm: seq<nat>, page: nat, q: nat)
    requires IsBitmap(bm) && page < MAX_PAGES && q < MAX_PAGES
    ensures Used(WithFree(bm, page), q) <==> q != page && Used(bm, q)
  {
    if q / 64 == page / 64 {
      BitOfAndNot(bm[page / 64], Pow2(page % 64), q % 64);
      BitOfPow2(page % 64, q % 64);
    }
  }

  lemma StillBitmap(bm: seq<nat>, page: nat)
    requires IsBitmap(bm) && page < MAX_PAGES
    ensures IsBitmap(WithUsed(bm, page)) && IsBitmap(WithFree(bm, page))
  {
    Pow2Values();
    Pow2Monotone(page % 64, 64);
    OrBelow(bm[page / 64], Pow2(page % 64), 64);
    AndNotBelow(bm[page / 64], Pow2(page % 64));
  }

  /** Setting a page's bit takes the page out of the free set. */
  lemma SetTakes(bm: seq<nat>, f: Frames, page: nat)
    requires Represents(bm, f) && page in f.free
    ensures page < MAX_PAGES && Represents(WithUsed(bm, page), Take(f, page))
  {
    StillBitmap(bm, page);
    forall q: nat | q < MAX_PAGES ensures Used(WithUsed(bm, page), q) <==> q == page || Used(bm, q) {
      UsedAfterSet(bm, page, q);
    }
  }

  /** Clearing a page's bit puts the page into the free set. */
  lemma ClearReleases(bm: seq<nat>, f: Frames, page: nat)
    requires Represents(bm, f) && page < f.total
    ensures Represents(WithFree(bm, page), f.(free := f.free + {page}))
  {
    StillBitmap(bm, page);
    forall q: nat | q < MAX_PAGES ensures Used(WithFree(bm, page), q) <==> q != page && Used(bm, q) {
      UsedAfterClear(bm, page, q);
    }
  }

  predicate IsBelow(p: nat, n: nat) {
    p < n
  }

  /** The pages 0, ..., n - 1. */
  function PagesBelow(n: nat): set<nat> {
    set p: nat | p < n && IsBelow(p, n)
  }

  lemma {:induction false} CountBelow(n: nat)
    ensures |PagesBelow(n)| == n
  {
    if n > 0 {
      CountBelow(n - 1);
      forall p: nat ensures p in PagesBelow(n) <==> p in PagesBelow(n - 1) + {n - 1} {
        assert IsBelow(p, n) <==> IsBelow(p, n - 1) || p == n - 1;
      }
      assert PagesBelow(n) == PagesBelow(n - 1) + {n - 1};
    }
  }

  class PageAllocator {
    const bitmap: array<nat>
    var base: nat
    var total: nat
    var freePages: nat
    var last: nat

    /** The set of free pages that the bitmap stands for. */
    ghost var state: Frames

    ghost predicate Valid()
      reads this, bitmap
    {
      && bitmap.Length == BITMAP_SIZE
      && state.base == base && state.total == total && state.last == last
      && Represents(bitmap[..], state)
      && freePages == |state.free|
    }

    /** Statically allocated: the bitmap starts out as zeros. */
    constructor ()
      ensures fresh(bitmap) && bitmap.Length == BITMAP_SIZE
    {
      bitmap := new nat[BITMAP_SIZE](_ => 0);
      base, total, freePages, last := 0, 0, 0, 0;
      state := Frames(0, 0, {}, 0);
    }

    method SetUsed(page: nat)
      requires bitmap.Length == BITMAP_SIZE && page < MAX_PAGES
      modifies bitmap
      ensures bitmap[..] == WithUsed(old(bitmap[..]), page)
    {
      bitmap[page / 64] := Or(bitmap[page / 64], Pow2(page % 64));
    }

    method SetFree(page: nat)
      requires bitmap.Length == BITMAP_SIZE && page < MAX_PAGES
      modifies bitmap
      ensures bitmap[..] == WithFree(old(bitmap[..]), page)
    {
      bitmap[page / 64] := AndNot(bitmap[page / 64], Pow2(page % 64));
    }

    method IsUsed(page: nat) returns (used: bool)
      requires Valid() && page < total
      ensures used <==> page !in state.free
    {
      AndPow2(bitmap[page / 64], page % 64);
      used := And(bitmap[page / 64], Pow2(page % 64)) != 0;
    }

    /** The first lines of pmm_init: the base is rounded up, the size is not reduced. */
    method SetRegion(memBase: nat, memSize: nat)
      modifies this
      ensures base == Initial(memBase, memSize).base && total == Initial(memBase, memSize).total
      ensures total <= MAX_PAGES
    {
      base := PageAlign(memBase);
      total := memSize / PAGE_SIZE;
      if total > MAX_PAGES {
        total := MAX_PAGES;
      }
    }

    /** First loop of pmm_init: everything starts out used. */
    method FillUsed()
      requires bitmap.Length == BITMAP_SIZE
      modifies bitmap
      ensures Cleared(bitmap[..], 0)
    {
      for i := 0 to BITMAP_SIZE
        invariant forall j | 0 <= j < i :: bitmap[j] == TWO64 - 1
      {
        bitmap[i] := TWO64 - 1;
      }
      AllUsed(bitmap[..]);
    }

    /** Second loop of pmm_init: the pages of the region become free. */
    method ReleaseBelow(n: nat)
      requires bitmap.Length == BITMAP_SIZE && n <= MAX_PAGES && Cleared(bitmap[..], 0)
      modifies bitmap
      ensures Cleared(bitmap[..], n)
    {
      for i := 0 to n
        invariant Cleared(bitmap[..], i)
      {
        ClearNext(bitmap[..], i);
        SetFree(i);
      }
    }

    /** pmm_init */
    method Init(memBase: nat, memSize: nat)
      requires bitmap.Length == BITMAP_SIZE
      requires InMemory(memBase, memSize)
      modifies this, bitmap
      ensures Valid()
      ensures state == Initial(memBase, memSize)
    {
      SetRegion(memBase, memSize);
      FillUsed();
      ReleaseBelow(total);
      freePages := total;
      last := 0;
      state := Initial(memBase, memSize);
      ClearedInitial(bitmap[..], memBase, memSize);
    }

    /** The body of the search's hit: the page leaves the free set, the cursor moves past it. */
    method Claim(page: nat)
      requires Valid() && page in state.free
      modifies this, bitmap
      ensures Valid() && state == Take(old(state), page) && base == old(base)
    {
      SetTakes(bitmap[..], state, page);
      SetUsed(page);
      freePages := freePages - 1;
      last := (page + 1) % total;
      state := Take(state, page);
    }

    /** The wrap-around search of pmm_alloc, from the cursor. */
    method Search() returns (found: Option<nat>)
      requires Valid()
      ensures found == Scan(state, 0)
    {
      for i := 0 to total
        invariant Scan(state, 0) == Scan(state, i)
      {
        var page := (last + i) % total;
        var used := IsUsed(page);
        if !used { return Some(page); }
      }
      return None;
    }

    /** pmm_alloc */
    method Alloc() returns (addr: nat)
      requires Valid()
      modifies this, bitmap
      ensures Valid()
      ensures (state, addr) == PageFrames.Alloc(old(state))
    {
      AllocFacts(state);
      var found := Search();
      if found.Some? {
        Claim(found.value);
        return base + found.value * PAGE_SIZE;
      }
      return 0;
    }

    /** pmm_free */
    method Free(ptr: nat)
      requires Valid()
      modifies this, bitmap
      ensures Valid()
      ensures state == PageFrames.Free(old(state), ptr)
    {
      if ptr == 0 { return; }
      if ptr < base { return; }
      var page := (ptr - base) / PAGE_SIZE;
      if page >= total { return; }
      var used := IsUsed(page);
      if !used {
        assert state.free + {page} == state.free;
        return;
      }
      ClearReleases(bitmap[..], state, page);
      SetFree(page);
      state := state.(free := state.free + {page});
      freePages := freePages + 1;
    }
  }

  /** The bitmap after the first n pages have been released. */
  ghost predicate Cleared(bm: seq<nat>, n: nat) {
    IsBitmap(bm) && forall p: nat | p < MAX_PAGES :: Used(bm, p) <==> n <= p
  }

  lemma AllUsed(bm: seq<nat>)
    requires |bm| == BITMAP_SIZE && forall i | 0 <= i < |bm| :: bm[i] == TWO64 - 1
    ensures Cleared(bm, 0)
  {
    forall p: nat | p < MAX_PAGES ensures Used(bm, p) {
      Pow2Values();
      AllOnes(p % 64, 64);
    }
  }

  lemma ClearNext(bm: seq<nat>, n: nat)
    requires Cleared(bm, n) && n < MAX_PAGES
    ensures Cleared(WithFree(bm, n), n + 1)
  {
    StillBitmap(bm, n);
    forall p: nat | p < MAX_PAGES ensures Used(WithFree(bm, n), p) <==> n + 1 <= p {
      UsedAfterClear(bm, n, p);
    }
  }

  lemma ClearedInitial(bm: seq<nat>, memBase: nat, memSize: nat)
    requires InMemory(memBase, memSize)
    requires Cleared(bm, Initial(memBase, memSize).total)
    ensures Represents(bm, Initial(memBase, memSize))
    ensures FreeSet(bm, Initial(memBase, memSize).total) == Initial(memBase, memSize).free
    ensures |Initial(memBase, memSize).free| == Initial(memBase, memSize).total
  {
    PageAlignFacts(memBase);
    var f := Initial(memBase, memSize);
    InitialPlaced(memBase, memSize);
    CountBelow(f.total);
    forall p: nat ensures p in f.free <==> p in FreeSet(bm, f.total) {}
  }

  lemma InitialPlaced(memBase: nat, memSize: nat)
    requires InMemory(memBase, memSize)
    ensures Proper(Initial(memBase, memSize))
  {
    PageAlignFacts(memBase);
    var f := Initial(memBase, memSize);
    assert f.total * PAGE_SIZE <= memSize;
  }

  lemma PageAlignFacts(a: nat)
    ensures a <= PageAlign(a) < a + PAGE_SIZE && PageAlign(a) % PAGE_SIZE == 0
  {
  }

  /** A region of physical memory: not at 0, ending a page short of 2^47. */
  predicate InMemory(memBase: nat, memSize: nat) {
    0 < memBase && memBase + memSize + PAGE_SIZE <= 0x8000_0000_0000
  }

  function PageAlign(a: nat): nat {
    (a + PAGE_SIZE - 1) / PAGE_SIZE * PAGE_SIZE
  }

  /** What pmm_init sets up for the region [memBase, memBase + memSize). */
  function Initial(memBase: nat, memSize: nat): Frames {
    var total := if memSize / PAGE_SIZE > MAX_PAGES then MAX_PAGES else memSize / PAGE_SIZE;
    Frames(PageAlign(memBase), total, PagesBelow(total), 0)
  }

  /** pmm_init takes the first page boundary in the region as the base, and all whole pages
      that the size has room for, at most 131072, as free. */
  lemma InitialIs(memBase: nat, memSize: nat)
    ensures var f := Initial(memBase, memSize);
      && memBase <= f.base < memBase + PAGE_SIZE && f.base % PAGE_SIZE == 0
      && f.total * PAGE_SIZE <= memSize && f.total <= MAX_PAGES
      && (f.total == MAX_PAGES || memSize < (f.total + 1) * PAGE_SIZE)
      && forall p: nat :: p in f.free <==> p < f.total
  {
    PageAlignFacts(memBase);
  }

  /** Pages handed out right after pmm_init: one after the other from the base on. */
  lemma FreshAllocations(memBase: nat, memSize: nat, k: nat)
    requires InMemory(memBase, memSize) && k <= Initial(memBase, memSize).total
    ensures var (f, run) := (Initial(memBase, memSize), AllocRun(Initial(memBase, memSize), k));
      |run| == k && forall i | 0 <= i < k :: Addr(f, run[i]) == f.base + i * PAGE_SIZE
  {
    InitialPlaced(memBase, memSize);
    InitialIs(memBase, memSize);
    AllocsFrom(Initial(memBase, memSize), 0, k);
  }

  lemma {:induction false} AllocsFrom(f: Frames, n: nat, k: nat)
    requires Proper(f) && n + k <= f.total && (n < f.total ==> f.last == n)
    requires forall p: nat :: p in f.free <==> n <= p < f.total
    ensures |AllocRun(f, k)| == k && forall i | 0 <= i < k :: AllocRun(f, k)[i] == n + i
    decreases k
  {
    if k > 0 {
      ScanIsNearest(f, 0);
      assert n in f.free;
      assert Scan(f, 0) == Some(n);
      ModOnce(n + 1, f.total);
      AllocsFrom(Take(f, n), n + 1, k - 1);
    }
  }

  lemma {:induction false} Pow2Monotone(j: nat, k: nat)
    requires j < k
    ensures Pow2(j) < Pow2(k)
  {
    if j > 0 { Pow2Monotone(j - 1, k - 1); }
  }

  /** Rounding the base up without shrinking the size: every page handed out lies inside
      the region exactly when there is none, or the size left over after the last whole page
      covers the rounding. */
  lemma PagesInsideRegion(memBase: nat, memSize: nat)
    ensures var f := Initial(memBase, memSize);
            (forall p | p in f.free :: memBase <= Addr(f, p) && Addr(f, p) + PAGE_SIZE <= memBase + memSize)
            <==> memSize < PAGE_SIZE || PageAlign(memBase) - memBase <= memSize - f.total * PAGE_SIZE
  {
    var f := Initial(memBase, memSize);
    assert PageAlign(memBase) >= memBase;
    if memSize >= PAGE_SIZE {
      assert f.total - 1 in f.free;
      assert Addr(f, f.total - 1) + PAGE_SIZE == PageAlign(memBase) + f.total * PAGE_SIZE;
    }
  }

  /** A region whose base is not page-aligned can have its last page stick out. */
  lemma PageOutsideRegion()
    ensures var f := Initial(0x200800, 0x1000); 0 in f.free && Addr(f, 0) + PAGE_SIZE > 0x200800 + 0x1000
  {
  }
}
