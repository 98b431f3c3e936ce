/** The first-fit page heap (src/kernel/kheap.c). */
module KHeap {
  import opened Common
  import opened Bits
  import opened Addr

  const NUM_SMALL_PAGES: nat := 1024
  const NUM_LARGE_PAGES: nat := 256

  /** One heap: kheap_t, for pages of one size. */
  class Heap {
    const start: nat
    const pageSize: nat
    const numPages: nat
    const allocMap: array<bool>

    /** init_kheap for one heap: all pages free. */
    constructor (start: nat, pageSize: nat, numPages: nat)
      requires pageSize > 0
      ensures Valid() && fresh(allocMap) && Allocated() == {}
      ensures this.start == start && this.pageSize == pageSize && this.numPages == numPages
    {
      this.start, this.pageSize, this.numPages := start, pageSize, numPages;
      allocMap := new bool[numPages];
      new;
      for i := 0 to numPages
        invariant forall j | 0 <= j < i :: !allocMap[j]
      {
        allocMap[i] := false;
      }
    }

    ghost predicate Valid() { allocMap.Length == numPages && pageSize > 0 }

    function PageAt(i: nat): nat { start + pageSize * i }

    /** The addresses of all pages, and of the allocated ones. */
    ghost function AllPages(): set<nat> { set i | 0 <= i < numPages :: PageAt(i) }

    ghost function Allocated(): set<nat>
      requires Valid()
      reads allocMap
    {
      set i | 0 <= i < numPages && allocMap[i] :: PageAt(i)
    }

    /** The heap index free_page computes for an address. */
    function IndexOf(p: nat): int
      requires pageSize > 0
    { (p - start) / pageSize }

    lemma IndexOfPageAt(i: nat)
      requires Valid()
      ensures IndexOf(PageAt(i)) == i
    {
      DivUnique(pageSize * i, pageSize, i, 0);
    }

    lemma PageAtInjective(i: nat, j: nat)
      requires Valid() && PageAt(i) == PageAt(j)
      ensures i == j
    { IndexOfPageAt(i); IndexOfPageAt(j); }

    lemma PageAtOrdered(i: nat, j: nat)
      requires Valid() && i < j
      ensures PageAt(i) < PageAt(j)
    { MulGap(pageSize, j, i); }

    lemma AllocatedAt(i: nat)
      requires Valid() && i < numPages
      ensures PageAt(i) in Allocated() <==> allocMap[i]
    {
      forall j | 0 <= j < numPages && PageAt(j) == PageAt(i) ensures j == i { PageAtInjective(i, j); }
    }

    lemma AllocatedArePages()
      requires Valid()
      ensures Allocated() <= AllPages()
    {}

    /** alloc_page: the lowest free page, or None where the source panics for lack of memory. */
    method AllocPage() returns (r: Option<nat>)
      requires Valid()
      modifies allocMap
      ensures r.None? <==> old(Allocated()) == AllPages()
      ensures r.None? ==> Allocated() == old(Allocated())
      ensures r.Some? ==>
        && r.value in AllPages() && r.value !in old(Allocated())
        && Allocated() == old(Allocated()) + {r.value}
        && forall q | q in AllPages() && q < r.value :: q in old(Allocated())
    {
      for i := 0 to numPages
        invariant forall j | 0 <= j < i :: allocMap[j]
        invariant allocMap[..] == old(allocMap[..])
      {
        if !allocMap[i] {
          AllocatedAt(i);
          Marked(i);
          FirstFit(i);
          allocMap[i] := true;
          return Some(PageAt(i));
        }
      }
      return None;
    }

    lemma FirstFit(i: nat)
      requires Valid() && i < numPages && forall j | 0 <= j < i :: allocMap[j]
      ensures forall q | q in AllPages() && q < PageAt(i) :: q in Allocated()
    {
      forall j | 0 <= j < numPages && PageAt(j) < PageAt(i) ensures j < i {
        if i < j { PageAtOrdered(i, j); }
      }
    }

    /** Marking page i adds exactly that page. */
    lemma Marked(i: nat)
      requires Valid() && i < numPages
      ensures (set j | 0 <= j < numPages && (allocMap[j] || j == i) :: PageAt(j)) == Allocated() + {PageAt(i)}
      ensures (set j | 0 <= j < numPages && allocMap[j] && j != i :: PageAt(j)) == Allocated() - {PageAt(i)}
    {
      forall j | 0 <= j < numPages && PageAt(j) == PageAt(i) ensures j == i { PageAtInjective(i, j); }
    }

    /** An address inside the heap has an index below num_pages, so the source's second check never fails. */
    lemma IndexInRange(p: nat)
      requires Valid() && start <= p < PageAt(numPages)
      ensures 0 <= IndexOf(p) < numPages
    {
      var i := IndexOf(p);
      DivBounds(p - start, pageSize);
      if i < 0 { MulGap(pageSize, 0, i); }
      if i >= numPages && i > numPages { MulGap(pageSize, i, numPages); }
    }

    lemma DivBounds(x: nat, d: nat)
      requires d > 0
      ensures d * (x / d) <= x < d * (x / d) + d
    {}

    lemma PageIndex(p: nat)
      requires Valid() && p in AllPages()
      ensures start <= p < PageAt(numPages) && 0 <= IndexOf(p) < numPages && PageAt(IndexOf(p)) == p
    {
      var i :| 0 <= i < numPages && PageAt(i) == p;
      IndexOfPageAt(i);
      PageAtOrdered(i, numPages);
      MulNonneg(pageSize, i);
    }

    lemma MulNonneg(d: nat, i: nat)
      ensures d * i >= 0
    {}

    /** free_page: false where the source panics. The page holding p is released; p need not be its first byte. */
    method FreePage(p: nat) returns (ok: bool)
      requires Valid()
      modifies allocMap
      ensures ok <==> start <= p < PageAt(numPages) && PageAt(IndexOf(p)) in old(Allocated())
      ensures ok ==> Allocated() == old(Allocated()) - {PageAt(IndexOf(p))}
      ensures !ok ==> Allocated() == old(Allocated())
      ensures p in AllPages() ==> (ok <==> p in old(Allocated())) && PageAt(IndexOf(p)) == p
    {
      var idx := IndexOf(p);
      ghost var isPage := p in AllPages();
      if isPage { PageIndex(p); AllocatedAt(idx); }
      if p < start || p >= PageAt(numPages) {
        return false;
      }
      IndexInRange(p);
      AllocatedAt(idx);
      if idx > numPages {
        return false;
      }
      if !allocMap[idx] {
        return false;
      }
      Marked(idx);
      allocMap[idx] := false;
      return true;
    }
  }

  /** init_kheap: the small heap at g_kheap and the large heap right behind it. None where the source panics, which is
      exactly when one of the two is not aligned to its page size. */
  method InitKheap(kheap: nat) returns (r: Option<(Heap, Heap)>)
    ensures r.None? <==> kheap % 4096 != 0 || (kheap + 0x40_0000) % 0x20_0000 != 0
    ensures r.Some? ==>
      var (small, large) := r.value;
      && fresh(small) && fresh(large) && small != large && small.allocMap != large.allocMap
      && small.Valid() && small.pageSize == 4096 && small.numPages == 1024 && small.Allocated() == {}
      && large.Valid() && large.pageSize == 0x20_0000 && large.numPages == 256 && large.Allocated() == {}
      && (forall p | p in small.AllPages() :: kheap <= p < kheap + 0x40_0000 && p % 4096 == 0)
      && (forall p | p in large.AllPages() :: kheap + 0x40_0000 <= p && p % 0x20_0000 == 0)
  {
    var end := kheap + SMALL * NUM_SMALL_PAGES;
    if kheap % SMALL != 0 { return None; }
    if end % LARGE != 0 { return None; }
    var small := new Heap(kheap, SMALL, NUM_SMALL_PAGES);
    var large := new Heap(end, LARGE, NUM_LARGE_PAGES);
    return Some((small, large));
  }
}
