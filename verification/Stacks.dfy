/** What Switching takes for granted of memory, found in the processes of Kernel: two places are one byte of
    memory exactly if they are one cell, and stacks from different blocks of live heaps are apart and mapped. */
module Stacks {
  import opened Basics
  import opened Paging
  import opened Pmm
  import opened Mmu
  import opened HeapLists
  import opened HeapTiling
  import opened HeapRuns
  import opened HeapGrowth
  import opened HeapObjects
  import Kernel
  import W = Switching

  /** The address is below the page allocator's pages, or on a mapped page of the process's heap. */
  ghost predicate InUse(s: Kernel.System, d: Frame, a: Word)
    reads s, s.k, s.k.mem, s.k.alloc, s.k.alloc.bitmap, s.heapOf.Values
    requires s.Valid()
  {
    (a < W.LOW && FrameOf(a) <= s.k.alloc.base / MEM_UNIT_SIZE)
    || (InHeap(PageOf(a)) && Walk(s.k.mem[..], d, PageOf(a)).Some?)
  }

  /** The byte of physical memory at an address of directory `d`. */
  ghost function Place(m: Memory, d: Frame, a: Word): Option<nat> {
    match Walk(m, d, PageOf(a))
    case None => None
    case Some(f) => Some(0x1000 * f + a % 0x1000)
  }

  lemma AddressParts(a: Word)
    ensures a == 0x1000 * FrameOf(a) + a % 0x1000 && PageOf(a).Number() == FrameOf(a)
    ensures PageOf(a).slot == 0 <==> a < W.LOW
    ensures InHeap(PageOf(a)) ==> a >= W.LOW
  {
  }

  lemma InUseMeans(s: Kernel.System, d: Frame, a: Word)
    requires s.Valid() && d in s.heapOf && InUse(s, d, a)
    ensures s.k.mem.Length == WORDS
    ensures var f := Walk(s.k.mem[..], d, PageOf(a));
            && f.Some?
            && if a < W.LOW then f.value == FrameOf(a) <= s.k.alloc.base / MEM_UNIT_SIZE
               else InHeap(PageOf(a)) && f.value > s.k.alloc.base / MEM_UNIT_SIZE
  {
    AddressParts(a);
    InProcess(s, d);
    hide Walk, PageOf, FrameOf, Kernel.System.Valid;
    if a < W.LOW {
      assert Walk(s.k.mem[..], d, Page(0, PageOf(a).index)) == Some(PageOf(a).index);
      assert PageOf(a) == Page(0, PageOf(a).index);
    }
  }

  lemma InProcess(s: Kernel.System, d: Frame)
    requires s.Valid() && d in s.heapOf
    ensures s.k.mem.Length == WORDS && LowIdentity(s.k.mem[..], d) && HeapOwned(s.k.mem[..], s.k.owner, d)
    ensures forall f :: f in s.k.owner ==> f > s.k.alloc.base / MEM_UNIT_SIZE
  {
    assert Kernel.ProcessOk(s.k.mem[..], s.k.owner, |s.k.alloc.Free()|, d, s.heapOf[d].currentMemAddr);
  }

  lemma FrameAndOffset(f: nat, x: nat, g: nat, y: nat)
    requires x < 0x1000 && y < 0x1000
    ensures 0x1000 * f + x == 0x1000 * g + y <==> f == g && x == y
  {
  }

  /** Two addresses in use, in whichever directories, are the same byte of memory exactly if they are the same
      cell of Switching's memory. */
  lemma CellsArePlaces(s: Kernel.System, d: Frame, a: Word, e: Frame, b: Word)
    requires s.Valid() && d in s.heapOf && e in s.heapOf && InUse(s, d, a) && InUse(s, e, b)
    ensures s.k.mem.Length == WORDS
    ensures Place(s.k.mem[..], d, a) == Place(s.k.mem[..], e, b) <==> W.At(d, a) == W.At(e, b)
  {
    InUseMeans(s, d, a);
    InUseMeans(s, e, b);
    hide Walk, PageOf, FrameOf, Kernel.System.Valid, InUse, InHeap, Place, W.At;
    if a >= W.LOW && b >= W.LOW && Walk(s.k.mem[..], d, PageOf(a)) == Walk(s.k.mem[..], e, PageOf(b)) {
      s.HeapFramesPrivate(d, PageOf(a), e, PageOf(b));
    }
    PlacesMeet(s.k.mem[..], d, a, e, b, s.k.alloc.base / MEM_UNIT_SIZE);
  }

  // frames up to `last` are seen at their own addresses, later ones in one directory at one page
  lemma PlacesMeet(m: Memory, d: Frame, a: Word, e: Frame, b: Word, last: nat)
    requires var f, g := Walk(m, d, PageOf(a)), Walk(m, e, PageOf(b));
             && f.Some? && g.Some?
             && (if a < W.LOW then f.value == FrameOf(a) <= last else f.value > last)
             && (if b < W.LOW then g.value == FrameOf(b) <= last else g.value > last)
             && (a >= W.LOW && b >= W.LOW && f == g ==> d == e && PageOf(a) == PageOf(b))
    ensures Place(m, d, a) == Place(m, e, b) <==> W.At(d, a) == W.At(e, b)
  {
    AddressParts(a);
    AddressParts(b);
    hide Walk, PageOf, FrameOf;
    FrameAndOffset(Walk(m, d, PageOf(a)).value, a % 0x1000, Walk(m, e, PageOf(b)).value, b % 0x1000);
    FrameAndOffset(FrameOf(a), a % 0x1000, FrameOf(b), b % 0x1000);
  }

  // ----- stacks from heaps -----

  /** The mapped pages of all heaps. */
  ghost function HeapPages(s: Kernel.System): W.Pages
    reads s, s.k, s.k.mem, s.k.alloc, s.k.alloc.bitmap, s.heapOf.Values
    requires s.Valid()
  {
    set d, n | d in s.heapOf && HEAP_FIRST_PAGE <= n < HEAP_END_PAGE && Walk(s.k.mem[..], d, PageAt(n)).Some? :: (d, n)
  }

  /** The thread's stack is a live block of its process's heap. */
  ghost predicate OnHeap(s: Kernel.System, t: W.Thread)
    reads s, s.heapOf.Values
  {
    t.dir in s.heapOf && t.base in s.heapOf[t.dir].live && t.size <= s.heapOf[t.dir].live[t.base]
  }

  /** Live blocks of one heap lie between its start and its end, and no two of them meet. */
  lemma BlocksApart(h: Heap, p: nat, q: nat)
    requires h.Valid() && p in h.live && q in h.live
    ensures HEAP_START <= p && p + h.live[p] <= h.currentMemAddr
    ensures p != q ==> p + h.live[p] <= q || q + h.live[q] <= p
  {
    LedgerOf(h);
    hide Heap.Valid, Tiles, Holder, ClassOf;
    TilesOrdered(h.all, HEAP_START, h.currentMemAddr);
    var i, j := Holder(h.all, p), Holder(h.all, q);
    assert h.all[i] in h.all && h.all[j] in h.all;
    assert p != q ==> i < j || j < i;
  }

  lemma LedgerOf(h: Heap)
    requires h.Valid()
    ensures Tiles(h.all, HEAP_START, h.currentMemAddr) && Booked(h.all, h.live)
  {
  }

  lemma StacksApart(s: Kernel.System, t: W.Thread, u: W.Thread)
    requires s.Valid() && OnHeap(s, t) && OnHeap(s, u) && (t.dir, t.base) != (u.dir, u.base)
    ensures W.Apart(t, u)
  {
    assert s.heapOf[t.dir].Valid() && s.heapOf[u.dir].Valid();
    hide Heap.Valid, Kernel.System.Valid;
    BlocksApart(s.heapOf[t.dir], t.base, t.base);
    BlocksApart(s.heapOf[u.dir], u.base, u.base);
    if t.dir == u.dir {
      BlocksApart(s.heapOf[t.dir], t.base, u.base);
    }
  }

  lemma PageMapped(s: Kernel.System, d: Frame, n: nat)
    requires s.Valid() && d in s.heapOf && HEAP_FIRST_PAGE <= n <= PageNumber(s.heapOf[d].currentMemAddr)
    ensures (d, n) in HeapPages(s) && PageNumber(s.heapOf[d].currentMemAddr) < HEAP_END_PAGE
  {
    assert Kernel.ProcessOk(s.k.mem[..], s.k.owner, |s.k.alloc.Free()|, d, s.heapOf[d].currentMemAddr);
    hide Walk, LowIdentity, HeapOwned, SpaceOk, Heap.Valid, Machine.Valid;
    PageAtNumber(PageAt(n), n);
  }

  lemma StackIsMapped(s: Kernel.System, t: W.Thread)
    requires s.Valid() && OnHeap(s, t)
    ensures W.StackOn(HeapPages(s), t) && t.base >= HEAP_START && t.base + t.size < W.WORDS
  {
    var h := s.heapOf[t.dir];
    assert h.Valid();
    hide Heap.Valid, Kernel.System.Valid, HeapPages;
    BlocksApart(h, t.base, t.base);
    PageMapped(s, t.dir, PageNumber(h.currentMemAddr));
    forall a | t.base <= a < t.base + t.size
      ensures W.On(HeapPages(s), t.dir, a)
    {
      PageMapped(s, t.dir, PageNumber(a));
    }
  }

  /** A stack that a heap has given is one that Switching's Create asks for, whatever other stacks the heaps
      have given and whatever lies in the first 4 MB. */
  lemma NewStackAllowed(s: Kernel.System, w: W.World, act: W.Act)
    requires s.Valid() && W.Ok(w) && act.Create? && act.id !in w.threads && HeapPages(s) <= w.mapped
    requires OnHeap(s, W.Thread(act.dir, act.stack, W.STACK, W.NewContext(act.stack)))
    requires forall id :: id in w.threads ==> var t := w.threads[id];
               t.base + t.size <= W.LOW || (OnHeap(s, t) && (t.dir, t.base) != (act.dir, act.stack))
    ensures W.Allowed(Repaired, w, act)
  {
    hide Kernel.System.Valid, HeapPages, W.Ok, W.NewContext, OnHeap, W.Apart, W.StackOn;
    var n := W.Thread(act.dir, act.stack, W.STACK, W.NewContext(act.stack));
    StackIsMapped(s, n);
    StillOn(HeapPages(s), w.mapped, n);
    forall id | id in w.threads
      ensures W.Apart(n, w.threads[id]) && W.Apart(w.threads[id], n)
    {
      if w.threads[id].base + w.threads[id].size > W.LOW {
        StacksApart(s, n, w.threads[id]);
        StacksApart(s, w.threads[id], n);
      } else {
        LowApart(n, w.threads[id]);
      }
    }
  }

  lemma StillOn(before: W.Pages, after: W.Pages, t: W.Thread)
    requires before <= after && W.StackOn(before, t)
    ensures W.StackOn(after, t)
  {
    forall a | t.base <= a < t.base + t.size
      ensures W.On(after, t.dir, a)
    {
      assert W.On(before, t.dir, a);
    }
  }

  lemma LowApart(t: W.Thread, u: W.Thread)
    requires t.base >= W.LOW && u.base + u.size <= W.LOW
    ensures W.Apart(t, u) && W.Apart(u, t)
  {
  }
}
