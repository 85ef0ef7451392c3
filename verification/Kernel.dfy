/** Processes over one machine: every run of process creation, allocation and switching between address
    spaces (createProcess and handleTimerEvent of kernelcpp/code/TaskManager.cpp, as far as memory goes). */
module Kernel {
  import opened Basics
  import opened Paging
  import opened Pmm
  import opened Mmu
  import opened AddressSpaces
  import opened HeapLists
  import opened HeapRuns
  import opened HeapGrowth
  import opened HeapObjects
  import opened Accounting
  import B = Budgets
  import Boot

  /** What holds of every process's directory, whichever one is running. */
  ghost predicate ProcessOk(m: Memory, o: Owners, free: nat, d: Frame, cur: nat) {
    && SpaceOk(m, o, d) && LowIdentity(m, d) && HeapOwned(m, o, d)
    && HeapMapped(m, d, PageNumber(cur)) && Budget(free, PageNumber(cur))
    && Walk(m, d, PD_PAGE) == None && Walk(m, d, PT_PAGE) == None
  }

  /** A step of another process leaves this one as it was. */
  lemma OthersStay(m: Memory, o: Owners, m': Memory, o': Owners, running: Frame, d: Frame, cur: nat, free: nat,
                   free': nat)
    requires ProcessOk(m, o, free, d, cur) && d != running && OthersKept(m, o, m', o', running) && free' <= free
    requires forall f :: f in o ==> f in o' && o'[f] == o[f]
    ensures ProcessOk(m', o', free', d, cur)
  {
    assert SameSpace(m, m', d);
  }

  /** Growing the running process's heap, everything but its heap pages stays. */
  lemma RunningStays(m: Memory, o: Owners, m': Memory, o': Owners, d: Frame, cur: nat)
    requires HeapStep(m, o, m', o', d, cur) && HEAP_FIRST_PAGE <= PageNumber(cur) + 1
    requires Walk(m, d, PD_PAGE) == None && Walk(m, d, PT_PAGE) == None
    ensures Walk(m', d, PD_PAGE) == None && Walk(m', d, PT_PAGE) == None
    ensures OthersKept(m, o, m', o', d) && forall f :: f in o ==> f in o' && o'[f] == o[f]
  {
    assert PD_PAGE.Number() < HEAP_FIRST_PAGE && PT_PAGE.Number() < HEAP_FIRST_PAGE;
  }

  /** The page onto the windows' table is no page any process relies on. */
  lemma WindowPageApart(m: Memory, o: Owners, m': Memory, o': Owners, d: Frame, cur: nat, free: nat, free': nat)
    requires ProcessOk(m, o, free, d, cur) && SpaceOk(m', o', d) && SameSpaceButWindows(m, m', d) && free' <= free
    requires forall f :: f in o ==> f in o' && o'[f] == o[f]
    ensures ProcessOk(m', o', free', d, cur)
  {
    assert WINDOW_TABLE_PAGE.Number() > HEAP_END_PAGE;
    assert PageNumber(cur) < HEAP_END_PAGE;
  }

  /** A directory just created maps no heap page, and has its windows closed. */
  lemma NewSpaceIsBare(m: Memory, o: Owners, n: Frame, t0: Frame, t1: Frame)
    requires SpaceOk(m, o, n) && NewSpace(m, n, t0, t1) && forall p: Page :: Walk(m, n, p) == NewSpaceWalk(n, t0, t1, p)
    ensures At(m, n, HEAP_FIRST_PAGE / 1024) == 0
    ensures LowIdentity(m, n) && HeapOwned(m, o, n) && Walk(m, n, PD_PAGE) == None && Walk(m, n, PT_PAGE) == None
  {
  }

  /** Every process has its directory and a heap of its own in order. */
  ghost predicate AllOk(heapOf: map<Frame, Heap>, m: Memory, o: Owners, free: nat)
    reads heapOf.Values
  {
    && (forall d :: d in heapOf ==>
          heapOf[d].Valid() && heapOf[d].rule == Repaired && ProcessOk(m, o, free, d, heapOf[d].currentMemAddr))
    && (forall d, e :: d in heapOf && e in heapOf && d != e ==> heapOf[d] != heapOf[e])
  }

  /** The same for every process but the running one. */
  ghost predicate OthersOk(heapOf: map<Frame, Heap>, m: Memory, o: Owners, free: nat, running: Frame)
    reads set d | d in heapOf && d != running :: heapOf[d]
  {
    && (forall d :: d in heapOf && d != running ==>
          heapOf[d].Valid() && heapOf[d].rule == Repaired && ProcessOk(m, o, free, d, heapOf[d].currentMemAddr))
    && (forall d, e :: d in heapOf && e in heapOf && d != e ==> heapOf[d] != heapOf[e])
  }

  lemma OthersStayOk(heapOf: map<Frame, Heap>, m: Memory, o: Owners, m': Memory, o': Owners, running: Frame, free: nat,
                     free': nat)
    requires OthersOk(heapOf, m, o, free, running) && OthersKept(m, o, m', o', running) && free' <= free
    requires forall f :: f in o ==> f in o' && o'[f] == o[f]
    ensures OthersOk(heapOf, m', o', free', running)
  {
    hide OthersKept, ProcessOk;
    forall d | d in heapOf && d != running
      ensures ProcessOk(m', o', free', d, heapOf[d].currentMemAddr)
    {
      OthersStay(m, o, m', o', running, d, heapOf[d].currentMemAddr, free, free');
    }
  }

  lemma AllAndOthers(heapOf: map<Frame, Heap>, m: Memory, o: Owners, free: nat, running: Frame)
    requires running in heapOf
    ensures AllOk(heapOf, m, o, free) <==>
              && OthersOk(heapOf, m, o, free, running)
              && heapOf[running].Valid() && heapOf[running].rule == Repaired
              && ProcessOk(m, o, free, running, heapOf[running].currentMemAddr)
    ensures AllOk(heapOf, m, o, free) ==> heapOf[running] !in set d | d in heapOf && d != running :: heapOf[d]
  {
    hide ProcessOk;
  }

  lemma OneMore(heapOf: map<Frame, Heap>, m: Memory, o: Owners, free: nat, n: Frame, h: Heap)
    requires AllOk(heapOf, m, o, free) && n !in heapOf && h !in heapOf.Values
    requires h.Valid() && h.rule == Repaired && ProcessOk(m, o, free, n, h.currentMemAddr)
    ensures AllOk(heapOf[n := h], m, o, free)
  {
    hide ProcessOk;
    var all := heapOf[n := h];
    forall d, e | d in all && e in all && d != e
      ensures all[d] != all[e]
    {
      assert d != n ==> heapOf[d] in heapOf.Values;
      assert e != n ==> heapOf[e] in heapOf.Values;
    }
  }

  // ----- the books -----

  /** A directory just created has three tables and no heap page. */
  lemma NewLayout(m: Memory, n: Frame, t0: Frame, t1: Frame)
    requires NewSpace(m, n, t0, t1) && forall p: Page :: Walk(m, n, p) == NewSpaceWalk(n, t0, t1, p)
    ensures LayoutOf(m, n) == Layout({0, DIR_SLOT, TABLES_SLOT}, {})
  {
    hide At, Walk;
    forall s: nat
      ensures s in TablesOf(m, n) <==> s in {0, DIR_SLOT, TABLES_SLOT}
    {
      if s < 1024 {
        var i: Index := s;
        assert At(m, n, i) != 0 <==> i in {0, DIR_SLOT, TABLES_SLOT};
      }
    }
    assert forall x: nat :: HEAP_FIRST_PAGE <= x < HEAP_END_PAGE ==> Walk(m, n, PageAt(x)) == None;
  }

  /** Its creator has gained the windows' table, if anything. */
  lemma CreatorLayout(m: Memory, o: Owners, m': Memory, o': Owners, d: Frame)
    requires SpaceOk(m, o, d) && SpaceOk(m', o', d) && SameSpaceButWindows(m, m', d) && WindowTable(m', d)
    ensures LayoutOf(m', d) == WithTable(LayoutOf(m, d), B.WINDOW_SLOT)
    ensures WindowTable(m, d) <==> B.WINDOW_SLOT in TablesOf(m, d)
  {
    forall s: Index | s != B.WINDOW_SLOT
      ensures At(m', d, s) != 0 <==> At(m, d, s) != 0
    {
      TableSeen(m, o, d, s);
      TableSeen(m', o', d, s);
      assert Page(TABLES_SLOT, s) != WINDOW_TABLE_PAGE;
    }
    SamePages(m, m', d);
  }

  lemma WindowTableIs(m: Memory, d: Frame)
    ensures WindowTable(m, d) <==> B.WINDOW_SLOT in LayoutOf(m, d).tables
  {
  }

  /** The first thread's stack costs one page once the first heap page is there, and its header lies on that. */
  lemma StackCost(l: Layout)
    requires B.HEAP_SLOT in l.tables
    ensures GrowthCost(l.tables, HEAP_START, HEAP_START + HEADER + STACK_BYTES) == 1
    ensures Grow(l, HEAP_START, HEAP_START + HEADER + STACK_BYTES) == WithStackPage(l)
  {
    var a := PageNumber(HEAP_START) + 1;
    PagesMappedExactly(HEAP_START, HEADER + STACK_BYTES);
    assert Growth(HEAP_START, HEAP_START + HEADER + STACK_BYTES) == 1 && a / 1024 == B.HEAP_SLOT;
    assert PagesTaken(l.tables, a, 0) == 0 && PagesTaken(l.tables, a, 1) == 1;
    assert SlotsOf(a, 0) == {} && SlotsOf(a, 1) == {B.HEAP_SLOT};
    assert NumbersFrom(a, 0) == {} && NumbersFrom(a, 1) == {HEAP_FIRST_PAGE + 1};
  }

  // of the word at `a`
  function LastByte(a: Word): Word {
    (a + 3) % 0x1_0000_0000
  }

  lemma LowWord(a: Word)
    ensures PageOf(a).slot == 0 && PageOf(LastByte(a)).slot == 0 <==> a + 3 < B.LOW_END
  {
    assert PageOf(a).slot == 0 <==> a < B.LOW_END;
    assert PageOf(LastByte(a)).slot == 0 <==> LastByte(a) < B.LOW_END;
  }

  /** A page is on the same frame in both directories. */
  ghost predicate Shared(m: Memory, d: Frame, m': Memory, n: Frame, p: Page) {
    Walk(m, d, p).Some? && Walk(m', n, p) == Walk(m, d, p)
  }

  ghost predicate OnlyLowShared(m: Memory, d: Frame, m': Memory, n: Frame) {
    forall p: Page :: Shared(m, d, m', n, p) <==> p.slot == 0
  }

  lemma LowShared(m: Memory, o: Owners, caller: Frame, m': Memory, o': Owners, n: Frame, t0: Frame, t1: Frame)
    requires SpaceOk(m, o, caller) && LowIdentity(m, caller) && n != caller && SpaceOk(m', o', n)
    requires NewSpace(m', n, t0, t1) && forall p: Page :: Walk(m', n, p) == NewSpaceWalk(n, t0, t1, p)
    requires forall f :: f in o ==> f in o' && o'[f] == o[f]
    ensures OnlyLowShared(m, caller, m', n)
  {
    hide NewSpace, NewSpaceWalk, Walk, SpaceOk, LowIdentity;
    forall p: Page
      ensures Shared(m, caller, m', n, p) <==> p.slot == 0
    {
      StackStaysIff(m, o, caller, m', o', n, t0, t1, p);
    }
  }

  /** Of all pages, the caller's stack is on the same frame in the directory it has created exactly if it lies
      in the first 4 MB. */
  lemma StackStaysIff(m: Memory, o: Owners, caller: Frame, m': Memory, o': Owners, n: Frame, t0: Frame, t1: Frame,
                      p: Page)
    requires SpaceOk(m, o, caller) && LowIdentity(m, caller) && n != caller && SpaceOk(m', o', n)
    requires NewSpace(m', n, t0, t1) && Walk(m', n, p) == NewSpaceWalk(n, t0, t1, p)
    requires forall f :: f in o ==> f in o' && o'[f] == o[f]
    ensures Shared(m, caller, m', n, p) <==> p.slot == 0
  {
    SelfReference(m, o, caller);
    assert EntryOk(m, o, caller, 0) && EntryOk(m, o, caller, DIR_SLOT) && EntryOk(m', o', n, 0)
           && EntryOk(m', o', n, DIR_SLOT);
    assert Walk(m, caller, Page(0, p.index)) == Some(p.index);
  }

  ghost function ProcOf(h: Heap, m: Memory, d: Frame): B.Proc
    reads h
    requires h.LinksOk()
  {
    B.Proc(h.State(), h.live, LayoutOf(m, d))
  }

  class System {
    const k: Machine
    var heapOf: map<Frame, Heap>   // thread->heap, by the thread's page directory

    ghost predicate Valid()
      reads this, k, k.mem, k.alloc, k.alloc.bitmap, heapOf.Values
    {
      && k.Valid() && OnlyHeapPages(k.stale) && k.cr3 in heapOf
      && Processes(k.mem[..], k.owner, |k.alloc.Free()|)
    }

    ghost predicate Processes(m: Memory, o: Owners, free: nat)
      reads this, heapOf.Values
    {
      AllOk(heapOf, m, o, free)
    }

    /** What the pool holds and what every process has. */
    ghost function View(): B.Books
      reads this, k, k.mem, k.alloc, k.alloc.bitmap, heapOf.Values
      requires Valid()
    {
      B.Books(|k.alloc.Free()|, k.cr3, map d | d in heapOf :: ProcOf(heapOf[d], k.mem[..], d))
    }

    /** The operation goes well: the pool can pay for it, and it runs into no page fault. */
    ghost predicate Goes(op: B.Op)
      reads this, k, k.mem, k.alloc, k.alloc.bitmap, heapOf.Values
      requires Valid()
    {
      B.Kept(View()) && B.Goes(View(), op)
    }

    /** The books are now what they are after the operation. */
    ghost predicate Became(b: B.Books, op: B.Op, pd: Frame)
      reads this, k, k.mem, k.alloc, k.alloc.bitmap, heapOf.Values
    {
      B.Kept(b) && B.Goes(b, op) && Valid() && View() == B.Done(b, op, pd)
    }

    lemma ViewKept()
      requires Valid()
      ensures B.Kept(View())
    {
      forall d | d in heapOf
        ensures WellShaped(heapOf[d].State())
      {
        assert heapOf[d].Valid();
      }
    }

    lemma ViewParts()
      requires Valid()
      ensures k.mem.Length == WORDS && k.alloc.Valid() && k.alloc.pagingActive && k.Valid()
      ensures Processes(k.mem[..], k.owner, |k.alloc.Free()|) && OnlyHeapPages(k.stale)
      ensures var b := View();
              && B.Kept(b) && b.free == |k.alloc.Free()| && b.running == k.cr3 && k.cr3 in heapOf
              && b.procs.Keys == heapOf.Keys
              && forall d :: d in heapOf ==> heapOf[d].Valid() && b.procs[d] == ProcOf(heapOf[d], k.mem[..], d)
      ensures forall d :: d in heapOf && d != k.cr3 ==> heapOf[d] != heapOf[k.cr3]
    {
      ViewKept();
    }

    lemma Rebook(c: B.Books)
      requires Valid() && c.free == |k.alloc.Free()| && c.running == k.cr3 && c.procs.Keys == heapOf.Keys
      requires forall d :: d in heapOf ==> heapOf[d].Valid() && c.procs[d] == ProcOf(heapOf[d], k.mem[..], d)
      ensures View() == c
    {
      assert View().procs == c.procs;
    }

    /** No process but the running one has a table or a heap page more or less. */
    lemma OtherLayouts(m: Memory, o: Owners, free: nat, m': Memory, o': Owners, free': nat, running: Frame)
      requires OthersOk(heapOf, m, o, free, running) && OthersOk(heapOf, m', o', free', running)
               && OthersKept(m, o, m', o', running)
      ensures forall d :: d in heapOf && d != running ==> LayoutOf(m', d) == LayoutOf(m, d)
    {
      forall d | d in heapOf && d != running
        ensures LayoutOf(m', d) == LayoutOf(m, d)
      {
        assert ProcessOk(m, o, free, d, heapOf[d].currentMemAddr)
               && ProcessOk(m', o', free', d, heapOf[d].currentMemAddr);
        SameLayout(m, o, m', o', d);
      }
    }

    /** Work in a directory that is not yet a process leaves every process as it was. */
    lemma AllStay(m: Memory, o: Owners, m': Memory, o': Owners, running: Frame, free: nat, free': nat)
      requires Processes(m, o, free) && running !in heapOf && OthersKept(m, o, m', o', running) && free' <= free
      requires forall f :: f in o ==> f in o' && o'[f] == o[f]
      ensures Processes(m', o', free')
    {
      forall d | d in heapOf
        ensures ProcessOk(m', o', free', d, heapOf[d].currentMemAddr)
      {
        OthersStay(m, o, m', o', running, d, heapOf[d].currentMemAddr, free, free');
      }
    }

    /** So does creating a directory from one of them. */
    lemma CreationKeeps(m: Memory, o: Owners, m': Memory, o': Owners, running: Frame, free: nat, free': nat)
      requires Processes(m, o, free) && running in heapOf && OthersKept(m, o, m', o', running) && free' <= free
      requires forall f :: f in o ==> f in o' && o'[f] == o[f]
      requires SpaceOk(m', o', running) && SameSpaceButWindows(m, m', running)
      ensures Processes(m', o', free')
      ensures forall d :: d in heapOf ==> SameSpaceButWindows(m, m', d)
    {
      forall d | d in heapOf
        ensures ProcessOk(m', o', free', d, heapOf[d].currentMemAddr) && SameSpaceButWindows(m, m', d)
      {
        if d == running {
          WindowPageApart(m, o, m', o', d, heapOf[d].currentMemAddr, free, free');
        } else {
          OthersStay(m, o, m', o', running, d, heapOf[d].currentMemAddr, free, free');
          assert SameSpace(m, m', d);
        }
      }
    }

    constructor (k: Machine, h: Heap)
      requires k.Valid() && OnlyHeapPages(k.stale) && h.Valid() && h.rule == Repaired
      requires ProcessOk(k.mem[..], k.owner, |k.alloc.Free()|, k.cr3, h.currentMemAddr)
      ensures Valid() && this.k == k && heapOf == map[k.cr3 := h]
    {
      this.k := k;
      heapOf := map[k.cr3 := h];
    }

    /** No physical frame is mapped at heap addresses in two directories, or at two heap pages of one. */
    lemma HeapFramesPrivate(d: Frame, p: Page, e: Frame, q: Page)
      requires Valid() && d in heapOf && e in heapOf && InHeap(p) && InHeap(q)
      requires Walk(k.mem[..], d, p).Some? && Walk(k.mem[..], d, p) == Walk(k.mem[..], e, q)
      ensures d == e && p == q
    {
      assert HeapOwned(k.mem[..], k.owner, d) && HeapOwned(k.mem[..], k.owner, e);
    }

    /** No heap page shows a page table or directory of any process, nor the allocator's bitmap, and the
        allocator will not hand its frame out again. */
    lemma HeapFramesAreNoTables(d: Frame, p: Page, e: Frame, i: Index)
      requires Valid() && d in heapOf && e in heapOf && InHeap(p) && Walk(k.mem[..], d, p).Some?
      ensures var f := Walk(k.mem[..], d, p).value;
              && f != e && (Present(At(k.mem[..], e, i)) ==> FrameOf(At(k.mem[..], e, i)) != f)
              && f != k.alloc.base / MEM_UNIT_SIZE && forall j :: j in k.alloc.Free() ==> k.PoolFrame(j) != f
    {
      assert HeapOwned(k.mem[..], k.owner, d) && SpaceOk(k.mem[..], k.owner, e);
      if i < 1023 {
        assert EntryOk(k.mem[..], k.owner, e, i);
      }
    }

    // kmalloc of the running process
    method Malloc(length: nat) returns (ok: bool, p: nat)
      requires Valid() && (length + HEADER < 0x8000_0000 || length >= 0x8000_0000)
      modifies heapOf[k.cr3], k, k.mem, k.alloc, k.alloc.bitmap
      ensures k.cr3 == old(k.cr3) && heapOf == old(heapOf)
      ensures ok ==> Valid()
      ensures ok ==> (heapOf[k.cr3].State(), p) == HeapLists.Kmalloc(Repaired, old(heapOf[k.cr3].State()), length)
      ensures ok <==> old(heapOf[k.cr3].Servable(k, length))
      ensures ok <==> old(Goes(B.Malloc(length)))
      ensures ok ==> Became(old(View()), B.Malloc(length), 0)
    {
      hide View, B.Kept, Walk, At, SpaceOk, LowIdentity, HeapOwned, HeapMapped, OthersKept, HeapStep, HeapLists.Kmalloc,
           AllOk, OthersOk, Budget, LayoutOf, Heap.Valid, Heap.LinksOk, Heap.State, Heap.Servable, Machine.Valid,
           B.Need, B.Goes, B.Done, HeapGrowth.Grown, Served, GrowthCost, Accounting.Grow;
      ViewParts();
      var h := heapOf[k.cr3];
      ghost var b, s, cur := View(), Snap(k), h.currentMemAddr;
      AllAndOthers(heapOf, s.m, s.o, s.free, k.cr3);
      MallocBooks(b, k, h, length);
      ok, p := h.Kmalloc(k, length);
      if ok {
        StateEnds(h);
        MallocEnds(s, cur, h);
        ViewParts();
        Rebook(B.Done(b, B.Malloc(length), 0));
      }
    }

    // the running heap has been served; all else is as it was
    lemma MallocEnds(s: Snapshot, cur: nat, h: Heap)
      requires k.cr3 in heapOf && h == heapOf[k.cr3] && h.Valid() && h.rule == Repaired
               && Served(k, s, cur, h.currentMemAddr)
      requires OthersOk(heapOf, s.m, s.o, s.free, k.cr3) && ProcessOk(s.m, s.o, s.free, k.cr3, cur)
      requires cur <= h.currentMemAddr
      ensures Valid() && |k.alloc.Free()| + GrowthCost(LayoutOf(s.m, k.cr3).tables, cur, h.currentMemAddr) == s.free
      ensures LayoutOf(k.mem[..], k.cr3) == Grow(LayoutOf(s.m, k.cr3), cur, h.currentMemAddr)
      ensures forall d :: d in heapOf && d != k.cr3 ==> LayoutOf(k.mem[..], d) == LayoutOf(s.m, d)
    {
      hide Walk, At, SpaceOk, LowIdentity, HeapOwned, HeapMapped, OthersKept, HeapStep, AllOk, OthersOk, TablesOf,
           PagesOf, Heap.Valid, GrownBy, FramesTaken, GrowthCost, GrowthTables, GrowthPages, Remapped,
           HeapGrowth.Growth;
      PaidFor(k, s, cur, h.currentMemAddr);
      BudgetFrom(s.free, PageNumber(cur));
      RunningStays(s.m, s.o, k.mem[..], k.owner, k.cr3, cur);
      OthersStayOk(heapOf, s.m, s.o, k.mem[..], k.owner, k.cr3, s.free, |k.alloc.Free()|);
      AllAndOthers(heapOf, k.mem[..], k.owner, |k.alloc.Free()|, k.cr3);
      OtherLayouts(s.m, s.o, s.free, k.mem[..], k.owner, |k.alloc.Free()|, k.cr3);
    }

    // what the books say of a request the running process makes
    lemma MallocBooks(b: B.Books, k: Machine, h: Heap, length: nat)
      requires B.Kept(b) && b.running in b.procs && h.Valid() && h.rule == Repaired && Backed(k, h.currentMemAddr)
      requires length + HEADER < FIELD || length >= FIELD
      requires b.procs[b.running] == ProcOf(h, k.mem[..], k.cr3) && b.free == |k.alloc.Free()|
      ensures h.Servable(k, length) <==> B.Goes(b, B.Malloc(length))
      ensures HeapLists.Kmalloc(Repaired, h.State(), length).0.cur >= h.currentMemAddr
      ensures B.Goes(b, B.Malloc(length)) ==>
                var c, r, l := B.Done(b, B.Malloc(length), 0), HeapLists.Kmalloc(Repaired, h.State(), length),
                    LayoutOf(k.mem[..], k.cr3);
                && c.free == b.free - GrowthCost(l.tables, h.currentMemAddr, r.0.cur) && c.running == b.running
                && c.procs.Keys == b.procs.Keys
                && c.procs[b.running] == B.Proc(r.0, if r.1 == 0 then h.live else h.live[r.1 := length],
                                                Grow(l, h.currentMemAddr, r.0.cur))
                && forall d :: d in b.procs && d != b.running ==> c.procs[d] == b.procs[d]
    {
      hide HeapLists.Kmalloc, TablesOf, PagesOf, Heap.Servable, GrowthCost, Accounting.Grow, Heap.Valid, Heap.State,
           Backed, Machine.Valid, PageNumber;
      ServableIff(k, h, length);
      StateEnds(h);
      KmallocGrows(Repaired, h.State(), length);
    }

    // kfree of the running process
    method Free(p: nat)
      requires Valid() && p in heapOf[k.cr3].live
      modifies heapOf[k.cr3]
      ensures Valid() && heapOf == old(heapOf)
      ensures heapOf[k.cr3].State() == HeapLists.Kfree(old(heapOf[k.cr3].State()), p)
      ensures Became(old(View()), B.Free(p), 0)
    {
      hide View, B.Kept, AllOk, Machine.Valid, Heap.Valid, Heap.LinksOk, Heap.State, LayoutOf, Kfree, OnlyHeapPages,
           OthersOk, ProcessOk;
      ViewParts();
      var h := heapOf[k.cr3];
      ghost var b := View();
      FreeBooks(b, h, p);
      AllAndOthers(heapOf, k.mem[..], k.owner, |k.alloc.Free()|, k.cr3);
      h.Kfree(p);
      AllAndOthers(heapOf, k.mem[..], k.owner, |k.alloc.Free()|, k.cr3);
      Rebook(B.Done(b, B.Free(p), 0));
    }

    lemma FreeBooks(b: B.Books, h: Heap, p: nat)
      requires B.Kept(b) && b.running in b.procs && p in b.procs[b.running].live
      ensures var c, q := B.Done(b, B.Free(p), 0), b.procs[b.running];
              && B.Goes(b, B.Free(p)) && c.free == b.free && c.running == b.running && c.procs.Keys == b.procs.Keys
              && c.procs[b.running] == B.Proc(HeapLists.Kfree(q.heap, p), q.live - {p}, q.layout)
              && forall d :: d in b.procs && d != b.running ==> c.procs[d] == b.procs[d]
    {
    }

    // switch_page_directory to another process's directory
    method Switch(d: Frame)
      requires Valid() && d in heapOf
      modifies k`cr3, k`tlb, k`stale
      ensures Valid() && k.cr3 == d && heapOf == old(heapOf)
      ensures Became(old(View()), B.Switch(d), 0)
    {
      hide View, B.Kept, AllOk, Machine.Valid, Heap.Valid, Heap.LinksOk, Heap.State, LayoutOf, OthersOk, ProcessOk;
      ViewParts();
      ghost var b := View();
      SwitchBack(k, heapOf, d);
      AllAndOthers(heapOf, k.mem[..], k.owner, |k.alloc.Free()|, k.cr3);
      Rebook(b.(running := d));
    }

    /** After a creation every process has the tables and heap pages it had, but for the windows' table. */
    ghost predicate LayoutsAfter(m: Memory, m': Memory, creator: Frame)
      reads this
    {
      forall d :: d in heapOf ==>
        LayoutOf(m', d) == if d == creator then WithTable(LayoutOf(m, d), B.WINDOW_SLOT) else LayoutOf(m, d)
    }

    lemma RunningOk(m: Memory, o: Owners, free: nat)
      requires Processes(m, o, free) && k.cr3 in heapOf
      ensures SpaceOk(m, o, k.cr3) && LowIdentity(m, k.cr3) && Walk(m, k.cr3, PD_PAGE) == None
              && Walk(m, k.cr3, PT_PAGE) == None
    {
      assert ProcessOk(m, o, free, k.cr3, heapOf[k.cr3].currentMemAddr);
    }

    lemma CreationLayouts(m: Memory, o: Owners, free: nat, m': Memory, o': Owners, free': nat, creator: Frame)
      requires Processes(m, o, free) && Processes(m', o', free') && creator in heapOf
               && OthersKept(m, o, m', o', creator)
      requires SameSpaceButWindows(m, m', creator) && WindowTable(m', creator)
      ensures LayoutsAfter(m, m', creator)
    {
      AllAndOthers(heapOf, m, o, free, creator);
      AllAndOthers(heapOf, m', o', free', creator);
      hide AllOk, OthersOk, OthersKept, LayoutOf;
      OtherLayouts(m, o, free, m', o', free', creator);
      CreatorLayout(m, o, m', o', creator);
    }

    /** From `s` on, directory `pd` has been created by `creator`: it shares the first 4 MB with its creator
        and has no heap page yet; every process is as it was. */
    ghost predicate Created(s: Snapshot, m: Memory, o: Owners, free: nat, creator: Frame, pd: Frame)
      reads this, heapOf.Values
    {
      && pd !in heapOf && HeapOwned(m, o, pd) && At(m, pd, HEAP_FIRST_PAGE / 1024) == 0
      && Walk(m, pd, PD_PAGE) == None && Walk(m, pd, PT_PAGE) == None
      && free == s.free - PagesNeeded(s.m, creator) && Processes(m, o, free)
      && LayoutOf(m, pd) == Layout({0, DIR_SLOT, TABLES_SLOT}, {})
      && OnlyLowShared(s.m, creator, m, pd) && LayoutsAfter(s.m, m, creator) && SpacesAfter(s.m, m)
    }

    /** ... and is running. */
    ghost predicate Entered(s: Snapshot, creator: Frame, pd: Frame)
      reads this, k, k.mem, k.alloc, k.alloc.bitmap, heapOf.Values
    {
      k.Valid() && k.stale == iset{} && k.cr3 == pd && Created(s, k.mem[..], k.owner, |k.alloc.Free()|, creator, pd)
    }

    ghost predicate SpacesAfter(m: Memory, m': Memory)
      reads this
    {
      forall d :: d in heapOf ==> SameSpaceButWindows(m, m', d)
    }

    // lines 87-129 and 63: a new directory, which then runs
    method EnterNewDirectory() returns (ok: bool, pd: Frame)
      requires Valid()
      modifies k, k.mem, k.alloc, k.alloc.bitmap
      ensures k.mem.Length == WORDS
      ensures ok <==> |old(k.alloc.Free())| >= old(PagesNeeded(k.mem[..], k.cr3))
      ensures ok ==> Entered(old(Snap(k)), old(k.cr3), pd)
    {
      hide Walk, At, SpaceOk, LowIdentity, HeapOwned, HeapMapped, OthersKept, NewSpace, NewSpaceWalk, WindowTable,
           LayoutOf, View, B.Kept, AllOk, Processes, PagesNeeded, Created, Heap.Valid, Machine.Hardware, Agrees,
           OrdinarySlots;
      ViewParts();
      ghost var s, creator := Snap(k), k.cr3;
      DirectoriesOwned(s.m, s.o, s.free);
      RunningOk(s.m, s.o, s.free);
      var address;
      ghost var t0, t1;
      ok, address, t0, t1 := CreatePageDirectory(k);
      pd := address / 0x1000;
      if ok {
        CreationMeans(s, creator, pd, t0, t1);
        k.EnterSpace(pd);
      }
    }

    lemma CreationMeans(s: Snapshot, creator: Frame, pd: Frame, t0: Frame, t1: Frame)
      requires k.Valid() && creator in heapOf && pd !in s.o && pd != creator && forall d :: d in heapOf ==> d in s.o
      requires Processes(s.m, s.o, s.free) && SpaceOk(s.m, s.o, creator) && LowIdentity(s.m, creator)
      requires SpaceOk(k.mem[..], k.owner, creator) && SpaceOk(k.mem[..], k.owner, pd)
               && NewSpace(k.mem[..], pd, t0, t1)
      requires forall p: Page :: Walk(k.mem[..], pd, p) == NewSpaceWalk(pd, t0, t1, p)
      requires forall p: Page :: (p == WINDOW_TABLE_PAGE ==> WindowTable(s.m, creator)) ==>
                 Walk(k.mem[..], creator, p) == Walk(s.m, creator, p)
      requires OthersKept(s.m, s.o, k.mem[..], k.owner, creator) && OwnersOf(s.o, k.owner, creator, pd)
               && WindowTable(k.mem[..], creator)
      requires |k.alloc.Free()| == s.free - PagesNeeded(s.m, creator)
      ensures Created(s, k.mem[..], k.owner, |k.alloc.Free()|, creator, pd) && SpaceOk(k.mem[..], k.owner, pd)
              && LowIdentity(k.mem[..], pd)
    {
      hide Walk, At, SpaceOk, LowIdentity, HeapOwned, HeapMapped, OthersKept, NewSpace, NewSpaceWalk, WindowTable,
           LayoutOf, AllOk, Processes;
      MachineParts(k);
      CreationKeeps(s.m, s.o, k.mem[..], k.owner, creator, s.free, |k.alloc.Free()|);
      NewSpaceIsBare(k.mem[..], k.owner, pd, t0, t1);
      NewLayout(k.mem[..], pd, t0, t1);
      LowShared(s.m, s.o, creator, k.mem[..], k.owner, pd, t0, t1);
      CreationLayouts(s.m, s.o, s.free, k.mem[..], k.owner, |k.alloc.Free()|, creator);
    }

    /** The same once the new process's heap is there, with the stack on it. */
    ghost predicate Built(s: Snapshot, creator: Frame, pd: Frame, h: Heap)
      reads this, k, k.mem, k.alloc, k.alloc.bitmap, heapOf.Values, h
    {
      && k.Valid() && OnlyHeapPages(k.stale) && k.cr3 == pd && pd !in heapOf
      && h.Valid() && h.rule == Repaired && ProcOf(h, k.mem[..], pd) == B.NewProc()
      && ProcessOk(k.mem[..], k.owner, |k.alloc.Free()|, pd, h.currentMemAddr)
      && Processes(k.mem[..], k.owner, |k.alloc.Free()|)
      && |k.alloc.Free()| == s.free - PagesNeeded(s.m, creator) - 3
      && k.mem.Length == WORDS && LayoutsAfter(s.m, k.mem[..], creator) && SpacesAfter(s.m, k.mem[..])
    }

    // the new directory and the heap in it, called on the stack at `sp`; the machine is left in that directory
    method BuildProcess(sp: Word) returns (ok: bool, pd: Frame, h: Heap)
      requires Valid()
      modifies k, k.mem, k.alloc, k.alloc.bitmap
      ensures fresh(h)
      ensures ok <==> |old(k.alloc.Free())| >= old(PagesNeeded(k.mem[..], k.cr3)) + 3 && sp + 3 < B.LOW_END
      ensures ok ==> Built(old(Snap(k)), old(k.cr3), pd, h)
    {
      hide Entered, Built, Processes, LayoutOf, Walk, At, SpaceOk, LowIdentity, AllOk, Machine.Valid, HeapOwned, View,
           B.Kept, PagesNeeded, LayoutsAfter, SpacesAfter, OthersKept, Heap.Valid, Heap.State, ProcessOk, WithFirstPage,
           WithStackPage, Append;
      ViewParts();
      ghost var s, creator := Snap(k), k.cr3;
      var first, last := Walk(k.mem[..], k.cr3, PageOf(sp)), Walk(k.mem[..], k.cr3, PageOf(LastByte(sp)));
      ok, pd := EnterNewDirectory();
      if ok {
        // the return from switch_page_directory goes through the caller's stack
        StackIsLow(s, creator, pd, sp);
        ok := && first.Some? && Walk(k.mem[..], pd, PageOf(sp)) == first
              && last.Some? && Walk(k.mem[..], pd, PageOf(LastByte(sp))) == last;
      }
      if !ok {
        h := new Heap(Repaired);
        return;
      }
      EnteredParts(s, creator, pd);
      ghost var m1, o1, free1 := k.mem[..], k.owner, |k.alloc.Free()|;
      ok, h := StartHeap(k);
      if ok {
        BuiltParts(s, creator, pd, h, m1, o1, free1);
      }
    }

    lemma StackIsLow(s: Snapshot, creator: Frame, pd: Frame, sp: Word)
      requires Entered(s, creator, pd)
      ensures k.mem.Length == WORDS
      ensures Shared(s.m, creator, k.mem[..], pd, PageOf(sp))
              && Shared(s.m, creator, k.mem[..], pd, PageOf(LastByte(sp)))
         <==> sp + 3 < B.LOW_END
    {
      hide Entered, PageOf, LastByte, Shared;
      LowShares(s, creator, pd);
      LowWord(sp);
    }

    lemma LowShares(s: Snapshot, creator: Frame, pd: Frame)
      requires Entered(s, creator, pd)
      ensures k.mem.Length == WORDS && OnlyLowShared(s.m, creator, k.mem[..], pd)
    {
      hide Walk, Processes, LayoutOf, Shared, OnlyLowShared;
    }

    lemma EnteredParts(s: Snapshot, creator: Frame, pd: Frame)
      requires Entered(s, creator, pd)
      ensures k.Valid() && k.mem.Length == WORDS && OnlyHeapPages(k.stale) && HeapOwned(k.mem[..], k.owner, k.cr3)
              && k.cr3 == pd
      ensures Walk(k.mem[..], k.cr3, PD_PAGE) == None && Walk(k.mem[..], k.cr3, PT_PAGE) == None
      ensures At(k.mem[..], k.cr3, HEAP_FIRST_PAGE / 1024) == 0 && k.alloc.Valid() && k.alloc.pagingActive
      ensures |k.alloc.Free()| == s.free - PagesNeeded(s.m, creator) && pd !in heapOf
      ensures Processes(k.mem[..], k.owner, |k.alloc.Free()|)
      ensures LayoutOf(k.mem[..], pd) == Layout({0, DIR_SLOT, TABLES_SLOT}, {})
      ensures LayoutsAfter(s.m, k.mem[..], creator) && SpacesAfter(s.m, k.mem[..])
    {
    }

    lemma BuiltParts(s: Snapshot, creator: Frame, pd: Frame, h: Heap, m1: Memory, o1: Owners, free1: nat)
      requires k.Valid() && OnlyHeapPages(k.stale) && k.cr3 == pd && pd !in heapOf && h.Valid() && h.rule == Repaired
      requires ProcessOk(k.mem[..], k.owner, |k.alloc.Free()|, pd, h.currentMemAddr)
      requires OthersKept(m1, o1, k.mem[..], k.owner, pd) && forall f :: f in o1 ==> f in k.owner && k.owner[f] == o1[f]
      requires h.State() == Append(Empty(), NONSTANDARD, STACK_BYTES)
               && h.live == map[HEAP_START + HEADER := STACK_BYTES]
      requires LayoutOf(m1, pd) == Layout({0, DIR_SLOT, TABLES_SLOT}, {})
      requires LayoutOf(k.mem[..], pd) == WithStackPage(WithFirstPage(LayoutOf(m1, pd)))
      requires |k.alloc.Free()| == free1 - 3 && free1 == s.free - PagesNeeded(s.m, creator) && Processes(m1, o1, free1)
      requires LayoutsAfter(s.m, m1, creator) && forall d :: d in heapOf ==> SameSpaceButWindows(s.m, m1, d)
      ensures Built(s, creator, pd, h)
    {
      hide LayoutOf, OthersKept, Walk, Machine.Valid, ProcessOk, SameSpaceButWindows, Processes, Heap.Valid, Heap.State,
           Append;
      MachineParts(k);
      SpacesStill(s.m, m1, o1, k.mem[..], k.owner, pd, free1);
      AllStay(m1, o1, k.mem[..], k.owner, pd, free1, |k.alloc.Free()|);
      LayoutsStill(m1, o1, free1, k.mem[..], k.owner, |k.alloc.Free()|, pd);
    }

    /** createProcess up to the thread record, called on the stack at `sp`: the directory, the heap and the
        stack on that heap. */
    method CreateProcess(sp: Word) returns (ok: bool, pd: Frame)
      requires Valid()
      modifies this`heapOf, k, k.mem, k.alloc, k.alloc.bitmap
      ensures ok <==> old(Goes(B.Create(sp)))
      ensures ok ==> Beside(old(Snap(k)), old(heapOf), pd) && fresh(heapOf[pd]) && Became(old(View()), B.Create(sp), pd)
    {
      hide View, Processes, B.Kept, B.NewProc, Walk, LayoutOf, At, WindowTable, SameSpaceButWindows, ProcessOk, AllOk,
           Heap.Valid, Heap.LinksOk, Heap.State, Machine.Valid, Goes, Built;
      ViewParts();
      ghost var b, s, creator := View(), Snap(k), k.cr3;
      CreateCosts(sp);
      var parent := k.cr3;
      var h;
      ok, pd, h := BuildProcess(sp);
      if ok {
        BuiltMeans(s, creator, pd, h);
        Adopt(pd, h, parent, b, sp);
      }
    }

    lemma BuiltMeans(s: Snapshot, creator: Frame, pd: Frame, h: Heap)
      requires Built(s, creator, pd, h)
      ensures k.Valid() && k.mem.Length == WORDS && k.alloc.Valid() && k.alloc.pagingActive
      ensures pd !in heapOf && h.Valid() && h.rule == Repaired && Processes(k.mem[..], k.owner, |k.alloc.Free()|)
      ensures ProcessOk(k.mem[..], k.owner, |k.alloc.Free()|, pd, h.currentMemAddr)
              && ProcOf(h, k.mem[..], pd) == B.NewProc()
      ensures |k.alloc.Free()| == s.free - PagesNeeded(s.m, creator) - 3
      ensures LayoutsAfter(s.m, k.mem[..], creator) && SpacesAfter(s.m, k.mem[..])
    {
    }

    /** Process `pd` has joined those of `was`, and no page of theirs translates otherwise than in `s`. */
    ghost predicate Beside(s: Snapshot, was: map<Frame, Heap>, pd: Frame)
      reads this, k.mem
    {
      && k.mem.Length == WORDS && pd !in was && pd in heapOf && heapOf == was[pd := heapOf[pd]]
      && forall d :: d in was ==> SameSpaceButWindows(s.m, k.mem[..], d)
    }

    /** Creating a process costs the pages create_page_directory counts and three for the heap, and the caller's
        stack has to lie in the first 4 MB. */
    lemma CreateCosts(sp: Word)
      requires Valid()
      ensures Goes(B.Create(sp)) <==> |k.alloc.Free()| >= PagesNeeded(k.mem[..], k.cr3) + 3 && sp + 3 < B.LOW_END
      ensures B.Kept(View()) && B.Need(View(), B.Create(sp)) == PagesNeeded(k.mem[..], k.cr3) + 3
    {
      ViewParts();
      hide View, B.Kept;
      WindowTableIs(k.mem[..], k.cr3);
    }

    // the new process joins the others, and its creator runs again
    method Adopt(pd: Frame, h: Heap, parent: Frame, ghost b: B.Books, ghost sp: Word)
      requires k.Valid() && Processes(k.mem[..], k.owner, |k.alloc.Free()|) && parent in heapOf
      requires pd !in heapOf && h !in heapOf.Values && h.Valid() && h.rule == Repaired
      requires ProcessOk(k.mem[..], k.owner, |k.alloc.Free()|, pd, h.currentMemAddr)
               && ProcOf(h, k.mem[..], pd) == B.NewProc()
      requires B.Kept(b) && B.Goes(b, B.Create(sp)) && b.running == parent && b.procs.Keys == heapOf.Keys
      requires |k.alloc.Free()| == b.free - B.Need(b, B.Create(sp))
      requires forall d :: d in heapOf ==> heapOf[d].Valid() && b.procs[d].heap == heapOf[d].State()
                                           && b.procs[d].live == heapOf[d].live
      requires forall d :: d in heapOf ==> 
                 LayoutOf(k.mem[..], d)
                 == if d == parent then WithTable(b.procs[d].layout, B.WINDOW_SLOT) else b.procs[d].layout
      modifies this`heapOf, k`cr3, k`tlb, k`stale
      ensures heapOf == old(heapOf)[pd := h] && Became(b, B.Create(sp), pd)
    {
      hide View, B.Kept, B.NewProc, Walk, LayoutOf, ProcessOk, AllOk, Heap.Valid, Heap.LinksOk, Heap.State,
           Machine.Valid, OnlyHeapPages, B.Need;
      MachineParts(k);
      OneMore(heapOf, k.mem[..], k.owner, |k.alloc.Free()|, pd, h);
      heapOf := heapOf[pd := h];
      SwitchBack(k, heapOf, parent);
      MachineParts(k);
      NoneStale(k);
      Rebook(B.Done(b, B.Create(sp), pd));
    }

    lemma SpacesStill(m: Memory, m1: Memory, o1: Owners, m2: Memory, o2: Owners, running: Frame, free: nat)
      requires OthersKept(m1, o1, m2, o2, running) && running !in heapOf && Processes(m1, o1, free)
      requires forall d :: d in heapOf ==> SameSpaceButWindows(m, m1, d)
      ensures forall d :: d in heapOf ==> SameSpaceButWindows(m, m2, d)
    {
      forall d | d in heapOf
        ensures SameSpaceButWindows(m, m2, d)
      {
        assert ProcessOk(m1, o1, free, d, heapOf[d].currentMemAddr);
        assert SameSpace(m1, m2, d);
      }
    }

    lemma LayoutsStill(m: Memory, o: Owners, free: nat, m': Memory, o': Owners, free': nat, running: Frame)
      requires Processes(m, o, free) && Processes(m', o', free') && running !in heapOf
               && OthersKept(m, o, m', o', running)
      ensures forall d :: d in heapOf ==> LayoutOf(m', d) == LayoutOf(m, d)
    {
      hide OthersKept, LayoutOf;
      assert OthersOk(heapOf, m, o, free, running) && OthersOk(heapOf, m', o', free', running);
      OtherLayouts(m, o, free, m', o', free', running);
    }

    lemma DirectoriesOwned(m: Memory, o: Owners, free: nat)
      requires Processes(m, o, free)
      ensures forall d :: d in heapOf ==> d in o
    {
      forall d | d in heapOf
        ensures d in o
      {
        assert ProcessOk(m, o, free, d, heapOf[d].currentMemAddr);
      }
    }
  }

  lemma MachineParts(k: Machine)
    requires k.Valid()
    ensures k.mem.Length == WORDS && k.alloc.Valid() && k.alloc.pagingActive
  {
  }

  lemma NoneStale(k: Machine)
    requires k.stale == iset{}
    ensures OnlyHeapPages(k.stale)
  {
  }

  lemma BudgetFrom(free: nat, last: nat)
    requires Budget(free, last)
    ensures HEAP_FIRST_PAGE <= last
  {
  }

  // switch_page_directory, back to a process
  method SwitchBack(k: Machine, heapOf: map<Frame, Heap>, d: Frame)
    requires k.Valid() && AllOk(heapOf, k.mem[..], k.owner, |k.alloc.Free()|) && d in heapOf
    modifies k`cr3, k`tlb, k`stale
    ensures k.Valid() && k.cr3 == d && k.stale == iset{}
    ensures AllOk(heapOf, k.mem[..], k.owner, |k.alloc.Free()|)
  {
    assert ProcessOk(k.mem[..], k.owner, |k.alloc.Free()|, d, heapOf[d].currentMemAddr);
    hide *;
    k.EnterSpace(d);
  }

  /** Unchanged, but for the page onto a table created for the windows. */
  ghost predicate SameSpaceButWindows(m: Memory, m': Memory, d: Frame) {
    forall p: Page :: p != WINDOW_TABLE_PAGE ==> Walk(m', d, p) == Walk(m, d, p)
  }

  lemma PoolBound(k: Machine)
    requires k.Valid()
    ensures |k.alloc.Free()| < UNITS
  {
    PoolConserved(k.alloc.bitmap[..], k.alloc.given);
  }

  function WithFirstPage(l: Layout): Layout {
    Layout(l.tables + {B.HEAP_SLOT}, l.pages + {HEAP_FIRST_PAGE})
  }

  function WithStackPage(l: Layout): Layout {
    l.(pages := l.pages + {HEAP_FIRST_PAGE + 1})
  }

  lemma FirstHeapPage(m: Memory, m': Memory, d: Frame)
    requires At(m', d, B.HEAP_SLOT) != 0 && forall s: Index :: s != B.HEAP_SLOT ==> At(m', d, s) == At(m, d, s)
    requires Walk(m', d, PageAt(HEAP_FIRST_PAGE)).Some?
    requires forall p: Page :: p.slot != TABLES_SLOT && p != PageAt(HEAP_FIRST_PAGE) ==> Walk(m', d, p) == Walk(m, d, p)
    ensures LayoutOf(m', d) == WithFirstPage(LayoutOf(m, d))
  {
    hide At, Walk;
    forall s: nat
      ensures s in TablesOf(m', d) <==> s in TablesOf(m, d) + {B.HEAP_SLOT}
    {
      if s < 1024 && s != B.HEAP_SLOT {
        var i: Index := s;
        assert At(m', d, i) == At(m, d, i);
      }
    }
    forall x: nat
      ensures x in PagesOf(m', d) <==> x in PagesOf(m, d) + {HEAP_FIRST_PAGE}
    {
      if HEAP_FIRST_PAGE <= x < HEAP_END_PAGE {
        PageAtNumber(PageAt(x), HEAP_FIRST_PAGE);
        assert PageAt(x).slot < TABLES_SLOT;
      }
    }
  }

  /** Heap::Heap: its first page is mapped at once. */
  method NewHeap(k: Machine) returns (ok: bool, h: Heap)
    requires k.Valid() && OnlyHeapPages(k.stale) && HeapOwned(k.mem[..], k.owner, k.cr3)
    modifies k`tlb, k`stale, k`owner, k.mem, k.alloc`location, k.alloc`firstFree, k.alloc`given, k.alloc.bitmap
    ensures fresh(h) && h.Valid() && h.rule == Repaired && h.State() == Empty()
    ensures ok ==> k.Valid() && OnlyHeapPages(k.stale) && HeapOwned(k.mem[..], k.owner, k.cr3)
    ensures ok ==> HeapMapped(k.mem[..], k.cr3, HEAP_FIRST_PAGE) && Budget(|k.alloc.Free()|, HEAP_FIRST_PAGE)
    ensures ok ==>
              |k.alloc.Free()|
              == |old(k.alloc.Free())| - 1 - (if old(At(k.mem[..], k.cr3, HEAP_FIRST_PAGE / 1024)) == 0 then 1 else 0)
    ensures ok ==> At(k.mem[..], k.cr3, HEAP_FIRST_PAGE / 1024) != 0 && h.live == map[]
    ensures ok ==> LayoutOf(k.mem[..], k.cr3) == WithFirstPage(LayoutOf(old(k.mem[..]), k.cr3))
    ensures ok ==> HeapStep(old(k.mem[..]), old(k.owner), k.mem[..], k.owner, k.cr3, HEAP_START - 1)
    ensures ok <==>
              |old(k.alloc.Free())| >= 1 + (if old(At(k.mem[..], k.cr3, HEAP_FIRST_PAGE / 1024)) == 0 then 1 else 0)
  {
    h := new Heap(Repaired);
    ghost var m := k.mem[..];
    ok := MapHeapPage(k, HEAP_FIRST_PAGE);
    if ok {
      FirstHeapPage(m, k.mem[..], k.cr3);
      PoolBound(k);
      forall p: Page | p.Number() == HEAP_FIRST_PAGE
        ensures p == PageAt(HEAP_FIRST_PAGE)
      {
        PageAtNumber(p, HEAP_FIRST_PAGE);
      }
    }
  }

  const STACK_BYTES := B.STACK_BYTES

  /** The stack is the first chunk of its heap and takes one more page. */
  lemma StackIsFirst(k: Machine)
    requires k.Valid() && At(k.mem[..], k.cr3, HEAP_FIRST_PAGE / 1024) != 0
    ensures HeapLists.Kmalloc(Repaired, Empty(), STACK_BYTES) ==
              (Append(Empty(), NONSTANDARD, STACK_BYTES), HEAP_START + HEADER)
    ensures CanGrow(k, HEAP_START, NewChunkSize(STACK_BYTES)) <==> |k.alloc.Free()| >= 1
  {
    assert Empty().lists[NONSTANDARD] == [];
    assert Empty().lists[NONSTANDARD := []] == Empty().lists;
    var m, d := k.mem[..], k.cr3;
    assert FramesTaken(m, d, PageNumber(HEAP_START) + 1, 0) == 0;
    assert FramesTaken(m, d, PageNumber(HEAP_START) + 1, 1) == 1;
  }

  lemma FirstHeader(k: Machine)
    requires Backed(k, HEAP_START)
    ensures HeaderMapped(k, HEAP_START)
  {
    HeaderPages(k, HEAP_START);
    var p := PageAt(HEAP_FIRST_PAGE);
    PageAtNumber(p, HEAP_FIRST_PAGE);
    hide Walk, Machine.Valid, HeapOwned;
    assert p.Number() == HEAP_FIRST_PAGE;
  }

  /** The heap of a new process, in its own directory, with the first thread's stack on it. */
  method StartHeap(k: Machine) returns (ok: bool, h: Heap)
    requires k.Valid() && OnlyHeapPages(k.stale) && HeapOwned(k.mem[..], k.owner, k.cr3)
    requires Walk(k.mem[..], k.cr3, PD_PAGE) == None && Walk(k.mem[..], k.cr3, PT_PAGE) == None
    requires At(k.mem[..], k.cr3, HEAP_FIRST_PAGE / 1024) == 0
    modifies k, k.mem, k.alloc, k.alloc.bitmap
    ensures fresh(h) && k.cr3 == old(k.cr3)
    ensures ok <==> |old(k.alloc.Free())| >= 3
    ensures ok ==> h.Valid() && h.rule == Repaired
    ensures ok ==> k.Valid() && OnlyHeapPages(k.stale) && |k.alloc.Free()| <= |old(k.alloc.Free())|
    ensures ok ==> ProcessOk(k.mem[..], k.owner, |k.alloc.Free()|, k.cr3, h.currentMemAddr)
    ensures ok ==> OthersKept(old(k.mem[..]), old(k.owner), k.mem[..], k.owner, k.cr3)
    ensures ok ==> forall f :: f in old(k.owner) ==> f in k.owner && k.owner[f] == old(k.owner[f])
    ensures ok ==> h.State() == Append(Empty(), NONSTANDARD, STACK_BYTES)
                   && h.live == map[HEAP_START + HEADER := STACK_BYTES]
    ensures ok ==> |k.alloc.Free()| == |old(k.alloc.Free())| - 3
    ensures ok ==> LayoutOf(k.mem[..], k.cr3) == WithStackPage(WithFirstPage(LayoutOf(old(k.mem[..]), k.cr3)))
  {
    hide Walk, At, SpaceOk, LowIdentity, HeapOwned, HeapMapped, OthersKept, HeapStep, Kmalloc, CanGrow, Empty, Append,
         TablesOf, PagesOf, GrownBy, FramesTaken, Remapped, Growth;
    ghost var m0, o0, d := k.mem[..], k.owner, k.cr3;
    ok, h := NewHeap(k);
    if ok {
      ghost var m1, o1, cur, s := k.mem[..], k.owner, h.currentMemAddr, Snap(k);
      assert cur == HEAP_START by { EmptyStart(); }
      RunningStays(m0, o0, m1, o1, d, HEAP_START - 1);
      StackIsFirst(k);
      FirstHeader(k);
      EmptyStart();
      var p;
      ok, p := h.Kmalloc(k, STACK_BYTES);
      if ok {
        PaidFor(k, s, cur, h.currentMemAddr);
        StackCost(LayoutOf(m1, d));
        RunningStays(m1, o1, k.mem[..], k.owner, d, cur);
        OthersKeptTrans(m0, o0, m1, o1, k.mem[..], k.owner, d);
      }
    }
  }

  lemma EmptyStart()
    ensures Empty().cur == HEAP_START
    ensures Append(Empty(), NONSTANDARD, STACK_BYTES).cur == HEAP_START + HEADER + STACK_BYTES
  {
  }

  /** Start-up to the point where TaskManager::init has made the first heap: one process, and every
      promise of System.Valid. The pool always suffices here. */
  method Launch(ram: array<Word>, bitmapPage: array<bv8>) returns (s: System)
    requires ram.Length == WORDS && bitmapPage.Length == BITMAP_BYTES && ram as object != bitmapPage
    requires Boot.PoolStartsZero(ram[..])
    modifies ram, bitmapPage
    ensures fresh(s) && s.Valid() && s.heapOf.Keys == {s.k.cr3} && s.k.mem == ram
  {
    var k;
    ghost var t0, t1;
    k, t0, t1 := Boot.Start(ram, bitmapPage);
    hide *;
    s := FirstProcess(k, t0, t1);
  }

  // TaskManager::init: the heap of the process that booted
  method FirstProcess(k: Machine, ghost t0: Frame, ghost t1: Frame) returns (s: System)
    requires k.Valid() && k.stale == iset{} && |k.alloc.Free()| == UNITS - 4
    requires NewSpace(k.mem[..], k.cr3, t0, t1)
    requires forall p: Page :: Walk(k.mem[..], k.cr3, p) == NewSpaceWalk(k.cr3, t0, t1, p)
    modifies k`tlb, k`stale, k`owner, k.mem, k.alloc`location, k.alloc`firstFree, k.alloc`given, k.alloc.bitmap
    ensures fresh(s) && s.Valid() && s.heapOf.Keys == {s.k.cr3} && s.k == k
  {
    NewSpaceIsBare(k.mem[..], k.owner, k.cr3, t0, t1);
    ghost var m, o := k.mem[..], k.owner;
    hide Walk, At, SpaceOk, LowIdentity, HeapOwned, HeapMapped, OthersKept, HeapStep, NewSpace, NewSpaceWalk, Empty;
    var ok, h := NewHeap(k);
    RunningStays(m, o, k.mem[..], k.owner, k.cr3, HEAP_START - 1);
    EmptyStart();
    s := new System(k, h);
  }

  /** One operation of a run; `pd` is the directory created, if one is. Requests the source's callers do not
      make are passed over: freeing what is not live, switching to no process, a length whose chunk size
      overflows an int. `ok` is false, and the source panics, exactly when the operation does not go well: the
      pool has too few pages for it, or it runs into a page fault. */
  method Perform(s: System, op: B.Op) returns (ok: bool, pd: Frame)
    requires s.Valid()
    modifies s, s.k, s.k.mem, s.k.alloc, s.k.alloc.bitmap, s.heapOf.Values
    ensures ok <==> old(s.Goes(op))
    ensures ok ==> s.Became(old(s.View()), op, pd)
    ensures ok ==> forall d :: d in s.heapOf ==> fresh(s.heapOf[d])
                                                 || (d in old(s.heapOf) && s.heapOf[d] == old(s.heapOf)[d])
  {
    hide Machine.Valid, AllOk, System.View, System.Became, System.Goes;
    ok, pd := true, 0;
    match op {
      case Create(sp) =>
        ok, pd := s.CreateProcess(sp);
      case Malloc(n) =>
        if n + HEADER < FIELD || n >= FIELD {
          var p;
          ok, p := s.Malloc(n);
        } else {
          PassedOver(s, op);
        }
      case Free(p) =>
        if p in s.heapOf[s.k.cr3].live {
          PaysAlways(s, op);
          s.Free(p);
        } else {
          PassedOver(s, op);
        }
      case Switch(d) =>
        if d in s.heapOf {
          PaysAlways(s, op);
          s.Switch(d);
        } else {
          PassedOver(s, op);
        }
    }
  }

  lemma PassedOver(s: System, op: B.Op)
    requires s.Valid()
    requires match op
             case Malloc(n) => B.Overflows(n)
             case Free(p) => p !in s.heapOf[s.k.cr3].live
             case Switch(d) => d !in s.heapOf
             case _ => false
    ensures s.Goes(op) && s.Became(s.View(), op, 0)
  {
    hide System.View, B.Goes, B.Done, B.Kept, Heap.Valid, LayoutOf, Machine.Valid;
    s.ViewParts();
    B.PassedKeeps(s.View(), op);
  }

  lemma PaysAlways(s: System, op: B.Op)
    requires s.Valid() && (op.Free? || op.Switch?)
    ensures s.Goes(op)
  {
    s.ViewKept();
  }

  /** The first `done` operations lead from books `b` to books `c`, each going well. */
  ghost predicate Leads(b: B.Books, ops: seq<B.Op>, done: nat, pds: seq<Frame>, c: B.Books) {
    B.Kept(b) && done == |pds| <= |ops| && B.Succeeds(b, ops[..done], pds) && c == B.AllDone(b, ops[..done], pds)
  }

  ghost predicate Going(s: System, b: B.Books, ops: seq<B.Op>, done: nat, pds: seq<Frame>)
    reads s, s.k, s.k.mem, s.k.alloc, s.k.alloc.bitmap, s.heapOf.Values
  {
    s.Valid() && Leads(b, ops, done, pds, s.View())
  }

  /** ... and the next one does not go well. */
  ghost predicate Stuck(b: B.Books, ops: seq<B.Op>, done: nat, pds: seq<Frame>) {
    done < |ops| && exists c :: Leads(b, ops, done, pds, c) && B.Kept(c) && !B.Goes(c, ops[done])
  }

  lemma Begun(s: System, ops: seq<B.Op>)
    requires s.Valid()
    ensures Going(s, s.View(), ops, 0, [])
  {
    s.ViewKept();
    hide System.View, B.Kept;
    assert ops[..0] == [];
    B.NothingDone(s.View());
  }

  lemma StillGoing(s: System, b: B.Books, ops: seq<B.Op>, done: nat, pds: seq<Frame>)
    requires Going(s, b, ops, done, pds)
    ensures s.Valid() && Leads(b, ops, done, pds, s.View())
    ensures done < |ops| && !s.Goes(ops[done]) ==> Stuck(b, ops, done, pds)
  {
    s.ViewKept();
    hide System.View, B.Kept, System.Valid;
  }

  lemma GoesOn(s: System, b: B.Books, c: B.Books, ops: seq<B.Op>, done: nat, pds: seq<Frame>, pd: Frame)
    requires Leads(b, ops, done, pds, c) && done < |ops| && s.Became(c, ops[done], pd)
    ensures Going(s, b, ops, done + 1, pds + [pd])
  {
    hide System.View, B.Kept, System.Valid, B.Goes, B.Done;
    B.OneMoreDone(b, ops[..done], pds, ops[done], pd);
    assert ops[..done + 1] == ops[..done] + [ops[done]];
  }

  /** Any sequence of operations keeps the invariant and the books, up to the first one the pool cannot pay
      for; there, and nowhere before, the source panics. */
  method Run(s: System, ops: seq<B.Op>) returns (done: nat, pds: seq<Frame>)
    requires s.Valid()
    modifies s, s.k, s.k.mem, s.k.alloc, s.k.alloc.bitmap, s.heapOf.Values
    ensures done <= |ops|
    ensures done == |ops| ==> Going(s, old(s.View()), ops, done, pds)
    ensures done < |ops| ==> Stuck(old(s.View()), ops, done, pds)
  {
    hide *;
    ghost var b := s.View();
    Begun(s, ops);
    done, pds := 0, [];
    var ok := true;
    while done < |ops| && ok
      invariant done <= |ops| && (if ok then Going(s, b, ops, done, pds) else done < |ops| && Stuck(b, ops, done, pds))
      invariant ok ==> forall d :: d in s.heapOf ==> s.heapOf[d] in old(s.heapOf.Values) || fresh(s.heapOf[d])
      decreases |ops| - done, ok
    {
      StillGoing(s, b, ops, done, pds);
      ghost var c := s.View();
      var pd;
      ok, pd := Perform(s, ops[done]);
      if ok {
        GoesOn(s, b, c, ops, done, pds, pd);
        done, pds := done + 1, pds + [pd];
      }
    }
  }
}
