/** Start-up: init_pmm, the branch of create_page_directory that writes physical memory directly, and
    init_vmm of kernelcpp/code/mem/vmm.c. */
module Boot {
  import opened Basics
  import opened Paging
  import opened Pmm
  import opened Mmu
  import opened AddressSpaces

  const POOL_START := 0x30_0000 // the argument of init_pmm in kernelcpp/kmain.cpp

  // memset(page, 0, 0x1000), paging off
  method ClearFrame(ram: array<Word>, f: Frame)
    requires ram.Length == WORDS
    modifies ram
    ensures OnlyFrame(old(ram[..]), ram[..], f) && forall i: Index :: At(ram[..], f, i) == 0
  {
    var i := 0;
    while i < 1024
      invariant 0 <= i <= 1024
      invariant OnlyFrame(old(ram[..]), ram[..], f)
      invariant forall j: Index :: j < i ==> At(ram[..], f, j) == 0
    {
      ghost var m := ram[..];
      ram[1024 * f + i] := 0;
      assert ram[..] == Put(m, f, i, 0);
      PutFacts(m, f, i, 0);
      i := i + 1;
    }
  }

  // pt[i] = i*0x1000 | PAGE_PRESENT | PAGE_WRITE, paging off
  method FillIdentity(ram: array<Word>, f: Frame)
    requires ram.Length == WORDS
    modifies ram
    ensures OnlyFrame(old(ram[..]), ram[..], f) && forall i: Index :: At(ram[..], f, i) == Entry(i)
  {
    var i := 0;
    while i < 1024
      invariant 0 <= i <= 1024
      invariant OnlyFrame(old(ram[..]), ram[..], f)
      invariant forall j: Index :: j < i ==> At(ram[..], f, j) == Entry(j)
    {
      ghost var m := ram[..];
      ram[1024 * f + i] := i * 0x1000 + 3;
      assert ram[..] == Put(m, f, i, Entry(i));
      PutFacts(m, f, i, Entry(i));
      i := i + 1;
    }
  }

  method Poke(ram: array<Word>, f: Frame, i: Index, w: Word)
    requires ram.Length == WORDS
    modifies ram
    ensures ram[..] == Put(old(ram[..]), f, i, w)
    ensures At(ram[..], f, i) == w && OnlyFrame(old(ram[..]), ram[..], f)
    ensures forall j: Index :: j != i ==> At(ram[..], f, j) == At(old(ram[..]), f, j)
  {
    ram[1024 * f + i] := w;
    PutFacts(old(ram[..]), f, i, w);
  }

  /** The first branch of create_page_directory (lines 57-82), given its three pages. */
  method WriteFirstDirectory(ram: array<Word>, n: Frame, t0: Frame, t1: Frame)
    requires ram.Length == WORDS && n != t0 && n != t1 && t0 != t1
    modifies ram
    ensures NewSpace(ram[..], n, t0, t1)
    ensures forall f: Frame, i: Index :: f != n && f != t0 && f != t1 ==> At(ram[..], f, i) == At(old(ram[..]), f, i)
  {
    hide At, Put;
    ClearFrame(ram, n);
    Poke(ram, n, 0, t0 * 0x1000 + 3);
    FillIdentity(ram, t0);
    Poke(ram, n, DIR_SLOT, t1 * 0x1000 + 3);
    ClearFrame(ram, t1);
    Poke(ram, t1, 1023, n * 0x1000 + 3);
    Poke(ram, n, TABLES_SLOT, n * 0x1000 + 3);
  }

  /** The pages of the pool that start-up does not use itself. */
  ghost predicate PoolStartsZero(m: Memory) {
    forall f: Frame, i: Index :: 0x304 < f < 0x301 + UNITS ==> At(m, f, i) == 0
  }

  /** init_pmm and init_vmm, with the arguments kmain gives them. RAM may hold anything, but the pages
      not handed out yet are taken to be zero, as after power-up; Machine.PoolZero says why. */
  method Start(ram: array<Word>, bitmapPage: array<bv8>) returns (k: Machine, ghost t0: Frame, ghost t1: Frame)
    requires ram.Length == WORDS && bitmapPage.Length == BITMAP_BYTES && ram as object != bitmapPage
    requires PoolStartsZero(ram[..])
    modifies ram, bitmapPage
    ensures fresh(k) && fresh(k.alloc) && k.mem == ram && k.alloc.bitmap == bitmapPage
    ensures k.Valid() && WindowsClosed(k.mem[..], k.cr3, k.stale) && k.stale == iset{}
    ensures NewSpace(k.mem[..], k.cr3, t0, t1)
    ensures forall p: Page :: Walk(k.mem[..], k.cr3, p) == NewSpaceWalk(k.cr3, t0, t1, p)
    ensures k.owner == map[k.cr3 := Directory, t0 := Table(k.cr3, 0), t1 := Table(k.cr3, DIR_SLOT)]
    ensures |k.alloc.Free()| == UNITS - 4
  {
    var a, pd, pt, self := FirstPages(bitmapPage);
    t0, t1 := FrameOf(pt), FrameOf(self);
    WriteFirstDirectory(ram, FrameOf(pd), FrameOf(pt), FrameOf(self));
    ghost var n := FrameOf(pd);
    ghost var o := map[n := Directory, t0 := Table(n, 0), t1 := Table(n, DIR_SLOT)];
    NewSpaceMeaning(ram[..], o, n, t0, t1);
    k := new Machine(ram, a, FrameOf(pd), o);
    MapBitmap(k, a.base, t0, t1);
    HandOverPool(k);
    hide At, Walk;
    assert WindowsClosed(k.mem[..], k.cr3, k.stale);
  }

  // init_pmm, and the three pages create_page_directory takes while the allocator only bumps a pointer
  method FirstPages(bitmapPage: array<bv8>) returns (a: PageAllocator, pd: Word, pt: Word, self: Word)
    requires bitmapPage.Length == BITMAP_BYTES
    modifies bitmapPage
    ensures fresh(a) && a.Valid() && !a.pagingActive && a.bitmap == bitmapPage
    ensures a.base == 0x301000 && a.location == 0x304000
    ensures pd == 0x302000 && pt == 0x303000 && self == 0x304000
  {
    a := new PageAllocator(POOL_START, bitmapPage);
    assert a.base == 0x301000;
    var _, p1 := a.AllocPage();
    var _, p2 := a.AllocPage();
    var _, p3 := a.AllocPage();
    pd, pt, self := p1, p2, p3;
  }

  // map_pmm_to_virtual_space once the bitmap is reachable; then pmm_paging_active
  method HandOverPool(k: Machine)
    requires k.Hardware() && SpaceOk(k.mem[..], k.owner, k.cr3) && LowIdentity(k.mem[..], k.cr3) && k.stale == iset{}
    requires k.alloc.Valid() && !k.alloc.pagingActive && k.mem as object != k.alloc.bitmap
    requires k.alloc.base == 0x301000 && k.alloc.location == 0x304000
    requires PoolStartsZero(k.mem[..]) && k.owner.Keys == {0x302, 0x303, 0x304}
    modifies k.alloc`firstFree, k.alloc`lastAvailable, k.alloc`pagingActive, k.alloc.bitmap
    ensures k.Valid() && |k.alloc.Free()| == UNITS - 4
  {
    hide At, Walk, SpaceOk, LowIdentity, Agrees, PoolBelow;
    ghost var given := k.alloc.given;
    k.alloc.HandOver();
    PoolLeft(given);
    assert k.alloc.base / MEM_UNIT_SIZE == 0x301;
    assert forall i :: i in k.alloc.Free() ==> 4 <= i < UNITS;
    assert forall f :: f in k.owner ==> f in {0x302, 0x303, 0x304};
    assert k.PoolOk();
  }

  // map(bitmap, bitmap, PAGE_PRESENT | PAGE_WRITE)
  method MapBitmap(k: Machine, bitmap: Word, ghost t0: Frame, ghost t1: Frame)
    requires k.Hardware() && k.stale == iset{} && NewSpace(k.mem[..], k.cr3, t0, t1)
    requires HasTables(k.owner, k.cr3, t0, t1) && SpaceOk(k.mem[..], k.owner, k.cr3)
    requires bitmap == 0x301000
    modifies k`tlb, k.mem
    ensures k.Hardware() && k.mem[..] == old(k.mem[..])
  {
    ghost var m := k.mem[..];
    var pde := k.ReadDirectory(bitmap / 0x1000 / 1024);
    assert pde != 0;
    assert PageOf(bitmap) == Page(0, 0x301) && bitmap + 3 == Entry(0x301);
    k.WriteEntry(bitmap, bitmap + 3);
    assert At(m, t0, 0x301) == Entry(0x301);
    assert WithEntry(m, k.cr3, Page(0, 0x301), Entry(0x301)) == m;
  }

  lemma PoolLeft(given: set<nat>)
    requires given == PoolBelow(4)
    ensures |PoolBelow(UNITS) - given| == UNITS - 4
  {
    hide PoolBelow;
    PoolBelowSize(4);
    PoolBelowSize(UNITS);
  }
}
