/** create_page_directory of kernelcpp/code/mem/vmm.c: the branch used while paging is on, which builds
    the new directory through two windows of the running one, and what a new directory means. */
module AddressSpaces {
  import opened Basics
  import opened Paging
  import opened Pmm
  import opened Mmu

  const PD_WINDOW: Word := 0x7AB1_3000
  const PT_WINDOW: Word := 0x7AB1_4000
  const PD_PAGE := Page(490, 787)
  const PT_PAGE := Page(490, 788)
  const WINDOW_TABLE_PAGE := Page(TABLES_SLOT, 490)

  /** The three frames of a new address space, word by word. */
  ghost predicate NewSpace(m: Memory, n: Frame, t0: Frame, t1: Frame) {
    && At(m, n, 0) == Entry(t0) && At(m, n, DIR_SLOT) == Entry(t1) && At(m, n, TABLES_SLOT) == Entry(n)
    && (forall i: Index :: 0 < i < DIR_SLOT ==> At(m, n, i) == 0)
    && (forall i: Index :: At(m, t0, i) == Entry(i))
    && (forall i: Index :: i < 1023 ==> At(m, t1, i) == 0) && At(m, t1, 1023) == Entry(n)
  }

  /** Identity on the first 4 MB, the two self-references, nothing else. */
  function NewSpaceWalk(n: Frame, t0: Frame, t1: Frame, p: Page): Option<Frame> {
    if p.slot == 0 then Some(p.index)
    else if p == Page(DIR_SLOT, 1023) then Some(n)
    else if p == Page(TABLES_SLOT, 0) then Some(t0)
    else if p == Page(TABLES_SLOT, DIR_SLOT) then Some(t1)
    else if p == Page(TABLES_SLOT, TABLES_SLOT) then Some(n)
    else None
  }

  lemma NewSpaceMeaning(m: Memory, o: Owners, n: Frame, t0: Frame, t1: Frame)
    requires NewSpace(m, n, t0, t1)
    requires HasTables(o, n, t0, t1)
    ensures SpaceOk(m, o, n) && LowIdentity(m, n)
    ensures forall p: Page :: Walk(m, n, p) == NewSpaceWalk(n, t0, t1, p)
  {
    forall i: Index | i < 1023
      ensures EntryOk(m, o, n, i)
    {
    }
  }

  /** Frames of the directory under construction. */
  ghost predicate NewFrame(o: Owners, n: Frame, f: Frame) {
    f in o && (f == n || (o[f].Table? && o[f].dir == n))
  }

  ghost predicate NewFramesKept(m: Memory, m': Memory, o: Owners, n: Frame) {
    forall f: Frame, i: Index :: NewFrame(o, n, f) ==> At(m', f, i) == At(m, f, i)
  }

  /** The table behind both windows exists. */
  ghost predicate WindowTable(m: Memory, d: Frame) {
    At(m, d, 490) != 0
  }

  ghost predicate IsWindow(p: Page) {
    p == PD_PAGE || p == PT_PAGE
  }

  /** Outside the windows, and the page onto a table created for them, `d` translates as before. */
  ghost predicate OutsideWindowsKept(m: Memory, m': Memory, d: Frame) {
    forall q: Page :: !IsWindow(q) && (q == WINDOW_TABLE_PAGE ==> WindowTable(m, d)) ==> Walk(m', d, q) == Walk(m, d, q)
  }

  ghost predicate OwnersOf(o0: Owners, o: Owners, d: Frame, n: Frame) {
    && (forall f :: f in o0 ==> f in o && o[f] == o0[f])
    && (forall f :: f in o && f !in o0 ==> NewFrame(o, n, f) || o[f] == Table(d, 490))
  }

  /** The pure half of the construction's invariant, since memory `m0` and roles `o0`. */
  ghost predicate SinceStart(m0: Memory, o0: Owners, m: Memory, o: Owners, d: Frame, n: Frame) {
    && n !in o0 && n != d && n in o && o[n] == Directory
    && OwnersOf(o0, o, d, n)
    && OthersKept(m0, o0, m, o, d)
    && OutsideWindowsKept(m0, m, d)
    && (WindowTable(m0, d) ==> WindowTable(m, d))
  }

  /** A write into a frame of the new directory keeps every space that existed. */
  lemma NewFrameWrite(m0: Memory, o0: Owners, m: Memory, m': Memory, o: Owners, d: Frame, n: Frame, f: Frame)
    requires SinceStart(m0, o0, m, o, d, n) && SpaceOk(m, o, d)
    requires NewFrame(o, n, f) && OnlyFrame(m, m', f)
    ensures SinceStart(m0, o0, m', o, d, n) && SpaceOk(m', o, d) && SameSpace(m, m', d)
  {
    ForeignWrite(m, m', o, d, f);
    forall e: Frame | e != d && SpaceOk(m0, o0, e)
      ensures SpaceOk(m', o, e) && SameSpace(m0, m', e)
    {
      ForeignWrite(m, m', o, e, f);
    }
    assert At(m', d, 490) == At(m, d, 490);
  }

  lemma NewFrameOffPath(m: Memory, o: Owners, d: Frame, n: Frame, f: Frame, stale: iset<Page>)
    requires SpaceOk(m, o, d) && n != d && n in o && o[n] == Directory && NewFrame(o, n, f)
    ensures OffPath(m, d, f, stale)
  {
    forall i: Index | Present(At(m, d, i))
      ensures FrameOf(At(m, d, i)) != f
    {
      if i < 1023 {
        assert EntryOk(m, o, d, i);
      }
    }
  }

  /** A window mapped or unmapped keeps the construction's invariant. */
  lemma WindowRetargeted(m0: Memory, o0: Owners, m: Memory, o: Owners, m': Memory, o': Owners,
                         d: Frame, n: Frame, p: Page, to: Option<Frame>)
    requires SinceStart(m0, o0, m, o, d, n) && SpaceOk(m, o, d) && 0 !in o
    requires IsWindow(p) && Retargeted(m, o, m', o', d, p, to)
    ensures SinceStart(m0, o0, m', o', d, n) && NewFramesKept(m, m', o, n)
  {
    forall e: Frame | e != d && SpaceOk(m0, o0, e)
      ensures SpaceOk(m', o', e) && SameSpace(m0, m', e)
    {
      assert SpaceOk(m, o, e);
    }
    forall f: Frame, i: Index | NewFrame(o, n, f)
      ensures At(m', f, i) == At(m, f, i)
    {
      assert f in o' && o'[f] == o[f];
    }
  }

  ghost predicate Building(k: Machine, m0: Memory, o0: Owners, n: Frame)
    reads k, k.mem, k.alloc, k.alloc.bitmap
  {
    && k.Valid() && !(PD_PAGE in k.stale) && !(PT_PAGE in k.stale)
    && SinceStart(m0, o0, k.mem[..], k.owner, k.cr3, n)
  }

  method StoreThrough(k: Machine, va: Word, i: Index, w: Word,
                      ghost m0: Memory, ghost o0: Owners, ghost n: Frame, ghost f: Frame)
    requires Building(k, m0, o0, n) && va % 0x1000 == 0 && IsWindow(PageOf(va))
    requires NewFrame(k.owner, n, f) && Walk(k.mem[..], k.cr3, PageOf(va)) == Some(f)
    modifies k`tlb, k.mem
    ensures Building(k, m0, o0, n) && k.mem[..] == Put(old(k.mem[..]), f, i, w)
    ensures SameSpace(old(k.mem[..]), k.mem[..], k.cr3)
    ensures old(WindowTable(k.mem[..], k.cr3)) ==> WindowTable(k.mem[..], k.cr3)
  {
    hide At, Put, SpaceOk, EntryOk, OthersKept, OutsideWindowsKept, OwnersOf, Walk;
    ghost var m := k.mem[..];
    InPage(va, i);
    PutFacts(m, f, i, w);
    NewFrameWrite(m0, o0, m, Put(m, f, i, w), k.owner, k.cr3, n, f);
    k.VirtualWrite(va + 4 * i, w);
  }

  // memset(va, 0, 0x1000)
  method ClearThrough(k: Machine, va: Word, ghost m0: Memory, ghost o0: Owners, ghost n: Frame, ghost f: Frame)
    requires Building(k, m0, o0, n) && va % 0x1000 == 0 && IsWindow(PageOf(va))
    requires NewFrame(k.owner, n, f) && Walk(k.mem[..], k.cr3, PageOf(va)) == Some(f)
    modifies k`tlb, k.mem
    ensures Building(k, m0, o0, n) && OnlyFrame(old(k.mem[..]), k.mem[..], f)
    ensures SameSpace(old(k.mem[..]), k.mem[..], k.cr3)
    ensures old(WindowTable(k.mem[..], k.cr3)) ==> WindowTable(k.mem[..], k.cr3)
    ensures forall i: Index :: At(k.mem[..], f, i) == 0
  {
    hide At, SpaceOk, EntryOk, OthersKept, OutsideWindowsKept, OwnersOf, Walk;
    ghost var m := k.mem[..];
    NewFrameOffPath(m, k.owner, k.cr3, n, f, k.stale);
    k.ZeroPage(va);
    NewFrameWrite(m0, o0, m, k.mem[..], k.owner, k.cr3, n, f);
  }

  // for (i) pt[i] = i*0x1000 | PAGE_PRESENT | PAGE_WRITE
  method IdentityThrough(k: Machine, va: Word, ghost m0: Memory, ghost o0: Owners, ghost n: Frame, ghost f: Frame)
    requires Building(k, m0, o0, n) && va % 0x1000 == 0 && IsWindow(PageOf(va))
    requires NewFrame(k.owner, n, f) && Walk(k.mem[..], k.cr3, PageOf(va)) == Some(f)
    modifies k`tlb, k.mem
    ensures Building(k, m0, o0, n) && OnlyFrame(old(k.mem[..]), k.mem[..], f)
    ensures SameSpace(old(k.mem[..]), k.mem[..], k.cr3)
    ensures old(WindowTable(k.mem[..], k.cr3)) ==> WindowTable(k.mem[..], k.cr3)
    ensures forall i: Index :: At(k.mem[..], f, i) == Entry(i)
  {
    hide At, Put, SpaceOk, EntryOk, OthersKept, OutsideWindowsKept, OwnersOf, Walk, Agrees, LowIdentity, WindowTable;
    ghost var m := k.mem[..];
    var i := 0;
    while i < 1024
      invariant 0 <= i <= 1024
      invariant Building(k, m0, o0, n) && OnlyFrame(m, k.mem[..], f) && SameSpace(m, k.mem[..], k.cr3)
      invariant WindowTable(m, k.cr3) ==> WindowTable(k.mem[..], k.cr3)
      invariant forall j: Index :: j < i ==> At(k.mem[..], f, j) == Entry(j)
    {
      ghost var before := k.mem[..];
      StoreThrough(k, va, i, i * 0x1000 + 3, m0, o0, n, f);
      PutFacts(before, f, i, Entry(i));
      i := i + 1;
    }
  }

  // map(va, page, PAGE_PRESENT | PAGE_WRITE) for one of the two windows
  method OpenWindow(k: Machine, va: Word, page: Word, ghost m0: Memory, ghost o0: Owners, ghost n: Frame)
    returns (ok: bool)
    requires Building(k, m0, o0, n) && IsWindow(PageOf(va)) && page % 0x1000 == 0
    requires Walk(k.mem[..], k.cr3, PageOf(va)) == None
    modifies k`tlb, k`stale, k`owner, k.mem, k.alloc`location, k.alloc`firstFree, k.alloc`given, k.alloc.bitmap
    ensures ok <==> old(WindowTable(k.mem[..], k.cr3)) || old(k.alloc.Free()) != {}
    ensures ok ==> Building(k, m0, o0, n) && k.stale == old(k.stale)
    ensures ok ==> Walk(k.mem[..], k.cr3, PageOf(va)) == Some(FrameOf(page)) && WindowTable(k.mem[..], k.cr3)
    ensures ok ==> forall q :: IsWindow(q) && q != PageOf(va) ==>
              Walk(k.mem[..], k.cr3, q) == old(Walk(k.mem[..], k.cr3, q))
    ensures ok ==> NewFramesKept(old(k.mem[..]), k.mem[..], old(k.owner), n)
    ensures ok ==> forall f :: f in old(k.owner) ==> f in k.owner && k.owner[f] == old(k.owner[f])
    ensures old(WindowTable(k.mem[..], k.cr3)) ==> k.owner == old(k.owner) && k.alloc.Free() == old(k.alloc.Free())
    ensures ok ==> |k.alloc.Free()| == |old(k.alloc.Free())| - (if old(WindowTable(k.mem[..], k.cr3)) then 0 else 1)
  {
    ghost var m, o := k.mem[..], k.owner;
    ok := k.MapKept(va, page, 3);
    if ok {
      WindowRetargeted(m0, o0, m, o, k.mem[..], k.owner, k.cr3, n, PageOf(va), Some(FrameOf(page)));
    }
  }

  // unmap(va) for one of the two windows
  method CloseWindow(k: Machine, va: Word, ghost m0: Memory, ghost o0: Owners, ghost n: Frame)
    requires Building(k, m0, o0, n) && IsWindow(PageOf(va)) && WindowTable(k.mem[..], k.cr3)
    modifies k`tlb, k`stale, k.mem
    ensures Building(k, m0, o0, n) && k.stale == old(k.stale)
    ensures Walk(k.mem[..], k.cr3, PageOf(va)) == None && WindowTable(k.mem[..], k.cr3)
    ensures forall q :: IsWindow(q) && q != PageOf(va) ==> Walk(k.mem[..], k.cr3, q) == old(Walk(k.mem[..], k.cr3, q))
    ensures NewFramesKept(old(k.mem[..]), k.mem[..], k.owner, n)
  {
    ghost var m, o := k.mem[..], k.owner;
    k.Unmap(va);
    WindowRetargeted(m0, o0, m, o, k.mem[..], k.owner, k.cr3, n, PageOf(va), None);
  }

  // pmm_alloc_page for a table of the new directory
  method TakeTable(k: Machine, slot: Index, ghost m0: Memory, ghost o0: Owners, ghost n: Frame)
    returns (ok: bool, page: Word)
    requires Building(k, m0, o0, n)
    modifies k`owner, k.alloc`location, k.alloc`firstFree, k.alloc`given, k.alloc.bitmap
    ensures ok <==> old(k.alloc.Free()) != {}
    ensures ok ==> Building(k, m0, o0, n) && |k.alloc.Free()| == |old(k.alloc.Free())| - 1
    ensures ok ==> page % 0x1000 == 0 && FrameOf(page) !in old(k.owner)
                   && k.owner == old(k.owner)[FrameOf(page) := Table(n, slot)]
  {
    ghost var o := k.owner;
    ok, page := k.TakePage(Table(n, slot));
    if ok {
      OwnersGrow(k.mem[..], o, k.owner, k.cr3);
      forall e: Frame | e != k.cr3 && SpaceOk(m0, o0, e)
        ensures SpaceOk(k.mem[..], k.owner, e) && SameSpace(m0, k.mem[..], e)
      {
        OwnersGrow(k.mem[..], o, k.owner, e);
      }
    }
  }

  /** The directory's entry for a table, and the table itself reached through the second window. */
  ghost predicate WindowsOn(k: Machine, n: Frame, pt: Option<Frame>)
    reads k, k.mem
    requires k.mem.Length == WORDS
  {
    && Walk(k.mem[..], k.cr3, PD_PAGE) == Some(n)
    && Walk(k.mem[..], k.cr3, PT_PAGE) == pt
    && WindowTable(k.mem[..], k.cr3)
  }

  // pd[slot] = pmm_alloc_page() | PAGE_PRESENT | PAGE_WRITE, and the address read back from pd[slot]
  method EnterTable(k: Machine, slot: Index, ghost m0: Memory, ghost o0: Owners, ghost n: Frame)
    returns (ok: bool, page: Word)
    requires Building(k, m0, o0, n) && WindowsOn(k, n, None)
    modifies k`tlb, k`owner, k.mem, k.alloc`location, k.alloc`firstFree, k.alloc`given, k.alloc.bitmap
    ensures ok <==> old(k.alloc.Free()) != {}
    ensures ok ==> Building(k, m0, o0, n) && WindowsOn(k, n, None)
    ensures ok ==> |k.alloc.Free()| == |old(k.alloc.Free())| - 1
    ensures ok ==> page % 0x1000 == 0 && FrameOf(page) !in old(k.owner)
                   && k.owner == old(k.owner)[FrameOf(page) := Table(n, slot)]
    ensures ok ==> OnlyFrame(old(k.mem[..]), k.mem[..], n) && At(k.mem[..], n, slot) == Entry(FrameOf(page))
    ensures ok ==> forall i: Index :: i != slot ==> At(k.mem[..], n, i) == old(At(k.mem[..], n, i))
  {
    hide At, Put, SpaceOk, OthersKept, OutsideWindowsKept, OwnersOf, Agrees, LowIdentity;
    var newPage;
    page := 0;
    ok, newPage := TakeTable(k, slot, m0, o0, n);
    if !ok {
      return;
    }
    ghost var m := k.mem[..];
    assert newPage + 3 == Entry(FrameOf(newPage));
    StoreThrough(k, PD_WINDOW, slot, newPage + 3, m0, o0, n, n);
    PutFacts(m, n, slot, Entry(FrameOf(newPage)));
    InPage(PD_WINDOW, slot);
    var entry := k.VirtualRead(PD_WINDOW + 4 * slot);
    page := entry - entry % 0x1000;
  }

  /** New frames other than `f` keep their words. */
  ghost predicate OtherNewFramesKept(m: Memory, m': Memory, o: Owners, n: Frame, f: Frame) {
    forall g: Frame, i: Index :: NewFrame(o, n, g) && g != f ==> At(m', g, i) == At(m, g, i)
  }

  // lines 107-110: the second window opened on table `f`, the table filled, the window closed
  method WriteIdentityTable(k: Machine, page: Word, ghost m0: Memory, ghost o0: Owners, ghost n: Frame)
    requires Building(k, m0, o0, n) && WindowsOn(k, n, None)
    requires page % 0x1000 == 0 && NewFrame(k.owner, n, FrameOf(page)) && FrameOf(page) != n
    modifies k`tlb, k`stale, k`owner, k.mem, k.alloc`location, k.alloc`firstFree, k.alloc`given, k.alloc.bitmap
    ensures Building(k, m0, o0, n) && WindowsOn(k, n, None)
    ensures k.owner == old(k.owner) && k.stale == old(k.stale) && k.alloc.Free() == old(k.alloc.Free())
    ensures forall i: Index :: At(k.mem[..], FrameOf(page), i) == Entry(i)
    ensures OtherNewFramesKept(old(k.mem[..]), k.mem[..], k.owner, n, FrameOf(page))
  {
    hide At, Put, SpaceOk, OthersKept, OutsideWindowsKept, OwnersOf, Agrees, LowIdentity, WindowTable, Entry, Walk;
    ghost var f := FrameOf(page);
    var _ := OpenWindow(k, PT_WINDOW, page, m0, o0, n);
    IdentityThrough(k, PT_WINDOW, m0, o0, n, f);
    CloseWindow(k, PT_WINDOW, m0, o0, n);
  }

  // lines 115-119 and 124: the second window opened on table `f`, all of it cleared but its last entry
  method WriteSelfTable(k: Machine, page: Word, pageOfDir: Word, ghost m0: Memory, ghost o0: Owners, ghost n: Frame)
    requires Building(k, m0, o0, n) && WindowsOn(k, n, None) && pageOfDir == n * 0x1000
    requires page % 0x1000 == 0 && NewFrame(k.owner, n, FrameOf(page)) && FrameOf(page) != n
    modifies k`tlb, k`stale, k`owner, k.mem, k.alloc`location, k.alloc`firstFree, k.alloc`given, k.alloc.bitmap
    ensures Building(k, m0, o0, n) && WindowsOn(k, n, None)
    ensures k.owner == old(k.owner) && k.stale == old(k.stale) && k.alloc.Free() == old(k.alloc.Free())
    ensures forall i: Index :: i < 1023 ==> At(k.mem[..], FrameOf(page), i) == 0
    ensures At(k.mem[..], FrameOf(page), 1023) == Entry(n)
    ensures At(k.mem[..], n, TABLES_SLOT) == Entry(n)
    ensures forall i: Index :: i != TABLES_SLOT ==> At(k.mem[..], n, i) == old(At(k.mem[..], n, i))
    ensures forall g: Frame, i: Index :: NewFrame(k.owner, n, g) && g != FrameOf(page) && g != n ==>
              At(k.mem[..], g, i) == At(old(k.mem[..]), g, i)
  {
    hide At, Put, SpaceOk, OthersKept, OutsideWindowsKept, OwnersOf, Agrees, LowIdentity, WindowTable, Walk;
    ghost var f := FrameOf(page);
    assert pageOfDir + 3 == Entry(n);
    var _ := OpenWindow(k, PT_WINDOW, page, m0, o0, n);
    ClearThrough(k, PT_WINDOW, m0, o0, n, f);
    ghost var m2 := k.mem[..];
    StoreThrough(k, PT_WINDOW, 1023, pageOfDir + 3, m0, o0, n, f);
    PutFacts(m2, f, 1023, Entry(n));
    ghost var m3 := k.mem[..];
    StoreThrough(k, PD_WINDOW, TABLES_SLOT, pageOfDir + 3, m0, o0, n, n);
    PutFacts(m3, n, TABLES_SLOT, Entry(n));
    CloseWindow(k, PT_WINDOW, m0, o0, n);
  }

  /** What one call takes from the pool. */
  ghost function PagesNeeded(m: Memory, d: Frame): nat {
    if WindowTable(m, d) then 3 else 4
  }

  /** The windows are closed in `d`, and no processor still has one open. */
  ghost predicate WindowsClosed(m: Memory, d: Frame, stale: iset<Page>) {
    && Walk(m, d, PD_PAGE) == None && Walk(m, d, PT_PAGE) == None
    && !(PD_PAGE in stale) && !(PT_PAGE in stale)
  }

  // lines 87-101: the directory's page, the first window opened on it, all of it cleared
  method StartDirectory(k: Machine) returns (ok: bool, page: Word)
    requires k.Valid() && WindowsClosed(k.mem[..], k.cr3, k.stale)
    modifies k`tlb, k`stale, k`owner, k.mem, k.alloc`location, k.alloc`firstFree, k.alloc`given, k.alloc.bitmap
    ensures ok <==> |old(k.alloc.Free())| >= old(PagesNeeded(k.mem[..], k.cr3)) - 2
    ensures ok ==> page % 0x1000 == 0 && k.stale == old(k.stale)
    ensures ok ==> Building(k, old(k.mem[..]), old(k.owner), FrameOf(page)) && WindowsOn(k, FrameOf(page), None)
    ensures ok ==> |k.alloc.Free()| == |old(k.alloc.Free())| - (old(PagesNeeded(k.mem[..], k.cr3)) - 2)
    ensures ok ==> forall i: Index :: At(k.mem[..], FrameOf(page), i) == 0
  {
    hide At, Put, SpaceOk, OthersKept, OutsideWindowsKept, OwnersOf, Agrees, LowIdentity, WindowTable, Walk;
    ghost var m0, o0 := k.mem[..], k.owner;
    ok, page := k.TakePage(Directory);
    if ok {
      ghost var n := FrameOf(page);
      BuildingStarts(m0, o0, k.cr3, n);
      assert k.alloc.Free() != {} <==> |k.alloc.Free()| > 0;
      ok := OpenWindow(k, PD_WINDOW, page, m0, o0, n);
      if ok {
        ClearThrough(k, PD_WINDOW, m0, o0, n, n);
      }
    }
  }

  lemma BuildingStarts(m: Memory, o: Owners, d: Frame, n: Frame)
    requires SpaceOk(m, o, d) && n !in o
    ensures SinceStart(m, o, m, o[n := Directory], d, n) && SpaceOk(m, o[n := Directory], d)
  {
    OwnersGrow(m, o, o[n := Directory], d);
    forall e: Frame | e != d && SpaceOk(m, o, e)
      ensures SpaceOk(m, o[n := Directory], e)
    {
      OwnersGrow(m, o, o[n := Directory], e);
    }
  }

  lemma NewSpaceFinished(m: Memory, m': Memory, o: Owners, n: Frame, t0: Frame, t1: Frame)
    requires NewSpace(m, n, t0, t1)
    requires HasTables(o, n, t0, t1)
    requires NewFramesKept(m, m', o, n)
    ensures NewSpace(m', n, t0, t1) && SpaceOk(m', o, n)
    ensures forall p: Page :: Walk(m', n, p) == NewSpaceWalk(n, t0, t1, p)
  {
    assert NewFrame(o, n, n) && NewFrame(o, n, t0) && NewFrame(o, n, t1);
    NewSpaceMeaning(m', o, n, t0, t1);
  }

  ghost predicate HasTables(o: Owners, n: Frame, t0: Frame, t1: Frame) {
    n in o && o[n] == Directory && t0 in o && o[t0] == Table(n, 0) && t1 in o && o[t1] == Table(n, DIR_SLOT)
  }

  // the identity table is there, then the directory's own table is entered and filled
  lemma Assembled(m1: Memory, m2: Memory, m3: Memory, o: Owners, n: Frame, t0: Frame, t1: Frame)
    requires n != t0 && n != t1 && t0 != t1 && NewFrame(o, n, t0)
    requires At(m1, n, 0) == Entry(t0) && (forall i: Index :: i != 0 ==> At(m1, n, i) == 0)
    requires forall i: Index :: At(m1, t0, i) == Entry(i)
    requires OnlyFrame(m1, m2, n) && At(m2, n, DIR_SLOT) == Entry(t1)
    requires forall i: Index :: i != DIR_SLOT ==> At(m2, n, i) == At(m1, n, i)
    requires At(m3, n, TABLES_SLOT) == Entry(n) && forall i: Index :: i != TABLES_SLOT ==> At(m3, n, i) == At(m2, n, i)
    requires (forall i: Index :: i < 1023 ==> At(m3, t1, i) == 0) && At(m3, t1, 1023) == Entry(n)
    requires forall g: Frame, i: Index :: NewFrame(o, n, g) && g != t1 && g != n ==> At(m3, g, i) == At(m2, g, i)
    ensures NewSpace(m3, n, t0, t1)
  {
    hide At, Entry;
  }

  // lines 103-124: both tables and the directory's loop on itself
  method BuildTables(k: Machine, pageOfDir: Word, ghost m0: Memory, ghost o0: Owners, ghost n: Frame)
    returns (ok: bool, ghost t0: Frame, ghost t1: Frame)
    requires Building(k, m0, o0, n) && WindowsOn(k, n, None) && pageOfDir == n * 0x1000
    requires forall i: Index :: At(k.mem[..], n, i) == 0
    modifies k`tlb, k`stale, k`owner, k.mem, k.alloc`location, k.alloc`firstFree, k.alloc`given, k.alloc.bitmap
    ensures ok <==> |old(k.alloc.Free())| >= 2
    ensures ok ==> Building(k, m0, o0, n) && WindowsOn(k, n, None) && k.stale == old(k.stale)
    ensures ok ==> |k.alloc.Free()| == |old(k.alloc.Free())| - 2
    ensures ok ==> HasTables(k.owner, n, t0, t1) && NewSpace(k.mem[..], n, t0, t1)
  {
    hide At, Put, SpaceOk, OthersKept, OwnersOf, Agrees, LowIdentity, WindowTable, Walk, OutsideWindowsKept, NewSpace;
    t0, t1 := 0, 0;
    var page;
    ok, page := EnterTable(k, 0, m0, o0, n);
    if ok {
      t0 := FrameOf(page);
      WriteIdentityTable(k, page, m0, o0, n);
      ghost var m1 := k.mem[..];
      ok, page := EnterTable(k, DIR_SLOT, m0, o0, n);
      if ok {
        t1 := FrameOf(page);
        assert NewFrame(k.owner, n, t0) && t0 != t1;
        ghost var m2 := k.mem[..];
        WriteSelfTable(k, page, pageOfDir, m0, o0, n);
        Assembled(m1, m2, k.mem[..], k.owner, n, t0, t1);
      }
    }
  }

  /** create_page_directory while paging is on (lines 84-129), with its frames as ghost results. */
  method CreatePageDirectory(k: Machine) returns (ok: bool, pd: Word, ghost t0: Frame, ghost t1: Frame)
    requires k.Valid() && WindowsClosed(k.mem[..], k.cr3, k.stale)
    modifies k`tlb, k`stale, k`owner, k.mem, k.alloc`location, k.alloc`firstFree, k.alloc`given, k.alloc.bitmap
    ensures ok <==> |old(k.alloc.Free())| >= old(PagesNeeded(k.mem[..], k.cr3))
    ensures ok ==> k.Valid() && WindowsClosed(k.mem[..], k.cr3, k.stale) && k.stale == old(k.stale)
    ensures ok ==> pd % 0x1000 == 0 && FrameOf(pd) !in old(k.owner) && FrameOf(pd) != k.cr3
    ensures ok ==> SpaceOk(k.mem[..], k.owner, FrameOf(pd)) && NewSpace(k.mem[..], FrameOf(pd), t0, t1)
    ensures ok ==> forall p: Page :: Walk(k.mem[..], FrameOf(pd), p) == NewSpaceWalk(FrameOf(pd), t0, t1, p)
    ensures ok ==> forall p: Page :: (p == WINDOW_TABLE_PAGE ==> old(WindowTable(k.mem[..], k.cr3))) ==>
                     Walk(k.mem[..], k.cr3, p) == Walk(old(k.mem[..]), k.cr3, p)
    ensures ok ==> OthersKept(old(k.mem[..]), old(k.owner), k.mem[..], k.owner, k.cr3)
    ensures ok ==> OwnersOf(old(k.owner), k.owner, k.cr3, FrameOf(pd)) && WindowTable(k.mem[..], k.cr3)
    ensures ok ==> |k.alloc.Free()| == |old(k.alloc.Free())| - old(PagesNeeded(k.mem[..], k.cr3))
  {
    hide At, Put, SpaceOk, OthersKept, OwnersOf, Agrees, LowIdentity, WindowTable, Walk, NewSpaceWalk, NewSpace;
    ghost var m0, o0 := k.mem[..], k.owner;
    t0, t1 := 0, 0;
    ok, pd := StartDirectory(k);
    if !ok {
      return;
    }
    ghost var n := FrameOf(pd);
    ok, t0, t1 := BuildTables(k, pd, m0, o0, n);
    if ok {
      ghost var m := k.mem[..];
      CloseWindow(k, PD_WINDOW, m0, o0, n);
      NewSpaceFinished(m, k.mem[..], k.owner, n, t0, t1);
    }
  }
}
