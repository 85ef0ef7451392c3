/** The virtual memory manager of kernelcpp/code/mem/vmm.c on a machine with a TLB. Every access to
    page_directory[i] and page_tables[k] goes through the translation those very tables define. */
module Mmu {
  import opened Basics
  import opened Paging
  import opened Pmm

  const PAGE_DIR_VIRTUAL_ADDR: Word := 0xFFBF_F000
  const PAGE_TABLE_VIRTUAL_ADDR: Word := 0xFFC0_0000

  type Tlb = map<Page, Frame>

  function PageOf(va: Word): Page {
    Page(va / 0x1000 / 1024, va / 0x1000 % 1024)
  }

  function WordOf(va: Word): Index {
    va % 0x1000 / 4
  }

  /** The two fixed arrays, as addresses. */
  lemma WindowAddresses(slot: Index, index: Index)
    ensures PageOf(PAGE_DIR_VIRTUAL_ADDR + 4 * slot) == Page(DIR_SLOT, 1023)
    ensures WordOf(PAGE_DIR_VIRTUAL_ADDR + 4 * slot) == slot
    ensures PageOf(PAGE_TABLE_VIRTUAL_ADDR + 4 * (1024 * slot + index)) == Page(TABLES_SLOT, slot)
    ensures WordOf(PAGE_TABLE_VIRTUAL_ADDR + 4 * (1024 * slot + index)) == index
  {
  }

  lemma InPage(va: Word, i: Index)
    requires va % 0x1000 == 0
    ensures va + 4 * i < 0x1_0000_0000
    ensures PageOf(va + 4 * i) == PageOf(va) && WordOf(va + 4 * i) == i
  {
  }

  /** Cached translations agree with the walk, except possibly on the pages of `stale`. */
  ghost predicate Agrees(t: Tlb, m: Memory, d: Frame, stale: iset<Page>) {
    forall p :: p in t && p !in stale ==> Walk(m, d, p) == Some(t[p])
  }

  ghost predicate OrdinarySlots(stale: iset<Page>) {
    forall p :: p in stale ==> p.slot < DIR_SLOT
  }

  ghost predicate AboveLow(stale: iset<Page>) {
    forall p :: p in stale ==> 1 <= p.slot
  }

  lemma AgreesOnFewer(t: Tlb, m: Memory, d: Frame, stale: iset<Page>, more: iset<Page>)
    requires Agrees(t, m, d, stale) && stale <= more
    ensures Agrees(t, m, d, more)
  {
  }

  /** What the processor may hold after any number of walks and evictions of its own choosing. */
  predicate MayBecome(t: Tlb, t': Tlb, m: Memory, d: Frame) {
    forall p :: p in t' ==> (p in t && t[p] == t'[p]) || Walk(m, d, p) == Some(t'[p])
  }

  /** Where an access to page `p` goes: the cached translation goes before the tables. */
  function Reached(t: Tlb, m: Memory, d: Frame, p: Page): Option<Frame> {
    if p in t then Some(t[p]) else Walk(m, d, p)
  }

  /** A word stored on page `p` is found there after the next load of cr3 exactly if the store went where the
      tables say, or the word was there already; on a page that is not stale it always is. */
  lemma StoreSurvivesIff(m: Memory, o: Owners, d: Frame, t: Tlb, stale: iset<Page>, p: Page, i: Index, w: Word)
    requires SpaceOk(m, o, d) && Walk(m, d, p).Some? && Agrees(t, m, d, stale)
    requires var g := Reached(t, m, d, p).value; g != d && (g in o && o[g].Table? ==> o[g].dir != d)
    ensures var g, f := Reached(t, m, d, p).value, Walk(m, d, p).value;
            var m' := Put(m, g, i, w);
            && Reached(map[], m', d, p) == Some(f)
            && (At(m', f, i) == w <==> g == f || At(m, f, i) == w)
            && (p !in stale ==> At(m', f, i) == w)
  {
    var g := Reached(t, m, d, p).value;
    PutFacts(m, g, i, w);
    ForeignWrite(m, Put(m, g, i, w), o, d, g);
    hide SpaceOk, At, Put;
  }

  /** Writes to frame `f` cannot change how any page outside `stale` is translated. */
  ghost predicate OffPath(m: Memory, d: Frame, f: Frame, stale: iset<Page>) {
    f != d && forall p :: p !in stale && Present(At(m, d, p.slot)) ==> FrameOf(At(m, d, p.slot)) != f
  }

  lemma OffPathWrite(m: Memory, m': Memory, d: Frame, f: Frame, stale: iset<Page>)
    requires OffPath(m, d, f, stale) && OnlyFrame(m, m', f)
    ensures OffPath(m', d, f, stale)
    ensures forall p :: p !in stale ==> Walk(m', d, p) == Walk(m, d, p)
  {
    forall p | p !in stale
      ensures Walk(m', d, p) == Walk(m, d, p)
    {
      assert At(m', d, p.slot) == At(m, d, p.slot);
    }
    assert forall i: Index :: At(m', d, i) == At(m, d, i);
  }

  lemma UnownedOffPath(m: Memory, o: Owners, d: Frame, f: Frame, stale: iset<Page>)
    requires SpaceOk(m, o, d) && f !in o
    ensures OffPath(m, d, f, stale)
  {
    forall i: Index | Present(At(m, d, i))
      ensures FrameOf(At(m, d, i)) != f
    {
      if i < 1023 {
        assert EntryOk(m, o, d, i);
      }
    }
  }

  ghost function SlotPages(slot: Index): iset<Page> {
    iset p: Page | p.slot == slot
  }

  lemma SlotOffPath(m: Memory, o: Owners, d: Frame, slot: Index, stale: iset<Page>)
    requires SpaceOk(m, o, d) && slot < DIR_SLOT && At(m, d, slot) != 0 && SlotPages(slot) <= stale
    ensures OffPath(m, d, FrameOf(At(m, d, slot)), stale)
  {
    assert EntryOk(m, o, d, slot);
    forall i: Index | i != slot && Present(At(m, d, i))
      ensures FrameOf(At(m, d, i)) != FrameOf(At(m, d, slot))
    {
      if i < 1023 {
        assert EntryOk(m, o, d, i);
      }
    }
  }

  /** Nothing the CPU holds is invalidated by giving an empty slot a table. */
  lemma InstallSeen(m: Memory, o: Owners, d: Frame, slot: Index, f: Frame, t: Tlb, stale: iset<Page>)
    requires SpaceOk(m, o, d) && slot < DIR_SLOT && At(m, d, slot) == 0 && f !in o
    requires Agrees(t, m, d, stale) && OrdinarySlots(stale)
    ensures var m' := Put(m, d, slot, Entry(f));
            && SpaceOk(m', o[f := Table(d, slot)], d)
            && Walk(m', d, Page(TABLES_SLOT, slot)) == Some(f)
            && Agrees(t, m', d, stale)
  {
    TableInstall(m, o, d, slot, f);
  }

  /** (pa & PAGE_MASK) | flags translates to this. */
  function Target(pa: Word, flags: Word): Option<Frame> {
    if Present(flags) then Some(FrameOf(pa)) else None
  }

  lemma TargetOfEntry(pa: Word, flags: Word)
    requires flags < 0x1000
    ensures pa - pa % 0x1000 + flags < 0x1_0000_0000
    ensures Translation(pa - pa % 0x1000 + flags) == Target(pa, flags)
  {
    assert pa - pa % 0x1000 == 0x1000 * FrameOf(pa);
    FlagsBelow(FrameOf(pa), flags);
  }

  lemma FlagsBelow(f: Frame, flags: Word)
    requires flags < 0x1000
    ensures (0x1000 * f + flags) / 0x1000 == f && (0x1000 * f + flags) % 2 == flags % 2
  {
    var w := 0x1000 * f + flags;
    assert 0x1000 * (w / 0x1000) <= w < 0x1000 * (w / 0x1000 + 1);
    assert w == 2 * (0x800 * f + flags / 2) + flags % 2;
  }

  /** Pages whose old translation the CPU may keep using once page `p` has been pointed elsewhere. */
  ghost function StaleAfterMap(before: iset<Page>, was: Option<Frame>, p: Page, to: Option<Frame>): iset<Page> {
    if was == None || was == to then before else before + iset{p}
  }

  /** map has no invlpg. Whatever a CPU has cached stays right after a present entry is written exactly
      when the page was not mapped, or keeps its translation. */
  lemma RemapSafeIff(m: Memory, o: Owners, d: Frame, p: Page, w: Word)
    requires SpaceOk(m, o, d) && p.slot < DIR_SLOT && At(m, d, p.slot) != 0
    ensures (forall t: Tlb :: Agrees(t, m, d, iset{}) ==> Agrees(t, WithEntry(m, d, p, w), d, iset{}))
       <==> (Walk(m, d, p) == None || Walk(m, d, p) == Translation(w))
  {
    TableWrite(m, o, d, p, w);
    if Walk(m, d, p).Some? && Walk(m, d, p) != Translation(w) {
      var t: Tlb := map[p := Walk(m, d, p).value];
      assert Agrees(t, m, d, iset{});
      assert p in t && !Agrees(t, WithEntry(m, d, p, w), d, iset{});
    }
  }

  // ----- runs of map and unmap -----

  datatype Edit = Set(va: Word, pa: Word, flags: Word) | Clear(va: Word)

  /** Below the last 8 MB, with flags below the page bits. */
  predicate InReach(e: Edit) {
    PageOf(e.va).slot < DIR_SLOT && (e.Set? ==> e.flags < 0x1000)
  }

  /** Leaves page 0 in its place. */
  predicate SparesZeroPage(e: Edit) {
    PageOf(e.va) == Page(0, 0) ==> e.Set? && Target(e.pa, e.flags) == Some(0)
  }

  function Meant(e: Edit): Option<Frame> {
    if e.Set? then Target(e.pa, e.flags) else None
  }

  /** What page `p` translates to after the edits: what the last one about it says. */
  function Final(edits: seq<Edit>, p: Page, was: Option<Frame>): Option<Frame> {
    if edits == [] then was
    else if PageOf(edits[|edits| - 1].va) == p then Meant(edits[|edits| - 1])
    else Final(edits[..|edits| - 1], p, was)
  }

  /** Memory `m'` of directory `d` shows the edits made since `m`, and nothing else. */
  ghost predicate Edited(m: Memory, o: Owners, m': Memory, o': Owners, d: Frame, edits: seq<Edit>) {
    && (forall p: Page :: p.slot < DIR_SLOT ==> Walk(m', d, p) == Final(edits, p, Walk(m, d, p)))
    && OthersKept(m, o, m', o', d)
  }

  lemma EditedMore(m: Memory, o: Owners, m1: Memory, o1: Owners, m2: Memory, o2: Owners, d: Frame, edits: seq<Edit>,
                   e: Edit)
    requires Edited(m, o, m1, o1, d, edits) && PageOf(e.va).slot < DIR_SLOT
             && Retargeted(m1, o1, m2, o2, d, PageOf(e.va), Meant(e))
    ensures Edited(m, o, m2, o2, d, edits + [e])
  {
    OthersKeptTrans(m, o, m1, o1, m2, o2, d);
    hide Walk, OthersKept;
    assert (edits + [e])[..|edits|] == edits;
  }

  lemma NothingEdited(m: Memory, o: Owners, d: Frame)
    ensures Edited(m, o, m, o, d, [])
  {
  }

  lemma ReachBelow(e: Edit)
    requires InReach(e)
    ensures PageOf(e.va).slot < DIR_SLOT
  {
  }

  class Machine {
    const mem: array<Word>          // physical memory
    const alloc: PageAllocator
    var cr3: Frame                  // current_page_directory
    var tlb: Tlb
    ghost var stale: iset<Page>     // pages remapped without invlpg since they were cached
    ghost var owner: Owners

    ghost predicate Hardware()
      reads this, mem
    {
      mem.Length == WORDS && Agrees(tlb, mem[..], cr3, stale)
    }

    /** Paging switched on with directory `d` (vmm.c lines 29-34): nothing is cached yet. */
    constructor (ram: array<Word>, a: PageAllocator, d: Frame, ghost o: Owners)
      requires ram.Length == WORDS
      ensures mem == ram && alloc == a && cr3 == d && owner == o && stale == iset{} && Hardware()
    {
      mem, alloc := ram, a;
      cr3, tlb, stale, owner := d, map[], iset{}, o;
    }

    method Speculate()
      requires Hardware()
      modifies this`tlb
      ensures Hardware()
    {
      var t: Tlb := *;
      if MayBecome(tlb, t, mem[..], cr3) {
        tlb := t;
      }
    }

    method VirtualRead(va: Word) returns (w: Word)
      requires Hardware()
      requires PageOf(va) !in stale && Walk(mem[..], cr3, PageOf(va)).Some?
      modifies this`tlb
      ensures Hardware()
      ensures w == At(mem[..], Walk(mem[..], cr3, PageOf(va)).value, WordOf(va))
    {
      Speculate();
      var f := Reached(tlb, mem[..], cr3, PageOf(va)).value;
      w := mem[1024 * f + WordOf(va)];
    }

    method VirtualWrite(va: Word, w: Word)
      requires Hardware()
      requires PageOf(va) !in stale && Walk(mem[..], cr3, PageOf(va)).Some?
      modifies this`tlb, mem
      ensures mem[..] == Put(old(mem[..]), Walk(old(mem[..]), cr3, PageOf(va)).value, WordOf(va), w)
      ensures Agrees(tlb, old(mem[..]), cr3, stale)
    {
      Speculate();
      var f := Reached(tlb, mem[..], cr3, PageOf(va)).value;
      mem[1024 * f + WordOf(va)] := w;
    }

    method Invlpg(va: Word)
      requires mem.Length == WORDS && Agrees(tlb, mem[..], cr3, stale + iset{PageOf(va)})
      modifies this`tlb, this`stale
      ensures Hardware() && stale == old(stale) - iset{PageOf(va)}
    {
      tlb := tlb - {PageOf(va)};
      stale := stale - iset{PageOf(va)};
    }

    // switch_page_directory: loading cr3 empties the TLB.
    method SwitchPageDirectory(d: Frame)
      requires mem.Length == WORDS
      modifies this`cr3, this`tlb, this`stale
      ensures cr3 == d && stale == iset{} && Hardware()
    {
      cr3 := d;
      tlb := map[];
      stale := iset{};
    }

    /** memset(va, 0, 0x1000) for a page-aligned va. */
    method ZeroPage(va: Word)
      requires Hardware() && va % 0x1000 == 0
      requires PageOf(va) !in stale && Walk(mem[..], cr3, PageOf(va)).Some?
      requires OffPath(mem[..], cr3, Walk(mem[..], cr3, PageOf(va)).value, stale)
      modifies this`tlb, mem
      ensures Hardware()
      ensures var f := Walk(old(mem[..]), cr3, PageOf(va)).value;
              OnlyFrame(old(mem[..]), mem[..], f) && forall i: Index :: At(mem[..], f, i) == 0
    {
      ghost var m0 := mem[..];
      ghost var f := Walk(m0, cr3, PageOf(va)).value;
      var i := 0;
      while i < 1024
        invariant 0 <= i <= 1024
        invariant Hardware() && OffPath(mem[..], cr3, f, stale)
        invariant Walk(mem[..], cr3, PageOf(va)) == Some(f)
        invariant OnlyFrame(m0, mem[..], f)
        invariant forall k: Index :: k < i ==> At(mem[..], f, k) == 0
      {
        ghost var m := mem[..];
        InPage(va, i);
        VirtualWrite(va + 4 * i, 0);
        PutFacts(m, f, i, 0);
        OffPathWrite(m, mem[..], cr3, f, stale);
        i := i + 1;
      }
    }

    // ----- the kernel's invariants -----

    ghost function PoolFrame(i: nat): nat {
      alloc.base / MEM_UNIT_SIZE + i
    }

    /** No free page has a role, and every page with a role lies above the bitmap's page. */
    ghost predicate PoolOk()
      reads this, alloc, alloc.bitmap
    {
      && alloc.Valid() && alloc.pagingActive && mem as object != alloc.bitmap
      && (forall i :: i in alloc.Free() ==> PoolFrame(i) !in owner)
      && (forall f :: f in owner ==> f > alloc.base / MEM_UNIT_SIZE)
    }

    /** Pages not handed out yet hold only zeros, as RAM does when the machine starts cleared. */
    ghost predicate PoolZero()
      reads this, mem, alloc, alloc.bitmap
    {
      && mem.Length == WORDS && PoolOk()
      && forall i, k: Index :: i in alloc.Free() && PoolFrame(i) < 0x10_0000 ==> At(mem[..], PoolFrame(i), k) == 0
    }

    ghost predicate Ready()
      reads this, mem, alloc, alloc.bitmap
    {
      && PoolOk() && Hardware() && SpaceOk(mem[..], owner, cr3)
      && OrdinarySlots(stale)
    }

    /** Page 0 is where the memset of line 155, as written, expects it. */
    ghost predicate ZeroPageHome()
      reads this, mem
      requires mem.Length == WORDS
    {
      Walk(mem[..], cr3, Page(0, 0)) == Some(0) && Page(0, 0) !in stale
    }

    ghost predicate Valid()
      reads this, mem, alloc, alloc.bitmap
    {
      Ready() && PoolZero() && LowIdentity(mem[..], cr3) && AboveLow(stale)
    }

    /** pmm_alloc_page, noting the role the page is taken for. */
    method TakePage(ghost role: Role) returns (ok: bool, page: Word)
      requires PoolOk() && mem.Length == WORDS
      modifies this`owner, alloc`location, alloc`firstFree, alloc`given, alloc.bitmap
      ensures PoolOk()
      ensures ok <==> old(alloc.Free()) != {}
      ensures !ok ==> owner == old(owner) && alloc.Free() == {}
      ensures ok ==> page % 0x1000 == 0 && FrameOf(page) !in old(owner) && owner == old(owner)[FrameOf(page) := role]
      ensures ok ==> alloc.Index(page) in old(alloc.Free()) && FrameOf(page) == PoolFrame(alloc.Index(page))
      ensures ok ==> alloc.Free() == old(alloc.Free()) - {alloc.Index(page)}
      ensures old(PoolZero()) ==> PoolZero() && (ok ==> forall k: Index :: At(mem[..], FrameOf(page), k) == 0)
    {
      var a;
      ok, a := alloc.AllocPage();
      page := 0;
      if ok {
        page := a;
        owner := owner[FrameOf(page) := role];
      }
    }

    /** Line 154: the fresh page becomes the table of an empty slot, through the window page onto the
        live directory. */
    method InstallTable(slot: Index, page: Word, ghost o: Owners)
      requires Hardware() && SpaceOk(mem[..], o, cr3)
      requires OrdinarySlots(stale)
      requires slot < DIR_SLOT && At(mem[..], cr3, slot) == 0
      requires page % 0x1000 == 0 && FrameOf(page) !in o
      modifies this`tlb, mem
      ensures Hardware() && mem[..] == Put(old(mem[..]), cr3, slot, Entry(FrameOf(page)))
      ensures SpaceOk(mem[..], o[FrameOf(page) := Table(cr3, slot)], cr3)
      ensures Walk(mem[..], cr3, Page(TABLES_SLOT, slot)) == Some(FrameOf(page))
    {
      ghost var m := mem[..];
      SelfReference(m, o, cr3);
      WindowAddresses(slot, 0);
      VirtualWrite(PAGE_DIR_VIRTUAL_ADDR + 4 * slot, page + 3);
      InstallSeen(m, o, cr3, slot, FrameOf(page), tlb, stale);
    }

    /** Line 155 of map, as written: memset gets the first word of the new table, not its address. On a
        page of zeros that word is 0, so it is page 0, identity mapped, that is cleared. */
    method ClearAtFirstWord(slot: Index, ghost t: Frame)
      requires Hardware() && SpaceOk(mem[..], owner, cr3)
      requires OrdinarySlots(stale)
      requires Walk(mem[..], cr3, Page(TABLES_SLOT, slot)) == Some(t) && At(mem[..], t, 0) == 0
      requires ZeroPageHome() && 0 !in owner
      modifies this`tlb, mem
      ensures Hardware() && OnlyFrame(old(mem[..]), mem[..], 0)
    {
      WindowAddresses(slot, 0);
      var first := VirtualRead(PAGE_TABLE_VIRTUAL_ADDR + 4 * (slot * 1024));
      assert PageOf(first) == Page(0, 0);
      UnownedOffPath(mem[..], owner, cr3, 0, stale);
      ZeroPage(first);
    }

    /** Lines 154-155 of map, as written. */
    method CreateTable(slot: Index) returns (ok: bool)
      requires Ready() && PoolZero() && ZeroPageHome() && slot < DIR_SLOT && At(mem[..], cr3, slot) == 0
      modifies this`tlb, this`owner, mem, alloc`location, alloc`firstFree, alloc`given, alloc.bitmap
      ensures ok <==> old(alloc.Free()) != {}
      ensures Ready() && PoolZero()
      ensures ok ==> TableReady(old(mem[..]), old(owner), mem[..], owner, cr3, slot)
      ensures ok ==> |alloc.Free()| == |old(alloc.Free())| - 1
      ensures !ok ==> mem[..] == old(mem[..]) && owner == old(owner) && alloc.Free() == {}
    {
      ghost var m0, o0 := mem[..], owner;
      var page;
      ok, page := TakePage(Table(cr3, slot));
      if ok {
        ghost var t := FrameOf(page);
        assert 0 !in owner && slot != 0;
        hide At, Put, SpaceOk, EntryOk, Walk, OthersKept, Agrees;
        TableReadyByInstall(m0, o0, cr3, slot, t);
        InstallTable(slot, page, o0);
        ghost var m1 := mem[..];
        PutFacts(m0, cr3, slot, Entry(t));
        ClearAtFirstWord(slot, t);
        TableReadyAndFrameZero(m0, o0, m1, mem[..], owner, cr3, slot);
      }
    }

    /** Lines 154-155 of map with the address of the new table handed to memset. The page may hold
        anything; a prefetching CPU may have cached entries of it before they are cleared. */
    method CreateTableRepaired(slot: Index) returns (ok: bool)
      requires Ready() && slot < DIR_SLOT && At(mem[..], cr3, slot) == 0
      modifies this`tlb, this`stale, this`owner, mem, alloc`location, alloc`firstFree, alloc`given, alloc.bitmap
      ensures ok <==> old(alloc.Free()) != {}
      ensures Ready()
      ensures ok ==> TableReady(old(mem[..]), old(owner), mem[..], owner, cr3, slot)
      ensures ok ==> |alloc.Free()| == |old(alloc.Free())| - 1
      ensures ok ==> stale == old(stale) + SlotPages(slot)
      ensures !ok ==> mem[..] == old(mem[..]) && owner == old(owner) && alloc.Free() == {}
    {
      hide At, Put, SpaceOk, EntryOk, Walk, OthersKept, Agrees, LowIdentity;
      ghost var m0, o0 := mem[..], owner;
      var page;
      ok, page := TakePage(Table(cr3, slot));
      if ok {
        ghost var t := FrameOf(page);
        InstallTable(slot, page, o0);
        WindowAddresses(slot, 0);
        PutFacts(m0, cr3, slot, Entry(t));
        AgreesOnFewer(tlb, mem[..], cr3, stale, stale + SlotPages(slot));
        stale := stale + SlotPages(slot);
        SlotOffPath(mem[..], owner, cr3, slot, stale);
        ZeroPage(PAGE_TABLE_VIRTUAL_ADDR + 4 * (slot * 1024));
        TableReadyByClearing(m0, o0, mem[..], cr3, slot, t);
      }
    }

    // page_directory[slot]
    method ReadDirectory(slot: Index) returns (w: Word)
      requires Hardware() && SpaceOk(mem[..], owner, cr3) && OrdinarySlots(stale)
      modifies this`tlb
      ensures Hardware() && w == At(mem[..], cr3, slot)
    {
      SelfReference(mem[..], owner, cr3);
      WindowAddresses(slot, 0);
      w := VirtualRead(PAGE_DIR_VIRTUAL_ADDR + 4 * slot);
    }

    /** One entry of a live table, through its window: line 159 of map, lines 164-166 of unmap. */
    method WriteEntry(va: Word, w: Word)
      requires Hardware() && SpaceOk(mem[..], owner, cr3) && OrdinarySlots(stale)
      requires PageOf(va).slot < DIR_SLOT && At(mem[..], cr3, PageOf(va).slot) != 0
      modifies this`tlb, mem
      ensures mem[..] == WithEntry(old(mem[..]), cr3, PageOf(va), w)
      ensures Agrees(tlb, old(mem[..]), cr3, stale)
    {
      ghost var p := PageOf(va);
      SelfReference(mem[..], owner, cr3);
      WindowAddresses(p.slot, p.index);
      assert EntryOk(mem[..], owner, cr3, p.slot);
      var virtualPage := va / 0x1000;
      assert virtualPage == 1024 * p.slot + p.index;
      VirtualWrite(PAGE_TABLE_VIRTUAL_ADDR + 4 * virtualPage, w);
    }

    /** The write of an entry, with the account of what the CPU may keep using afterwards. */
    method SetEntry(va: Word, w: Word)
      requires Ready()
      requires PageOf(va).slot < DIR_SLOT && At(mem[..], cr3, PageOf(va).slot) != 0
      modifies this`tlb, this`stale, mem
      ensures Ready() && mem[..] == WithEntry(old(mem[..]), cr3, PageOf(va), w)
      ensures old(PoolZero()) ==> PoolZero()
      ensures RawEntry(mem[..], cr3, PageOf(va)) == w
      ensures stale == StaleAfterMap(old(stale), old(Walk(mem[..], cr3, PageOf(va))), PageOf(va), Translation(w))
    {
      ghost var m, p := mem[..], PageOf(va);
      assert EntryOk(m, owner, cr3, p.slot);
      WriteEntry(va, w);
      TableWrite(m, owner, cr3, p, w);
      EntryReadsBack(m, owner, cr3, p, w);
      PutFacts(m, FrameOf(At(m, cr3, p.slot)), p.index, w);
      stale := StaleAfterMap(stale, Walk(m, cr3, p), p, Translation(w));
    }

    // lines 149-156 of map, as written
    method EnsureTable(slot: Index) returns (ok: bool)
      requires Ready() && PoolZero() && slot < DIR_SLOT && (At(mem[..], cr3, slot) == 0 ==> ZeroPageHome())
      modifies this`tlb, this`owner, mem, alloc`location, alloc`firstFree, alloc`given, alloc.bitmap
      ensures ok <==> old(At(mem[..], cr3, slot)) != 0 || old(alloc.Free()) != {}
      ensures Ready() && PoolZero()
      ensures !ok ==> mem[..] == old(mem[..]) && owner == old(owner) && alloc.Free() == {}
      ensures ok ==> TableReady(old(mem[..]), old(owner), mem[..], owner, cr3, slot)
      ensures ok ==> |alloc.Free()| == |old(alloc.Free())| - (if old(At(mem[..], cr3, slot)) == 0 then 1 else 0)
      ensures old(At(mem[..], cr3, slot)) != 0 ==> alloc.Free() == old(alloc.Free())
    {
      ok := true;
      var pde := ReadDirectory(slot);
      if pde == 0 {
        ok := CreateTable(slot);
      } else {
        NothingChanged(mem[..], owner, cr3);
      }
    }

    /** map, as written. A missing table needs page 0 in its place for the memset of line 155 to be harmless. */
    method Map(va: Word, pa: Word, flags: Word) returns (ok: bool)
      requires Ready() && PoolZero() && PageOf(va).slot < DIR_SLOT && flags < 0x1000
      requires At(mem[..], cr3, PageOf(va).slot) == 0 ==> ZeroPageHome()
      modifies this`tlb, this`stale, this`owner, mem, alloc`location, alloc`firstFree, alloc`given, alloc.bitmap
      ensures ok <==> old(At(mem[..], cr3, PageOf(va).slot)) != 0 || old(alloc.Free()) != {}
      ensures Ready() && PoolZero()
      ensures !ok ==> mem[..] == old(mem[..]) && owner == old(owner) && alloc.Free() == {} && stale == old(stale)
      ensures ok ==> |alloc.Free()|
                     == |old(alloc.Free())| - (if old(At(mem[..], cr3, PageOf(va).slot)) == 0 then 1 else 0)
      ensures old(At(mem[..], cr3, PageOf(va).slot)) != 0 ==> alloc.Free() == old(alloc.Free())
      ensures ok ==> Retargeted(old(mem[..]), old(owner), mem[..], owner, cr3, PageOf(va), Target(pa, flags))
      ensures ok ==> RawEntry(mem[..], cr3, PageOf(va)) == pa - pa % 0x1000 + flags
      ensures ok ==> stale == StaleAfterMap(old(stale), old(Walk(mem[..], cr3, PageOf(va))), PageOf(va),
                                            Target(pa, flags))
    {
      hide Walk, At, Put, SpaceOk, EntryOk, TableReady, Retargeted, OthersKept, Agrees, LowIdentity, WithEntry;
      ghost var m0, o0 := mem[..], owner;
      ok := EnsureTable(va / 0x1000 / 1024);
      if ok {
        ghost var p, w := PageOf(va), pa - pa % 0x1000 + flags;
        TargetOfEntry(pa, flags);
        RetargetedByEntry(m0, o0, mem[..], owner, cr3, p, w);
        SetEntry(va, pa - pa % 0x1000 + flags);
      }
    }

    /** map in the kernel's own states, which it keeps as long as the first 4 MB stay identity mapped. */
    method MapKept(va: Word, pa: Word, flags: Word) returns (ok: bool)
      requires Valid()
      requires PageOf(va).slot < DIR_SLOT && flags < 0x1000
      requires PageOf(va).slot == 0 ==> Walk(mem[..], cr3, PageOf(va)) == Target(pa, flags)
      modifies this`tlb, this`stale, this`owner, mem, alloc`location, alloc`firstFree, alloc`given, alloc.bitmap
      ensures ok <==> old(At(mem[..], cr3, PageOf(va).slot)) != 0 || old(alloc.Free()) != {}
      ensures ok ==> Valid()
                     && |alloc.Free()|
                        == |old(alloc.Free())| - (if old(At(mem[..], cr3, PageOf(va).slot)) == 0 then 1 else 0)
      ensures old(At(mem[..], cr3, PageOf(va).slot)) != 0 ==> alloc.Free() == old(alloc.Free())
      ensures ok ==> Retargeted(old(mem[..]), old(owner), mem[..], owner, cr3, PageOf(va), Target(pa, flags))
      ensures ok ==> RawEntry(mem[..], cr3, PageOf(va)) == pa - pa % 0x1000 + flags
      ensures ok ==> stale == StaleAfterMap(old(stale), old(Walk(mem[..], cr3, PageOf(va))), PageOf(va),
                                            Target(pa, flags))
    {
      hide At, Put, SpaceOk, EntryOk, Retargeted, OthersKept, Agrees, WithEntry;
      ghost var m0, o0 := mem[..], owner;
      assert LowIdentity(m0, cr3) && Walk(m0, cr3, Page(0, 0)) == Some(0);
      hide Walk;
      ok := Map(va, pa, flags);
      if ok {
        LowPagesKept(m0, o0, mem[..], owner, cr3, PageOf(va), Target(pa, flags));
      }
    }

    // lines 149-156 of map, line 155 repaired
    method EnsureTableRepaired(slot: Index) returns (ok: bool)
      requires Ready() && slot < DIR_SLOT
      modifies this`tlb, this`stale, this`owner, mem, alloc`location, alloc`firstFree, alloc`given, alloc.bitmap
      ensures ok <==> old(At(mem[..], cr3, slot)) != 0 || old(alloc.Free()) != {}
      ensures Ready()
      ensures !ok ==> mem[..] == old(mem[..]) && owner == old(owner) && alloc.Free() == {}
      ensures ok ==> TableReady(old(mem[..]), old(owner), mem[..], owner, cr3, slot)
      ensures ok ==> |alloc.Free()| == |old(alloc.Free())| - (if old(At(mem[..], cr3, slot)) == 0 then 1 else 0)
      ensures old(At(mem[..], cr3, slot)) != 0 ==> alloc.Free() == old(alloc.Free())
      ensures ok ==> old(stale) <= stale <= old(stale) + SlotPages(slot)
    {
      ok := true;
      var pde := ReadDirectory(slot);
      if pde == 0 {
        ok := CreateTableRepaired(slot);
      } else {
        NothingChanged(mem[..], owner, cr3);
      }
    }

    /** map with line 155 repaired: right whatever the page taken for the new table holds. */
    method MapRepaired(va: Word, pa: Word, flags: Word) returns (ok: bool)
      requires Ready() && PageOf(va).slot < DIR_SLOT && flags < 0x1000
      modifies this`tlb, this`stale, this`owner, mem, alloc`location, alloc`firstFree, alloc`given, alloc.bitmap
      ensures ok <==> old(At(mem[..], cr3, PageOf(va).slot)) != 0 || old(alloc.Free()) != {}
      ensures Ready()
      ensures !ok ==> mem[..] == old(mem[..]) && owner == old(owner) && alloc.Free() == {}
      ensures ok ==> |alloc.Free()|
                     == |old(alloc.Free())| - (if old(At(mem[..], cr3, PageOf(va).slot)) == 0 then 1 else 0)
      ensures old(At(mem[..], cr3, PageOf(va).slot)) != 0 ==> alloc.Free() == old(alloc.Free())
      ensures ok ==> Retargeted(old(mem[..]), old(owner), mem[..], owner, cr3, PageOf(va), Target(pa, flags))
      ensures ok ==> RawEntry(mem[..], cr3, PageOf(va)) == pa - pa % 0x1000 + flags
      ensures ok ==> old(stale) <= stale <= old(stale) + SlotPages(PageOf(va).slot)
    {
      hide Walk, At, Put, SpaceOk, EntryOk, TableReady, Retargeted, OthersKept, Agrees, LowIdentity, WithEntry;
      ghost var m0, o0 := mem[..], owner;
      ok := EnsureTableRepaired(va / 0x1000 / 1024);
      if ok {
        TargetOfEntry(pa, flags);
        RetargetedByEntry(m0, o0, mem[..], owner, cr3, PageOf(va), pa - pa % 0x1000 + flags);
        SetEntry(va, pa - pa % 0x1000 + flags);
      }
    }

    /** unmap: the page's entry is cleared, and the CPU told. */
    method Unmap(va: Word)
      requires Ready() && PageOf(va).slot < DIR_SLOT && At(mem[..], cr3, PageOf(va).slot) != 0
      modifies this`tlb, this`stale, mem
      ensures Ready() && mem[..] == WithEntry(old(mem[..]), cr3, PageOf(va), 0)
      ensures Retargeted(old(mem[..]), old(owner), mem[..], owner, cr3, PageOf(va), None)
      ensures RawEntry(mem[..], cr3, PageOf(va)) == 0 && stale == old(stale) - iset{PageOf(va)}
      ensures old(PoolZero()) ==> PoolZero()
      ensures old(Valid()) && PageOf(va).slot != 0 ==> Valid()
    {
      ghost var m, o := mem[..], owner;
      NothingChanged(m, o, cr3);
      RetargetedByEntry(m, o, m, o, cr3, PageOf(va), 0);
      if LowIdentity(m, cr3) && PageOf(va).slot != 0 {
        LowPagesKept(m, o, WithEntry(m, cr3, PageOf(va), 0), o, cr3, PageOf(va), None);
      }
      SetEntry(va, 0);
      Invlpg(va);
    }

    // page_tables[virtual_page]
    method ReadEntry(va: Word) returns (w: Word)
      requires Ready() && At(mem[..], cr3, PageOf(va).slot) != 0
      modifies this`tlb
      ensures Hardware() && w == RawEntry(mem[..], cr3, PageOf(va))
      ensures Present(At(mem[..], cr3, PageOf(va).slot))
    {
      ghost var p := PageOf(va);
      SelfReference(mem[..], owner, cr3);
      WindowAddresses(p.slot, p.index);
      assert p.slot < 1023 ==> EntryOk(mem[..], owner, cr3, p.slot);
      var virtualPage := va / 0x1000;
      assert virtualPage == 1024 * p.slot + p.index;
      w := VirtualRead(PAGE_TABLE_VIRTUAL_ADDR + 4 * virtualPage);
    }

    /** get_mapping: 0 without a table, -1 for an empty entry, otherwise 1 and the entry's address. */
    method GetMapping(va: Word) returns (code: int, pa: Word)
      requires Ready()
      modifies this`tlb
      ensures Ready()
      ensures code == 0 <==> At(mem[..], cr3, PageOf(va).slot) == 0
      ensures code in {0, 1, -1}
      ensures code == -1 <==> At(mem[..], cr3, PageOf(va).slot) != 0 && RawEntry(mem[..], cr3, PageOf(va)) == 0
      ensures code == 1 ==> pa == RawEntry(mem[..], cr3, PageOf(va)) - RawEntry(mem[..], cr3, PageOf(va)) % 0x1000
      ensures forall f :: Walk(mem[..], cr3, PageOf(va)) == Some(f) ==> code == 1 && pa == f * 0x1000
    {
      pa := 0;
      var pde := ReadDirectory(va / 0x1000 / 1024);
      if pde == 0 {
        return 0, 0;
      }
      var pte := ReadEntry(va);
      if pte != 0 {
        return 1, pte - pte % 0x1000;
      }
      code := -1;
    }

    /** One edit. `ok` is false where the source stops: map without a page for a missing table, unmap
        storing through a window onto no table. */
    method PerformEdit(rule: Rule, e: Edit) returns (ok: bool)
      requires Ready() && InReach(e)
      requires rule == AsWritten ==> PoolZero() && ZeroPageHome() && SparesZeroPage(e)
      modifies this`tlb, this`stale, this`owner, mem, alloc`location, alloc`firstFree, alloc`given, alloc.bitmap
      ensures Ready() && (rule == AsWritten ==> PoolZero() && ZeroPageHome())
      ensures ok ==> Retargeted(old(mem[..]), old(owner), mem[..], owner, cr3, PageOf(e.va), Meant(e))
      ensures !ok ==> mem[..] == old(mem[..]) && owner == old(owner) && (e.Set? ==> alloc.Free() == {})
      ensures ok <==> old(At(mem[..], cr3, PageOf(e.va).slot)) != 0 || (e.Set? && old(alloc.Free()) != {})
    {
      hide Walk, At, SpaceOk, EntryOk, OthersKept, Agrees, LowIdentity, WithEntry;
      match e {
        case Set(va, pa, flags) =>
          if rule == AsWritten {
            ok := Map(va, pa, flags);
          } else {
            ok := MapRepaired(va, pa, flags);
          }
        case Clear(va) =>
          var pde := ReadDirectory(va / 0x1000 / 1024);
          ok := pde != 0;
          if ok {
            Unmap(va);
          }
      }
    }

    /** Any run of map and unmap below the last 8 MB: every page translates as the last edit about it
        says, every other directory is as before, and the windows reach the live tables. The run ends
        early exactly where an edit finds no table and can get none. As written, page 0 has to stay. */
    method RunEdits(rule: Rule, edits: seq<Edit>) returns (done: nat)
      requires Ready() && forall e :: e in edits ==> InReach(e)
      requires rule == AsWritten ==> PoolZero() && ZeroPageHome() && forall e :: e in edits ==> SparesZeroPage(e)
      modifies this`tlb, this`stale, this`owner, mem, alloc`location, alloc`firstFree, alloc`given, alloc.bitmap
      ensures Ready() && done <= |edits|
      ensures Edited(old(mem[..]), old(owner), mem[..], owner, cr3, edits[..done])
      ensures done < |edits| ==> At(mem[..], cr3, PageOf(edits[done].va).slot) == 0
                                 && (edits[done].Set? ==> alloc.Free() == {})
      ensures Walk(mem[..], cr3, Page(DIR_SLOT, 1023)) == Some(cr3)
      ensures forall i: Index :: Walk(mem[..], cr3, Page(TABLES_SLOT, i))
                == if Present(At(mem[..], cr3, i)) then Some(FrameOf(At(mem[..], cr3, i))) else None
    {
      hide Walk, At, SpaceOk, EntryOk, OthersKept, Agrees, LowIdentity, Retargeted, Edited, InReach, SparesZeroPage;
      ghost var m, o := mem[..], owner;
      NothingEdited(m, o, cr3);
      done := 0;
      var ok := true;
      while done < |edits| && ok
        invariant done <= |edits| && Ready() && Edited(m, o, mem[..], owner, cr3, edits[..done])
        invariant rule == AsWritten ==> PoolZero() && ZeroPageHome()
        invariant !ok ==> done < |edits| && At(mem[..], cr3, PageOf(edits[done].va).slot) == 0
                          && (edits[done].Set? ==> alloc.Free() == {})
        decreases |edits| - done, ok
      {
        ghost var m1, o1 := mem[..], owner;
        assert edits[done] in edits;
        ReachBelow(edits[done]);
        ok := PerformEdit(rule, edits[done]);
        if ok {
          EditedMore(m, o, m1, o1, mem[..], owner, cr3, edits[..done], edits[done]);
          assert edits[..done + 1] == edits[..done] + [edits[done]];
          done := done + 1;
        }
      }
      SelfReference(mem[..], owner, cr3);
    }

    /** Changing to another directory of the kernel's own making. */
    method EnterSpace(d: Frame)
      requires Valid() && SpaceOk(mem[..], owner, d) && LowIdentity(mem[..], d)
      modifies this`cr3, this`tlb, this`stale
      ensures Valid() && cr3 == d && stale == iset{}
    {
      hide Walk, At, SpaceOk, LowIdentity;
      SwitchPageDirectory(d);
    }
  }
}
