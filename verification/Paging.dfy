/** Two-level page tables in physical memory: the hardware walk of Intel SDM volume 3A section 4.3
    (32-bit paging, 4 KB pages), and what single table writes do to it. */
module Paging {

  import opened Basics

  const WORDS := 0x4000_0000        // 32-bit words of the physical address space
  const HEAP_FIRST_PAGE := 0xD_0000 // HEAP_START / 4096
  const HEAP_END_PAGE := 0xF_FBFF   // HEAP_END / 4096
  const DIR_SLOT := 1022            // directory entry through which page_directory is reached
  const TABLES_SLOT := 1023         // directory entry through which page_tables is reached

  type Word = w: nat | w < 0x1_0000_0000
  type Frame = f: nat | f < 0x10_0000
  type Index = i: nat | i < 1024

  /** A virtual page, by the directory entry and the table entry that translate it. */
  datatype Page = Page(slot: Index, index: Index) {
    function Number(): nat {
      slot * 1024 + index
    }
  }
  type Memory = m: seq<Word> | |m| == WORDS ghost witness seq(WORDS, i => 0)

  function At(m: Memory, f: Frame, i: Index): Word {
    m[1024 * f + i]
  }

  function Put(m: Memory, f: Frame, i: Index, w: Word): Memory {
    m[1024 * f + i := w]
  }

  lemma PutFacts(m: Memory, f: Frame, i: Index, w: Word)
    ensures At(Put(m, f, i, w), f, i) == w
    ensures forall k: Index :: k != i ==> At(Put(m, f, i, w), f, k) == At(m, f, k)
    ensures OnlyFrame(m, Put(m, f, i, w), f)
  {
  }

  predicate Present(w: Word) {
    w % 2 == 1
  }

  /** w & PAGE_MASK, as a frame number. */
  function FrameOf(w: Word): Frame {
    w / 0x1000
  }

  /** A page's address | PAGE_PRESENT | PAGE_WRITE. */
  function Entry(f: Frame): (e: Word)
    ensures Present(e) && FrameOf(e) == f
  {
    f * 0x1000 + 3
  }

  /** The hardware walk: directory entry, then table entry; None is a page fault. */
  function Walk(m: Memory, d: Frame, p: Page): Option<Frame> {
    var pde := At(m, d, p.slot);
    if !Present(pde) then None
    else
      var pte := At(m, FrameOf(pde), p.index);
      if !Present(pte) then None else Some(FrameOf(pte))
  }

  /** What a table entry translates to. */
  function Translation(w: Word): Option<Frame> {
    if Present(w) then Some(FrameOf(w)) else None
  }

  /** The memory after entry `p` of an existing table of `d` is written. */
  function WithEntry(m: Memory, d: Frame, p: Page, w: Word): Memory {
    Put(m, FrameOf(At(m, d, p.slot)), p.index, w)
  }

  /** The word in page `p`'s place in its table, present or not. */
  function RawEntry(m: Memory, d: Frame, p: Page): Word {
    At(m, FrameOf(At(m, d, p.slot)), p.index)
  }

  /** The first 4 MB are identity mapped. */
  ghost predicate LowIdentity(m: Memory, d: Frame) {
    forall i: Index :: Walk(m, d, Page(0, i)) == Some(i)
  }

  // ----- who a frame belongs to -----

  /** Each frame handed out has one role, so two different roles are never played by one frame. */
  datatype Role = Directory | Table(dir: Frame, slot: Index) | HeapPage(dir: Frame, page: Page)

  type Owners = map<Frame, Role>

  /** Directory entry `i` of `d` is empty, or names a table owned by that very entry. */
  ghost predicate EntryOk(m: Memory, o: Owners, d: Frame, i: Index) {
    var e := At(m, d, i);
    e == 0 || (e == Entry(FrameOf(e)) && FrameOf(e) in o && o[FrameOf(e)] == Table(d, i))
  }

  /** `d` is a self-referencing directory with its own tables. */
  ghost predicate SpaceOk(m: Memory, o: Owners, d: Frame) {
    && d in o && o[d] == Directory
    && (forall i: Index :: i < 1023 ==> EntryOk(m, o, d, i))
    && At(m, d, TABLES_SLOT) == Entry(d)
    && At(m, d, DIR_SLOT) != 0
    && At(m, FrameOf(At(m, d, DIR_SLOT)), 1023) == Entry(d)
  }

  ghost predicate SameSpace(m: Memory, m': Memory, d: Frame) {
    forall p: Page :: Walk(m', d, p) == Walk(m, d, p)
  }

  ghost predicate OnlyFrame(m: Memory, m': Memory, f: Frame) {
    forall g: Frame, i: Index :: g != f ==> At(m', g, i) == At(m, g, i)
  }

  /** Every directory other than `d` is as it was. */
  ghost predicate OthersKept(m: Memory, o: Owners, m': Memory, o': Owners, d: Frame) {
    forall e: Frame :: e != d && SpaceOk(m, o, e) ==> SpaceOk(m', o', e) && SameSpace(m, m', e)
  }

  /** Self-reference: the fixed window pages reach the live directory and every present table. */
  lemma SelfReference(m: Memory, o: Owners, d: Frame)
    requires SpaceOk(m, o, d)
    ensures Walk(m, d, Page(DIR_SLOT, 1023)) == Some(d)
    ensures forall i: Index ::
              Walk(m, d, Page(TABLES_SLOT, i))
              == if Present(At(m, d, i)) then Some(FrameOf(At(m, d, i))) else None
  {
    assert EntryOk(m, o, d, DIR_SLOT);
  }

  /** A write into a frame that is neither `d` nor one of its tables leaves the space `d` alone. */
  lemma ForeignWrite(m: Memory, m': Memory, o: Owners, d: Frame, f: Frame)
    requires SpaceOk(m, o, d) && OnlyFrame(m, m', f)
    requires f != d && (f in o && o[f].Table? ==> o[f].dir != d)
    ensures SpaceOk(m', o, d) && SameSpace(m, m', d)
  {
    assert forall i: Index :: i < 1023 ==> EntryOk(m, o, d, i) && At(m', d, i) == At(m, d, i);
    forall i: Index | i < 1023
      ensures EntryOk(m', o, d, i)
    {
      assert EntryOk(m, o, d, i);
    }
    assert EntryOk(m, o, d, DIR_SLOT);
    forall p: Page
      ensures Walk(m', d, p) == Walk(m, d, p)
    {
      if p.slot < 1023 {
        assert EntryOk(m, o, d, p.slot);
      }
      assert At(m', d, p.slot) == At(m, d, p.slot);
    }
  }

  /** Writing one entry of an ordinary table changes the translation of that page alone. */
  lemma TableWrite(m: Memory, o: Owners, d: Frame, p: Page, w: Word)
    requires SpaceOk(m, o, d)
    requires p.slot < DIR_SLOT && At(m, d, p.slot) != 0
    ensures var m' := WithEntry(m, d, p, w);
            && SpaceOk(m', o, d)
            && Walk(m', d, p) == Translation(w)
            && (forall q: Page :: q != p ==> Walk(m', d, q) == Walk(m, d, q))
            && OthersKept(m, o, m', o, d)
  {
    var i := p.slot;
    assert EntryOk(m, o, d, i);
    var t := FrameOf(At(m, d, i));
    var m' := Put(m, t, p.index, w);
    assert OnlyFrame(m, m', t);
    assert forall k: Index :: At(m', d, k) == At(m, d, k);
    forall k: Index | k < 1023
      ensures EntryOk(m', o, d, k)
    {
      assert EntryOk(m, o, d, k);
    }
    assert EntryOk(m, o, d, DIR_SLOT);
    forall q: Page | q != p
      ensures Walk(m', d, q) == Walk(m, d, q)
    {
      if q.slot < 1023 {
        assert EntryOk(m, o, d, q.slot);
      }
    }
    forall e: Frame | e != d && SpaceOk(m, o, e)
      ensures SpaceOk(m', o, e) && SameSpace(m, m', e)
    {
      ForeignWrite(m, m', o, e, t);
    }
  }

  /** Installing a fresh frame in an empty directory entry makes the entry's 1024 pages translate
      through the frame, opens the window page of that table, and changes nothing else. */
  lemma TableInstall(m: Memory, o: Owners, d: Frame, i: Index, f: Frame)
    requires SpaceOk(m, o, d)
    requires i < DIR_SLOT && At(m, d, i) == 0 && f !in o
    ensures var m' := Put(m, d, i, Entry(f));
            var o' := o[f := Table(d, i)];
            && SpaceOk(m', o', d)
            && (forall q: Page :: q.slot == i ==>
                  Walk(m', d, q) == if Present(At(m, f, q.index)) then Some(FrameOf(At(m, f, q.index))) else None)
            && (forall q: Page :: q.slot == i ==> Walk(m, d, q) == None)
            && Walk(m, d, Page(TABLES_SLOT, i)) == None
            && Walk(m', d, Page(TABLES_SLOT, i)) == Some(f)
            && (forall q: Page :: q.slot != i && q != Page(TABLES_SLOT, i) ==> Walk(m', d, q) == Walk(m, d, q))
            && OthersKept(m, o, m', o', d)
  {
    var m' := Put(m, d, i, Entry(f));
    var o' := o[f := Table(d, i)];
    assert OnlyFrame(m, m', d);
    assert FrameOf(Entry(f)) == f;
    forall k: Index | k < 1023
      ensures EntryOk(m', o', d, k)
    {
      assert EntryOk(m, o, d, k);
    }
    assert EntryOk(m, o, d, DIR_SLOT);
    forall q: Page | q.slot != i && q != Page(TABLES_SLOT, i)
      ensures Walk(m', d, q) == Walk(m, d, q)
    {
      if q.slot < 1023 {
        assert EntryOk(m, o, d, q.slot);
      }
    }
    forall e: Frame | e != d && SpaceOk(m, o, e)
      ensures SpaceOk(m', o', e) && SameSpace(m, m', e)
    {
      ForeignWrite(m, m', o, e, d);
      OwnersGrow(m', o, o', e);
    }
  }

  /** Giving fresh frames a role disturbs no space. */
  lemma OwnersGrow(m: Memory, o: Owners, o': Owners, d: Frame)
    requires SpaceOk(m, o, d)
    requires forall f :: f in o ==> f in o' && o'[f] == o[f]
    ensures SpaceOk(m, o', d)
  {
    forall k: Index | k < 1023
      ensures EntryOk(m, o', d, k)
    {
      assert EntryOk(m, o, d, k);
    }
  }

  /** The same for every space at once, when no space owns the frame written. */
  lemma UnownedWrite(m: Memory, m': Memory, o: Owners, d: Frame, f: Frame)
    requires SpaceOk(m, o, d) && OnlyFrame(m, m', f) && f !in o
    ensures SpaceOk(m', o, d) && SameSpace(m, m', d) && OthersKept(m, o, m', o, d)
  {
    forall e: Frame | SpaceOk(m, o, e)
      ensures SpaceOk(m', o, e) && SameSpace(m, m', e)
    {
      ForeignWrite(m, m', o, e, f);
    }
  }

  lemma OthersKeptTrans(m: Memory, o: Owners, m1: Memory, o1: Owners, m2: Memory, o2: Owners, d: Frame)
    requires OthersKept(m, o, m1, o1, d) && OthersKept(m1, o1, m2, o2, d)
    ensures OthersKept(m, o, m2, o2, d)
  {
    forall e: Frame | e != d && SpaceOk(m, o, e)
      ensures SpaceOk(m2, o2, e) && SameSpace(m, m2, e)
    {
      assert SpaceOk(m1, o1, e);
    }
  }

  // ----- what map and unmap do, seen through the walk -----

  /** Roles are only added, and only for the table of slot `slot` of `d`. */
  ghost predicate OnlyTableAdded(o: Owners, o': Owners, d: Frame, slot: Index) {
    && (forall f :: f in o ==> f in o' && o'[f] == o[f])
    && (forall f :: f in o' && f !in o ==> o'[f] == Table(d, slot))
  }

  /** Frames with no part in the translation of `d`, frame 0 apart, keep their contents. */
  ghost predicate OnlyTablesTouched(m: Memory, m': Memory, o': Owners, d: Frame) {
    forall f: Frame, i: Index ::
      f != 0 && f != d && !(f in o' && o'[f].Table? && o'[f].dir == d) ==> At(m', f, i) == At(m, f, i)
  }

  /** Slot `slot` of `d` has a table now. Had it none, the new table is empty and the window page onto
      it is the only page that translates differently; every other directory is as before. */
  ghost predicate TableReady(m: Memory, o: Owners, m': Memory, o': Owners, d: Frame, slot: Index) {
    && At(m', d, slot) != 0
    && (At(m, d, slot) != 0 ==> m' == m && o' == o)
    && (forall q: Page :: !(q == Page(TABLES_SLOT, slot) && At(m, d, slot) == 0) ==> Walk(m', d, q) == Walk(m, d, q))
    && (forall i: Index :: i != slot ==> At(m', d, i) == At(m, d, i))
    && OnlyTableAdded(o, o', d, slot)
    && OnlyTablesTouched(m, m', o', d)
    && OthersKept(m, o, m', o', d)
  }

  /** Page `p` of `d` now translates to `to`; the only other change is the window page onto a table
      that had to be created; every other directory is as before. */
  ghost predicate Retargeted(m: Memory, o: Owners, m': Memory, o': Owners, d: Frame, p: Page, to: Option<Frame>) {
    && Walk(m', d, p) == to
    && At(m', d, p.slot) != 0
    && (forall q: Page :: q != p && !(q == Page(TABLES_SLOT, p.slot) && At(m, d, p.slot) == 0) ==>
          Walk(m', d, q) == Walk(m, d, q))
    && (forall i: Index :: i != p.slot ==> At(m', d, i) == At(m, d, i))
    && (At(m, d, p.slot) != 0 ==> o' == o && At(m', d, p.slot) == At(m, d, p.slot))
    && OnlyTableAdded(o, o', d, p.slot)
    && OnlyTablesTouched(m, m', o', d)
    && OthersKept(m, o, m', o', d)
  }

  lemma NothingChanged(m: Memory, o: Owners, d: Frame)
    requires SpaceOk(m, o, d)
    ensures OthersKept(m, o, m, o, d)
  {
  }

  lemma RetargetedByEntry(m: Memory, o: Owners, m1: Memory, o1: Owners, d: Frame, p: Page, w: Word)
    requires p.slot < DIR_SLOT && SpaceOk(m1, o1, d) && TableReady(m, o, m1, o1, d, p.slot)
    ensures SpaceOk(WithEntry(m1, d, p, w), o1, d)
    ensures Retargeted(m, o, WithEntry(m1, d, p, w), o1, d, p, Translation(w))
  {
    var t := FrameOf(At(m1, d, p.slot));
    var m2 := Put(m1, t, p.index, w);
    TableWrite(m1, o1, d, p, w);
    assert EntryOk(m1, o1, d, p.slot);
    PutFacts(m1, t, p.index, w);
    OthersKeptTrans(m, o, m1, o1, m2, o1, d);
  }

  /** Installing a fresh frame without present entries readies the slot. */
  lemma TableReadyByInstall(m: Memory, o: Owners, d: Frame, slot: Index, f: Frame)
    requires SpaceOk(m, o, d) && slot < DIR_SLOT && At(m, d, slot) == 0 && f !in o
    requires forall k: Index :: !Present(At(m, f, k))
    ensures SpaceOk(Put(m, d, slot, Entry(f)), o[f := Table(d, slot)], d)
    ensures TableReady(m, o, Put(m, d, slot, Entry(f)), o[f := Table(d, slot)], d, slot)
  {
    TableInstall(m, o, d, slot, f);
    PutFacts(m, d, slot, Entry(f));
  }

  /** Rewriting frame 0 afterwards, or an unowned frame before, makes no difference. */
  lemma TableReadyAndFrameZero(m: Memory, o: Owners, m1: Memory, m2: Memory, o1: Owners, d: Frame, slot: Index)
    requires SpaceOk(m, o, d) && SpaceOk(m1, o1, d) && TableReady(m, o, m1, o1, d, slot) && At(m, d, slot) == 0
    requires OnlyFrame(m1, m2, 0) && 0 !in o1
    ensures SpaceOk(m2, o1, d) && TableReady(m, o, m2, o1, d, slot)
  {
    UnownedWrite(m1, m2, o1, d, 0);
    OthersKeptTrans(m, o, m1, o1, m2, o1, d);
  }

  /** Clearing the frame after it has been installed, whatever it held, readies the slot too. */
  lemma TableReadyByClearing(m: Memory, o: Owners, m2: Memory, d: Frame, slot: Index, f: Frame)
    requires SpaceOk(m, o, d) && slot < DIR_SLOT && At(m, d, slot) == 0 && f !in o
    requires OnlyFrame(Put(m, d, slot, Entry(f)), m2, f)
    requires forall k: Index :: At(m2, f, k) == 0
    ensures SpaceOk(m2, o[f := Table(d, slot)], d)
    ensures TableReady(m, o, m2, o[f := Table(d, slot)], d, slot)
  {
    var cleared := Put(m2, d, slot, 0);
    PutFacts(m2, d, slot, 0);
    PutFacts(m, d, slot, Entry(f));
    assert OnlyFrame(m, cleared, f);
    UnownedWrite(m, cleared, o, d, f);
    assert At(m2, d, slot) == Entry(f);
    assert Put(cleared, d, slot, Entry(f)) == m2;
    TableReadyByInstall(cleared, o, d, slot, f);
    OthersKeptTrans(m, o, cleared, o, m2, o[f := Table(d, slot)], d);
  }

  lemma LowPagesKept(m: Memory, o: Owners, m': Memory, o': Owners, d: Frame, p: Page, to: Option<Frame>)
    requires LowIdentity(m, d) && Retargeted(m, o, m', o', d, p, to)
    requires p.slot == 0 ==> Walk(m, d, p) == to
    ensures LowIdentity(m', d)
  {
  }

  // ----- laws of map and unmap -----

  /** unmap undoes map: whatever `p` was pointed to, afterwards every page of every directory
      translates as before, the window page onto a table created meanwhile apart. */
  lemma UnmapUndoesMap(m: Memory, o: Owners, m1: Memory, o1: Owners, m2: Memory, o2: Owners,
                       d: Frame, p: Page, to: Option<Frame>)
    requires Retargeted(m, o, m1, o1, d, p, to) && Retargeted(m1, o1, m2, o2, d, p, None)
    requires Walk(m, d, p) == None
    ensures forall q: Page :: !(q == Page(TABLES_SLOT, p.slot) && At(m, d, p.slot) == 0) ==>
              Walk(m2, d, q) == Walk(m, d, q)
    ensures OthersKept(m, o, m2, o2, d)
  {
    forall e: Frame | e != d && SpaceOk(m, o, e)
      ensures SpaceOk(m2, o2, e) && SameSpace(m, m2, e)
    {
      assert SpaceOk(m1, o1, e);
    }
  }

  /** The entry written is the entry read back, in the same table. */
  lemma EntryReadsBack(m: Memory, o: Owners, d: Frame, p: Page, w: Word)
    requires SpaceOk(m, o, d) && p.slot < DIR_SLOT && At(m, d, p.slot) != 0
    ensures RawEntry(WithEntry(m, d, p, w), d, p) == w && At(WithEntry(m, d, p, w), d, p.slot) == At(m, d, p.slot)
  {
    assert EntryOk(m, o, d, p.slot);
    PutFacts(m, FrameOf(At(m, d, p.slot)), p.index, w);
  }

  /** With a table in place and an empty entry, the round trip restores memory itself. */
  lemma EntryRoundTrip(m: Memory, o: Owners, d: Frame, p: Page, w: Word)
    requires SpaceOk(m, o, d) && p.slot < DIR_SLOT && At(m, d, p.slot) != 0 && RawEntry(m, d, p) == 0
    ensures WithEntry(WithEntry(m, d, p, w), d, p, 0) == m
  {
    assert EntryOk(m, o, d, p.slot);
    var t := FrameOf(At(m, d, p.slot));
    PutFacts(m, t, p.index, w);
    assert At(WithEntry(m, d, p, w), d, p.slot) == At(m, d, p.slot);
  }
}
