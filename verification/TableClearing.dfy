/** Line 155 of kernelcpp/code/mem/vmm.c, as written: memset gets the first word of the new table for an
    address, and clears the 4096 bytes from there on. */
module TableClearing {
  import opened Basics
  import opened Paging
  import opened Mmu

  /** The page after an address's own, around the end of memory. */
  function PageAfter(va: Word): Page {
    var n := (va / 0x1000 + 1) % 0x10_0000;
    Page(n / 1024, n % 1024)
  }

  function Pow256(r: nat): nat {
    match r
    case 0 => 1
    case 1 => 0x100
    case 2 => 0x1_0000
    case 3 => 0x100_0000
    case _ => 0x1_0000_0000
  }

  /** A word without its bytes from the `r`th on, and without those below it. */
  function CutFrom(w: Word, r: nat): Word {
    w % Pow256(r)
  }

  function CutBelow(w: Word, r: nat): Word {
    w - w % Pow256(r)
  }

  /** A word cleared from its `r`th byte on, below it, or both. */
  function Cut(w: Word, from: bool, below: bool, r: nat): Word {
    var x := if from then CutFrom(w, r) else w;
    if below then CutBelow(x, r) else x
  }

  // how many bytes of word `i` of a page lie below offset `off`
  function BytesBelow(off: nat, i: Index): nat {
    if off <= 4 * i then 0 else if off >= 4 * i + 4 then 4 else off - 4 * i
  }

  /** memset reaches all its bytes. */
  predicate Reaches(m: Memory, d: Frame, va: Word) {
    Walk(m, d, PageOf(va)).Some? && (va % 0x1000 != 0 ==> Walk(m, d, PageAfter(va)).Some?)
  }

  /** Word `i` of frame `g` after memset(va, 0, 0x1000), through the translations its two pages have when it
      starts. */
  function Wiped(m: Memory, d: Frame, va: Word, g: Frame, i: Index): Word {
    Cut(At(m, g, i), Walk(m, d, PageOf(va)) == Some(g), va % 0x1000 != 0 && Walk(m, d, PageAfter(va)) == Some(g),
        BytesBelow(va % 0x1000, i))
  }

  /** What is left of memory where memset has cleared `d`'s bytes from `va` on. */
  ghost predicate IsWiped(m: Memory, d: Frame, va: Word, m2: Memory) {
    forall g: Frame, i: Index :: At(m2, g, i) == Wiped(m, d, va, g, i)
  }

  /** The words cleared in the directory `d` of `m`, with a new table just entered in it (`m1`), and in its
      tables, still translate as they did. */
  ghost predicate Spares(m: Memory, m1: Memory, d: Frame, va: Word) {
    && (forall s: Index :: Translation(Wiped(m1, d, va, d, s)) == Translation(At(m1, d, s)))
    && (forall s: Index, k: Index :: s < TABLES_SLOT && At(m, d, s) != 0 ==>
          var t := FrameOf(At(m, d, s)); Translation(Wiped(m1, d, va, t, k)) == Translation(At(m1, t, k)))
  }

  /** Lines 154-155 have readied the table for page `p`: the directory is in order, its window shows the new
      table `f`, and no other page but `p` has changed. */
  ghost predicate Readied(m: Memory, o: Owners, m2: Memory, d: Frame, p: Page, f: Frame) {
    && SpaceOk(m2, o[f := Table(d, p.slot)], d) && Walk(m2, d, Page(TABLES_SLOT, p.slot)) == Some(f)
    && forall q: Page :: q != p && q != Page(TABLES_SLOT, p.slot) ==> Walk(m2, d, q) == Walk(m, d, q)
  }

  /** As written, that is so exactly when what memset clears - the 4096 bytes from the page's first word on -
      changes no translation in the directory and its tables, and leaves the new table no present entry but
      the one about to be set. */
  lemma CreateTableIff(m: Memory, o: Owners, d: Frame, p: Page, f: Frame, m2: Memory)
    requires SpaceOk(m, o, d) && p.slot < DIR_SLOT && At(m, d, p.slot) == 0 && f !in o
    requires IsWiped(Put(m, d, p.slot, Entry(f)), d, At(m, f, 0), m2)
    ensures var m1, va := Put(m, d, p.slot, Entry(f)), At(m, f, 0);
            Readied(m, o, m2, d, p, f)
            <==> Spares(m, m1, d, va) && forall k: Index :: k != p.index ==> !Present(Wiped(m1, d, va, f, k))
  {
    var m1, va := Put(m, d, p.slot, Entry(f)), At(m, f, 0);
    PutFacts(m, d, p.slot, Entry(f));
    assert forall s: Index :: s < 1023 ==> EntryOk(m, o, d, s);
    hide Wiped;
    if Spares(m, m1, d, va) && (forall k: Index :: k != p.index ==> !Present(Wiped(m1, d, va, f, k))) {
      SparedReadied(m, o, d, p, f, m2);
    }
    if Readied(m, o, m2, d, p, f) {
      ReadiedSpared(m, o, d, p, f, m2);
    }
  }

  /** An entry of the kernel's making that is cut anywhere no longer translates as it did. */
  lemma EntryCut(t: Frame, from: bool, below: bool, r: nat)
    ensures Translation(Cut(Entry(t), from, below, r)) == Some(t) ==> Cut(Entry(t), from, below, r) == Entry(t)
  {
    var x := if from then CutFrom(Entry(t), r) else Entry(t);
    CutEven(x, r);
    EntryCutFrom(t, r);
    hide CutFrom, CutBelow;
  }

  lemma EntryCutFrom(t: Frame, r: nat)
    ensures Translation(CutFrom(Entry(t), r)) == Some(t) ==> CutFrom(Entry(t), r) == Entry(t)
  {
    var w := Entry(t);
    match r
    case 0 =>
    case 1 => assert w % 0x100 == 3;
    case 2 => assert w == 0x1_0000 * (t / 0x10) + (0x1000 * (t % 0x10) + 3);
    case 3 => assert w == 0x100_0000 * (t / 0x1000) + (0x1000 * (t % 0x1000) + 3);
    case _ => assert w % 0x1_0000_0000 == w;
  }

  lemma CutEven(w: Word, r: nat)
    ensures r == 0 ==> CutBelow(w, r) == w && CutFrom(w, r) == 0
    ensures r > 0 ==> CutBelow(w, r) % 2 == 0
  {
    if r >= 4 {
      assert Pow256(r) == 0x1_0000_0000;
    }
  }

  lemma ZeroCut(from: bool, below: bool, r: nat)
    ensures Cut(0, from, below, r) == 0
  {
  }

  lemma EntryWiped(m: Memory, d: Frame, va: Word, g: Frame, i: Index)
    requires At(m, g, i) == 0 || At(m, g, i) == Entry(FrameOf(At(m, g, i)))
    ensures Translation(Wiped(m, d, va, g, i)) == Translation(At(m, g, i)) ==> Wiped(m, d, va, g, i) == At(m, g, i)
  {
    hide Cut, At, Walk, BytesBelow;
    var from, r := Walk(m, d, PageOf(va)) == Some(g), BytesBelow(va % 0x1000, i);
    var below := va % 0x1000 != 0 && Walk(m, d, PageAfter(va)) == Some(g);
    EntryCut(FrameOf(At(m, g, i)), from, below, r);
    ZeroCut(from, below, r);
  }

  // the directory's own words
  ghost predicate DirectoryKept(m1: Memory, m2: Memory, d: Frame) {
    forall s: Index :: At(m2, d, s) == At(m1, d, s)
  }

  lemma SparedDirectory(m: Memory, o: Owners, d: Frame, slot: Index, f: Frame, va: Word, m2: Memory)
    requires SpaceOk(m, o, d) && slot < DIR_SLOT && At(m, d, slot) == 0 && f !in o
    requires IsWiped(Put(m, d, slot, Entry(f)), d, va, m2)
    requires forall s: Index ::
               var e := At(Put(m, d, slot, Entry(f)), d, s);
               Translation(Wiped(Put(m, d, slot, Entry(f)), d, va, d, s)) == Translation(e)
    ensures DirectoryKept(Put(m, d, slot, Entry(f)), m2, d)
  {
    var m1 := Put(m, d, slot, Entry(f));
    PutFacts(m, d, slot, Entry(f));
    forall s: Index
      ensures At(m2, d, s) == At(m1, d, s)
    {
      if s < 1023 && s != slot {
        assert EntryOk(m, o, d, s);
      }
      assert At(m1, d, s) == 0 || At(m1, d, s) == Entry(FrameOf(At(m1, d, s)));
      EntryWiped(m1, d, va, d, s);
    }
  }

  lemma SparedReadied(m: Memory, o: Owners, d: Frame, p: Page, f: Frame, m2: Memory)
    requires SpaceOk(m, o, d) && p.slot < DIR_SLOT && At(m, d, p.slot) == 0 && f !in o
    requires IsWiped(Put(m, d, p.slot, Entry(f)), d, At(m, f, 0), m2)
    requires Spares(m, Put(m, d, p.slot, Entry(f)), d, At(m, f, 0))
    requires forall k: Index :: k != p.index ==> !Present(Wiped(Put(m, d, p.slot, Entry(f)), d, At(m, f, 0), f, k))
    ensures Readied(m, o, m2, d, p, f)
  {
    hide Wiped;
    var m1, va := Put(m, d, p.slot, Entry(f)), At(m, f, 0);
    SparedDirectory(m, o, d, p.slot, f, va, m2);
    PutFacts(m, d, p.slot, Entry(f));
    SparedTables(m, o, d, p.slot, f, va, m2);
    assert forall k: Index :: At(m2, f, k) == Wiped(m1, d, va, f, k);
    hide IsWiped, Spares, Put;
    var o' := o[f := Table(d, p.slot)];
    forall s: Index | s < 1023
      ensures EntryOk(m2, o', d, s)
    {
      assert At(m2, d, s) == At(m1, d, s) && (s < 1023 ==> EntryOk(m, o, d, s));
    }
    assert At(m2, d, DIR_SLOT) == At(m, d, DIR_SLOT) && At(m2, d, TABLES_SLOT) == Entry(d);
    assert EntryOk(m, o, d, DIR_SLOT) && Translation(At(m2, FrameOf(At(m, d, DIR_SLOT)), 1023)) == Some(d);
    forall q: Page | q != p && q != Page(TABLES_SLOT, p.slot)
      ensures Walk(m2, d, q) == Walk(m, d, q)
    {
      assert At(m2, d, q.slot) == At(m1, d, q.slot);
      if q.slot < 1023 {
        assert EntryOk(m, o, d, q.slot);
      } else {
        assert At(m2, d, q.index) == At(m1, d, q.index);
      }
    }
  }

  // the words of the tables that were there
  lemma SparedTables(m: Memory, o: Owners, d: Frame, slot: Index, f: Frame, va: Word, m2: Memory)
    requires SpaceOk(m, o, d) && slot < DIR_SLOT && At(m, d, slot) == 0 && f !in o
    requires IsWiped(Put(m, d, slot, Entry(f)), d, va, m2) && Spares(m, Put(m, d, slot, Entry(f)), d, va)
    ensures forall s: Index, k: Index :: s < TABLES_SLOT && At(m, d, s) != 0 ==>
              Translation(At(m2, FrameOf(At(m, d, s)), k)) == Translation(At(m, FrameOf(At(m, d, s)), k))
    ensures At(m2, FrameOf(At(m, d, DIR_SLOT)), 1023) == Entry(d)
  {
    hide Wiped;
    var m1 := Put(m, d, slot, Entry(f));
    PutFacts(m, d, slot, Entry(f));
    forall s: Index, k: Index | s < TABLES_SLOT && At(m, d, s) != 0
      ensures At(m1, FrameOf(At(m, d, s)), k) == At(m, FrameOf(At(m, d, s)), k)
    {
      assert EntryOk(m, o, d, s);
    }
    EntryWiped(m1, d, va, FrameOf(At(m, d, DIR_SLOT)), 1023);
  }

  lemma ReadiedSpared(m: Memory, o: Owners, d: Frame, p: Page, f: Frame, m2: Memory)
    requires SpaceOk(m, o, d) && p.slot < DIR_SLOT && At(m, d, p.slot) == 0 && f !in o
    requires IsWiped(Put(m, d, p.slot, Entry(f)), d, At(m, f, 0), m2) && Readied(m, o, m2, d, p, f)
    ensures Spares(m, Put(m, d, p.slot, Entry(f)), d, At(m, f, 0))
    ensures forall k: Index :: k != p.index ==> !Present(Wiped(Put(m, d, p.slot, Entry(f)), d, At(m, f, 0), f, k))
  {
    hide Wiped;
    var m1, va := Put(m, d, p.slot, Entry(f)), At(m, f, 0);
    PutFacts(m, d, p.slot, Entry(f));
    hide IsWiped, Put;
    forall s: Index
      ensures Translation(At(m2, d, s)) == Translation(At(m1, d, s))
    {
      assert Walk(m2, d, Page(TABLES_SLOT, s)) == Translation(At(m2, d, s));
      assert s != p.slot ==>
          Walk(m2, d, Page(TABLES_SLOT, s)) == Walk(m, d, Page(TABLES_SLOT, s)) == Translation(At(m, d, s));
    }
    forall s: Index, k: Index | s < TABLES_SLOT && At(m, d, s) != 0
      ensures Translation(At(m2, FrameOf(At(m, d, s)), k)) == Translation(At(m1, FrameOf(At(m, d, s)), k))
    {
      assert EntryOk(m, o, d, s);
      assert Walk(m2, d, Page(s, k)) == Walk(m, d, Page(s, k));
      assert Translation(At(m2, d, s)) == Translation(At(m1, d, s));
    }
    forall k: Index | k != p.index
      ensures !Present(At(m2, f, k))
    {
      assert Walk(m2, d, Page(p.slot, k)) == Walk(m, d, Page(p.slot, k));
      assert Translation(At(m2, d, p.slot)) == Some(f);
    }
    WipedWords(m1, d, va, m2);
  }

  lemma WipedWords(m1: Memory, d: Frame, va: Word, m2: Memory)
    requires IsWiped(m1, d, va, m2)
    ensures forall g: Frame, i: Index :: At(m2, g, i) == Wiped(m1, d, va, g, i)
  {
  }

  /** A first word of 0 sends memset to the page at 0, and the table keeps the rest of what its page held: with
      an entry for frame 7 in word 5, an untouched page comes to translate to frame 7. */
  lemma StaleTableExample(m: Memory, o: Owners, d: Frame, p: Page, f: Frame, m2: Memory)
    requires SpaceOk(m, o, d) && 0 < p.slot < DIR_SLOT && At(m, d, p.slot) == 0 && f !in o && p.index != 5
    requires LowIdentity(m, d) && f != 0 && d != 0 && At(m, f, 0) == 0 && At(m, f, 5) == Entry(7)
    requires IsWiped(Put(m, d, p.slot, Entry(f)), d, At(m, f, 0), m2)
    ensures Reaches(Put(m, d, p.slot, Entry(f)), d, At(m, f, 0))
    ensures Walk(m, d, Page(p.slot, 5)) == None && Walk(m2, d, Page(p.slot, 5)) == Some(7)
    ensures !Readied(m, o, m2, d, p, f)
  {
    var m1 := Put(m, d, p.slot, Entry(f));
    PutFacts(m, d, p.slot, Entry(f));
    assert EntryOk(m, o, d, 0);
    assert Walk(m, d, Page(0, 0)) == Some(0);
    assert Walk(m1, d, PageOf(0)) == Some(0);
    assert At(m2, d, p.slot) == Wiped(m1, d, 0, d, p.slot) && At(m2, f, 5) == Wiped(m1, d, 0, f, 5);
  }

  /** A first word of 0xFFBFF000 is the address of `page_directory`: line 155 clears the live directory, though
      the rest of the page holds zeros. */
  lemma DirectoryCleared(m: Memory, o: Owners, d: Frame, p: Page, f: Frame, m2: Memory)
    requires SpaceOk(m, o, d) && p.slot < DIR_SLOT && At(m, d, p.slot) == 0 && f !in o
    requires At(m, f, 0) == 0xFFBF_F000 && forall k: Index :: k > 0 ==> At(m, f, k) == 0
    requires IsWiped(Put(m, d, p.slot, Entry(f)), d, At(m, f, 0), m2)
    ensures Reaches(Put(m, d, p.slot, Entry(f)), d, At(m, f, 0))
    ensures forall q: Page :: Walk(m2, d, q) == None
    ensures !Readied(m, o, m2, d, p, f)
  {
    var m1, va := Put(m, d, p.slot, Entry(f)), At(m, f, 0);
    PutFacts(m, d, p.slot, Entry(f));
    assert EntryOk(m, o, d, DIR_SLOT) && PageOf(va) == Page(DIR_SLOT, 1023);
    assert Walk(m1, d, PageOf(va)) == Some(d);
    forall s: Index
      ensures At(m2, d, s) == 0
    {
      assert At(m2, d, s) == Wiped(m1, d, va, d, s) && BytesBelow(0, s) == 0;
    }
  }
}
