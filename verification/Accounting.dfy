/** What a heap's growth takes from the pool, counted without looking at memory: one page each, and one for
    every page table missing on the way. */
module Accounting {
  import opened Basics
  import opened Paging
  import opened HeapLists
  import opened HeapGrowth
  import HeapRuns

  /** The slots of a directory that have a table. */
  ghost function TablesOf(m: Memory, d: Frame): set<nat> {
    set s: Index | At(m, d, s) != 0 :: s as nat
  }

  /** The tables `n` pages from page number `a` on need. */
  function SlotsOf(a: nat, n: nat): (r: set<nat>)
    ensures forall s: nat :: s in r <==> n > 0 && a / 1024 <= s <= (a + n - 1) / 1024
  {
    if n == 0 then {} else SlotsOf(a, n - 1) + {(a + n - 1) / 1024}
  }

  function PagesTaken(tables: set<nat>, a: nat, n: nat): nat {
    if n == 0 then 0
    else
      var s := (a + n - 1) / 1024;
      PagesTaken(tables, a, n - 1) + 1 + if s !in tables && (n == 1 || (a + n - 2) / 1024 != s) then 1 else 0
  }

  lemma {:induction false} PagesTakenIs(m: Memory, d: Frame, a: nat, n: nat)
    requires a + n <= 0x10_0000
    ensures FramesTaken(m, d, a, n) == PagesTaken(TablesOf(m, d), a, n)
  {
    hide At;
    if n > 0 {
      PagesTakenIs(m, d, a, n - 1);
    }
  }

  /** Pages and tables, each counted once. */
  lemma {:induction false} PagesTakenCount(tables: set<nat>, a: nat, n: nat)
    ensures PagesTaken(tables, a, n) == n + |SlotsOf(a, n) - tables|
  {
    if n > 0 {
      PagesTakenCount(tables, a, n - 1);
      var s, before := (a + n - 1) / 1024, SlotsOf(a, n - 1) - tables;
      assert s in SlotsOf(a, n - 1) <==> n > 1 && (a + n - 2) / 1024 == s;
      if s in tables || s in SlotsOf(a, n - 1) {
        assert SlotsOf(a, n) - tables == before;
      } else {
        assert SlotsOf(a, n) - tables == before + {s};
      }
    }
  }

  /** What growing from `was` to `cur` takes from the pool. */
  function GrowthCost(tables: set<nat>, was: nat, cur: nat): nat {
    PagesTaken(tables, PageNumber(was) + 1, Growth(was, cur))
  }

  function GrowthTables(tables: set<nat>, was: nat, cur: nat): set<nat> {
    tables + SlotsOf(PageNumber(was) + 1, Growth(was, cur))
  }

  lemma TablesGrown(m: Memory, o: Owners, m': Memory, o': Owners, d: Frame, a: nat, n: nat)
    requires 0 < a && a + n <= 0x10_0000 && GrownBy(m, o, m', o', d, a, n)
    ensures TablesOf(m', d) == TablesOf(m, d) + SlotsOf(a, n)
  {
    hide At, Walk, OthersKept, SlotsOf;
    forall s: nat
      ensures s in TablesOf(m', d) <==> s in TablesOf(m, d) + SlotsOf(a, n)
    {
      if s < 1024 && !(n > 0 && a / 1024 <= s <= (a + n - 1) / 1024) {
        assert At(m', d, s) == At(m, d, s);
      }
    }
  }

  /** Which slots have tables can be read off the windows, so a space that translates as before has them where
      it had them. */
  lemma SameTables(m: Memory, o: Owners, m': Memory, o': Owners, d: Frame)
    requires SpaceOk(m, o, d) && SpaceOk(m', o', d)
    requires forall s: Index :: Walk(m', d, Page(TABLES_SLOT, s)) == Walk(m, d, Page(TABLES_SLOT, s))
    ensures TablesOf(m', d) == TablesOf(m, d)
  {
    forall s: Index
      ensures At(m', d, s) != 0 <==> At(m, d, s) != 0
    {
      TableSeen(m, o, d, s);
      TableSeen(m', o', d, s);
      assert Walk(m', d, Page(TABLES_SLOT, s)) == Walk(m, d, Page(TABLES_SLOT, s));
    }
  }

  lemma TableSeen(m: Memory, o: Owners, d: Frame, s: Index)
    requires SpaceOk(m, o, d)
    ensures At(m, d, s) != 0 <==> Walk(m, d, Page(TABLES_SLOT, s)).Some?
  {
    SelfReference(m, o, d);
    if s < 1023 {
      assert EntryOk(m, o, d, s);
    }
  }

  // ----- the heap's own pages -----

  /** The pages of the heap's range that are mapped, by number. */
  ghost function PagesOf(m: Memory, d: Frame): set<nat> {
    set n: nat | HEAP_FIRST_PAGE <= n < HEAP_END_PAGE && Walk(m, d, PageAt(n)).Some?
  }

  function NumbersFrom(a: nat, n: nat): (r: set<nat>)
    ensures forall x: nat :: x in r <==> a <= x < a + n
  {
    if n == 0 then {} else NumbersFrom(a, n - 1) + {a + n - 1}
  }

  function GrowthPages(pages: set<nat>, was: nat, cur: nat): set<nat> {
    pages + NumbersFrom(PageNumber(was) + 1, Growth(was, cur))
  }

  lemma PagesGrown(m: Memory, o: Owners, m': Memory, o': Owners, d: Frame, a: nat, n: nat)
    requires HEAP_FIRST_PAGE <= a && a + n <= HEAP_END_PAGE && GrownBy(m, o, m', o', d, a, n)
    ensures PagesOf(m', d) == PagesOf(m, d) + NumbersFrom(a, n)
  {
    hide At, Walk, OthersKept, NumbersFrom;
    forall x: nat
      ensures x in PagesOf(m', d) <==> x in PagesOf(m, d) + NumbersFrom(a, n)
    {
      if HEAP_FIRST_PAGE <= x < HEAP_END_PAGE {
        var p := PageAt(x);
        PageAtNumber(p, x);
        assert p.slot < TABLES_SLOT;
        assert !(a <= x < a + n) ==> Walk(m', d, p) == Walk(m, d, p);
      }
    }
  }

  lemma SamePages(m: Memory, m': Memory, d: Frame)
    requires forall p: Page :: p.slot < TABLES_SLOT ==> Walk(m', d, p) == Walk(m, d, p)
    ensures PagesOf(m', d) == PagesOf(m, d)
  {
    hide Walk;
    forall x: nat
      ensures x in PagesOf(m', d) <==> x in PagesOf(m, d)
    {
      if HEAP_FIRST_PAGE <= x < HEAP_END_PAGE {
        assert PageAt(x).slot < TABLES_SLOT;
      }
    }
  }

  /** What an address space has: its page tables, and the heap pages that are mapped. */
  datatype Layout = Layout(tables: set<nat>, pages: set<nat>)

  ghost function LayoutOf(m: Memory, d: Frame): Layout {
    Layout(TablesOf(m, d), PagesOf(m, d))
  }

  function Grow(l: Layout, was: nat, cur: nat): Layout {
    Layout(GrowthTables(l.tables, was, cur), GrowthPages(l.pages, was, cur))
  }

  function WithTable(l: Layout, slot: nat): Layout {
    l.(tables := l.tables + {slot})
  }

  lemma SameLayout(m: Memory, o: Owners, m': Memory, o': Owners, d: Frame)
    requires SpaceOk(m, o, d) && SpaceOk(m', o', d) && SameSpace(m, m', d)
    ensures LayoutOf(m', d) == LayoutOf(m, d)
  {
    SameTables(m, o, m', o', d);
    SamePages(m, m', d);
  }

  // ----- a whole run of one heap -----

  /** Every new chunk of the run has its header written to pages that are mapped by then. */
  predicate HeadersMapped(rule: Rule, ops: seq<HeapRuns.Op>) {
    ops == [] ||
    (HeadersMapped(rule, ops[..|ops| - 1])
     && (EndOfRun(rule, ops) > EndOfRun(rule, ops[..|ops| - 1])
         ==> PageNumber(EndOfRun(rule, ops[..|ops| - 1]) + HEADER - 1) <= LastMapped(rule, ops[..|ops| - 1])))
  }

  lemma {:induction false} HeadersBefore(rule: Rule, ops: seq<HeapRuns.Op>, i: nat)
    requires i <= |ops| && HeadersMapped(rule, ops)
    ensures HeadersMapped(rule, ops[..i])
  {
    if i == |ops| {
      assert ops[..i] == ops;
    } else {
      HeadersBefore(rule, ops[..|ops| - 1], i);
      assert ops[..|ops| - 1][..i] == ops[..i];
    }
  }

  /** Runs of requests below 512 bytes always do. */
  lemma {:induction false} SmallHeadersMapped(ops: seq<HeapRuns.Op>)
    requires forall op :: op in ops ==> HeapRuns.InScope(AsWritten, op)
    ensures HeadersMapped(AsWritten, ops)
  {
    if ops != [] {
      SmallHeadersMapped(ops[..|ops| - 1]);
      SmallRunsKeepHeaderOnPage(ops[..|ops| - 1]);
    }
  }

  /** The two requests of HeapGrowth.LargeRequestUnmapped and after do not. */
  lemma LargeHeaderFaults()
    ensures !HeadersMapped(Repaired, [HeapRuns.Malloc(0x1FF4), HeapRuns.Malloc(8)])
  {
    var ops := [HeapRuns.Malloc(0x1FF4), HeapRuns.Malloc(8)];
    assert ops[..1] == [HeapRuns.Malloc(0x1FF4)] && |ops| == 2;
    LargeRequestUnmapped();
    var w := HeapRuns.Run(Repaired, HeapRuns.START, ops[..1]);
    LargeRunLists(w);
    hide LastMapped, HeapRuns.Run, PageNumber;
    assert EndOfRun(Repaired, ops) > EndOfRun(Repaired, ops[..1]) by {
      HeapRuns.RunFirst(Repaired, HeapRuns.START, ops, 1);
      assert ops[..2] == ops;
    }
  }

  lemma LargeRunLists(w: HeapRuns.World)
    requires w == HeapRuns.Run(Repaired, HeapRuns.START, [HeapRuns.Malloc(0x1FF4)])
    ensures w.h.lists[0] == [] && HeapRuns.Step(Repaired, w, HeapRuns.Malloc(8)).h.cur == w.h.cur + 24
  {
    var ops := [HeapRuns.Malloc(0x1FF4)];
    assert ops[..0] == [] && HeapRuns.Run(Repaired, HeapRuns.START, ops)
             == HeapRuns.Step(Repaired, HeapRuns.START, ops[0]);
    assert Find(Repaired, [], 0x1FF4) == ([], 0);
    assert FirstFree([]) == 0;
  }

  /** The slots with tables after a run that began with `tables`. */
  function RunTables(rule: Rule, ops: seq<HeapRuns.Op>, tables: set<nat>): set<nat> {
    if ops == [] then tables
    else GrowthTables(RunTables(rule, ops[..|ops| - 1], tables), EndOfRun(rule, ops[..|ops| - 1]), EndOfRun(rule, ops))
  }

  /** The pages it takes from the pool. */
  function RunCost(rule: Rule, ops: seq<HeapRuns.Op>, tables: set<nat>): nat {
    if ops == [] then 0
    else
      RunCost(rule, ops[..|ops| - 1], tables)
      + GrowthCost(RunTables(rule, ops[..|ops| - 1], tables), EndOfRun(rule, ops[..|ops| - 1]), EndOfRun(rule, ops))
  }

  lemma {:induction false} CostGrows(rule: Rule, ops: seq<HeapRuns.Op>, i: nat, tables: set<nat>)
    requires i <= |ops|
    ensures RunCost(rule, ops[..i], tables) <= RunCost(rule, ops, tables)
  {
    if i == |ops| {
      assert ops[..i] == ops;
    } else {
      CostGrows(rule, ops[..|ops| - 1], i, tables);
      assert ops[..|ops| - 1][..i] == ops[..i];
    }
  }
}
