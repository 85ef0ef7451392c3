/** How kmalloc grows a heap (kernelcpp/code/mem/heap.c lines 149-169): which pages it maps, through
    map, for a chunk placed at current_mem_addr. */
module HeapGrowth {
  import opened Basics
  import opened Paging
  import opened Pmm
  import opened Mmu
  import opened HeapLists
  import HeapRuns

  // C's integer division, which truncates toward zero
  function TruncDiv(a: int, b: int): int
    requires b > 0
  {
    if a >= 0 then a / b else -((-a) / b)
  }

  function PageNumber(va: nat): nat {
    va / 0x1000
  }

  /** Lines 159-161: the number of pages mapped from the page after the current one on. */
  function PagesMapped(cur: nat, chunk: nat): (pages: nat)
    requires chunk > 0
  {
    var next := cur - cur % 0x1000 + 0x1000;
    var left := next - cur;
    TruncDiv(chunk - left, 0x1000) + 1
  }

  /** The truncating formula: as many pages as the new end needs beyond the current page, but never
      less than one, so a chunk that fits the current page still maps the next one, anew each time. */
  lemma PagesMappedExactly(cur: nat, chunk: nat)
    requires chunk > 0
    ensures var need := PageNumber(cur + chunk) - PageNumber(cur);
            PagesMapped(cur, chunk) == if need >= 1 then need else 1
  {
    var next := cur - cur % 0x1000 + 0x1000;
    var t := chunk - (next - cur);
    if t >= 0 {
      assert cur + chunk == next + t;
      assert (next + t) / 0x1000 == next / 0x1000 + t / 0x1000 by {
        assert next % 0x1000 == 0;
      }
    } else {
      assert -0x1000 < t;
      assert TruncDiv(t, 0x1000) == 0;
      assert PageNumber(cur + chunk) == PageNumber(cur);
    }
  }

  /** How many pages a heap maps growing from `was` to `cur`. */
  function Growth(was: nat, cur: nat): nat {
    if cur > was then PagesMapped(was, cur - was) else 0
  }

  // ----- the header kmalloc writes before it maps pages -----

  /** The ends of the heap at which a run grew it. */
  function Starts(rule: Rule, ops: seq<HeapRuns.Op>): set<nat> {
    if ops == [] then {}
    else
      var was, cur := EndOfRun(rule, ops[..|ops| - 1]), EndOfRun(rule, ops);
      Starts(rule, ops[..|ops| - 1]) + if cur > was then {was} else {}
  }

  function EndOfRun(rule: Rule, ops: seq<HeapRuns.Op>): nat {
    HeapRuns.Run(rule, HeapRuns.START, ops).h.cur
  }

  /** The last page a run has mapped. */
  function LastMapped(rule: Rule, ops: seq<HeapRuns.Op>): nat {
    if ops == [] then HEAP_FIRST_PAGE
    else
      var was, cur := EndOfRun(rule, ops[..|ops| - 1]), EndOfRun(rule, ops);
      Later(LastMapped(rule, ops[..|ops| - 1]), was, cur)
  }

  // the last page mapped after a growth from `was` to `cur`
  function Later(last: nat, was: nat, cur: nat): nat {
    if last < PageNumber(was) + Growth(was, cur) then PageNumber(was) + Growth(was, cur) else last
  }

  /** Some growth has started on the page `cur` is on. */
  ghost predicate StartedHere(rule: Rule, ops: seq<HeapRuns.Op>) {
    exists s :: s in Starts(rule, ops) && PageNumber(s) == PageNumber(EndOfRun(rule, ops))
  }

  lemma EndNeverFalls(rule: Rule, ops: seq<HeapRuns.Op>)
    requires ops != []
    ensures EndOfRun(rule, ops[..|ops| - 1]) <= EndOfRun(rule, ops)
  {
    var w, op := HeapRuns.Run(rule, HeapRuns.START, ops[..|ops| - 1]), ops[|ops| - 1];
    hide Find, Take, Split, FirstFree, HeapRuns.Run;
    assert HeapRuns.Step(rule, w, op).h.cur >= w.h.cur;
  }

  /** As every growth maps at least one page, one page more than the end needs is mapped exactly when a growth
      has started on the end's page. */
  lemma {:induction false} LastMappedIs(rule: Rule, ops: seq<HeapRuns.Op>)
    ensures LastMapped(rule, ops) == PageNumber(EndOfRun(rule, ops)) + if StartedHere(rule, ops) then 1 else 0
    ensures forall s :: s in Starts(rule, ops) ==> s < EndOfRun(rule, ops)
  {
    if ops != [] {
      var before := ops[..|ops| - 1];
      LastMappedIs(rule, before);
      EndNeverFalls(rule, ops);
      var was, cur := EndOfRun(rule, before), EndOfRun(rule, ops);
      hide EndOfRun, TruncDiv;
      if cur > was {
        PagesMappedExactly(was, cur - was);
        if PageNumber(cur) == PageNumber(was) {
          assert was in Starts(rule, ops);
        }
      } else {
        assert Starts(rule, ops) == Starts(rule, before);
      }
    }
  }

  /** The header written at the heap's end, before the pages for its chunk are mapped, lies on mapped pages
      exactly when the end's page has room for it, or a growth has started on that page already. */
  lemma HeaderMappedIff(rule: Rule, ops: seq<HeapRuns.Op>)
    ensures var cur := EndOfRun(rule, ops);
            PageNumber(cur + HEADER - 1) <= LastMapped(rule, ops)
            <==> cur % 0x1000 <= 0x1000 - HEADER || StartedHere(rule, ops)
  {
    LastMappedIs(rule, ops);
    HeaderOnPageIff(EndOfRun(rule, ops));
    hide EndOfRun;
  }

  lemma HeaderOnPageIff(cur: nat)
    ensures PageNumber(cur + HEADER - 1) == PageNumber(cur) <==> cur % 0x1000 <= 0x1000 - HEADER
    ensures PageNumber(cur) <= PageNumber(cur + HEADER - 1) <= PageNumber(cur) + 1
  {
  }

  /** With small requests only it always is... */
  lemma SmallRunsKeepHeaderOnPage(ops: seq<HeapRuns.Op>)
    requires forall op :: op in ops ==> HeapRuns.InScope(AsWritten, op)
    ensures var cur := EndOfRun(AsWritten, ops);
            PageNumber(cur + HEADER - 1) == PageNumber(cur) <= LastMapped(AsWritten, ops)
  {
    hide HeapRuns.Run, HeapRuns.InScope, LastMapped, StartedHere;
    HeapRuns.SmallRunsAligned(ops);
    LastMappedIs(AsWritten, ops);
    AlignedHeader(EndOfRun(AsWritten, ops));
  }

  lemma AlignedHeader(cur: nat)
    requires cur % 8 == 0
    ensures PageNumber(cur + HEADER - 1) == PageNumber(cur)
  {
  }

  /** ... but after one request of 0x1FF4 bytes the next header runs onto a page that is not mapped. */
  lemma LargeRequestUnmapped()
    ensures var ops := [HeapRuns.Malloc(0x1FF4)];
            && EndOfRun(Repaired, ops) == HEAP_START + 0x1FFC && LastMapped(Repaired, ops) == HEAP_FIRST_PAGE + 1
            && PageNumber(EndOfRun(Repaired, ops) + HEADER - 1) == HEAP_FIRST_PAGE + 2
  {
    var ops := [HeapRuns.Malloc(0x1FF4)];
    assert ops[..0] == [];
    assert HeapRuns.Run(Repaired, HeapRuns.START, ops) == HeapRuns.Step(Repaired, HeapRuns.START, ops[0]);
    assert Find(Repaired, [], 0x1FF4) == ([], 0);
    PagesMappedExactly(HEAP_START, 0x1FFC);
  }

  predicate InHeap(p: Page) {
    HEAP_FIRST_PAGE <= p.Number() < HEAP_END_PAGE
  }

  function PageAt(n: nat): Page
    requires n < 0x10_0000
  {
    Page(n / 1024, n % 1024)
  }

  /** Every frame mapped at a heap page of `d` was taken for that page of `d`. */
  ghost predicate HeapOwned(m: Memory, o: Owners, d: Frame) {
    forall p: Page :: InHeap(p) && Walk(m, d, p).Some? ==> Walk(m, d, p).value in o
                                                           && o[Walk(m, d, p).value] == HeapPage(d, p)
  }

  /** Pages HEAP_START up to page number `last` are mapped in `d`. */
  ghost predicate HeapMapped(m: Memory, d: Frame, last: nat) {
    forall p: Page :: HEAP_FIRST_PAGE <= p.Number() <= last ==> Walk(m, d, p).Some?
  }

  /** ... and no page of the heap's range after it. */
  ghost predicate HeapMappedTo(m: Memory, d: Frame, last: nat) {
    forall p: Page :: InHeap(p) ==> (Walk(m, d, p).Some? <==> p.Number() <= last)
  }

  lemma MappedLater(m: Memory, o: Owners, m': Memory, o': Owners, d: Frame, last: nat, was: nat, cur: nat)
    requires HeapMappedTo(m, d, last) && PageNumber(was) <= last && HEAP_FIRST_PAGE <= PageNumber(was)
    requires PageNumber(was) + 1 + Growth(was, cur) <= 0x10_0000
    requires GrownBy(m, o, m', o', d, PageNumber(was) + 1, Growth(was, cur))
    ensures HeapMappedTo(m', d, Later(last, was, cur))
  {
    hide Walk, PagesMapped, At, OthersKept;
    forall p: Page | InHeap(p)
      ensures Walk(m', d, p).Some? <==> p.Number() <= Later(last, was, cur)
    {
      assert p.slot < TABLES_SLOT;
    }
  }

  /** Frames already used for pages of one heap and frames still free never exceed the pool. */
  ghost predicate Budget(free: nat, last: nat) {
    HEAP_FIRST_PAGE <= last && last - HEAP_FIRST_PAGE + free < UNITS
  }

  ghost predicate OnlyHeapPages(stale: iset<Page>) {
    forall p :: p in stale ==> InHeap(p)
  }

  // pmm_alloc_page, then map(page, PAGE_PRESENT | PAGE_WRITE), for heap page number `n`
  method MapHeapPage(k: Machine, n: nat) returns (ok: bool)
    requires k.Valid() && HEAP_FIRST_PAGE <= n <= HEAP_FIRST_PAGE + UNITS
    requires HeapOwned(k.mem[..], k.owner, k.cr3) && OnlyHeapPages(k.stale)
    modifies k`tlb, k`stale, k`owner, k.mem, k.alloc`location, k.alloc`firstFree, k.alloc`given, k.alloc.bitmap
    ensures ok ==> k.Valid() && HeapOwned(k.mem[..], k.owner, k.cr3) && OnlyHeapPages(k.stale)
    ensures ok <==> |old(k.alloc.Free())| >= 1 + (if old(At(k.mem[..], k.cr3, n / 1024)) == 0 then 1 else 0)
    ensures ok ==> |k.alloc.Free()|
                   == |old(k.alloc.Free())| - 1 - (if old(At(k.mem[..], k.cr3, n / 1024)) == 0 then 1 else 0)
    ensures ok ==> At(k.mem[..], k.cr3, n / 1024) != 0
    ensures ok ==> forall s: Index :: s != n / 1024 ==> At(k.mem[..], k.cr3, s) == At(old(k.mem[..]), k.cr3, s)
    ensures ok ==> Walk(k.mem[..], k.cr3, PageAt(n)).Some? && Walk(k.mem[..], k.cr3, PageAt(n)).value !in old(k.owner)
    ensures ok ==> forall p: Page :: p.slot != TABLES_SLOT && p != PageAt(n) ==>
              Walk(k.mem[..], k.cr3, p) == Walk(old(k.mem[..]), k.cr3, p)
    ensures ok ==> OthersKept(old(k.mem[..]), old(k.owner), k.mem[..], k.owner, k.cr3)
    ensures ok ==> forall f :: f in old(k.owner) ==> f in k.owner && k.owner[f] == old(k.owner[f])
    ensures ok ==> k.stale == if old(Walk(k.mem[..], k.cr3, PageAt(n))).Some? then old(k.stale) + iset{PageAt(n)}
                              else old(k.stale)
  {
    hide At, SpaceOk, OthersKept, HeapOwned, Retargeted, Walk, Machine.Valid;
    var page;
    ghost var p := PageAt(n);
    ghost var m, o := k.mem[..], k.owner;
    var va: Word := n * 0x1000;
    assert PageOf(va) == p && InHeap(p);
    ok, page := TakeHeapPage(k, p);
    if ok {
      ghost var o1 := k.owner;
      ok := k.MapKept(va, page, 3);
      if ok {
        HeapRetargeted(m, o, o1, k.mem[..], k.owner, k.cr3, p, FrameOf(page));
      }
    }
  }

  // a frame for heap page `p`, not mapped there yet
  method TakeHeapPage(k: Machine, ghost p: Page) returns (ok: bool, page: Word)
    requires k.Valid() && HeapOwned(k.mem[..], k.owner, k.cr3) && InHeap(p)
    modifies k`owner, k.alloc`location, k.alloc`firstFree, k.alloc`given, k.alloc.bitmap
    ensures k.mem.Length == WORDS && k.alloc.Valid()
    ensures ok <==> old(k.alloc.Free()) != {}
    ensures ok ==> k.Valid() && FrameOf(page) !in old(k.owner)
                   && k.owner == old(k.owner)[FrameOf(page) := HeapPage(k.cr3, p)]
    ensures ok ==> |k.alloc.Free()| == |old(k.alloc.Free())| - 1 && page % 0x1000 == 0
    ensures ok ==> Walk(k.mem[..], k.cr3, p) != Some(FrameOf(page))
                   && OthersKept(k.mem[..], old(k.owner), k.mem[..], k.owner, k.cr3)
  {
    hide Walk, OthersKept, Agrees, LowIdentity;
    ghost var m, o := k.mem[..], k.owner;
    ok, page := k.TakePage(HeapPage(k.cr3, p));
    if ok {
      TakenForHeap(m, o, k.cr3, FrameOf(page), p);
    }
  }

  lemma TakenForHeap(m: Memory, o: Owners, d: Frame, f: Frame, p: Page)
    requires SpaceOk(m, o, d) && f !in o
    ensures SpaceOk(m, o[f := HeapPage(d, p)], d)
    ensures OthersKept(m, o, m, o[f := HeapPage(d, p)], d)
  {
    OwnersGrow(m, o, o[f := HeapPage(d, p)], d);
    forall e: Frame | e != d && SpaceOk(m, o, e)
      ensures SpaceOk(m, o[f := HeapPage(d, p)], e)
    {
      OwnersGrow(m, o, o[f := HeapPage(d, p)], e);
    }
  }

  lemma HeapRetargeted(m: Memory, o: Owners, o1: Owners, m': Memory, o': Owners, d: Frame, p: Page, f: Frame)
    requires HeapOwned(m, o, d) && f !in o && o1 == o[f := HeapPage(d, p)] && InHeap(p)
    requires Retargeted(m, o1, m', o', d, p, Some(f)) && OthersKept(m, o, m, o1, d)
    ensures HeapOwned(m', o', d) && Walk(m', d, p) == Some(f)
    ensures OthersKept(m, o, m', o', d)
    ensures forall g :: g in o ==> g in o' && o'[g] == o[g]
    ensures At(m', d, p.slot) != 0 && forall s: Index :: s != p.slot ==> At(m', d, s) == At(m, d, s)
    ensures forall q: Page :: q.slot != TABLES_SLOT && q != p ==> Walk(m', d, q) == Walk(m, d, q)
  {
    OthersKeptTrans(m, o, m, o1, m', o', d);
    forall q: Page | InHeap(q) && Walk(m', d, q).Some?
      ensures Walk(m', d, q).value in o' && o'[Walk(m', d, q).value] == HeapPage(d, q)
    {
      assert q.slot < TABLES_SLOT;
    }
  }

  /** The frames taken for `n` heap pages from page number `a` on: one each, and one for every page
      table of `d` missing on the way. */
  ghost function FramesTaken(m: Memory, d: Frame, a: nat, n: nat): nat
    requires a + n <= 0x10_0000
  {
    if n == 0 then 0
    else
      var s := (a + n - 1) / 1024;
      FramesTaken(m, d, a, n - 1) + 1
      + if At(m, d, s) == 0 && (n == 1 || (a + n - 2) / 1024 != s) then 1 else 0
  }

  lemma {:induction false} FramesTakenAtLeast(m: Memory, d: Frame, a: nat, n: nat)
    requires a + n <= 0x10_0000
    ensures FramesTaken(m, d, a, n) >= n
  {
    if n > 0 {
      FramesTakenAtLeast(m, d, a, n - 1);
    }
  }

  lemma {:induction false} FramesTakenMonotone(m: Memory, d: Frame, a: nat, i: nat, n: nat)
    requires i <= n && a + n <= 0x10_0000
    ensures FramesTaken(m, d, a, i) <= FramesTaken(m, d, a, n)
  {
    if i < n {
      FramesTakenMonotone(m, d, a, i, n - 1);
    }
  }

  /** What `i` steps of the mapping loop have done since memory `m` and roles `o`. */
  ghost predicate GrownBy(m: Memory, o: Owners, m': Memory, o': Owners, d: Frame, a: nat, i: nat)
    requires 0 < a && a + i <= 0x10_0000
  {
    && (forall p: Page :: p.slot != TABLES_SLOT && !(a <= p.Number() < a + i) ==> Walk(m', d, p) == Walk(m, d, p))
    && (forall p: Page :: a <= p.Number() < a + i ==> Walk(m', d, p).Some?)
    && (forall s: Index :: !(i > 0 && a / 1024 <= s <= (a + i - 1) / 1024) ==> At(m', d, s) == At(m, d, s))
    && (forall s: Index :: i > 0 && a / 1024 <= s <= (a + i - 1) / 1024 ==> At(m', d, s) != 0)
    && OthersKept(m, o, m', o', d)
    && (forall f :: f in o ==> f in o' && o'[f] == o[f])
  }

  lemma GrownByStep(m: Memory, o: Owners, m1: Memory, o1: Owners, m2: Memory, o2: Owners, d: Frame, a: nat, i: nat)
    requires 0 < a && a + i + 1 <= 0x10_0000 && (a + i) / 1024 < TABLES_SLOT
    requires GrownBy(m, o, m1, o1, d, a, i)
    requires Walk(m2, d, PageAt(a + i)).Some? && At(m2, d, (a + i) / 1024) != 0
    requires forall p: Page :: p.slot != TABLES_SLOT && p != PageAt(a + i) ==> Walk(m2, d, p) == Walk(m1, d, p)
    requires forall s: Index :: s != (a + i) / 1024 ==> At(m2, d, s) == At(m1, d, s)
    requires OthersKept(m1, o1, m2, o2, d)
    requires forall f :: f in o1 ==> f in o2 && o2[f] == o1[f]
    ensures GrownBy(m, o, m2, o2, d, a, i + 1)
  {
    OthersKeptTrans(m, o, m1, o1, m2, o2, d);
    hide Walk, At, SpaceOk, OthersKept;
    forall p: Page | p.slot != TABLES_SLOT
      ensures !(a <= p.Number() < a + i + 1) ==> Walk(m2, d, p) == Walk(m, d, p)
      ensures a <= p.Number() < a + i + 1 ==> Walk(m2, d, p).Some?
    {
      PageAtNumber(p, a + i);
    }
    assert forall p: Page :: a <= p.Number() < a + i + 1 ==> p.slot != TABLES_SLOT;
    forall s: Index
      ensures !(a / 1024 <= s <= (a + i) / 1024) ==> At(m2, d, s) == At(m, d, s)
      ensures a / 1024 <= s <= (a + i) / 1024 ==> At(m2, d, s) != 0
    {
      if s != (a + i) / 1024 {
        assert At(m2, d, s) == At(m1, d, s);
        assert a / 1024 <= s <= (a + i) / 1024 ==> i > 0 && s <= (a + i - 1) / 1024;
      }
    }
  }

  lemma PageAtNumber(p: Page, n: nat)
    requires n < 0x10_0000
    ensures p == PageAt(n) <==> p.Number() == n
  {
  }

  lemma GrownByNothing(m: Memory, o: Owners, d: Frame, a: nat)
    requires SpaceOk(m, o, d) && 0 < a <= 0x10_0000
    ensures GrownBy(m, o, m, o, d, a, 0) && FramesTaken(m, d, a, 0) == 0
  {
  }

  /** What the next step of the loop takes, read off the directory as it is by then. */
  lemma NextTaken(m: Memory, o: Owners, m1: Memory, o1: Owners, d: Frame, a: nat, i: nat)
    requires 0 < a && a + i + 1 <= 0x10_0000 && GrownBy(m, o, m1, o1, d, a, i)
    ensures FramesTaken(m, d, a, i + 1) == FramesTaken(m, d, a, i) + 1 + if At(m1, d, (a + i) / 1024) == 0 then 1 else 0
  {
    hide Walk, At, OthersKept, SpaceOk;
    var s := (a + i) / 1024;
    if i > 0 && (a + i - 1) / 1024 == s {
      assert At(m1, d, s) != 0;
    } else {
      assert At(m1, d, s) == At(m, d, s);
    }
  }

  /** What a growth starts from. */
  datatype Snapshot = Snapshot(m: Memory, o: Owners, free: nat, stale: iset<Page>)

  ghost function Snap(k: Machine): Snapshot
    reads k, k.mem, k.alloc, k.alloc.bitmap
    requires k.Valid()
  {
    Snapshot(k.mem[..], k.owner, |k.alloc.Free()|, k.stale)
  }

  /** Of the `i` pages from number `a` on, those mapped before are mapped anew without invlpg. */
  ghost function Remapped(s: Snapshot, d: Frame, a: nat, i: nat): iset<Page> {
    s.stale + iset p: Page | a <= p.Number() < a + i && Walk(s.m, d, p).Some?
  }

  lemma RemappedMore(s: Snapshot, d: Frame, a: nat, i: nat)
    requires a + i < 0x10_0000
    ensures Remapped(s, d, a, i + 1)
         == if Walk(s.m, d, PageAt(a + i)).Some? then Remapped(s, d, a, i) + iset{PageAt(a + i)}
           else Remapped(s, d, a, i)
  {
    forall p: Page
      ensures a <= p.Number() < a + i + 1 <==> a <= p.Number() < a + i || p == PageAt(a + i)
    {
      PageAtNumber(p, a + i);
    }
  }

  /** Since `s`, `i` pages from number `a` on have been mapped, and nothing else: the exact pages, tables,
      frames and stale translations. */
  ghost predicate Grown(k: Machine, s: Snapshot, a: nat, i: nat)
    reads k, k.mem, k.alloc, k.alloc.bitmap
  {
    && 0 < a && a + i <= 0x10_0000 && k.Valid()
    && GrownBy(s.m, s.o, k.mem[..], k.owner, k.cr3, a, i)
    && |k.alloc.Free()| + FramesTaken(s.m, k.cr3, a, i) == s.free
    && k.stale == Remapped(s, k.cr3, a, i)
  }

  /** The state of the loop of lines 163-167 after `i` rounds. */
  ghost predicate Growing(k: Machine, s: Snapshot, a: nat, i: nat)
    reads k, k.mem, k.alloc, k.alloc.bitmap
  {
    Grown(k, s, a, i) && HeapOwned(k.mem[..], k.owner, k.cr3) && OnlyHeapPages(k.stale)
  }

  // one round
  method MapNext(k: Machine, ghost s: Snapshot, a: nat, i: nat) returns (ok: bool)
    requires HEAP_FIRST_PAGE < a && a + i <= HEAP_FIRST_PAGE + UNITS && Growing(k, s, a, i)
    modifies k`tlb, k`stale, k`owner, k.mem, k.alloc`location, k.alloc`firstFree, k.alloc`given, k.alloc.bitmap
    ensures ok ==> Growing(k, s, a, i + 1)
    ensures ok <==> s.free >= FramesTaken(s.m, k.cr3, a, i + 1)
    ensures ok && a + s.free <= HEAP_FIRST_PAGE + UNITS ==> a + i + 1 <= HEAP_FIRST_PAGE + UNITS
  {
    hide Walk, At, SpaceOk, OthersKept, HeapOwned, LowIdentity, Agrees, GrownBy, FramesTaken, Remapped, OnlyHeapPages;
    FramesTakenAtLeast(s.m, k.cr3, a, i + 1);
    WalkAhead(s.m, s.o, k.mem[..], k.owner, k.cr3, a, i);
    ghost var m1, o1 := k.mem[..], k.owner;
    NextTaken(s.m, s.o, m1, o1, k.cr3, a, i);
    RemappedMore(s, k.cr3, a, i);
    ok := MapHeapPage(k, a + i);
    if ok {
      GrownByStep(s.m, s.o, m1, o1, k.mem[..], k.owner, k.cr3, a, i);
    }
  }

  lemma WalkAhead(m: Memory, o: Owners, m1: Memory, o1: Owners, d: Frame, a: nat, i: nat)
    requires 0 < a && a + i < 1023 * 1024 && GrownBy(m, o, m1, o1, d, a, i)
    ensures Walk(m1, d, PageAt(a + i)) == Walk(m, d, PageAt(a + i))
  {
    PageAtNumber(PageAt(a + i), a + i);
  }

  /** The loop of lines 163-167. */
  method MapPages(k: Machine, a: nat, pages: nat) returns (ok: bool)
    requires k.Valid() && HeapOwned(k.mem[..], k.owner, k.cr3) && OnlyHeapPages(k.stale)
    requires HEAP_FIRST_PAGE < a && a + |k.alloc.Free()| <= HEAP_FIRST_PAGE + UNITS
    modifies k`tlb, k`stale, k`owner, k.mem, k.alloc`location, k.alloc`firstFree, k.alloc`given, k.alloc.bitmap
    ensures ok ==> Growing(k, old(Snap(k)), a, pages)
    ensures ok <==> a + pages <= 0x10_0000 && |old(k.alloc.Free())| >= old(FramesTaken(k.mem[..], k.cr3, a, pages))
  {
    ghost var s := Snap(k);
    NothingYet(k, a);
    hide *;
    var i := 0;
    while i < pages
      invariant 0 <= i <= pages && a + i <= HEAP_FIRST_PAGE + UNITS && Growing(k, s, a, i)
    {
      ok := MapNext(k, s, a, i);
      if !ok {
        if a + pages <= 0x10_0000 {
          FramesTakenMonotone(s.m, k.cr3, a, i + 1, pages);
        }
        return;
      }
      i := i + 1;
    }
    EnoughFree(k, s, a, pages);
    ok := true;
  }

  lemma NothingYet(k: Machine, a: nat)
    requires k.Valid() && HeapOwned(k.mem[..], k.owner, k.cr3) && OnlyHeapPages(k.stale) && 0 < a <= 0x10_0000
    ensures Growing(k, Snap(k), a, 0) && a + 0 <= 0x10_0000
  {
    GrownByNothing(k.mem[..], k.owner, k.cr3, a);
    assert Remapped(Snap(k), k.cr3, a, 0) == k.stale;
  }

  lemma EnoughFree(k: Machine, s: Snapshot, a: nat, i: nat)
    requires Growing(k, s, a, i)
    ensures a + i <= 0x10_0000 && s.free >= FramesTaken(s.m, k.cr3, a, i)
  {
  }

  /** Lines 158-169: pages for a chunk of `chunk` bytes, header included, at `cur`. */
  method GrowHeap(k: Machine, cur: nat, chunk: nat) returns (ok: bool)
    requires k.Valid() && chunk > 0
    requires HeapOwned(k.mem[..], k.owner, k.cr3) && OnlyHeapPages(k.stale)
    requires HeapMapped(k.mem[..], k.cr3, PageNumber(cur)) && Budget(|k.alloc.Free()|, PageNumber(cur))
    modifies k`tlb, k`stale, k`owner, k.mem, k.alloc`location, k.alloc`firstFree, k.alloc`given, k.alloc.bitmap
    ensures ok ==> Growing(k, old(Snap(k)), PageNumber(cur) + 1, PagesMapped(cur, chunk))
    ensures ok ==> HeapMapped(k.mem[..], k.cr3, PageNumber(cur + chunk))
                   && Budget(|k.alloc.Free()|, PageNumber(cur + chunk))
    ensures ok ==> PageNumber(cur) + 1 + PagesMapped(cur, chunk) <= HEAP_FIRST_PAGE + UNITS
    ensures ok <==> PageNumber(cur) + 1 + PagesMapped(cur, chunk) <= 0x10_0000
                    && |old(k.alloc.Free())| >= old(FramesTaken(k.mem[..], k.cr3, PageNumber(cur) + 1,
                                                                PagesMapped(cur, chunk)))
  {
    hide Walk, At, SpaceOk, OthersKept, HeapOwned, LowIdentity, Agrees, TruncDiv, Remapped;
    ghost var m0, free := k.mem[..], |k.alloc.Free()|;
    PagesMappedExactly(cur, chunk);
    ok := MapPages(k, cur / 0x1000 + 1, PagesMapped(cur, chunk));
    if ok {
      FramesTakenAtLeast(m0, k.cr3, cur / 0x1000 + 1, PagesMapped(cur, chunk));
      forall p: Page | HEAP_FIRST_PAGE <= p.Number() <= PageNumber(cur + chunk)
        ensures Walk(k.mem[..], k.cr3, p).Some?
      {
        if p.Number() <= PageNumber(cur) {
          assert p.slot < TABLES_SLOT;
        }
      }
    }
  }
}
