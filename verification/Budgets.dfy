/** Processes and the pool as numbers: what creating a process, allocating, freeing and switching need and
    leave behind, and when the source panics. */
module Budgets {
  import opened Basics
  import opened Paging
  import opened HeapLists
  import opened HeapGrowth
  import opened Accounting
  import R = HeapRuns

  const STACK_BYTES := 0x400   // new uint32_t[0x100]
  const WINDOW_SLOT := 490     // the table behind the windows of create_page_directory
  const HEAP_SLOT := 832       // the table of the first heap page
  const LOW_END := 0x40_0000   // every directory maps the addresses below to themselves

  /** A process: its heap's lists, its live pointers, and its page tables and mapped heap pages. */
  datatype Proc = Proc(heap: HeapState, live: R.Ledger, layout: Layout)

  datatype Books = Books(free: nat, running: Frame, procs: map<Frame, Proc>)

  /** `sp` is the caller's stack pointer when createProcess loads the new directory (line 63). */
  datatype Op = Create(sp: Word) | Malloc(length: nat) | Free(p: nat) | Switch(d: Frame)

  ghost predicate Kept(b: Books) {
    b.running in b.procs && forall d :: d in b.procs ==> WellShaped(b.procs[d].heap)
  }

  // what its callers do not ask for: a length whose chunk size overflows an int
  predicate Overflows(n: nat) {
    n < FIELD <= n + HEADER
  }

  function MallocWorld(p: Proc, n: nat): R.World
    requires WellShaped(p.heap)
  {
    R.Step(Repaired, R.World(p.heap, p.live), R.Malloc(n))
  }

  /** The pages an operation takes from the pool. */
  function Need(b: Books, op: Op): nat
    requires Kept(b)
  {
    var p := b.procs[b.running];
    match op
    case Create(_) => 3 + if WINDOW_SLOT in p.layout.tables then 3 else 4
    case Malloc(n) => if Overflows(n) then 0 else GrowthCost(p.layout.tables, p.heap.cur, MallocWorld(p, n).h.cur)
    case _ => 0
  }

  /** A new chunk's header would run onto a page of the heap that is not mapped yet. */
  predicate HeaderFaults(p: Proc, n: nat)
    requires WellShaped(p.heap)
  {
    MallocWorld(p, n).h.cur > p.heap.cur && PageNumber(p.heap.cur + HEADER - 1) !in p.layout.pages
  }

  /** The operation ends in a page fault: on a header, or on the caller's stack once another directory is loaded. */
  predicate Faults(b: Books, op: Op)
    requires Kept(b)
  {
    match op
    case Create(sp) => sp + 3 >= LOW_END
    case Malloc(n) => !Overflows(n) && HeaderFaults(b.procs[b.running], n)
    case _ => false
  }

  /** The operation succeeds; otherwise the source panics. */
  predicate Goes(b: Books, op: Op)
    requires Kept(b)
  {
    Need(b, op) <= b.free && !Faults(b, op)
  }

  /** A process just created: its stack is the one chunk on its heap. */
  function NewProc(): Proc {
    Proc(Append(Empty(), NONSTANDARD, STACK_BYTES), map[HEAP_START + HEADER := STACK_BYTES],
         Layout({0, HEAP_SLOT, DIR_SLOT, TABLES_SLOT}, {HEAP_FIRST_PAGE, HEAP_FIRST_PAGE + 1}))
  }

  /** The books after an operation that goes well; `pd` is the new directory, if one is created. */
  function Done(b: Books, op: Op, pd: Frame): (r: Books)
    requires Kept(b) && Goes(b, op)
    ensures Kept(r)
  {
    var p := b.procs[b.running];
    match op
    case Create(_) =>
      b.(free := b.free - Need(b, op),
         procs := b.procs[b.running := p.(layout := WithTable(p.layout, WINDOW_SLOT))][pd := NewProc()])
    case Malloc(n) =>
      if Overflows(n) then b
      else
        var w := MallocWorld(p, n);
        b.(free := b.free - Need(b, op),
           procs := b.procs[b.running := Proc(w.h, w.live, Grow(p.layout, p.heap.cur, w.h.cur))])
    case Free(q) =>
      var w := R.Step(Repaired, R.World(p.heap, p.live), R.Free(q));
      b.(procs := b.procs[b.running := Proc(w.h, w.live, p.layout)])
    case Switch(d) => if d in b.procs then b.(running := d) else b
  }

  /** What the source's callers do not ask for changes nothing. */
  predicate Passed(b: Books, op: Op)
    requires Kept(b)
  {
    match op
    case Create(_) => false
    case Malloc(n) => Overflows(n)
    case Free(p) => p !in b.procs[b.running].live
    case Switch(d) => d !in b.procs
  }

  lemma PassedKeeps(b: Books, op: Op)
    requires Kept(b) && Passed(b, op)
    ensures Goes(b, op) && Done(b, op, 0) == b
  {
    var p := b.procs[b.running];
    assert b.procs[b.running := p] == b.procs;
  }

  /** Every operation of the run goes well in turn. */
  predicate Succeeds(b: Books, ops: seq<Op>, pds: seq<Frame>)
    requires Kept(b) && |pds| == |ops|
    decreases |ops|, 0
  {
    ops == [] ||
    (var n := |ops| - 1; Succeeds(b, ops[..n], pds[..n]) && Goes(AllDone(b, ops[..n], pds[..n]), ops[n]))
  }

  function AllDone(b: Books, ops: seq<Op>, pds: seq<Frame>): (r: Books)
    requires Kept(b) && |pds| == |ops| && Succeeds(b, ops, pds)
    ensures Kept(r)
    decreases |ops|, 1
  {
    if ops == [] then b else var n := |ops| - 1; Done(AllDone(b, ops[..n], pds[..n]), ops[n], pds[n])
  }

  lemma NothingDone(b: Books)
    requires Kept(b)
    ensures Succeeds(b, [], []) && AllDone(b, [], []) == b
  {
  }

  lemma OneMoreDone(b: Books, ops: seq<Op>, pds: seq<Frame>, op: Op, pd: Frame)
    requires Kept(b) && |pds| == |ops| && Succeeds(b, ops, pds) && Goes(AllDone(b, ops, pds), op)
    ensures Succeeds(b, ops + [op], pds + [pd])
    ensures AllDone(b, ops + [op], pds + [pd]) == Done(AllDone(b, ops, pds), op, pd)
  {
    assert (ops + [op])[..|ops|] == ops && (pds + [pd])[..|pds|] == pds;
  }

  /** A process whose caller runs on a stack of its heap cannot create another: whoever can be created and
      switched to ends in a page fault creating in turn, however many pages the pool has. */
  lemma CreateFromHeapStack(b: Books, sp: Word, sp': Word, pd: Frame)
    requires Kept(b) && sp + 3 < LOW_END && Need(b, Create(sp)) <= b.free && sp' >= HEAP_START
    ensures Succeeds(b, [Create(sp), Switch(pd)], [pd, pd])
    ensures Faults(AllDone(b, [Create(sp), Switch(pd)], [pd, pd]), Create(sp'))
    ensures !Succeeds(b, [Create(sp), Switch(pd), Create(sp')], [pd, pd, pd])
  {
    NothingDone(b);
    OneMoreDone(b, [], [], Create(sp), pd);
    assert [] + [Create(sp)] == [Create(sp)] && [] + [pd] == [pd];
    OneMoreDone(b, [Create(sp)], [pd], Switch(pd), pd);
    assert [Create(sp)] + [Switch(pd)] == [Create(sp), Switch(pd)] && [pd] + [pd] == [pd, pd];
    assert [Create(sp), Switch(pd), Create(sp')][..2] == [Create(sp), Switch(pd)] && [pd, pd, pd][..2] == [pd, pd];
  }

  /** In a process just created, a request for 0x1BEC bytes leaves the heap's end four bytes short of a page
      that is not mapped, so the next request needing a new chunk faults. */
  lemma HeaderFaultExample(b: Books, pd: Frame)
    requires Kept(b) && b.procs[b.running] == NewProc() && Goes(b, Malloc(0x1BEC))
    ensures Faults(Done(b, Malloc(0x1BEC), pd), Malloc(8))
  {
    var p := NewProc();
    var l := p.heap.lists[NONSTANDARD];
    assert l == [] + [Chunk(HEAP_START, STACK_BYTES, true)];
    assert Find(Repaired, l, 0x1BEC) == (l, 1) by {
      assert l[1..] == [] && Find(Repaired, [], 0x1BEC) == ([], 0) && [l[0]] + [] == l;
    }
    var w := MallocWorld(p, 0x1BEC);
    assert w.h.cur == HEAP_START + 0x1FFC;
    PagesMappedExactly(HEAP_START + HEADER + STACK_BYTES, 0x1BEC + HEADER);
    assert w.h.lists[0] == [] && FirstFree([]) == 0;
    var q := Done(b, Malloc(0x1BEC), pd).procs[b.running];
    assert q.layout.pages == {HEAP_FIRST_PAGE, HEAP_FIRST_PAGE + 1} + NumbersFrom(HEAP_FIRST_PAGE + 1, 1);
    assert PageNumber(q.heap.cur + HEADER - 1) == HEAP_FIRST_PAGE + 2;
  }
}
