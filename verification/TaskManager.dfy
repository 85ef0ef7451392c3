/** kernelcpp/code/TaskManager.cpp, item by item: the linked ready queue, the timer interrupt, and the
    creation of threads and processes; switch_thread of thread_asm.s, register by register. */
module TaskManager {
  import B = Basics
  import S = Scheduling
  import W = Switching
  import T = Turns
  import Ipc

  // thread_t; the kernel's addresses of page directory, heap and stack are plain numbers
  class Thread {
    const id: nat
    const dir: nat
    const stack: nat
    var heap: nat
    var saved: W.Context

    constructor (id: nat, dir: nat, heap: nat, stack: nat, saved: W.Context)
      ensures this.id == id && this.dir == dir && this.heap == heap && this.stack == stack && this.saved == saved
    {
      this.id, this.dir, this.heap, this.stack, this.saved := id, dir, heap, stack, saved;
    }
  }

  // thread_list_t
  class Item {
    const thread: Thread
    var next: Item?
    var remove: bool

    constructor (thread: Thread)
      ensures this.thread == thread && next == null && !remove
    {
      this.thread, next, remove := thread, null, false;
    }
  }

  function After(q: seq<Item>, i: nat): Item? {
    if i + 1 < |q| then q[i + 1] else null
  }

  function Ids(q: seq<Item>): (r: seq<nat>)
    ensures |r| == |q| && forall i :: 0 <= i < |q| ==> r[i] == q[i].thread.id
  {
    seq(|q|, i requires 0 <= i < |q| => q[i].thread.id)
  }

  ghost predicate Linked(head: Item?, q: seq<Item>)
    reads q
  {
    && head == (if q == [] then null else q[0])
    && forall i :: 0 <= i < |q| ==> q[i].next == After(q, i)
  }

  ghost predicate Distinct(q: seq<Item>) {
    forall i, j :: 0 <= i < j < |q| ==> q[i] != q[j]
  }

  lemma AfterAppend(q: seq<Item>, n: Item)
    ensures After(q + [n], |q|) == null && (q != [] ==> After(q + [n], |q| - 1) == n)
    ensures forall i :: 0 <= i < |q| - 1 ==> After(q + [n], i) == After(q, i)
  {
  }

  // the last item of a queue that is not empty: the walk of lines 139-141 and 218-220
  method Last(head: Item, ghost q: seq<Item>) returns (it: Item)
    requires Linked(head, q)
    ensures q != [] && it == q[|q| - 1]
  {
    it := head;
    ghost var j := 0;
    while it.next != null
      invariant 0 <= j < |q| && it == q[j]
      decreases |q| - j
    {
      assert q[j].next == After(q, j);
      it := it.next;
      j := j + 1;
    }
    assert q[j].next == After(q, j);
  }

  // the new item behind the last one
  method Append(head: Item?, ghost q: seq<Item>, item: Item) returns (head': Item?)
    requires Linked(head, q) && Distinct(q) && item !in q
    modifies if q == [] then {} else {q[|q| - 1]}, item
    ensures Linked(head', q + [item]) && Distinct(q + [item])
    ensures item.remove == old(item.remove) && (q != [] ==> q[|q| - 1].remove == old(q[|q| - 1].remove))
  {
    AfterAppend(q, item);
    hide After;
    item.next := null;
    if head == null {
      head' := item;
    } else {
      var it := Last(head, q);
      it.next := item;
      head' := head;
    }
  }

  ghost predicate DistinctThreads(q: seq<Item>) {
    forall i, j :: 0 <= i < j < |q| ==> q[i].thread != q[j].thread
  }

  /** The queue without the items of a thread. */
  function WithoutThread(q: seq<Item>, t: Thread): seq<Item> {
    if q == [] then [] else (if q[0].thread == t then [] else [q[0]]) + WithoutThread(q[1..], t)
  }

  lemma RemoveRound(q: seq<Item>, k: nat, t: Thread)
    requires k <= |q|
    ensures q[..k] + WithoutThread(q[k..], t)
         == (if k == |q| then q
             else if q[k].thread == t then (q[..k] + q[k + 1..])[..k] + WithoutThread((q[..k] + q[k + 1..])[k..], t)
             else q[..k + 1] + WithoutThread(q[k + 1..], t))
  {
    if k < |q| {
      var r := q[k..];
      assert r[0] == q[k] && r[1..] == q[k + 1..];
      if q[k].thread == t {
        assert (q[..k] + q[k + 1..])[..k] == q[..k] && (q[..k] + q[k + 1..])[k..] == r[1..];
      } else {
        assert q[..k + 1] == q[..k] + [q[k]];
        assert q[..k] + ([q[k]] + WithoutThread(r[1..], t)) == (q[..k] + [q[k]]) + WithoutThread(r[1..], t);
      }
    }
  }

  /** The queue once the item after the `j`th has been looked at. */
  function OncePassed(q: seq<Item>, j: nat, t: Thread): seq<Item>
    requires j + 1 < |q|
  {
    if q[j + 1].thread == t then q[..j + 1] + q[j + 2..] else q
  }

  lemma PassedFacts(q: seq<Item>, j: nat, t: Thread)
    requires DistinctThreads(q) && j + 1 < |q| && q[j].thread != t
    ensures OncePassed(q, j, t) == if q[j + 1].thread == t then q[..j + 1] + q[j + 2..] else q
    ensures forall it :: it in OncePassed(q, j, t) ==> it in q
    ensures var r := OncePassed(q, j, t);
            && j < |r| <= |q| && |r| >= |q| - 1
            && (if j + 1 < |r| then r[j + 1].thread != t && r[|r| - 1] == q[|q| - 1] else q[|q| - 1].thread == t)
            && q[..j + 1] + WithoutThread(q[j + 1..], t)
               == if j + 1 < |r| then r[..j + 2] + WithoutThread(r[j + 2..], t) else r
  {
    var r := OncePassed(q, j, t);
    RemoveRound(q, j + 1, t);
    hide WithoutThread;
    if q[j + 1].thread == t {
      assert r[..j + 1] == q[..j + 1];
      RemoveRound(r, j + 1, t);
    }
  }

  lemma {:induction false} NoneToRemove(q: seq<Item>, t: Thread)
    requires forall i :: 0 <= i < |q| ==> q[i].thread != t
    ensures WithoutThread(q, t) == q
  {
    if q != [] {
      NoneToRemove(q[1..], t);
    }
  }

  lemma HeadRemoved(q: seq<Item>, t: Thread)
    requires q != [] && q[0].thread == t && DistinctThreads(q) && Distinct(q)
    ensures WithoutThread(q, t) == q[1..] && Distinct(q[1..])
  {
    NoneToRemove(q[1..], t);
  }

  lemma DropLinked(head: Item?, q: seq<Item>, j: nat)
    requires j + 1 < |q|
    ensures var q' := q[..j + 1] + q[j + 2..];
            && (forall i :: 0 <= i < j ==> After(q', i) == After(q, i))
            && (forall i :: j <= i < |q'| ==> After(q', i) == After(q, i + 1))
            && (forall i :: 0 <= i <= j ==> q'[i] == q[i]) && (forall i :: j < i < |q'| ==> q'[i] == q[i + 1])
  {
  }

  lemma HeadOf(head: Item?, q: seq<Item>)
    requires Linked(head, q)
    ensures head == null <==> q == []
    ensures q != [] ==> head == q[0]
  {
  }

  lemma TailLinked(head: Item?, q: seq<Item>)
    requires Linked(head, q) && q != []
    ensures Linked(q[0].next, q[1..])
  {
    assert q[0].next == After(q, 0);
    assert forall i :: 0 <= i < |q| - 1 ==> After(q[1..], i) == After(q, i + 1) && q[1..][i] == q[i + 1];
  }

  // ----- the task manager as a world of waiting threads -----

  /** Thread `t` has its directory, and its stack if createThread gave it one, in the map. */
  predicate Placed(threads: map<nat, W.Thread>, t: Thread) {
    && t.id in threads && threads[t.id].dir == t.dir
    && (t.stack != 0 ==> threads[t.id].base == t.stack && threads[t.id].size == W.STACK)
  }

  /** World `w` has this processor, current thread, and queue of threads with these saved registers. */
  ghost predicate Fits(w: W.World, cpu: W.Cpu, cur: Thread, q: seq<Item>, saved: seq<W.Context>) {
    && w.cpu == cpu && w.current == cur.id && |saved| == |q| && Placed(w.threads, cur)
    && (forall id :: id in w.threads <==> id == cur.id || id in Ids(q)) && Waits(w.threads, q, saved)
  }

  ghost predicate Waits(threads: map<nat, W.Thread>, q: seq<Item>, saved: seq<W.Context>) {
    |saved| == |q| && forall i :: 0 <= i < |q| ==> Placed(threads, q[i].thread)
                                                   && threads[q[i].thread.id].saved == saved[i]
  }

  lemma WaitsTail(threads: map<nat, W.Thread>, q: seq<Item>, saved: seq<W.Context>)
    requires Waits(threads, q, saved) && q != []
    ensures Waits(threads, q[1..], saved[1..]) && Placed(threads, q[0].thread)
            && threads[q[0].thread.id].saved == saved[0]
  {
  }

  // who is in the queue once its front is out
  lemma FrontOut(q: seq<Item>, was: Item)
    requires q != [] && DistinctIds(was.thread, q)
    ensures was.thread.id != q[0].thread.id && was.thread.id !in Ids(q[1..]) && q[0].thread.id !in Ids(q[1..])
    ensures forall id :: id in Ids(q) <==> id == q[0].thread.id || id in Ids(q[1..])
    ensures forall id :: id in Ids(q[1..] + [was]) <==> id in Ids(q[1..]) || id == was.thread.id
  {
    assert Ids(q) == [q[0].thread.id] + Ids(q[1..]) && Ids(q[1..] + [was]) == Ids(q[1..]) + [was.thread.id];
    assert q[0].thread.id in Ids(q);
  }

  lemma WaitsOn(threads: map<nat, W.Thread>, threads': map<nat, W.Thread>, q: seq<Item>, saved: seq<W.Context>)
    requires Waits(threads, q, saved)
    requires forall id :: id in Ids(q) && id in threads ==> id in threads' && threads'[id] == threads[id]
    ensures Waits(threads', q, saved)
  {
    assert forall i :: 0 <= i < |q| ==> Ids(q)[i] in Ids(q);
  }

  lemma WaitsAppend(threads: map<nat, W.Thread>, q: seq<Item>, saved: seq<W.Context>, it: Item)
    requires Waits(threads, q, saved) && Placed(threads, it.thread)
    ensures Waits(threads, q + [it], saved + [threads[it.thread.id].saved])
  {
  }

  ghost predicate DistinctIds(cur: Thread, q: seq<Item>) {
    cur.id !in Ids(q) && forall i, j :: 0 <= i < j < |q| ==> q[i].thread.id != q[j].thread.id
  }

  ghost function SavedOf(q: seq<Item>): (r: seq<W.Context>)
    reads set it | it in q :: it.thread
    ensures |r| == |q| && forall i :: 0 <= i < |q| ==> r[i] == q[i].thread.saved
  {
    seq(|q|, i requires 0 <= i < |q| reads (set it | it in q :: it.thread) => q[i].thread.saved)
  }

  lemma FitsFront(w: W.World, cpu: W.Cpu, cur: Thread, q: seq<Item>, saved: seq<W.Context>)
    requires Fits(w, cpu, cur, q, saved) && q != []
    ensures w.current in w.threads && q[0].thread.id in w.threads
  {
  }

  lemma FitsTurn(rule: B.Rule, w: W.World, cpu: W.Cpu, was: Item, q: seq<Item>, saved: seq<W.Context>)
    requires Fits(w, cpu, was.thread, q, saved) && q != [] && DistinctIds(was.thread, q)
    requires q[0].thread.id in w.threads && w.current in w.threads
    ensures Fits(W.Switched(rule, w, q[0].thread.id), W.Enter(rule, cpu, q[0].thread.dir, saved[0]), q[0].thread,
                 q[1..] + [was], saved[1..] + [cpu.regs])
  {
    var w' := W.Switched(rule, w, q[0].thread.id);
    hide W.Enter, Waits, Ids, DistinctIds;
    WaitsTail(w.threads, q, saved);
    FrontOut(q, was);
    WaitsOn(w.threads, w'.threads, q[1..], saved[1..]);
    WaitsAppend(w'.threads, q[1..], saved[1..], was);
  }

  lemma FitsEnd(rule: B.Rule, w: W.World, cpu: W.Cpu, was: Item, q: seq<Item>, saved: seq<W.Context>)
    requires Fits(w, cpu, was.thread, q, saved) && q != [] && DistinctIds(was.thread, q)
    requires q[0].thread.id in w.threads
    ensures Fits(W.Left(rule, w, q[0].thread.id), W.Enter(rule, cpu, q[0].thread.dir, saved[0]), q[0].thread, q[1..],
                 saved[1..])
  {
    hide W.Enter, Waits, Ids, DistinctIds;
    WaitsTail(w.threads, q, saved);
    FrontOut(q, was);
    WaitsOn(w.threads, W.Left(rule, w, q[0].thread.id).threads, q[1..], saved[1..]);
  }

  lemma FitsCreated(w: W.World, cpu: W.Cpu, cur: Thread, q: seq<Item>, saved: seq<W.Context>, it: Item,
                    child: W.Word, start: W.Word, exit: W.Word)
    requires Fits(w, cpu, cur, q, saved) && it.thread.id !in Ids(q) && it.thread.id != cur.id
    ensures var t := it.thread;
            Fits(W.Created(w, t.id, t.dir, t.stack, child, start, exit),
                 cpu.(mem := W.Prepared(cpu.mem, t.dir, t.stack, child, start, exit)), cur, q + [it],
                 saved + [W.NewContext(t.stack)])
  {
    hide W.Prepared, W.NewContext;
    var w' := W.Created(w, it.thread.id, it.thread.dir, it.thread.stack, child, start, exit);
    assert Ids(q + [it]) == Ids(q) + [it.thread.id];
    WaitsOn(w.threads, w'.threads, q, saved);
    hide Waits;
    WaitsAppend(w'.threads, q, saved, it);
  }

  lemma FitsExtended(cpu: W.Cpu, cur: Thread, q: seq<Item>, saved: seq<W.Context>, dir: nat, pages: set<nat>)
    ensures forall w :: Fits(w, cpu, cur, q, saved) ==> Fits(W.Extended(w, dir, pages), cpu, cur, q, saved)
  {
  }

  /** The processor's registers and memory, the mapped pages, and the globals that go with the current thread. */
  class Tasks {
    var current: Item?
    var readyQueue: Item?
    var tid: nat
    var currentHeap: nat
    var regs: W.Context
    var cr3: nat
    var eip: W.Word
    var mem: W.Memory
    var mapped: W.Pages
    const ipc: Ipc.MessageList
    ghost var queue: seq<Item>

    /** init(): the boot code becomes thread 0, with an empty queue behind it. */
    constructor (heap: nat, regs: W.Context, cr3: nat, eip: W.Word, mem: W.Memory, mapped: W.Pages)
      ensures Valid() && View() == S.BOOT
      ensures Cpu() == W.Cpu(regs, cr3, eip, mem) && fresh(current) && fresh(current.thread) && fresh(ipc)
      ensures forall base: nat, size: nat, c ::
                Carries(W.World(Cpu(), 0, map[0 := W.Thread(cr3, base, size, c)], mapped))
    {
      var initial := new Thread(0, cr3, heap, 0, W.Context(0, 0, 0, 0, 0, 0));
      current := new Item(initial);
      currentHeap, readyQueue, tid, queue := heap, null, 1, [];
      this.regs, this.cr3, this.eip, this.mem, this.mapped := regs, cr3, eip, mem, mapped;
      ipc := new Ipc.MessageList();
      new;
      hide Ipc.Linked, Carries;
      BootCarries();
    }

    lemma BootCarries()
      requires current != null && current.thread.id == 0 && current.thread.dir == cr3 && current.thread.stack == 0
               && queue == []
      ensures forall base: nat, size: nat, c ::
                Carries(W.World(Cpu(), 0, map[0 := W.Thread(cr3, base, size, c)], mapped))
    {
    }

    ghost function View(): S.State
      reads this, current, ipc, ipc.nodes
      requires current != null
    {
      S.State(current.thread.id, current.remove, Ids(queue), tid, Ipc.Contents(ipc.nodes))
    }

    function Cpu(): W.Cpu
      reads this
    {
      W.Cpu(regs, cr3, eip, mem)
    }

    /** Heap::currentHeap and cr3 are those of the current thread. */
    ghost predicate Homed()
      reads this, current, if current == null then {} else {current.thread}
    {
      current != null && currentHeap == current.thread.heap && cr3 == current.thread.dir
    }

    /** The message list holds `msgs`. */
    ghost predicate Mail(msgs: seq<S.Message>)
      reads ipc, ipc.nodes
    {
      ipc.Valid() && Ipc.Contents(ipc.nodes) == msgs
    }

    ghost predicate Queued()
      reads this, queue
    {
      Linked(readyQueue, queue) && Distinct(queue) && forall it :: it in queue ==> !it.remove
    }

    ghost predicate Valid()
      reads this, queue, current, if current == null then {} else {current.thread}, ipc, ipc.nodes
    {
      Homed() && Ready()
    }

    /** All that holds while createProcess works under another heap and directory. */
    ghost predicate Ready()
      reads this, queue, current, ipc, ipc.nodes
    {
      current != null && Queued() && current !in queue && ipc.Valid() && S.Ok(View())
    }

    /** switch_thread, instruction by instruction; `next` is the argument it reads at [esp + 4]. Any of its
        accesses to a stack may be a page fault, and nothing after that is promised. */
    method SwitchThread(order: B.Rule, next: Item) returns (faulted: bool)
      requires current != null && next.thread != current.thread
      modifies this`current, this`regs, this`cr3, this`eip, this`mem, current.thread`saved
      ensures faulted <==> W.Faults(order, mapped, old(Cpu()), next.thread.dir, next.thread.saved)
      ensures !faulted ==> current == next && Cpu() == W.Enter(order, old(Cpu()), next.thread.dir, next.thread.saved)
      ensures !faulted ==> old(current).thread.saved == old(regs)
    {
      var eax := current.thread;
      eax.saved := eax.saved.(esp := regs.esp);
      eax.saved := eax.saved.(ebp := regs.ebp);
      eax.saved := eax.saved.(ebx := regs.ebx);
      eax.saved := eax.saved.(esi := regs.esi);
      eax.saved := eax.saved.(edi := regs.edi);
      hide W.Store, W.Load, W.WordOn, W.Pushed, W.Popped;
      var ecx;
      faulted, ecx := PushPop(regs.eflags);
      if faulted {
        return;
      }
      eax.saved := eax.saved.(eflags := ecx);
      if !W.WordOn(mapped, cr3, W.Popped(regs.esp)) {
        return true;
      }
      current := next;
      faulted := LoadContext(order, next.thread);
    }

    method LoadContext(order: B.Rule, eax: Thread) returns (faulted: bool)
      modifies this`regs, this`cr3, this`eip, this`mem
      ensures faulted <==> !W.WordOn(mapped, if order == B.AsWritten then old(cr3) else eax.dir,
                                     W.Pushed(eax.saved.esp))
                           || !W.WordOn(mapped, eax.dir, eax.saved.esp)
      ensures !faulted ==>
                var out, flags := if order == B.AsWritten then old(cr3) else eax.dir, eax.saved.eflags;
                && mem == W.Store(old(mem), out, W.Pushed(eax.saved.esp), flags) && cr3 == eax.dir
                && regs == eax.saved.(esp := W.Popped(eax.saved.esp)) && eip == W.Load(mem, eax.dir, eax.saved.esp)
    {
      regs := regs.(esp := eax.saved.esp);
      regs := regs.(ebp := eax.saved.ebp);
      regs := regs.(ebx := eax.saved.ebx);
      regs := regs.(esi := eax.saved.esi);
      regs := regs.(edi := eax.saved.edi);
      hide W.Store, W.Load, W.WordOn, W.Pushed, W.Popped;
      if order == B.Repaired {
        cr3 := eax.dir;
      }
      var ecx;
      faulted, ecx := PushPop(eax.saved.eflags);
      if faulted {
        return;
      }
      regs := regs.(eflags := ecx);
      cr3 := eax.dir;
      if !W.WordOn(mapped, cr3, regs.esp) {
        return true;
      }
      eip := W.Load(mem, cr3, regs.esp);
      regs := regs.(esp := W.Popped(regs.esp));
    }

    // a word through the stack: pushf, pop ecx; push ecx, popf
    method PushPop(w: W.Word) returns (faulted: bool, r: W.Word)
      modifies this`regs, this`mem
      ensures faulted <==> !W.WordOn(mapped, cr3, W.Pushed(old(regs.esp)))
      ensures !faulted ==> r == w && regs == old(regs) && mem == W.Store(old(mem), cr3, W.Pushed(regs.esp), w)
    {
      hide W.Store, W.Load, W.WordOn;
      regs := regs.(esp := W.Pushed(regs.esp));
      if !W.WordOn(mapped, cr3, regs.esp) {
        return true, 0;
      }
      mem := W.Store(mem, cr3, regs.esp, w);
      W.LoadStored(old(mem), cr3, regs.esp, w);
      faulted, r := false, W.Load(mem, cr3, regs.esp);
      regs := regs.(esp := W.Popped(regs.esp));
    }

    method IsRunning(id: nat) returns (r: bool)
      requires Valid()
      ensures r <==> S.IsRunning(View(), id)
    {
      if current.thread.id == id {
        return true;
      }
      var it := readyQueue;
      ghost var j := 0;
      while it != null
        invariant 0 <= j <= |queue| && it == (if j < |queue| then queue[j] else null)
        invariant forall i :: 0 <= i < j ==> Ids(queue)[i] != id
        decreases |queue| - j
      {
        assert queue[j].next == After(queue, j);
        if it.thread.id == id {
          assert Ids(queue)[j] == id;
          return true;
        }
        it := it.next;
        j := j + 1;
      }
      r := false;
    }

    // the view, in two pieces
    ghost predicate Lined(current_: nat, exiting: bool, ready: seq<nat>, counter: nat)
      reads this, queue, current
    {
      && current != null && current !in queue && Queued()
      && current_ == current.thread.id && exiting == current.remove && ready == Ids(queue) && counter == tid
    }

    ghost predicate Shows(s: S.State)
      reads this, queue, current, ipc, ipc.nodes
    {
      Lined(s.current, s.exiting, s.ready, s.counter) && Mail(s.msgs)
    }

    lemma Shown()
      requires Ready()
      ensures Shows(View()) && S.Ok(View())
    {
    }

    lemma Seen(s: S.State)
      requires Shows(s) && S.Ok(s)
      ensures Ready() && View() == s
    {
    }

    lemma CreateSeen()
      requires Ready()
      ensures var s := View();
              && Shows(s) && S.Ok(s) && S.Ok(S.Step(s, S.Create))
              && S.Step(s, S.Create) == s.(ready := s.ready + [s.counter], counter := s.counter + 1)
    {
      S.StepOk(View(), S.Create);
    }

    // addThread
    method AddThread(t: Thread, ghost s: S.State)
      requires Shows(s)
      modifies this, queue
      ensures Cpu() == old(Cpu()) && mapped == old(mapped) && current == old(current) && currentHeap == old(currentHeap)
      ensures Shows(s.(ready := s.ready + [t.id]))
      ensures |queue| == |old(queue)| + 1 && queue[..|old(queue)|] == old(queue) && queue[|old(queue)|].thread == t
      ensures fresh(queue[|old(queue)|])
    {
      var item := new Item(t);
      ghost var q := queue;
      hide Linked, Distinct, Ipc.Linked, Ipc.Contents;
      readyQueue := Append(readyQueue, q, item);
      queue := q + [item];
      assert Ids(queue) == Ids(q) + [t.id];
    }

    /** createThread(child, page_directory, heap): `stack` is what new gave it on the current heap. The
        thread queues last, with its three words on its stack. */
    method CreateThreadOn(child: W.Word, pd: nat, heap: nat, stack: nat, start: W.Word, exit: W.Word)
             returns (t: Thread)
      requires Ready()
      modifies this, queue
      ensures current == old(current) && currentHeap == old(currentHeap) && mapped == old(mapped)
      ensures Ready() && View() == S.Step(old(View()), S.Create)
      ensures |queue| == |old(queue)| + 1 && queue[..|old(queue)|] == old(queue) && queue[|old(queue)|].thread == t
      ensures fresh(t) && fresh(queue[|old(queue)|]) && t.id == old(tid)
      ensures t.dir == pd && t.heap == heap && t.stack == stack && t.saved == W.NewContext(stack)
      ensures Cpu() == old(Cpu()).(mem := W.Prepared(old(mem), cr3, stack, child, start, exit))
    {
      hide Ready, Linked, Distinct, W.Prepared, S.Step, S.Ok, Ipc.Linked, Ipc.Contents, View, Ids, Mail, W.NewContext;
      CreateSeen();
      ghost var s := View();
      t := new Thread(tid, pd, heap, stack, W.NewContext(stack));
      tid := tid + 1;
      PrepareStack(child, stack, start, exit);
      AddThread(t, s.(counter := s.counter + 1));
      Seen(S.Step(s, S.Create));
    }

    method PrepareStack(child: W.Word, stack: nat, start: W.Word, exit: W.Word)
      modifies this`mem
      ensures mem == W.Prepared(old(mem), cr3, stack, child, start, exit)
    {
      mem := W.Store(mem, cr3, stack + W.TOP - 4, child);
      mem := W.Store(mem, cr3, stack + W.TOP - 8, exit);
      mem := W.Store(mem, cr3, stack + W.TOP - 12, start);
    }

    /** createThread(child): a thread of the current process. */
    method CreateThread(child: W.Word, stack: nat, start: W.Word, exit: W.Word) returns (t: Thread)
      requires Valid()
      modifies this, queue
      ensures Valid() && View() == S.Step(old(View()), S.Create)
      ensures forall w :: old(Carries(w)) ==> Carries(W.Created(w, t.id, t.dir, stack, child, start, exit))
      ensures fresh(t) && t.dir == current.thread.dir && t.heap == current.thread.heap && t.saved == W.NewContext(stack)
      ensures t.id == old(tid) && current == old(current) && |queue| == |old(queue)| + 1
      ensures queue[..|old(queue)|] == old(queue) && fresh(queue[|old(queue)|]) && queue[|old(queue)|].thread == t
      ensures Cpu() == old(Cpu()).(mem := W.Prepared(old(mem), cr3, stack, child, start, exit))
    {
      hide Ready, View, DistinctIds, Fits, W.Created, W.Prepared, W.NewContext;
      Opened();
      ghost var q, saved, cpu := queue, SavedOf(queue), Cpu();
      t := CreateThreadOn(child, current.thread.dir, current.thread.heap, stack, start, exit);
      Joined(q, saved, cpu, t, child, start, exit);
    }

    // the new thread is the world's new thread
    lemma Joined(q: seq<Item>, saved: seq<W.Context>, cpu: W.Cpu, t: Thread, child: W.Word, start: W.Word, exit: W.Word)
      requires Ready() && |queue| == |q| + 1 && queue[..|q|] == q && queue[|q|].thread == t
               && t.saved == W.NewContext(t.stack)
      requires |saved| == |q| && forall i :: 0 <= i < |q| ==> q[i].thread.saved == saved[i]
      requires Cpu() == cpu.(mem := W.Prepared(cpu.mem, t.dir, t.stack, child, start, exit))
      ensures forall w :: Fits(w, cpu, current.thread, q, saved) && w.mapped == mapped ==>
                Carries(W.Created(w, t.id, t.dir, t.stack, child, start, exit))
    {
      assert queue == q + [queue[|q|]];
      assert Ids(queue)[|q|] == t.id && forall i :: 0 <= i < |q| ==> Ids(queue)[i] == Ids(q)[i];
      assert t.id in Ids(queue);
      assert SavedOf(queue) == saved + [W.NewContext(t.stack)];
      forall w | Fits(w, cpu, current.thread, q, saved) && w.mapped == mapped
        ensures Carries(W.Created(w, t.id, t.dir, t.stack, child, start, exit))
      {
        FitsCreated(w, cpu, current.thread, q, saved, queue[|q|], child, start, exit);
      }
    }

    /** What the current thread's own instructions do between two entries of the kernel. */
    method Compute(regs': W.Context, writes: map<nat, W.Byte>)
      requires Valid()
      modifies this`regs, this`mem
      ensures Valid() && View() == old(View())
      ensures forall w :: old(Carries(w)) ==> Carries(W.Computed(w, regs', writes))
    {
      hide Waits, Placed, Ids, S.Ok, Linked, Distinct, W.Written;
      regs := regs';
      mem := W.Written(mem, cr3, writes);
    }

    /** Pages that come with the growth of a heap. */
    method MapPages(dir: nat, pages: set<nat>)
      requires Valid()
      modifies this`mapped
      ensures Valid() && View() == old(View()) && Cpu() == old(Cpu())
      ensures forall w :: old(Carries(w)) ==> Carries(W.Extended(w, dir, pages))
    {
      mapped := mapped + set p | p in pages :: (dir, p);
    }

    /** createProcess: `pd`, `heap`, `stack` and the pages mapped under `pd` come from create_page_directory,
        the new heap and its first block. Line 63 loads `pd` with the caller still on its own stack, and
        switch_page_directory cannot return unless that word of the stack is mapped there too. Otherwise the
        new stack is prepared in the new directory; heap and directory are then those of the caller. */
    method CreateProcess(child: W.Word, pd: nat, pages: set<nat>, heap: nat, stack: nat, start: W.Word, exit: W.Word)
      returns (faulted: bool, t: Thread?)
      requires Valid()
      modifies this, queue
      ensures faulted <==> !W.WordOn(old(mapped), pd, old(regs).esp)
      ensures !faulted ==> Valid() && View() == S.Step(old(View()), S.Create)
      ensures !faulted ==> t != null && forall w :: old(Carries(w)) ==>
                Carries(W.Created(W.Extended(w, pd, pages), t.id, t.dir, stack, child, start, exit))
      ensures !faulted ==> fresh(t) && t.dir == pd && t.heap == heap && t.saved == W.NewContext(stack)
      ensures !faulted ==> t.id == old(tid) && current == old(current) && |queue| == |old(queue)| + 1
      ensures !faulted ==> queue[..|old(queue)|] == old(queue) && fresh(queue[|old(queue)|])
                           && queue[|old(queue)|].thread == t
      ensures !faulted ==> Cpu() == old(Cpu()).(mem := W.Prepared(old(mem), pd, stack, child, start, exit))
    {
      hide Ready, Linked, Distinct, View, Ids, W.Prepared, S.Ok, Ipc.Linked, Ipc.Contents, S.Step, Mail, W.NewContext,
           Fits, W.Created, W.WordOn, Carries;
      ghost var s := View();
      CreateSeen();
      CarriesMeans();
      ghost var q, saved, cpu := queue, SavedOf(queue), Cpu();
      cr3 := pd;
      if !W.WordOn(mapped, cr3, regs.esp) {
        return true, null;
      }
      faulted := false;
      t := CreateThere(child, pages, heap, stack, start, exit, s);
      Shown();
      currentHeap := current.thread.heap;
      cr3 := current.thread.dir;
      Seen(S.Step(s, S.Create));
      JoinedExtended(q, saved, cpu, t, pages, child, start, exit);
    }

    // lines 65-71: the heap and the thread, under the new directory
    method CreateThere(child: W.Word, pages: set<nat>, heap: nat, stack: nat, start: W.Word, exit: W.Word,
                       ghost s: S.State)
      returns (t: Thread)
      requires Shows(s) && S.Ok(s)
      modifies this, queue
      ensures current == old(current) && mapped == old(mapped) + set p | p in pages :: (old(cr3), p)
      ensures Ready() && View() == S.Step(s, S.Create)
      ensures |queue| == |old(queue)| + 1 && queue[..|old(queue)|] == old(queue) && queue[|old(queue)|].thread == t
      ensures fresh(t) && fresh(queue[|old(queue)|]) && t.id == old(tid) && t.dir == cr3 && t.heap == heap
              && t.stack == stack && t.saved == W.NewContext(stack)
      ensures Cpu() == old(Cpu()).(mem := W.Prepared(old(mem), cr3, stack, child, start, exit))
    {
      hide Ready, Linked, Distinct, View, Ids, W.Prepared, S.Ok, Ipc.Linked, Ipc.Contents, S.Step, Mail, W.NewContext;
      currentHeap := heap;
      mapped := mapped + set p | p in pages :: (cr3, p);
      Seen(s);
      t := CreateThreadOn(child, cr3, heap, stack, start, exit);
    }

    lemma CarriesMeans()
      requires current != null
      ensures forall w :: Carries(w) <==> Fits(w, Cpu(), current.thread, queue, SavedOf(queue)) && w.mapped == mapped
    {
    }

    lemma JoinedExtended(q: seq<Item>, saved: seq<W.Context>, cpu: W.Cpu, t: Thread, pages: set<nat>,
                         child: W.Word, start: W.Word, exit: W.Word)
      requires current != null && Ready() && |queue| == |q| + 1 && queue[..|q|] == q && queue[|q|].thread == t
      requires |saved| == |q| && forall i :: 0 <= i < |q| ==> q[i].thread.saved == saved[i]
      requires Cpu() == cpu.(mem := W.Prepared(cpu.mem, t.dir, t.stack, child, start, exit))
               && t.saved == W.NewContext(t.stack)
      ensures forall w :: Fits(w, cpu, current.thread, q, saved) && W.Extended(w, t.dir, pages).mapped == mapped ==>
                Carries(W.Created(W.Extended(w, t.dir, pages), t.id, t.dir, t.stack, child, start, exit))
    {
      hide Fits, Carries, W.Created, W.Prepared, W.NewContext, Ready;
      FitsExtended(cpu, current.thread, q, saved, t.dir, pages);
      Joined(q, saved, cpu, t, child, start, exit);
    }

    /** thread_exit. */
    method Exit()
      requires Valid()
      modifies current
      ensures Valid() && View() == S.Step(old(View()), S.Exit) && current.thread == old(current.thread)
      ensures current == old(current) && current.remove
      ensures forall w :: old(Carries(w)) ==> Carries(w)
    {
      current.remove := true;
    }

    /** sendMessage of the current thread. */
    method Send(id: nat, data: seq<bv8>)
      requires Valid()
      modifies ipc, ipc.nodes
      ensures Valid() && View() == S.Step(old(View()), S.Send(id, data))
      ensures forall n :: n in ipc.nodes ==> n in old(ipc.nodes) || fresh(n)
    {
      hide Ready, View, Linked, Distinct, S.Ok, S.Step, S.IsRunning, Ipc.Linked, Ipc.Contents, Queued, Ids, Lined;
      ghost var s := View();
      SendSeen(id, data);
      var running := IsRunning(id);
      ipc.SendMessage(running, id, data);
      Seen(S.Step(s, S.Send(id, data)));
    }

    lemma SendSeen(id: nat, data: seq<bv8>)
      requires Ready()
      ensures var s := View();
              && Shows(s) && S.Ok(S.Step(s, S.Send(id, data)))
              && S.Step(s, S.Send(id, data))
                 == s.(msgs := s.msgs + if S.IsRunning(s, id) then [S.Message(id, data)] else [])
    {
      S.StepOk(View(), S.Send(id, data));
    }

    /** receiveMessage of the current thread, as written; `throughNull` as in MessageList.ReceiveMessage. */
    method Receive() returns (throughNull: bool, r: B.Option<seq<bv8>>)
      requires Valid()
      modifies ipc, ipc.nodes
      ensures throughNull <==> old(View()).msgs == []
      ensures Valid() && View() == S.Step(old(View()), S.Receive)
      ensures forall n :: n in ipc.nodes ==> n in old(ipc.nodes)
      ensures S.Got(old(View()), S.Receive, old(View()).current) == if r.Some? then [r.value] else []
    {
      hide Ready, View, Linked, Distinct, S.Ok, S.Step, S.Got, S.FirstFor, S.Without, Ipc.Linked, Ipc.Contents, Queued,
           Ids;
      ghost var s := View();
      ReceiveSeen();
      throughNull, r := ipc.ReceiveMessage(current.thread.id);
      Seen(S.Step(s, S.Receive));
    }

    lemma ReceiveSeen()
      requires Ready()
      ensures var s := View();
              var k := S.FirstFor(s.msgs, s.current);
              && Shows(s) && S.Ok(S.Step(s, S.Receive))
              && S.Step(s, S.Receive) == s.(msgs := if k < |s.msgs| then S.Without(s.msgs, k) else s.msgs)
              && S.Got(s, S.Receive, s.current) == if k < |s.msgs| then [s.msgs[k].data] else []
    {
      hide S.Ok, S.Without, S.FirstFor, Linked, Distinct, Ipc.Linked, Ipc.Contents;
      S.StepOk(View(), S.Receive);
    }

    // the current item goes to the back of the queue (lines 218-224)
    method MoveToBack(ghost msgs: seq<S.Message>)
      requires Mail(msgs)
      requires current != null && Queued() && current !in queue && !current.remove
      modifies this`readyQueue, this`queue, queue, current
      ensures Queued() && queue == old(queue) + [current] && Mail(msgs)
    {
      ghost var q := queue;
      hide Linked, Distinct;
      readyQueue := Append(readyQueue, q, current);
      queue := q + [current];
    }

    // the first item comes off (lines 226-227)
    method TakeFirst() returns (next: Item)
      requires Queued() && readyQueue != null
      modifies this`readyQueue, this`queue
      ensures old(queue) != [] && next == old(queue)[0] && queue == old(queue)[1..] && Queued() && next !in queue
              && !next.remove
    {
      TailLinked(readyQueue, queue);
      next := readyQueue;
      readyQueue := readyQueue.next;
      queue := queue[1..];
    }

    lemma ThreadsDiffer()
      requires Valid()
      ensures DistinctThreads(queue) && forall i :: 0 <= i < |queue| ==> queue[i].thread != current.thread
    {
      assert forall i :: 0 <= i < |queue| ==> Ids(queue)[i] in Ids(queue);
    }

    // what Valid says, piece by piece
    lemma Opened()
      requires Valid()
      ensures current != null && current !in queue && Queued() && Homed() && Distinct(queue) && S.Ok(View())
              && Mail(View().msgs)
      ensures DistinctThreads(queue) && DistinctIds(current.thread, queue)
      ensures forall i :: 0 <= i < |queue| ==> queue[i].thread != current.thread
      ensures View().current == current.thread.id && View().ready == Ids(queue) && View().exiting == current.remove
              && View().counter == tid
      ensures readyQueue == null <==> queue == []
      ensures queue != [] ==> queue[0].thread != current.thread && (queue + [current])[1..] == queue[1..] + [current]
                              && (queue + [current])[0] == queue[0]
    {
      ThreadsDiffer();
    }

    // lines 226-232: the front of the queue becomes current, with its heap, registers and directory
    method Dispatch(order: B.Rule, ghost msgs: seq<S.Message>) returns (faulted: bool)
      requires Mail(msgs)
      requires current != null && Queued() && queue != [] && queue[0].thread != current.thread
      modifies this, current.thread
      ensures tid == old(tid) && mapped == old(mapped)
      ensures faulted <==> old(SwitchFaults(order))
      ensures !faulted ==> current == old(queue)[0] && queue == old(queue)[1..] && Queued() && current !in queue
      ensures !faulted ==> !current.remove && Homed() && Mail(msgs)
      ensures !faulted ==> old(current).thread.saved == old(regs)
      ensures !faulted ==> Cpu() == W.Enter(order, old(Cpu()), current.thread.dir, current.thread.saved)
      ensures !faulted ==> old(currentHeap) == old(current).thread.heap
    {
      hide Linked, Distinct, W.Faults, W.Store, W.Load, W.Pushed, W.Popped;
      assert readyQueue == queue[0] by {
        HeadOf(readyQueue, queue);
      }
      var next := TakeFirst();
      current.thread.heap := currentHeap;
      currentHeap := next.thread.heap;
      faulted := SwitchThread(order, next);
    }

    /** Switching from here to the first of the queue is a page fault. */
    ghost predicate SwitchFaults(order: B.Rule)
      reads this, queue, set it | it in queue :: it.thread
    {
      queue != [] && W.Faults(order, mapped, Cpu(), queue[0].thread.dir, queue[0].thread.saved)
    }

    /** While the stacks stay apart and mapped, that happens in no repaired switch, and as written exactly when
        the word under the incoming stack pointer is not mapped in the directory being left. */
    lemma SwitchFaultsIff(order: B.Rule, w: W.World)
      requires Valid() && Carries(w) && queue != []
      requires W.Ok(w) && W.InCall(w.threads[w.current], regs.esp)
      ensures SwitchFaults(order)
         <==> order == B.AsWritten && !W.WordOn(mapped, cr3, W.Pushed(queue[0].thread.saved.esp))
    {
      Opened();
      var t := queue[0].thread;
      assert SavedOf(queue)[0] == t.saved && Ids(queue)[0] == t.id;
      assert Placed(w.threads, t) && w.threads[t.id].saved == t.saved;
      W.FaultsIff(order, w, t.id);
    }

    // after a tick without an exit
    lemma Ticked(s: S.State, q: seq<Item>, was: Item)
      requires current != null && q != [] && S.Ok(s) && !s.exiting && s.ready == Ids(q) && s.current == was.thread.id
               && was !in q
      requires current == q[0] && queue == q[1..] + [was] && Queued() && Homed() && Mail(s.msgs) && Distinct(q)
      requires tid == s.counter && !current.remove
      ensures Valid() && View() == S.TickStep(s)
    {
      assert Ids(queue) == s.ready[1..] + [s.current];
      S.TickOk(s);
    }

    lemma Idles()
      requires Valid() && queue == []
      ensures S.TickStep(View()) == View()
    {
    }

    /** World `w` is this task manager's. */
    ghost predicate Carries(w: W.World)
      reads this, current, queue, set it | it in queue :: it.thread
    {
      current != null && w.mapped == mapped && Fits(w, Cpu(), current.thread, queue, SavedOf(queue))
    }

    /** ... and was `w` before a switch to thread `next`, in which the thread before it ended or not. */
    ghost predicate CarriesOn(order: B.Rule, w: W.World, next: nat, ended: bool)
      reads this, current, queue, set it | it in queue :: it.thread
    {
      && next in w.threads && w.current in w.threads
      && Carries(if ended then W.Left(order, w, next) else W.Switched(order, w, next))
    }

    lemma CarriedOn(order: B.Rule, w: W.World, was: Item, q: seq<Item>, saved: seq<W.Context>, cpu: W.Cpu, ended: bool)
      requires Fits(w, cpu, was.thread, q, saved) && q != [] && DistinctIds(was.thread, q) && w.mapped == mapped
      requires current == q[0] && queue == q[1..] + (if ended then [] else [was])
      requires Cpu() == W.Enter(order, cpu, q[0].thread.dir, saved[0])
      requires SavedOf(queue) == saved[1..] + if ended then [] else [cpu.regs]
      ensures CarriesOn(order, w, q[0].thread.id, ended)
    {
      FitsFront(w, cpu, was.thread, q, saved);
      if ended {
        FitsEnd(order, w, cpu, was, q, saved);
        assert q[1..] + [] == q[1..] && saved[1..] + [] == saved[1..];
      } else {
        FitsTurn(order, w, cpu, was, q, saved);
      }
    }

    // the tick of a thread that goes on
    method TakeTurns(order: B.Rule) returns (faulted: bool)
      requires Valid() && queue != [] && !current.remove
      modifies this, queue, current, current.thread
      ensures faulted <==> old(SwitchFaults(order))
      ensures !faulted ==> Valid() && View() == S.TickStep(old(View()))
      ensures !faulted ==> Switched(order, old(current), old(queue)[0], old(regs), old(Cpu()))
      ensures !faulted ==> current == old(queue)[0] && queue == old(queue)[1..] + [old(current)]
      ensures !faulted ==> forall w :: old(Carries(w)) ==> CarriesOn(order, w, old(queue)[0].thread.id, false)
    {
      hide Valid, Distinct, DistinctThreads, Linked, S.Ok, S.TickStep, Ipc.Contents, Ipc.Linked, View, Ids, W.Enter,
           Mail, Queued, Homed;
      Opened();
      ghost var s, q, was := View(), queue, current;
      ghost var saved, cpu := SavedOf(q), Cpu();
      hide Fits, DistinctIds, CarriesOn, Cpu, W.Faults;
      MoveToBack(s.msgs);
      faulted := Dispatch(order, s.msgs);
      if faulted {
        return;
      }
      Ticked(s, q, was);
      assert SavedOf(queue) == saved[1..] + [was.thread.saved];
      forall w | old(Carries(w))
        ensures CarriesOn(order, w, q[0].thread.id, false)
      {
        CarriedOn(order, w, was, q, saved, cpu, false);
      }
    }

    /** `to` runs with its saved registers, and `was`'s are saved. */
    ghost predicate Switched(order: B.Rule, was: Item, to: Item, regs: W.Context, cpu: W.Cpu)
      reads this, was.thread, to.thread
    {
      current == to && was.thread.saved == regs && Cpu() == W.Enter(order, cpu, to.thread.dir, to.thread.saved)
    }

    /** handleTimerEvent, as written. `throughNull`: the thread to be switched away from has exited, and line
        229 reads through the NULL that current_thread then is. Page 0 is mapped, so that is no page fault:
        the code goes on with whatever word 0 holds, and nothing is promised. `faulted`: switch_thread's. */
    method HandleTimerEvent() returns (throughNull: bool, faulted: bool)
      requires Valid()
      modifies this, queue, current, current.thread, ipc, ipc.nodes
      ensures throughNull <==> old(queue) != [] && old(current.remove)
      ensures faulted <==> !old(current.remove) && old(SwitchFaults(B.AsWritten))
      ensures !throughNull && !faulted ==> Valid() && View() == S.TickStep(old(View()))
      ensures !throughNull && !faulted && old(queue) != [] ==>
                && Switched(B.AsWritten, old(current), old(queue)[0], old(regs), old(Cpu()))
                && forall w :: old(Carries(w)) ==> CarriesOn(B.AsWritten, w, old(queue)[0].thread.id, false)
    {
      hide Valid, Distinct, DistinctThreads, Linked, S.Ok, S.TickStep, Ipc.Contents, Ipc.Linked, View, Ids, Queued,
           Homed, Switched, Carries, CarriesOn, W.Faults;
      Opened();
      throughNull, faulted := false, false;
      if readyQueue == null {
        Idles();
        return;
      }
      if current.remove {
        ipc.ClearMessages(current.thread.id);
        var _ := RemoveThread(current.thread);
        current := null;
        throughNull := true;
      } else {
        faulted := TakeTurns(B.AsWritten);
      }
    }

    /** handleTimerEvent, repaired: current_thread stays until switch_thread replaces it. */
    method HandleTimerEventRepaired() returns (faulted: bool)
      requires Valid()
      modifies this, queue, current, current.thread, ipc, ipc.nodes
      ensures faulted <==> old(SwitchFaults(B.Repaired))
      ensures !faulted ==> Valid() && View() == S.TickStep(old(View()))
      ensures !faulted && old(queue) != [] ==>
                && Switched(B.Repaired, old(current), old(queue)[0], old(regs), old(Cpu()))
                && forall w :: old(Carries(w)) ==>
                     CarriesOn(B.Repaired, w, old(queue)[0].thread.id, old(current.remove))
      ensures !faulted && old(queue) == [] ==> forall w :: old(Carries(w)) ==> Carries(w)
      ensures !faulted ==> forall n :: n in ipc.nodes ==> n in old(ipc.nodes)
      ensures !faulted ==> if old(queue) == [] then current == old(current) && queue == []
                           else current == old(queue)[0]
                                && queue == old(queue)[1..] + if old(current.remove) then [] else [old(current)]
    {
      hide Valid, Distinct, DistinctThreads, Linked, S.Ok, S.TickStep, Ipc.Contents, Ipc.Linked, View, Ids, Queued,
           Homed, Switched, Mail, Carries, CarriesOn, W.Faults;
      Opened();
      if readyQueue == null {
        Idles();
        return false;
      }
      if current.remove {
        faulted := EndTurn();
      } else {
        faulted := TakeTurns(B.Repaired);
      }
    }

    lemma MailParts(msgs: seq<S.Message>)
      ensures Mail(msgs) <==> ipc.Valid() && Ipc.Contents(ipc.nodes) == msgs
    {
    }

    // lines 206-212, clearMessages repaired; the current thread is not in the queue to be removed
    method ClearAndRemove(ghost msgs: seq<S.Message>)
      requires current != null && Queued() && queue != [] && Mail(msgs) && DistinctThreads(queue)
      requires forall i :: 0 <= i < |queue| ==> queue[i].thread != current.thread
      modifies this`readyQueue, this`queue, queue, ipc, ipc.nodes
      ensures Queued() && queue == old(queue) && Mail(S.Cleared(msgs, current.thread.id))
      ensures forall n :: n in ipc.nodes ==> n in old(ipc.nodes)
      ensures Homed() == old(Homed()) && current.remove == old(current.remove)
    {
      hide Linked, WithoutThread, S.Cleared, Ipc.Linked, Ipc.Contents, Distinct, DistinctThreads, Mail;
      NoneToRemove(queue, current.thread);
      MailParts(msgs);
      ipc.ClearMessagesRepaired(current.thread.id);
      MailParts(S.Cleared(msgs, current.thread.id));
      var _ := RemoveThread(current.thread);
    }

    // the tick of a thread that has exited
    method EndTurn() returns (faulted: bool)
      requires Valid() && queue != [] && current.remove
      modifies this, queue, current.thread, ipc, ipc.nodes
      ensures faulted <==> old(SwitchFaults(B.Repaired))
      ensures !faulted ==> Valid() && View() == S.TickStep(old(View()))
      ensures !faulted ==> Switched(B.Repaired, old(current), old(queue)[0], old(regs), old(Cpu()))
      ensures !faulted ==> current == old(queue)[0] && queue == old(queue)[1..]
      ensures !faulted ==> forall n :: n in ipc.nodes ==> n in old(ipc.nodes)
      ensures !faulted ==> forall w :: old(Carries(w)) ==> CarriesOn(B.Repaired, w, old(queue)[0].thread.id, true)
    {
      hide Valid, Distinct, DistinctThreads, Linked, S.Ok, S.TickStep, Ipc.Contents, Ipc.Linked, WithoutThread,
           S.Cleared, View, Ids, W.Enter, Queued, Homed, Mail;
      Opened();
      ghost var s, q, was := View(), queue, current;
      NoneToRemove(q, was.thread);
      ghost var saved, cpu := SavedOf(q), Cpu();
      hide Fits, DistinctIds, CarriesOn, Cpu, W.Faults;
      ClearAndRemove(s.msgs);
      faulted := Dispatch(B.Repaired, S.Cleared(s.msgs, s.current));
      if faulted {
        return;
      }
      Ended(s, q, was);
      assert SavedOf(queue) == saved[1..];
      forall w | old(Carries(w))
        ensures CarriesOn(B.Repaired, w, q[0].thread.id, true)
      {
        assert queue == q[1..] + [] && saved[1..] + [] == saved[1..];
        CarriedOn(B.Repaired, w, was, q, saved, cpu, true);
      }
    }

    // ----- whole runs -----

    /** The next deed would end in a page fault. */
    ghost predicate DeedFaults(deed: T.Deed)
      reads this, queue, set it | it in queue :: it.thread
    {
      match deed
      case Tick => SwitchFaults(B.Repaired)
      case CreateProcess(_, pd, _, _, _, _, _) => !W.WordOn(mapped, pd, regs.esp)
      case _ => false
    }

    lemma DeedFaultsIff(deed: T.Deed)
      requires Valid()
      ensures forall w :: Carries(w) ==> (DeedFaults(deed) <==> T.Faults(T.Both(View(), w), deed))
    {
      hide W.Faults, W.WordOn;
      Opened();
      forall w | Carries(w)
        ensures DeedFaults(deed) <==> T.Faults(T.Both(View(), w), deed)
      {
        if queue != [] {
          assert SavedOf(queue)[0] == queue[0].thread.saved && Ids(queue)[0] == queue[0].thread.id;
          assert Placed(w.threads, queue[0].thread);
        }
      }
    }

    /** The worlds this task manager may be taken for: they differ in stacks it has not allocated. */
    ghost function Worlds(): iset<W.World>
      reads this, current, queue, set it | it in queue :: it.thread
    {
      iset w | Carries(w)
    }

    /** From queue and messages `s` and worlds `ws`, one deed has led here. */
    ghost predicate Did(s: S.State, ws: iset<W.World>, deed: T.Deed)
      reads this, queue, current, if current == null then {} else {current.thread}, set it | it in queue :: it.thread,
            ipc, ipc.nodes
    {
      Valid() && View() == T.Next(s, deed) && forall w :: w in ws ==> Carries(T.Do(T.Both(s, w), deed).w)
    }

    lemma DidCreate(s: S.State, ws: iset<W.World>, deed: T.Deed, t: Thread)
      requires Valid() && View() == S.Step(s, S.Create) && t.id == s.counter
      requires match deed
               case CreateThread(child, stack, start, exit) =>
                 forall w :: w in ws ==>
                   t.dir == w.cpu.cr3 && Carries(W.Created(w, t.id, t.dir, stack, child, start, exit))
               case CreateProcess(child, pd, pages, _, stack, start, exit) =>
                 t.dir == pd && forall w :: w in ws ==>
                   Carries(W.Created(W.Extended(w, pd, pages), t.id, t.dir, stack, child, start, exit))
               case _ => false
      ensures Did(s, ws, deed)
    {
      hide Valid, View, Carries, T.Do, W.Created, W.Extended, S.Step;
      forall w | w in ws
        ensures Carries(T.Do(T.Both(s, w), deed).w)
      {
        T.DoMeans(T.Both(s, w), deed);
      }
    }

    method PerformCreateThread(deed: T.Deed)
      requires Valid() && deed.CreateThread?
      modifies this, queue
      ensures Did(old(View()), old(Worlds()), deed) && current == old(current) && |queue| == |old(queue)| + 1
      ensures queue[..|old(queue)|] == old(queue) && fresh(queue[|old(queue)|]) && fresh(queue[|old(queue)|].thread)
    {
      hide Valid, View, Carries, W.Created, W.Extended, S.Step, Did;
      Opened();
      ghost var s, ws := View(), Worlds();
      CarriesHome(ws);
      var t := CreateThread(deed.child, deed.stack, deed.start, deed.exit);
      DidCreate(s, ws, deed, t);
    }

    lemma CarriesHome(ws: iset<W.World>)
      requires Valid() && ws == Worlds()
      ensures forall w :: w in ws ==> w.cpu.cr3 == current.thread.dir
    {
    }

    method PerformCreateProcess(deed: T.Deed) returns (faulted: bool)
      requires Valid() && deed.CreateProcess?
      modifies this, queue
      ensures faulted <==> old(DeedFaults(deed))
      ensures !faulted ==> Did(old(View()), old(Worlds()), deed) && current == old(current)
      ensures !faulted ==> |queue| == |old(queue)| + 1 && queue[..|old(queue)|] == old(queue)
      ensures !faulted ==> fresh(queue[|old(queue)|]) && fresh(queue[|old(queue)|].thread)
    {
      hide Valid, View, Carries, W.Created, W.Extended, S.Step, W.WordOn, Did;
      Opened();
      ghost var s, ws := View(), Worlds();
      var t;
      faulted, t := CreateProcess(deed.child, deed.pd, deed.pages, deed.heap, deed.stack, deed.start, deed.exit);
      if !faulted {
        DidCreate(s, ws, deed, t);
      }
    }

    lemma DidTick(s: S.State, ws: iset<W.World>)
      requires Valid() && View() == S.TickStep(s)
      requires forall w :: w in ws ==> if s.ready == [] then Carries(w)
                                       else CarriesOn(B.Repaired, w, s.ready[0], s.exiting)
      ensures Did(s, ws, T.Tick)
    {
      hide Valid, View, Carries, T.Do, W.Left, W.Switched, S.TickStep;
      forall w | w in ws
        ensures Carries(T.Do(T.Both(s, w), T.Tick).w)
      {
        T.DoMeans(T.Both(s, w), T.Tick);
      }
    }

    method PerformTick() returns (faulted: bool)
      requires Valid()
      modifies this, queue, current, current.thread, ipc, ipc.nodes
      ensures faulted <==> old(DeedFaults(T.Tick))
      ensures !faulted ==> Did(old(View()), old(Worlds()), T.Tick)
      ensures !faulted ==> forall n :: n in ipc.nodes ==> n in old(ipc.nodes)
      ensures !faulted ==> forall it :: it in queue || it == current ==> it in old(queue) || it == old(current)
    {
      hide Valid, View, Carries, CarriesOn, S.TickStep, Did, Switched, SwitchFaults, Queued, Homed, DistinctIds,
           DistinctThreads;
      Opened();
      ghost var s, ws := View(), Worlds();
      assert queue != [] ==> s.ready[0] == queue[0].thread.id;
      faulted := HandleTimerEventRepaired();
      if !faulted {
        DidTick(s, ws);
      }
    }

    lemma DidRest(s: S.State, ws: iset<W.World>, deed: T.Deed)
      requires Valid() && View() == T.Next(s, deed)
      requires match deed
               case Compute(regs, writes) => forall w :: w in ws ==> Carries(W.Computed(w, regs, writes))
               case MapPages(dir, pages) => forall w :: w in ws ==> Carries(W.Extended(w, dir, pages))
               case _ => (deed.Exit? || deed.Send? || deed.Receive?) && forall w :: w in ws ==> Carries(w)
      ensures Did(s, ws, deed)
    {
      hide Valid, View, Carries, T.Do, T.Next, W.Computed, W.Extended;
      forall w | w in ws
        ensures Carries(T.Do(T.Both(s, w), deed).w)
      {
        T.DoMeans(T.Both(s, w), deed);
      }
    }

    method PerformRest(deed: T.Deed)
      requires Valid() && (deed.Compute? || deed.MapPages? || deed.Exit? || deed.Send? || deed.Receive?)
      modifies this, current, ipc, ipc.nodes
      ensures Did(old(View()), old(Worlds()), deed) && current == old(current) && queue == old(queue)
      ensures forall n :: n in ipc.nodes ==> n in old(ipc.nodes) || fresh(n)
    {
      hide Valid, View, W.Computed, W.Extended, Did, S.Step, Linked, Distinct, Queued, Homed, Fits, DistinctIds,
           DistinctThreads, Carries, Mail, S.Ok;
      Opened();
      ghost var s, ws := View(), Worlds();
      match deed {
        case Compute(regs', writes) => Compute(regs', writes);
        case MapPages(dir, pages) => MapPages(dir, pages);
        case Exit => Exit();
        case Send(id, data) => Send(id, data);
        case Receive => var _, _ := Receive();
      }
      DidRest(s, ws, deed);
    }

    /** All that belongs to the task manager. */
    ghost function Things(): set<object>
      reads this, ipc
    {
      {this, ipc} + (set it | it in queue :: it) + (set it | it in queue :: it.thread) + (set n | n in ipc.nodes :: n)
      + if current == null then {} else {current, current.thread}
    }

    lemma Inside()
      requires current != null
      ensures this in Things() && ipc in Things() && current in Things() && current.thread in Things()
      ensures forall it :: it in queue ==> it in Things() && it.thread in Things()
      ensures forall n :: n in ipc.nodes ==> n in Things()
    {
    }

    // only new objects join
    twostate lemma StaysInside()
      requires current != null && old(current) != null
      requires forall n :: n in ipc.nodes ==> n in old(ipc.nodes) || fresh(n)
      requires forall it :: it in queue || it == current ==> it in old(queue) || it == old(current)
                                                             || (fresh(it) && fresh(it.thread))
      ensures forall o :: o in Things() ==> o in old(Things()) || fresh(o)
    {
    }

    /** One deed, with the repaired timer interrupt. */
    method Perform(deed: T.Deed) returns (faulted: bool)
      requires Valid()
      modifies this, queue, current, current.thread, ipc, ipc.nodes
      ensures faulted <==> old(DeedFaults(deed))
      ensures !faulted ==> Did(old(View()), old(Worlds()), deed)
      ensures !faulted ==> forall n :: n in ipc.nodes ==> n in old(ipc.nodes) || fresh(n)
      ensures !faulted ==> forall it :: it in queue || it == current ==>
                it in old(queue) || it == old(current) || (fresh(it) && fresh(it.thread))
    {
      hide Valid, View, Did, SwitchFaults, Worlds;
      faulted := false;
      match deed {
        case Tick => faulted := PerformTick();
        case CreateThread(_, _, _, _) => PerformCreateThread(deed);
        case CreateProcess(_, _, _, _, _, _, _) => faulted := PerformCreateProcess(deed);
        case _ => PerformRest(deed);
      }
    }

    /** From world `w` the first deeds of a run have led here, none with a page fault. */
    ghost predicate Ran(x: T.Both, deeds: seq<T.Deed>)
      reads this, queue, current, if current == null then {} else {current.thread}, set it | it in queue :: it.thread,
            ipc, ipc.nodes
    {
      Valid() && T.Goes(x, deeds) && View() == T.Run(x, deeds).s && Carries(T.Run(x, deeds).w)
    }

    ghost predicate AllRan(s: S.State, ws: iset<W.World>, deeds: seq<T.Deed>)
      reads this, queue, current, if current == null then {} else {current.thread}, set it | it in queue :: it.thread,
            ipc, ipc.nodes
    {
      Valid() && forall w :: w in ws ==> Ran(T.Both(s, w), deeds)
    }

    lemma RanNone()
      requires Valid()
      ensures AllRan(View(), Worlds(), [])
    {
    }

    /** Whether the next deed ends in a page fault is the same for all of these worlds. */
    lemma NextFaults(s: S.State, ws: iset<W.World>, deeds: seq<T.Deed>, deed: T.Deed)
      requires AllRan(s, ws, deeds)
      ensures forall w :: w in ws ==> var y := T.Run(T.Both(s, w), deeds);
                T.Goes(T.Both(s, w), deeds) && y.s == View() && y.w in Worlds()
                && (T.Faults(y, deed) <==> DeedFaults(deed))
    {
      hide Valid, View, Carries, T.Run, T.Goes, T.Faults, DeedFaults;
      DeedFaultsIff(deed);
    }

    lemma RanOneMore(s: S.State, ws: iset<W.World>, deeds: seq<T.Deed>, n: nat, s1: S.State, ws1: iset<W.World>)
      requires n < |deeds| && Did(s1, ws1, deeds[n])
      requires forall w :: w in ws ==> var x := T.Both(s, w); var y := T.Run(x, deeds[..n]);
                 T.Goes(x, deeds[..n]) && y.s == s1 && y.w in ws1 && !T.Faults(y, deeds[n])
      ensures AllRan(s, ws, deeds[..n + 1])
    {
      hide Valid, View, Carries, T.Faults, T.Next, T.DoAll;
      assert deeds[..n + 1][..n] == deeds[..n];
      forall w | w in ws
        ensures Ran(T.Both(s, w), deeds[..n + 1])
      {
        var y := T.Run(T.Both(s, w), deeds[..n]);
        assert T.Both(s1, y.w) == y;
      }
    }

    /** A run of deeds: it stops, short, exactly at the first that ends in a page fault. Otherwise queue and
        messages, processor, memory and waiting threads are those of the run on values. */
    method Run(deeds: seq<T.Deed>) returns (done: nat)
      requires Valid()
      modifies Things()
      ensures done <= |deeds|
      ensures forall w :: w in old(Worlds()) ==>
                var x := T.Both(old(View()), w);
                && T.Goes(x, deeds[..done])
                && if done < |deeds| then T.Faults(T.Run(x, deeds[..done]), deeds[done]) else Ran(x, deeds)
    {
      hide Valid, View, Worlds, Carries, Did, Ran, AllRan, DeedFaults, Things, T.Run, T.Goes, T.Faults;
      done := 0;
      SomeoneRuns();
      ghost var s, ws := View(), Worlds();
      RanNone();
      assert deeds[..0] == [];
      while done < |deeds|
        invariant done <= |deeds| && Valid() && AllRan(s, ws, deeds[..done])
        invariant forall o :: o in Things() ==> o in old(Things()) || fresh(o)
      {
        SomeoneRuns();
        NextFaults(s, ws, deeds[..done], deeds[done]);
        Inside();
        ghost var s1, ws1 := View(), Worlds();
        label before:
        var faulted := Perform(deeds[done]);
        if faulted {
          return;
        }
        RanOneMore(s, ws, deeds, done, s1, ws1);
        DidValid(s1, ws1, deeds[done]);
        SomeoneRuns();
        StaysInside@before();
        done := done + 1;
      }
      assert deeds[..|deeds|] == deeds;
      AllRanEach(s, ws, deeds);
    }

    lemma SomeoneRuns()
      requires Valid()
      ensures current != null
    {
    }

    lemma DidValid(s: S.State, ws: iset<W.World>, deed: T.Deed)
      requires Did(s, ws, deed)
      ensures Valid()
    {
    }

    lemma AllRanEach(s: S.State, ws: iset<W.World>, deeds: seq<T.Deed>)
      requires AllRan(s, ws, deeds)
      ensures forall w :: w in ws ==> Ran(T.Both(s, w), deeds) && T.Goes(T.Both(s, w), deeds)
    {
    }

    // after the tick of an exited thread
    lemma Ended(s: S.State, q: seq<Item>, was: Item)
      requires current != null && q != [] && S.Ok(s) && s.exiting && s.ready == Ids(q) && s.current == was.thread.id
      requires current == q[0] && queue == q[1..] && Queued() && Homed() && Mail(S.Cleared(s.msgs, s.current))
               && Distinct(q)
      requires tid == s.counter && !current.remove
      ensures Valid() && View() == S.TickStep(s)
    {
      assert Ids(queue) == s.ready[1..];
      S.TickOk(s);
    }

    /** removeThread(t), as written. `throughNull` stands for its two reads through NULL, on an empty queue and
        after removing the last item of a longer one. Page 0 is mapped, so both go through; the rest holds if
        the words there are 0. */
    method RemoveThread(t: Thread) returns (throughNull: bool)
      requires Queued() && DistinctThreads(queue)
      modifies this`readyQueue, this`queue, queue
      ensures Queued() && forall it :: it in queue ==> it in old(queue)
      ensures throughNull <==> old(queue) == [] || (|old(queue)| > 1 && old(queue)[|old(queue)| - 1].thread == t)
      ensures queue == WithoutThread(old(queue), t)
    {
      hide WithoutThread, After, Linked, Distinct;
      var it := readyQueue;
      ghost var q := queue;
      HeadOf(it, q);
      throughNull := false;
      if it == null {
        throughNull := true;
        NoneToRemove(q, t);
        return;
      }
      RemoveRound(q, 0, t);
      assert q[..0] == [] && q[0..] == q;
      if it.thread == t {
        TailLinked(readyQueue, q);
        readyQueue := it.next;
        queue := q[1..];
        HeadRemoved(q, t);
        return;
      }
      throughNull := RemoveLater(it, q, t);
    }

    // the walk of lines 160-169, from the head, which does not match
    method RemoveLater(head: Item, ghost q: seq<Item>, t: Thread) returns (throughNull: bool)
      requires Queued() && DistinctThreads(queue) && q == queue && q != [] && head == q[0] && head.thread != t
      modifies this`queue, queue
      ensures Queued() && forall it :: it in queue ==> it in q
      ensures throughNull <==> |q| > 1 && q[|q| - 1].thread == t
      ensures queue == q[..1] + WithoutThread(q[1..], t)
    {
      hide WithoutThread, After, Linked, Distinct, DistinctThreads, Queued;
      throughNull := false;
      var it := head;
      ghost var j: nat := 0;
      while it.next != null
        invariant Queued() && DistinctThreads(queue) && (forall it :: it in queue ==> it in q)
        invariant j < |queue| && it == queue[j] && queue[j].thread != t
        invariant queue[|queue| - 1] == q[|q| - 1] && (|queue| == 1 ==> |q| == 1)
        invariant q[..1] + WithoutThread(q[1..], t) == queue[..j + 1] + WithoutThread(queue[j + 1..], t)
        decreases |queue| - j
      {
        assert forall i :: 0 <= i < |queue| ==> queue[i] in queue;
        it := PassOver(it, j, t);
        if it == null {
          throughNull := true;
          return;
        }
        j := j + 1;
      }
      NextItem(j);
      RemoveRound(queue, j + 1, t);
    }

    lemma NextItem(j: nat)
      requires Queued() && j < |queue|
      ensures queue[j].next == null <==> j + 1 == |queue|
      ensures j + 1 < |queue| ==> queue[j].next == queue[j + 1]
    {
      assert queue[j].next == After(queue, j);
    }

    // one round of the loop
    method PassOver(start: Item, ghost j: nat, t: Thread) returns (it: Item?)
      requires Queued() && DistinctThreads(queue) && j < |queue| && start == queue[j] && start.next != null
      requires queue[j].thread != t
      modifies this`queue, queue
      ensures Queued() && DistinctThreads(queue) && forall it :: it in queue ==> it in old(queue)
      ensures j < |queue| <= |old(queue)| && |queue| >= |old(queue)| - 1
      ensures it == (if j + 1 < |queue| then queue[j + 1] else null) && (it != null ==> it.thread != t)
      ensures it != null ==> queue[|queue| - 1] == old(queue)[|old(queue)| - 1]
      ensures it == null ==> old(queue)[|old(queue)| - 1].thread == t && |old(queue)| > 1
      ensures old(queue)[..j + 1] + WithoutThread(old(queue)[j + 1..], t)
           == if it == null then queue else queue[..j + 2] + WithoutThread(queue[j + 2..], t)
    {
      hide WithoutThread, Linked, Distinct, After, Queued, DistinctThreads, OncePassed;
      it := start;
      ghost var q := queue;
      NextItem(j);
      PassedFacts(q, j, t);
      if it.next.thread == t {
        UnlinkAfter(it, j);
      }
      it := it.next;
    }

    method UnlinkAfter(it: Item, ghost j: nat)
      requires Queued() && DistinctThreads(queue) && j + 1 < |queue| && it == queue[j]
      modifies this`queue, it
      ensures Queued() && DistinctThreads(queue) && queue == old(queue)[..j + 1] + old(queue)[j + 2..]
      ensures forall it :: it in queue ==> it in old(queue)
      ensures it.next == (if j + 1 < |queue| then queue[j + 1] else null)
    {
      ghost var q := queue;
      hide Linked, Distinct;
      UnlinkNext(readyQueue, q, it, j);
      queue := q[..j + 1] + q[j + 2..];
    }
  }

  method UnlinkNext(head: Item?, ghost q: seq<Item>, it: Item, ghost j: nat)
    requires Linked(head, q) && Distinct(q) && j + 1 < |q| && it == q[j]
    modifies it`next
    ensures var q' := q[..j + 1] + q[j + 2..];
            Linked(head, q') && Distinct(q') && it.next == After(q', j)
  {
    DropLinked(head, q, j);
    assert q[j].next == After(q, j) == q[j + 1] && q[j + 1].next == After(q, j + 1);
    hide After;
    var tmp := it.next;
    it.next := tmp.next;
  }
}
