/** The context switch of kernelcpp/code/thread_asm.s: what it does to registers and memory, and what every
    thread finds when its turn comes again. */
module Switching {
  import opened Basics

  const WORDS := 0x1_0000_0000
  const LOW := 0x40_0000       // create_page_directory maps the first 4 MB to themselves in every directory
  const STACK := 0x400         // new uint32_t[0x100]
  const TOP := 0x3F0           // stack + 0xFC words

  type Word = n: nat | n < WORDS

  /** The registers a thread_t holds. */
  datatype Context = Context(esp: Word, ebp: Word, ebx: Word, esi: Word, edi: Word, eflags: Word)

  type Byte = n: nat | n < 0x100

  /** A byte of memory: below 4 MB the same one in every directory, above that the directory's own. */
  datatype Cell = Cell(dir: nat, addr: nat)

  type Memory = Cell -> Byte

  /** The pages mapped above 4 MB, by directory and number. */
  type Pages = set<(nat, nat)>

  function At(dir: nat, addr: nat): Cell {
    if addr < LOW then Cell(0, addr) else Cell(dir, addr)
  }

  predicate On(mapped: Pages, dir: nat, addr: nat) {
    addr < LOW || (dir, addr / 0x1000) in mapped
  }

  /** All four bytes of the word at `addr` are on mapped pages. */
  predicate WordOn(mapped: Pages, dir: nat, addr: nat) {
    forall b :: addr <= b < addr + 4 ==> On(mapped, dir, b)
  }

  function ByteOf(v: Word, i: nat): Byte {
    match i
    case 0 => v % 0x100
    case 1 => v / 0x100 % 0x100
    case 2 => v / 0x1_0000 % 0x100
    case _ => v / 0x100_0000 % 0x100
  }

  function Load(mem: Memory, dir: nat, addr: nat): Word {
    mem(At(dir, addr)) + 0x100 * mem(At(dir, addr + 1)) + 0x1_0000 * mem(At(dir, addr + 2))
      + 0x100_0000 * mem(At(dir, addr + 3))
  }

  function Store(mem: Memory, dir: nat, addr: nat, v: Word): Memory {
    (c: Cell) => if addr <= c.addr < addr + 4 && c == At(dir, c.addr) then ByteOf(v, c.addr - addr) else mem(c)
  }

  lemma WordBytes(v: Word)
    ensures v == ByteOf(v, 0) + 0x100 * ByteOf(v, 1) + 0x1_0000 * ByteOf(v, 2) + 0x100_0000 * ByteOf(v, 3)
  {
    assert v / 0x1_0000 == v / 0x100 / 0x100 && v / 0x100_0000 == v / 0x1_0000 / 0x100;
  }

  lemma LoadStored(mem: Memory, dir: nat, addr: nat, v: Word)
    ensures Load(Store(mem, dir, addr, v), dir, addr) == v
  {
    WordBytes(v);
    hide ByteOf;
  }

  // a 32-bit stack pointer after a push and after a pop
  function Pushed(esp: Word): Word { (esp + WORDS - 4) % WORDS }
  function Popped(esp: Word): Word { (esp + 4) % WORDS }

  datatype Cpu = Cpu(regs: Context, cr3: nat, eip: Word, mem: Memory)

  /** The processor after switch_thread to a thread with directory `dir` and saved registers `to`. Repaired,
      it loads cr3 before the incoming thread's flags pass through its stack. */
  function Enter(rule: Rule, cpu: Cpu, dir: nat, to: Context): Cpu {
    var saved := Store(cpu.mem, cpu.cr3, Pushed(cpu.regs.esp), cpu.regs.eflags);
    var mem := Store(saved, if rule == AsWritten then cpu.cr3 else dir, Pushed(to.esp), to.eflags);
    Cpu(to.(esp := Popped(to.esp)), dir, Load(mem, dir, to.esp), mem)
  }

  /** Some push, pop or read of switch_thread is a page fault: its own flags, its argument, the incoming flags,
      or the return address. */
  predicate Faults(rule: Rule, mapped: Pages, cpu: Cpu, dir: nat, to: Context) {
    || !WordOn(mapped, cpu.cr3, Pushed(cpu.regs.esp)) || !WordOn(mapped, cpu.cr3, Popped(cpu.regs.esp))
    || !WordOn(mapped, if rule == AsWritten then cpu.cr3 else dir, Pushed(to.esp)) || !WordOn(mapped, dir, to.esp)
  }

  // ----- threads over whole runs -----

  /** A thread, its stack [base, base + size) and, while it waits, its registers. */
  datatype Thread = Thread(dir: nat, base: nat, size: nat, saved: Context)

  datatype World = World(cpu: Cpu, current: nat, threads: map<nat, Thread>, mapped: Pages)

  /** What happens between and at switches: the current thread computes, is switched from, ends and is
      switched from for good, has pages mapped, or creates a thread. */
  datatype Act =
    | Compute(regs: Context, writes: map<nat, Byte>)
    | Switch(next: nat)
    | Leave(next: nat)
    | Map(dir: nat, pages: set<nat>)
    | Create(id: nat, dir: nat, stack: nat, child: Word, start: Word, exit: Word)

  ghost predicate Owns(t: Thread, c: Cell) {
    exists a :: t.base <= a < t.base + t.size && c == At(t.dir, a)
  }

  ghost predicate Apart(t: Thread, u: Thread) {
    forall a, b :: t.base <= a < t.base + t.size && u.base <= b < u.base + u.size ==> At(t.dir, a) != At(u.dir, b)
  }

  // a stack pointer with room for a push
  predicate InStack(t: Thread, esp: Word) {
    t.base + 4 <= esp <= t.base + t.size < WORDS
  }

  // ... and, inside switch_thread, with the return address and the argument above it
  predicate InCall(t: Thread, esp: Word) {
    InStack(t, esp) && esp + 8 <= t.base + t.size
  }

  /** The bytes a waiting thread needs: from its stack pointer up. */
  ghost predicate Kept(t: Thread, before: Memory, after: Memory) {
    forall a :: t.saved.esp <= a < t.base + t.size ==> after(At(t.dir, a)) == before(At(t.dir, a))
  }

  ghost predicate Needs(t: Thread, c: Cell) {
    exists a :: t.saved.esp <= a < t.base + t.size && c == At(t.dir, a)
  }

  /** Thread `id` as it waits once it is switched from. */
  function Waiting(w: World, id: nat): Thread
    requires id in w.threads
  {
    if id == w.current then w.threads[id].(saved := w.cpu.regs) else w.threads[id]
  }

  /** Where the incoming thread's flags go as written: its stack address, in the directory being left. */
  function Slot(w: World, next: nat): Word
    requires next in w.threads
  {
    Pushed(w.threads[next].saved.esp)
  }

  /** Each byte of that word is none that thread `id` needs, or is what the flags have there already. */
  ghost predicate Spares(w: World, next: nat, id: nat)
    requires next in w.threads && id in w.threads
  {
    forall b :: Slot(w, next) <= b < Slot(w, next) + 4 ==>
      w.cpu.mem(At(w.cpu.cr3, b)) == ByteOf(w.threads[next].saved.eflags, b - Slot(w, next))
      || !Needs(Waiting(w, id), At(w.cpu.cr3, b))
  }

  /** A thread's whole stack is on mapped pages of its directory. */
  ghost predicate StackOn(mapped: Pages, t: Thread) {
    forall a :: t.base <= a < t.base + t.size ==> On(mapped, t.dir, a)
  }

  ghost predicate Ok(w: World) {
    && w.current in w.threads && w.cpu.cr3 == w.threads[w.current].dir
    && InStack(w.threads[w.current], w.cpu.regs.esp)
    && (forall id :: id in w.threads && id != w.current ==> InCall(w.threads[id], w.threads[id].saved.esp))
    && (forall id, other :: id in w.threads && other in w.threads && id != other ==>
          Apart(w.threads[id], w.threads[other]))
    && (forall id :: id in w.threads ==> StackOn(w.mapped, w.threads[id]))
  }

  function Written(mem: Memory, dir: nat, writes: map<nat, Byte>): Memory {
    (c: Cell) => if c.addr in writes && c == At(dir, c.addr) then writes[c.addr] else mem(c)
  }

  /** The three words createThread leaves on a new stack. */
  function Prepared(mem: Memory, dir: nat, stack: nat, child: Word, start: Word, exit: Word): Memory {
    Store(Store(Store(mem, dir, stack + TOP - 4, child), dir, stack + TOP - 8, exit), dir, stack + TOP - 12, start)
  }

  function NewContext(stack: nat): Context {
    Context((stack + TOP - 12) % WORDS, 0, 0, 0, 0, 0x200)
  }

  /** A switch the code can make: to another thread, from inside the call; as written, through a word that is
      mapped, and without harm to any thread but `gone`. */
  ghost predicate Switchable(rule: Rule, w: World, next: nat, gone: set<nat>)
    requires Ok(w)
  {
    && next in w.threads && next != w.current && InCall(w.threads[w.current], w.cpu.regs.esp)
    && (rule == AsWritten ==>
          && WordOn(w.mapped, w.cpu.cr3, Slot(w, next))
          && forall id :: id in w.threads && id != next && id !in gone ==> Spares(w, next, id))
  }

  /** What a step may do: a thread keeps its hands off the others' stacks and its own stack pointer in its
      own stack; a new stack is a block of its own. */
  ghost predicate Allowed(rule: Rule, w: World, act: Act)
    requires Ok(w)
  {
    match act
    case Compute(regs, writes) =>
      && InStack(w.threads[w.current], regs.esp)
      && (forall id, a :: id in w.threads && id != w.current && a in writes ==> !Owns(w.threads[id], At(w.cpu.cr3, a)))
    case Switch(next) => Switchable(rule, w, next, {})
    case Leave(next) => Switchable(rule, w, next, {w.current})
    case Map(_, _) => true
    case Create(id, dir, stack, _, _, _) =>
      && id !in w.threads && stack + STACK < WORDS && StackOn(w.mapped, Thread(dir, stack, STACK, NewContext(stack)))
      && (forall other :: other in w.threads ==>
            && Apart(Thread(dir, stack, STACK, NewContext(stack)), w.threads[other])
            && Apart(w.threads[other], Thread(dir, stack, STACK, NewContext(stack))))
  }

  function Entered(rule: Rule, w: World, next: nat): Cpu
    requires next in w.threads
  {
    Enter(rule, w.cpu, w.threads[next].dir, w.threads[next].saved)
  }

  function Switched(rule: Rule, w: World, next: nat): World
    requires next in w.threads && w.current in w.threads
  {
    World(Entered(rule, w, next), next, w.threads[w.current := Waiting(w, w.current)], w.mapped)
  }

  function Left(rule: Rule, w: World, next: nat): World
    requires next in w.threads
  {
    World(Entered(rule, w, next), next, w.threads - {w.current}, w.mapped)
  }

  function Created(w: World, id: nat, dir: nat, stack: nat, child: Word, start: Word, exit: Word): World {
    w.(cpu := w.cpu.(mem := Prepared(w.cpu.mem, dir, stack, child, start, exit)),
       threads := w.threads[id := Thread(dir, stack, STACK, NewContext(stack))])
  }

  function Computed(w: World, regs: Context, writes: map<nat, Byte>): World {
    w.(cpu := w.cpu.(regs := regs, mem := Written(w.cpu.mem, w.cpu.cr3, writes)))
  }

  function Extended(w: World, dir: nat, pages: set<nat>): World {
    w.(mapped := w.mapped + set p | p in pages :: (dir, p))
  }

  /** What an act does, allowed or not; a switch to no thread does nothing. */
  function Do(rule: Rule, w: World, act: Act): World {
    match act
    case Compute(regs, writes) => Computed(w, regs, writes)
    case Switch(next) => if next in w.threads && w.current in w.threads then Switched(rule, w, next) else w
    case Leave(next) => if next in w.threads then Left(rule, w, next) else w
    case Map(dir, pages) => Extended(w, dir, pages)
    case Create(id, dir, stack, child, start, exit) => Created(w, id, dir, stack, child, start, exit)
  }

  ghost function Step(rule: Rule, w: World, act: Act): World
    requires Ok(w) && Allowed(rule, w, act)
  {
    Do(rule, w, act)
  }

  /** `acts` leads from `w` to `w'` by allowed steps. */
  ghost predicate Leads(rule: Rule, w: World, acts: seq<Act>, w': World)
    decreases |acts|
  {
    && Ok(w)
    && if acts == [] then w' == w
       else Allowed(rule, w, acts[0]) && Leads(rule, Step(rule, w, acts[0]), acts[1..], w')
  }

  /** Runs grow by a step at the end as well. */
  lemma {:induction false} LeadsOn(rule: Rule, w: World, acts: seq<Act>, w': World, act: Act)
    requires Leads(rule, w, acts, w') && Ok(w') && Allowed(rule, w', act)
    ensures Leads(rule, w, acts + [act], Step(rule, w', act))
    decreases |acts|
  {
    StepOk(rule, w', act);
    var s := Step(rule, w', act);
    if acts == [] {
      assert [] + [act] == [act] && [act][1..] == [];
      assert Leads(rule, s, [], s);
    } else {
      LeadsOn(rule, Step(rule, w, acts[0]), acts[1..], w', act);
      assert (acts + [act])[0] == acts[0] && (acts + [act])[1..] == acts[1..] + [act];
    }
  }

  lemma PushStaysHome(t: Thread, esp: Word, u: Thread, a: nat)
    requires InStack(t, esp) && Apart(u, t) && u.base <= a < u.base + u.size
    ensures forall b :: Pushed(esp) <= b < Pushed(esp) + 4 ==> At(t.dir, b) != At(u.dir, a)
  {
    assert Pushed(esp) == esp - 4;
  }

  /** With cr3 loaded first a switch is never a page fault; as written it is exactly when the incoming stack
      pointer's word is on no mapped page of the directory being left. */
  lemma FaultsIff(rule: Rule, w: World, next: nat)
    requires Ok(w) && Switchable(Repaired, w, next, {})
    ensures var t := w.threads[next];
            Faults(rule, w.mapped, w.cpu, t.dir, t.saved)
            <==> rule == AsWritten && !WordOn(w.mapped, w.cpu.cr3, Slot(w, next))
  {
    var out, t := w.threads[w.current], w.threads[next];
    assert StackOn(w.mapped, out) && StackOn(w.mapped, t);
    assert Pushed(w.cpu.regs.esp) == w.cpu.regs.esp - 4 && Popped(w.cpu.regs.esp) == w.cpu.regs.esp + 4;
    assert Pushed(t.saved.esp) == t.saved.esp - 4;
    hide Apart;
  }

  lemma StepOk(rule: Rule, w: World, act: Act)
    requires Ok(w) && Allowed(rule, w, act)
    ensures Ok(Step(rule, w, act))
  {
    hide Written, Prepared, Store, Load, At, Spares, WordOn, StackOn;
    match act
    case Compute(_, _) =>
    case Switch(next) => SwitchOk(rule, w, next, {});
    case Leave(next) => SwitchOk(rule, w, next, {w.current});
    case Map(dir, pages) => StacksStayOn(w, dir, pages);
    case Create(_, _, _, _, _, _) =>
  }

  lemma StacksStayOn(w: World, dir: nat, pages: set<nat>)
    requires Ok(w)
    ensures forall id :: id in w.threads ==> StackOn(Extended(w, dir, pages).mapped, w.threads[id])
  {
    hide Apart;
    forall id, a | id in w.threads && w.threads[id].base <= a < w.threads[id].base + w.threads[id].size
      ensures On(Extended(w, dir, pages).mapped, w.threads[id].dir, a)
    {
      assert StackOn(w.mapped, w.threads[id]) && On(w.mapped, w.threads[id].dir, a);
    }
  }

  // where a stack is mapped does not depend on the registers waiting with it
  lemma StackOnSaved(mapped: Pages, t: Thread, saved: Context)
    ensures StackOn(mapped, t.(saved := saved)) <==> StackOn(mapped, t)
  {
  }

  lemma SwitchOk(rule: Rule, w: World, next: nat, gone: set<nat>)
    requires Ok(w) && Switchable(rule, w, next, gone)
    ensures Ok(Switched(rule, w, next)) && Ok(Left(rule, w, next))
  {
    hide Store, Load, At, Spares, WordOn, StackOn;
    StackOnSaved(w.mapped, w.threads[w.current], w.cpu.regs);
    var cpu := Entered(rule, w, next);
    assert cpu.regs.esp == w.threads[next].saved.esp + 4 && cpu.cr3 == w.threads[next].dir;
    hide Entered, Apart;
  }

  // ----- what one switch does to the others' stacks -----

  lemma RepairedKeeps(w: World, next: nat, id: nat)
    requires Ok(w) && Switchable(Repaired, w, next, {}) && id in w.threads && id != next
    ensures Kept(Waiting(w, id), w.cpu.mem, Entered(Repaired, w, next).mem)
  {
    var t, u := Waiting(w, id), w.threads[next];
    forall a | t.saved.esp <= a < t.base + t.size
      ensures Entered(Repaired, w, next).mem(At(t.dir, a)) == w.cpu.mem(At(t.dir, a))
    {
      PushStaysHome(u, u.saved.esp, t, a);
      LeavingPushApart(w, id, a);
    }
  }

  // the flags saved on the way out lie below everything any thread needs
  lemma LeavingPushApart(w: World, id: nat, a: nat)
    requires Ok(w) && InCall(w.threads[w.current], w.cpu.regs.esp) && id in w.threads
    requires Waiting(w, id).saved.esp <= a < w.threads[id].base + w.threads[id].size
    ensures forall b :: Pushed(w.cpu.regs.esp) <= b < Pushed(w.cpu.regs.esp) + 4 ==>
              At(w.cpu.cr3, b) != At(w.threads[id].dir, a)
  {
    if id == w.current {
      assert Pushed(w.cpu.regs.esp) == w.cpu.regs.esp - 4;
    } else {
      PushStaysHome(w.threads[w.current], w.cpu.regs.esp, w.threads[id], a);
    }
  }

  /** As written, when the switch is no page fault, the incoming thread's flags overwrite one word of the
      outgoing directory: its bytes, and those under the outgoing stack pointer, are the only ones to change. */
  lemma AsWrittenTouches(w: World, next: nat)
    requires next in w.threads
    ensures var after, x, y := Entered(AsWritten, w, next).mem, Slot(w, next), Pushed(w.cpu.regs.esp);
            && (forall b :: x <= b < x + 4 ==> after(At(w.cpu.cr3, b)) == ByteOf(w.threads[next].saved.eflags, b - x))
            && forall c: Cell :: after(c) != w.cpu.mem(c) ==>
                 c == At(w.cpu.cr3, c.addr) && (x <= c.addr < x + 4 || y <= c.addr < y + 4)
  {
    hide ByteOf;
  }

  /** As written, the switch goes through and every thread that is not the one coming in, the outgoing one
      included, keeps the stack it needs, exactly when that word is mapped and each of its bytes is none of
      what the thread needs, or happens to be what the flags have there. */
  lemma AsWrittenHarmlessIff(w: World, next: nat, id: nat)
    requires Ok(w) && Switchable(Repaired, w, next, {}) && id in w.threads && id != next
    ensures var t := w.threads[next];
            && !Faults(AsWritten, w.mapped, w.cpu, t.dir, t.saved)
            && Kept(Waiting(w, id), w.cpu.mem, Entered(AsWritten, w, next).mem)
            <==> WordOn(w.mapped, w.cpu.cr3, Slot(w, next)) && Spares(w, next, id)
  {
    FaultsIff(AsWritten, w, next);
    StackKeptIff(w, next, id);
  }

  lemma StackKeptIff(w: World, next: nat, id: nat)
    requires Ok(w) && Switchable(Repaired, w, next, {}) && id in w.threads && id != next
    ensures Kept(Waiting(w, id), w.cpu.mem, Entered(AsWritten, w, next).mem) <==> Spares(w, next, id)
  {
    var t, x, after := Waiting(w, id), Slot(w, next), Entered(AsWritten, w, next).mem;
    AsWrittenTouches(w, next);
    hide ByteOf, Enter;
    if Spares(w, next, id) {
      forall a | t.saved.esp <= a < t.base + t.size
        ensures after(At(t.dir, a)) == w.cpu.mem(At(t.dir, a))
      {
        LeavingPushApart(w, id, a);
        assert Needs(t, At(t.dir, a));
      }
    }
    if Kept(t, w.cpu.mem, after) {
      forall b | x <= b < x + 4 && Needs(t, At(w.cpu.cr3, b))
        ensures w.cpu.mem(At(w.cpu.cr3, b)) == ByteOf(w.threads[next].saved.eflags, b - x)
      {
        var a :| t.saved.esp <= a < t.base + t.size && At(w.cpu.cr3, b) == At(t.dir, a);
        assert after(At(t.dir, a)) == w.cpu.mem(At(t.dir, a));
      }
    }
  }

  lemma SwitchKeeps(rule: Rule, w: World, next: nat, gone: set<nat>, id: nat)
    requires Ok(w) && Switchable(rule, w, next, gone) && id in w.threads && id != next && id !in gone
    ensures Kept(Waiting(w, id), w.cpu.mem, Entered(rule, w, next).mem)
  {
    if rule == AsWritten {
      StackKeptIff(w, next, id);
    } else {
      RepairedKeeps(w, next, id);
    }
  }

  // switching in enters through the saved stack pointer and keeps the stack above it, in either order
  lemma ComesIn(rule: Rule, w: World, next: nat)
    requires Ok(w) && Switchable(Repaired, w, next, {})
    ensures var cpu, t := Entered(rule, w, next), w.threads[next];
            && cpu.regs == t.saved.(esp := t.saved.esp + 4) && cpu.cr3 == t.dir
            && cpu.eip == Load(w.cpu.mem, t.dir, t.saved.esp) && Kept(t, w.cpu.mem, cpu.mem)
  {
    var cpu, t := Entered(rule, w, next), w.threads[next];
    forall a | t.saved.esp <= a < t.base + t.size
      ensures cpu.mem(At(t.dir, a)) == w.cpu.mem(At(t.dir, a))
    {
      LeavingPushApart(w, next, a);
      assert Pushed(t.saved.esp) == t.saved.esp - 4;
    }
    LoadKept(t, w.cpu.mem, cpu.mem, t.saved.esp);
    assert cpu.eip == Load(cpu.mem, t.dir, t.saved.esp);
  }

  lemma LoadKept(t: Thread, before: Memory, after: Memory, a: nat)
    requires Kept(t, before, after) && t.saved.esp <= a && a + 4 <= t.base + t.size
    ensures Load(after, t.dir, a) == Load(before, t.dir, a)
  {
  }

  // ----- what a whole run does -----

  predicate Runs(act: Act, id: nat) {
    (act.Switch? || act.Leave?) && act.next == id
  }

  /** A step of others leaves a waiting thread its registers and every word of its stack it still needs. */
  lemma OthersStep(rule: Rule, w: World, act: Act, id: nat)
    requires Ok(w) && Allowed(rule, w, act) && id in w.threads && id != w.current && !Runs(act, id)
    ensures var w' := Step(rule, w, act);
            w'.current != id && id in w'.threads && w'.threads[id] == w.threads[id]
            && Kept(w.threads[id], w.cpu.mem, w'.cpu.mem)
  {
    var t, w' := w.threads[id], Step(rule, w, act);
    match act
    case Switch(next) => SwitchKeeps(rule, w, next, {}, id);
    case Leave(next) => SwitchKeeps(rule, w, next, {w.current}, id);
    case Compute(regs, writes) =>
      forall a | t.saved.esp <= a < t.base + t.size
        ensures w'.cpu.mem(At(t.dir, a)) == w.cpu.mem(At(t.dir, a))
      {
        assert Owns(t, At(t.dir, a));
      }
    case Create(fresh_, dir, stack, child, start, exit) =>
      forall a | t.saved.esp <= a < t.base + t.size
        ensures w'.cpu.mem(At(t.dir, a)) == w.cpu.mem(At(t.dir, a))
      {
        assert Apart(Thread(dir, stack, STACK, NewContext(stack)), t);
        assert forall b :: stack <= b < stack + STACK ==> At(dir, b) != At(t.dir, a);
      }
    case Map(_, _) =>
  }

  ghost predicate NeverRuns(acts: seq<Act>, id: nat) {
    forall i :: 0 <= i < |acts| ==> !Runs(acts[i], id)
  }

  lemma {:induction false} OthersRun(rule: Rule, w: World, acts: seq<Act>, w': World, id: nat)
    requires Leads(rule, w, acts, w') && NeverRuns(acts, id) && id in w.threads && id != w.current
    ensures w'.current != id && id in w'.threads && w'.threads[id] == w.threads[id]
    ensures Kept(w.threads[id], w.cpu.mem, w'.cpu.mem)
    decreases |acts|
  {
    if acts != [] {
      OthersStep(rule, w, acts[0], id);
      assert NeverRuns(acts[1..], id) by {
        assert forall i :: 0 <= i < |acts[1..]| ==> acts[1..][i] == acts[i + 1];
      }
      OthersRun(rule, Step(rule, w, acts[0]), acts[1..], w', id);
    }
  }

  /** A thread switched out and, after anything the others do, switched back in returns from its own call
      of switch_thread with the registers, flags, directory and stack it left. Repaired in every run; as
      written in those whose switches spare every waiting thread. */
  lemma RoundTrip(rule: Rule, w: World, next: nat, acts: seq<Act>, w': World, last: Act)
    requires Ok(w) && Allowed(rule, w, Switch(next)) && Leads(rule, Step(rule, w, Switch(next)), acts, w')
    requires NeverRuns(acts, w.current) && Ok(w') && Allowed(rule, w', last) && Runs(last, w.current)
    ensures var r, t := Step(rule, w', last), w.threads[w.current];
            && r.current == w.current
            && r.cpu.regs == w.cpu.regs.(esp := w.cpu.regs.esp + 4)
            && r.cpu.cr3 == w.cpu.cr3
            && r.cpu.eip == Load(w.cpu.mem, w.cpu.cr3, w.cpu.regs.esp)
            && forall a :: w.cpu.regs.esp <= a < t.base + t.size ==> r.cpu.mem(At(t.dir, a)) == w.cpu.mem(At(t.dir, a))
  {
    hide Enter, Load, Spares, Apart, StackOn, WordOn;
    var s, t := Step(rule, w, Switch(next)), Waiting(w, w.current);
    assert s.threads[w.current] == t;
    SwitchKeeps(rule, w, next, {}, w.current);
    OthersRun(rule, s, acts, w', w.current);
    ComesIn(rule, w', w.current);
    KeptTwice(t, w.cpu.mem, s.cpu.mem, w'.cpu.mem);
    KeptTwice(t, w.cpu.mem, w'.cpu.mem, Step(rule, w', last).cpu.mem);
    LoadKept(t, w.cpu.mem, w'.cpu.mem, t.saved.esp);
  }

  /** Two processes with their stacks at the same address; the second one's thread is new. */
  function Pair(regs: Context, mem: Memory): World {
    World(Cpu(regs, 1, 0, mem), 0, map[0 := Thread(1, LOW, STACK, regs), 1 := Thread(2, LOW, STACK, NewContext(LOW))],
          {(1, 0x400), (2, 0x400)})
  }

  lemma PairGoes(rule: Rule, regs: Context, mem: Memory)
    requires regs.esp == LOW + 0x3E8
    ensures Ok(Pair(regs, mem)) && Allowed(rule, Pair(regs, mem), Switch(1))
  {
    var w := Pair(regs, mem);
    assert Apart(w.threads[0], w.threads[1]) && Apart(w.threads[1], w.threads[0]);
    assert StackOn(w.mapped, w.threads[0]) && StackOn(w.mapped, w.threads[1]);
    assert Slot(w, 1) == LOW + 0x3E0;
    hide ByteOf;
  }

  lemma PairReturns(rule: Rule, v: World, regs: Context)
    requires Ok(v) && v.threads.Keys == {0, 1} && v.current == 1 && v.mapped == {(1, 0x400), (2, 0x400)}
    requires v.threads[0] == Thread(1, LOW, STACK, regs) && regs.esp == LOW + 0x3E8
    requires v.threads[1].dir == 2 && v.threads[1].base == LOW && v.threads[1].size == STACK
             && v.cpu.regs.esp == LOW + 0x3E8
    ensures Allowed(rule, v, Switch(0))
  {
    assert Slot(v, 0) == LOW + 0x3E4;
    hide ByteOf, Apart;
  }

  /** There are such runs, in either order, there and back between two processes. */
  lemma ThereAndBack(rule: Rule, regs: Context, mem: Memory)
    requires regs.esp == LOW + 0x3E8 // above the slot
    ensures var w := Pair(regs, mem);
            && Ok(w) && Allowed(rule, w, Switch(1))
            && var v := Step(rule, w, Switch(1));
            && Leads(rule, v, [], v) && Allowed(rule, v, Switch(0))
            && Step(rule, v, Switch(0)).cpu.regs == regs.(esp := regs.esp + 4)
  {
    PairGoes(rule, regs, mem);
    hide Ok, Allowed, Load, Kept, Switchable, Enter;
    var w := Pair(regs, mem);
    StepOk(rule, w, Switch(1));
    LastIsSwitch(rule, w, Switch(1));
    ComesIn(rule, w, 1);
    var v := Step(rule, w, Switch(1));
    PairReturns(rule, v, regs);
    LastIsSwitch(rule, v, Switch(0));
    ComesIn(rule, v, 0);
  }


  /** However late it comes, a new thread's first switch enters `start` with `exit` as the return address
      and `child` as the argument, interrupts enabled. */
  lemma FirstSwitch(rule: Rule, w: World, act: Act, acts: seq<Act>, w': World, last: Act)
    requires Ok(w) && act.Create? && Allowed(rule, w, act) && Leads(rule, Step(rule, w, act), acts, w')
    requires NeverRuns(acts, act.id) && Ok(w') && Allowed(rule, w', last) && Runs(last, act.id)
    ensures var cpu := Step(rule, w', last).cpu;
            && cpu.eip == act.start && cpu.cr3 == act.dir
            && Load(cpu.mem, cpu.cr3, cpu.regs.esp) == act.exit
            && Load(cpu.mem, cpu.cr3, cpu.regs.esp + 4) == act.child
            && cpu.regs.esp + 8 == act.stack + TOP && cpu.regs.ebp == 0 && cpu.regs.eflags == 0x200
            && cpu.regs.ebx == cpu.regs.esi == cpu.regs.edi == 0
  {
    hide Enter, Load, Spares, Apart, Prepared, Store, InStack, Leads, Switchable, StackOn, WordOn;
    var s, t := Step(rule, w, act), Thread(act.dir, act.stack, STACK, NewContext(act.stack));
    CreatedWaits(rule, w, act);
    OthersRun(rule, s, acts, w', act.id);
    LastIsSwitch(rule, w', last);
    ComesIn(rule, w', act.id);
    PreparedWords(w.cpu.mem, act.dir, act.stack, act.child, act.start, act.exit);
    KeptTwice(t, s.cpu.mem, w'.cpu.mem, Step(rule, w', last).cpu.mem);
    LoadKept(t, s.cpu.mem, w'.cpu.mem, t.saved.esp);
    LoadKept(t, s.cpu.mem, Step(rule, w', last).cpu.mem, t.saved.esp + 4);
    LoadKept(t, s.cpu.mem, Step(rule, w', last).cpu.mem, t.saved.esp + 8);
  }

  lemma CreatedWaits(rule: Rule, w: World, act: Act)
    requires Ok(w) && act.Create? && Allowed(rule, w, act)
    ensures var s := Step(rule, w, act);
            && s.cpu.mem == Prepared(w.cpu.mem, act.dir, act.stack, act.child, act.start, act.exit)
            && act.id in s.threads && act.id != s.current && act.stack + STACK < WORDS
            && s.threads[act.id] == Thread(act.dir, act.stack, STACK, NewContext(act.stack))
  {
  }

  lemma LastIsSwitch(rule: Rule, w: World, act: Act)
    requires Ok(w) && Allowed(rule, w, act) && (act.Switch? || act.Leave?)
    ensures Switchable(Repaired, w, act.next, {}) && Step(rule, w, act).cpu == Entered(rule, w, act.next)
            && Step(rule, w, act).current == act.next
  {
  }

  lemma PreparedWords(mem: Memory, dir: nat, stack: nat, child: Word, start: Word, exit: Word)
    requires stack + STACK < WORDS
    ensures var m, e := Prepared(mem, dir, stack, child, start, exit), NewContext(stack).esp;
            e == stack + TOP - 12 && Load(m, dir, e) == start && Load(m, dir, e + 4) == exit
            && Load(m, dir, e + 8) == child
  {
    WordBytes(child);
    WordBytes(exit);
    WordBytes(start);
    hide ByteOf;
  }

  lemma KeptTwice(t: Thread, a: Memory, b: Memory, c: Memory)
    requires Kept(t, a, b) && Kept(t, b, c)
    ensures Kept(t, a, c)
  {
    forall x | t.saved.esp <= x < t.base + t.size
      ensures c(At(t.dir, x)) == a(At(t.dir, x))
    {
      assert b(At(t.dir, x)) == a(At(t.dir, x));
    }
  }

  // ----- who is harmed as written -----

  /** Every process gets its first stack at the same address, so the first switch into a new process
      overwrites the outgoing process's stack word there, unless the word holds the new thread's flags. */
  lemma NewProcessDamages(w: World, next: nat)
    requires Ok(w) && Switchable(Repaired, w, next, {})
    requires var t, n := w.threads[w.current], w.threads[next];
             && n.base == t.base >= LOW && n.dir != t.dir && n.saved == NewContext(n.base) && t.size == STACK
             && w.cpu.regs.esp <= t.base + TOP - 16 && Load(w.cpu.mem, t.dir, t.base + TOP - 16) != 0x200
    ensures !Spares(w, next, w.current)
    ensures !Faults(AsWritten, w.mapped, w.cpu, w.threads[next].dir, w.threads[next].saved)
    ensures !Kept(Waiting(w, w.current), w.cpu.mem, Entered(AsWritten, w, next).mem)
  {
    var t, x := w.threads[w.current], w.threads[w.current].base + TOP - 16;
    assert Slot(w, next) == x;
    FaultsIff(AsWritten, w, next);
    assert StackOn(w.mapped, t);
    StackKeptIff(w, next, w.current);
    WordDiffers(w.cpu.mem, t.dir, x, 0x200);
    var b :| x <= b < x + 4 && w.cpu.mem(At(t.dir, b)) != ByteOf(0x200, b - x);
    assert Needs(Waiting(w, w.current), At(t.dir, b));
    hide ByteOf, Load, Enter, Apart;
  }

  lemma WordDiffers(mem: Memory, dir: nat, x: nat, v: Word)
    requires Load(mem, dir, x) != v
    ensures exists b :: x <= b < x + 4 && mem(At(dir, b)) != ByteOf(v, b - x)
  {
    WordBytes(v);
    hide ByteOf;
    assert mem(At(dir, x)) != ByteOf(v, x - x) || mem(At(dir, x + 1)) != ByteOf(v, x + 1 - x)
        || mem(At(dir, x + 2)) != ByteOf(v, x + 2 - x) || mem(At(dir, x + 3)) != ByteOf(v, x + 3 - x);
  }

  const HEAP_BLOCK := 0xD000_0008   // the first payload on a heap

  /** The one harmed need not be the one switched from: in two processes of two threads each, switching from
      the first thread of one to the second of the other hits the second thread of the first. */
  lemma BystanderDamaged(regs: Context, waits: Context, mem: Memory)
    requires regs.esp == HEAP_BLOCK + 0x200 && waits.esp == HEAP_BLOCK + 0x408 + 0x200
    requires Load(mem, 1, HEAP_BLOCK + 0x408 + TOP - 16) != 0x200
    ensures var second := HEAP_BLOCK + 0x408;
            var w := World(Cpu(regs, 1, 0, mem), 0,
                           map[0 := Thread(1, HEAP_BLOCK, STACK, regs), 1 := Thread(1, second, STACK, waits),
                               2 := Thread(2, second, STACK, NewContext(second))],
                           {(1, 0xD_0000), (2, 0xD_0000)});
            && Ok(w) && Switchable(Repaired, w, 2, {}) && Spares(w, 2, 0) && !Spares(w, 2, 1)
            && Kept(Waiting(w, 0), mem, Entered(AsWritten, w, 2).mem)
            && !Kept(Waiting(w, 1), mem, Entered(AsWritten, w, 2).mem)
  {
    var second := HEAP_BLOCK + 0x408;
    var t0, t1, t2 := Thread(1, HEAP_BLOCK, STACK, regs), Thread(1, second, STACK, waits),
        Thread(2, second, STACK, NewContext(second));
    var w := World(Cpu(regs, 1, 0, mem), 0, map[0 := t0, 1 := t1, 2 := t2], {(1, 0xD_0000), (2, 0xD_0000)});
    var x := second + TOP - 16;
    assert Apart(t0, t1) && Apart(t1, t0) && Apart(t0, t2) && Apart(t2, t0) && Apart(t1, t2) && Apart(t2, t1);
    assert StackOn(w.mapped, t0) && StackOn(w.mapped, t1) && StackOn(w.mapped, t2);
    assert Slot(w, 2) == x;
    WordDiffers(mem, 1, x, 0x200);
    hide ByteOf, Load, Enter;
    var b :| x <= b < x + 4 && mem(At(1, b)) != ByteOf(0x200, b - x);
    assert Needs(t1, At(1, b));
    StackKeptIff(w, 2, 0);
    StackKeptIff(w, 2, 1);
  }

  /** Nor need the word be there at all: a thread that a process created after taking 20 kB of its heap cannot
      be switched to from a process that has taken none, though no thread's stack is near. */
  lemma UnmappedSlot(regs: Context, mem: Memory)
    requires regs.esp == HEAP_BLOCK + 0x200
    ensures var later := HEAP_BLOCK + 0x5000;
            var w := World(Cpu(regs, 1, 0, mem), 0,
                           map[0 := Thread(1, HEAP_BLOCK, STACK, regs),
                               1 := Thread(2, later, STACK, NewContext(later))],
                           {(1, 0xD_0000), (1, 0xD_0001), (2, 0xD_0000), (2, 0xD_0005), (2, 0xD_0006)});
            && Ok(w) && Switchable(Repaired, w, 1, {}) && Spares(w, 1, 0)
            && Faults(AsWritten, w.mapped, w.cpu, 2, w.threads[1].saved)
            && !Faults(Repaired, w.mapped, w.cpu, 2, w.threads[1].saved)
  {
    var later := HEAP_BLOCK + 0x5000;
    var t0, t1 := Thread(1, HEAP_BLOCK, STACK, regs), Thread(2, later, STACK, NewContext(later));
    var mapped := {(1, 0xD_0000), (1, 0xD_0001), (2, 0xD_0000), (2, 0xD_0005), (2, 0xD_0006)};
    var w := World(Cpu(regs, 1, 0, mem), 0, map[0 := t0, 1 := t1], mapped);
    assert Apart(t0, t1) && Apart(t1, t0) && StackOn(mapped, t0) && StackOn(mapped, t1);
    var x := later + TOP - 16;
    assert Slot(w, 1) == x && !On(mapped, 1, x);
    FaultsIff(AsWritten, w, 1);
    FaultsIff(Repaired, w, 1);
  }
}
