/** Runs of the task manager as a whole: its queue and messages (Scheduling) and its processor, memory and
    waiting threads (Switching) driven by the same deeds, with the repaired timer interrupt and switch. */
module Turns {
  import opened Basics
  import S = Scheduling
  import W = Switching

  /** What a thread does, what is done for it, and the timer's tick. */
  datatype Deed =
    | Compute(regs: W.Context, writes: map<nat, W.Byte>)
    | MapPages(dir: nat, pages: set<nat>)
    | CreateThread(child: W.Word, stack: nat, start: W.Word, exit: W.Word)
    | CreateProcess(child: W.Word, pd: nat, pages: set<nat>, heap: nat, stack: nat, start: W.Word, exit: W.Word)
    | Exit
    | Send(id: nat, data: seq<bv8>)
    | Receive
    | Tick

  datatype Both = Both(s: S.State, w: W.World)

  function Events(deed: Deed): seq<S.Event> {
    match deed
    case Compute(_, _) => []
    case MapPages(_, _) => []
    case CreateThread(_, _, _, _) => [S.Create]
    case CreateProcess(_, _, _, _, _, _, _) => [S.Create]
    case Exit => [S.Exit]
    case Send(id, data) => [S.Send(id, data)]
    case Receive => [S.Receive]
    case Tick => [S.Tick]
  }

  /** The same as acts of the world, in state `s` with directory `dir` loaded. */
  function Acts(s: S.State, dir: nat, deed: Deed): seq<W.Act> {
    match deed
    case Compute(regs, writes) => [W.Compute(regs, writes)]
    case MapPages(d, pages) => [W.Map(d, pages)]
    case CreateThread(child, stack, start, exit) => [W.Create(s.counter, dir, stack, child, start, exit)]
    case CreateProcess(child, pd, pages, _, stack, start, exit) =>
      [W.Map(pd, pages), W.Create(s.counter, pd, stack, child, start, exit)]
    case Tick => if s.ready == [] then [] else [if s.exiting then W.Leave(s.ready[0]) else W.Switch(s.ready[0])]
    case _ => []
  }

  function DoAll(w: W.World, acts: seq<W.Act>): W.World
    decreases |acts|
  {
    if acts == [] then w else DoAll(W.Do(Repaired, w, acts[0]), acts[1..])
  }

  function Next(s: S.State, deed: Deed): S.State {
    if Events(deed) == [] then s else S.Step(s, Events(deed)[0])
  }

  function Do(x: Both, deed: Deed): Both {
    Both(Next(x.s, deed), DoAll(x.w, Acts(x.s, x.w.cpu.cr3, deed)))
  }

  function Run(x: Both, deeds: seq<Deed>): Both {
    if deeds == [] then x else Do(Run(x, deeds[..|deeds| - 1]), deeds[|deeds| - 1])
  }

  /** The deed ends in a page fault. */
  predicate Faults(x: Both, deed: Deed) {
    match deed
    case Tick => x.s.ready != [] && x.s.ready[0] in x.w.threads
                 && var t := x.w.threads[x.s.ready[0]]; W.Faults(Repaired, x.w.mapped, x.w.cpu, t.dir, t.saved)
    case CreateProcess(_, pd, _, _, _, _, _) => !W.WordOn(x.w.mapped, pd, x.w.cpu.regs.esp)
    case _ => false
  }

  /** No deed of the run does. */
  predicate Goes(x: Both, deeds: seq<Deed>) {
    deeds == [] || (var n := |deeds| - 1; Goes(x, deeds[..n]) && !Faults(Run(x, deeds[..n]), deeds[n]))
  }

  /** What a deed is to the world. */
  lemma DoMeans(x: Both, deed: Deed)
    ensures Do(x, deed).w ==
            match deed
            case Compute(regs, writes) => W.Computed(x.w, regs, writes)
            case MapPages(dir, pages) => W.Extended(x.w, dir, pages)
            case CreateThread(child, stack, start, exit) =>
              W.Created(x.w, x.s.counter, x.w.cpu.cr3, stack, child, start, exit)
            case CreateProcess(child, pd, pages, _, stack, start, exit) =>
              W.Created(W.Extended(x.w, pd, pages), x.s.counter, pd, stack, child, start, exit)
            case Tick =>
              if x.s.ready == [] || x.s.ready[0] !in x.w.threads || x.w.current !in x.w.threads then Do(x, deed).w
              else if x.s.exiting then W.Left(Repaired, x.w, x.s.ready[0])
              else W.Switched(Repaired, x.w, x.s.ready[0])
            case _ => x.w
    ensures deed.Tick? && x.s.ready == [] ==> Do(x, deed).w == x.w
  {
    hide W.Computed, W.Extended, W.Created, W.Left, W.Switched;
    var acts := Acts(x.s, x.w.cpu.cr3, deed);
    if acts != [] {
      assert DoAll(x.w, acts) == DoAll(W.Do(Repaired, x.w, acts[0]), acts[1..]);
      assert |acts| == 2 ==> acts[1..][1..] == [];
    }
  }

  // ----- the world's side -----

  /** The deed's acts are ones that are allowed when they come. */
  ghost predicate Fair(x: Both, deed: Deed) {
    var acts := Acts(x.s, x.w.cpu.cr3, deed);
    W.Leads(Repaired, x.w, acts, DoAll(x.w, acts))
  }

  ghost predicate FairRun(x: Both, deeds: seq<Deed>) {
    W.Ok(x.w) && (deeds == [] || (var n := |deeds| - 1; FairRun(x, deeds[..n]) && Fair(Run(x, deeds[..n]), deeds[n])))
  }

  ghost function Trace(x: Both, deeds: seq<Deed>): seq<W.Act> {
    if deeds == [] then []
    else var n := |deeds| - 1; var y := Run(x, deeds[..n]); Trace(x, deeds[..n]) + Acts(y.s, y.w.cpu.cr3, deeds[n])
  }

  lemma {:induction false} LeadsFurther(w: W.World, acts: seq<W.Act>, w': W.World, more: seq<W.Act>)
    requires W.Leads(Repaired, w, acts, w') && W.Leads(Repaired, w', more, DoAll(w', more))
    ensures W.Leads(Repaired, w, acts + more, DoAll(w', more))
    decreases |more|
  {
    hide W.Ok, W.Allowed, W.Do;
    if more == [] {
      assert acts + more == acts;
    } else {
      W.LeadsOn(Repaired, w, acts, w', more[0]);
      LeadsFurther(w, acts + [more[0]], W.Step(Repaired, w', more[0]), more[1..]);
      assert acts + [more[0]] + more[1..] == acts + more;
    }
  }

  /** What the deeds of a fair run do to the world is a run of allowed steps of it. */
  lemma {:induction false} FairRunLeads(x: Both, deeds: seq<Deed>)
    requires FairRun(x, deeds)
    ensures W.Leads(Repaired, x.w, Trace(x, deeds), Run(x, deeds).w)
  {
    hide W.Ok, W.Allowed, W.Leads;
    if deeds == [] {
      LeadsNowhere(x.w);
    } else {
      var n := |deeds| - 1;
      var y := Run(x, deeds[..n]);
      FairRunLeads(x, deeds[..n]);
      LeadsFurther(x.w, Trace(x, deeds[..n]), y.w, Acts(y.s, y.w.cpu.cr3, deeds[n]));
    }
  }

  lemma LeadsNowhere(w: W.World)
    requires W.Ok(w)
    ensures W.Leads(Repaired, w, [], w)
  {
  }

  // ----- the queue's side -----

  function AllEvents(deeds: seq<Deed>): seq<S.Event> {
    if deeds == [] then [] else AllEvents(deeds[..|deeds| - 1]) + Events(deeds[|deeds| - 1])
  }

  function Ticks(deeds: seq<Deed>): nat {
    S.Ticks(AllEvents(deeds))
  }

  lemma OneMoreEvent(s: S.State, events: seq<S.Event>, e: S.Event)
    ensures S.Run(s, events + [e]) == S.Step(S.Run(s, events), e)
    ensures S.Ticks(events + [e]) == S.Ticks(events) + if e.Tick? then 1 else 0
  {
    assert (events + [e])[..|events|] == events;
  }

  lemma NoEvents(s: S.State)
    ensures S.Run(s, []) == s
  {
  }

  /** The deeds' events are a run of Scheduling. */
  lemma {:induction false} EventsRun(x: Both, deeds: seq<Deed>)
    ensures Run(x, deeds).s == S.Run(x.s, AllEvents(deeds))
  {
    hide DoAll, Acts, S.Step, S.Run;
    if deeds == [] {
      NoEvents(x.s);
    } else {
      var n := |deeds| - 1;
      EventsRun(x, deeds[..n]);
      if Events(deeds[n]) == [] {
        assert AllEvents(deeds[..n]) + [] == AllEvents(deeds[..n]);
      } else {
        OneMoreEvent(x.s, AllEvents(deeds[..n]), Events(deeds[n])[0]);
      }
    }
  }

  /** A thread waiting at position `k` is at position k - n after n ticks, and none of them switches to it. */
  lemma {:induction false} WaitsItsTurn(x: Both, deeds: seq<Deed>, k: nat)
    requires S.Ok(x.s) && k < |x.s.ready| && Ticks(deeds) <= k
    ensures var z, n := Run(x, deeds), Ticks(deeds);
            && z.s.current != x.s.ready[k] && k - n < |z.s.ready| && z.s.ready[k - n] == x.s.ready[k]
            && W.NeverRuns(Trace(x, deeds), x.s.ready[k])
  {
    WaitsThere(x, deeds, k);
    if deeds != [] {
      hide S.Ok, Run, Ticks, Acts, W.NeverRuns;
      var n := |deeds| - 1;
      var before := deeds[..n];
      LastTick(deeds);
      WaitsItsTurn(x, before, k);
      WaitsThere(x, before, k);
      var y, id, j := Run(x, before), x.s.ready[k], k - Ticks(before);
      assert deeds[n].Tick? ==> j > 0;
      SwitchesToOther(y, deeds[n], j);
      NeverInEither(Trace(x, before), Acts(y.s, y.w.cpu.cr3, deeds[n]), id);
    }
  }

  lemma LastTick(deeds: seq<Deed>)
    requires deeds != []
    ensures Ticks(deeds) == Ticks(deeds[..|deeds| - 1]) + if deeds[|deeds| - 1].Tick? then 1 else 0
  {
    var before, d := deeds[..|deeds| - 1], deeds[|deeds| - 1];
    if Events(d) == [] {
      assert AllEvents(before) + [] == AllEvents(before);
    } else {
      OneMoreEvent(S.BOOT, AllEvents(before), Events(d)[0]);
    }
  }

  lemma {:induction false} FewerTicks(deeds: seq<Deed>, n: nat)
    requires n <= |deeds|
    ensures Ticks(deeds[..n]) <= Ticks(deeds)
  {
    if n < |deeds| {
      LastTick(deeds);
      hide Ticks;
      FewerTicks(deeds[..|deeds| - 1], n);
      assert deeds[..|deeds| - 1][..n] == deeds[..n];
    } else {
      assert deeds[..n] == deeds;
    }
  }

  lemma WaitsThere(x: Both, deeds: seq<Deed>, k: nat)
    requires S.Ok(x.s) && k < |x.s.ready| && Ticks(deeds) <= k
    ensures var z, n := Run(x, deeds), Ticks(deeds);
            S.Ok(z.s) && z.s.current != x.s.ready[k] && k - n < |z.s.ready| && z.s.ready[k - n] == x.s.ready[k]
  {
    hide Run, S.Run, S.Ok, AllEvents, S.Ticks;
    EventsRun(x, deeds);
    S.MovesUp(x.s, AllEvents(deeds), k);
    S.RunsInTurn(x.s, AllEvents(deeds), k);
    S.RunOkFrom(x.s, AllEvents(deeds));
  }

  lemma NotBefore(x: Both, deeds: seq<Deed>, k: nat)
    requires S.Ok(x.s) && k < |x.s.ready| && Ticks(deeds) <= k
    ensures forall n :: 0 <= n <= |deeds| ==> Run(x, deeds[..n]).s.current != x.s.ready[k]
  {
    hide S.Ok, Run, Ticks;
    forall n | 0 <= n <= |deeds|
      ensures Run(x, deeds[..n]).s.current != x.s.ready[k]
    {
      FewerTicks(deeds, n);
      WaitsThere(x, deeds[..n], k);
    }
  }

  lemma SwitchesToOther(y: Both, deed: Deed, j: nat)
    requires S.Ok(y.s) && j < |y.s.ready| && (deed.Tick? ==> j > 0)
    ensures W.NeverRuns(Acts(y.s, y.w.cpu.cr3, deed), y.s.ready[j])
  {
  }

  lemma NeverInEither(a: seq<W.Act>, b: seq<W.Act>, id: nat)
    requires W.NeverRuns(a, id) && W.NeverRuns(b, id)
    ensures W.NeverRuns(a + b, id)
  {
  }

  // ----- both sides together -----

  lemma TickActs(x: Both)
    requires x.s.ready != []
    ensures var act := if x.s.exiting then W.Leave(x.s.ready[0]) else W.Switch(x.s.ready[0]);
            && Do(x, Tick).s == S.TickStep(x.s) && Do(x, Tick).s.current == x.s.ready[0]
            && (Fair(x, Tick) ==>
                  && W.Ok(x.w) && W.Allowed(Repaired, x.w, act)
                  && Do(x, Tick).w == W.Step(Repaired, x.w, act) && Do(x, Tick).w.current == x.s.ready[0])
  {
    hide W.Ok, W.Allowed, W.Do;
    var act := if x.s.exiting then W.Leave(x.s.ready[0]) else W.Switch(x.s.ready[0]);
    OneAct(x.w, act);
    if Fair(x, Tick) {
      W.LastIsSwitch(Repaired, x.w, act);
    }
  }

  lemma OneAct(w: W.World, act: W.Act)
    ensures var w' := W.Do(Repaired, w, act);
            && DoAll(w, [act]) == w'
            && (W.Leads(Repaired, w, [act], w') ==> W.Ok(w) && W.Allowed(Repaired, w, act)
                                                    && w' == W.Step(Repaired, w, act))
  {
    hide W.Ok, W.Allowed, W.Do;
    assert [act][1..] == [] && DoAll(W.Do(Repaired, w, act), []) == W.Do(Repaired, w, act);
  }

  /** A thread whose tick takes the processor from it has it back after as many ticks more as there were
      threads waiting, and no tick before; it returns from the same call of switch_thread, with the registers,
      directory and stack it left, whatever all the others do in between. */
  lemma TurnComesBack(x: Both, deeds: seq<Deed>)
    requires S.Ok(x.s) && !x.s.exiting && x.s.ready != [] && x.w.current == x.s.current
             && Ticks(deeds) == |x.s.ready| - 1
    requires var y := Do(x, Tick); Fair(x, Tick) && FairRun(y, deeds) && Fair(Run(y, deeds), Tick)
    ensures var y := Do(x, Tick);
            var w, r := x.w, Do(Run(y, deeds), Tick);
            && (forall n :: 0 <= n <= |deeds| ==> Run(y, deeds[..n]).s.current != x.s.current)
            && r.s.current == x.s.current == r.w.current
            && r.w.cpu.regs == w.cpu.regs.(esp := w.cpu.regs.esp + 4)
            && r.w.cpu.cr3 == w.cpu.cr3 && r.w.cpu.eip == W.Load(w.cpu.mem, w.cpu.cr3, w.cpu.regs.esp)
            && var t := w.threads[w.current];
               forall a :: w.cpu.regs.esp <= a < t.base + t.size ==>
                 r.w.cpu.mem(W.At(t.dir, a)) == w.cpu.mem(W.At(t.dir, a))
  {
    hide W.Ok, W.Allowed, W.Leads, W.Step, W.Load, W.NeverRuns, Do, Run, S.Ok, FairRun, Fair, Trace, Ticks;
    var y := Do(x, Tick);
    var z, k := Run(y, deeds), |x.s.ready| - 1;
    TickActs(x);
    S.TickOk(x.s);
    assert y.s.ready[k] == x.s.current;
    WaitsItsTurn(y, deeds, k);
    FairRunLeads(y, deeds);
    TickActs(z);
    var last := if z.s.exiting then W.Leave(x.s.current) else W.Switch(x.s.current);
    NotBefore(y, deeds, k);
    W.RoundTrip(Repaired, x.w, x.s.ready[0], Trace(y, deeds), z.w, last);
  }

  /** There are such turns: the two processes of Switching.Pair, a tick there and a tick back. */
  lemma TurnHappens(regs: W.Context, mem: W.Memory)
    requires regs.esp == W.LOW + 0x3E8
    ensures var x := Both(S.State(0, false, [1], 2, []), W.Pair(regs, mem));
            var y := Do(x, Tick);
            && S.Ok(x.s) && x.w.current == x.s.current && Ticks([]) == |x.s.ready| - 1
            && Fair(x, Tick) && FairRun(y, []) && Fair(Run(y, []), Tick)
  {
    var x := Both(S.State(0, false, [1], 2, []), W.Pair(regs, mem));
    W.ThereAndBack(Repaired, regs, mem);
    hide W.Ok, W.Allowed, W.Do, W.Pair, Fair, DoAll, W.Leads;
    AllowedTick(x);
    var y := Do(x, Tick);
    assert y.s.ready == [0] && !y.s.exiting;
    AllowedTick(y);
  }

  lemma AllowedTick(x: Both)
    requires x.s.ready != [] && W.Ok(x.w)
    requires var act := if x.s.exiting then W.Leave(x.s.ready[0]) else W.Switch(x.s.ready[0]);
             W.Allowed(Repaired, x.w, act)
    ensures Fair(x, Tick) && W.Ok(Do(x, Tick).w)
    ensures Do(x, Tick).w == W.Step(Repaired, x.w,
                                    if x.s.exiting then W.Leave(x.s.ready[0]) else W.Switch(x.s.ready[0]))
  {
    hide W.Ok, W.Allowed, W.Do;
    var act := if x.s.exiting then W.Leave(x.s.ready[0]) else W.Switch(x.s.ready[0]);
    OneAct(x.w, act);
    W.StepOk(Repaired, x.w, act);
    LeadsNowhere(W.Step(Repaired, x.w, act));
    assert [act][1..] == [];
  }

  /** A thread just created enters its start function, with its exit function and its argument on its stack,
      one tick after those that were waiting before it, and no tick before. */
  lemma NewThreadStarts(x: Both, deed: Deed, deeds: seq<Deed>)
    requires S.Ok(x.s) && x.w.current == x.s.current && (deed.CreateThread? || deed.CreateProcess?)
    requires var y := Do(x, deed);
             Ticks(deeds) == |x.s.ready| && Fair(x, deed) && FairRun(y, deeds) && Fair(Run(y, deeds), Tick)
    ensures var y := Do(x, deed);
            var r := Do(Run(y, deeds), Tick);
            var cpu := r.w.cpu;
            && (forall n :: 0 <= n <= |deeds| ==> Run(y, deeds[..n]).s.current != x.s.counter)
            && r.s.current == x.s.counter == r.w.current
            && cpu.eip == deed.start && cpu.cr3 == (if deed.CreateProcess? then deed.pd else x.w.cpu.cr3)
            && W.Load(cpu.mem, cpu.cr3, cpu.regs.esp) == deed.exit
            && W.Load(cpu.mem, cpu.cr3, cpu.regs.esp + 4) == deed.child
            && cpu.regs.esp + 8 == deed.stack + W.TOP && cpu.regs.eflags == 0x200
  {
    hide W.Ok, W.Allowed, W.Leads, W.Step, W.Load, W.NeverRuns, Do, Run, S.Ok, FairRun, Fair, Trace, Ticks, Grounds;
    var y, k := Do(x, deed), |x.s.ready|;
    var z := Run(y, deeds);
    CreateActs(x, deed);
    S.StepOk(x.s, S.Create);
    assert y.s.ready[k] == x.s.counter;
    WaitsItsTurn(y, deeds, k);
    FairRunLeads(y, deeds);
    TickActs(z);
    NotBefore(y, deeds, k);
    var last := if z.s.exiting then W.Leave(x.s.counter) else W.Switch(x.s.counter);
    W.FirstSwitch(Repaired, Grounds(x, deed), Creation(x, deed), Trace(y, deeds), z.w, last);
  }

  // ----- the end of a thread -----

  ghost predicate TickedBetween(x: Both, deeds: seq<Deed>, i: nat, m: nat) {
    exists j :: i < j < m <= |deeds| && deeds[j].Tick? && Run(x, deeds[..j]).s.ready != []
  }

  lemma RunNext(x: Both, deeds: seq<Deed>, m: nat)
    requires S.Ok(x.s) && m < |deeds|
    ensures Run(x, deeds[..m + 1]).s == Next(Run(x, deeds[..m]).s, deeds[m])
    ensures S.Ok(Run(x, deeds[..m]).s) && S.Ok(Run(x, deeds[..m + 1]).s)
  {
    assert deeds[..m + 1][..m] == deeds[..m];
    EventsRun(x, deeds[..m]);
    EventsRun(x, deeds[..m + 1]);
    hide S.Ok, S.Run, AllEvents, Run, Next;
    S.RunOkFrom(x.s, AllEvents(deeds[..m]));
    S.RunOkFrom(x.s, AllEvents(deeds[..m + 1]));
  }

  lemma TickedMore(x: Both, deeds: seq<Deed>, i: nat, m: nat)
    requires i + 1 < m <= |deeds|
    ensures TickedBetween(x, deeds, i, m)
       <==> TickedBetween(x, deeds, i, m - 1) || (deeds[m - 1].Tick? && Run(x, deeds[..m - 1]).s.ready != [])
  {
    hide Run;
  }

  lemma NotTickedYet(x: Both, deeds: seq<Deed>, i: nat)
    ensures !TickedBetween(x, deeds, i, i + 1)
  {
  }

  // one deed's event, or none
  lemma EndingDeed(s: S.State, deed: Deed, id: nat)
    requires S.Ok(s) && id < s.counter
    ensures id < Next(s, deed).counter
    ensures deed.Exit? && s.current == id ==> S.Ending(Next(s, deed), id)
    ensures S.Ending(s, id) ==>
              if deed.Tick? && s.ready != [] then S.Gone(Next(s, deed), id) else S.Ending(Next(s, deed), id)
    ensures S.Gone(s, id) ==> S.Gone(Next(s, deed), id)
  {
    hide S.Gone, S.Ok, S.Step, S.Ending;
    if Events(deed) != [] {
      var e := Events(deed)[0];
      S.CounterGrows(s, e);
      if deed.Exit? {
        S.ExitEnds(s);
      }
      if S.Ending(s, id) {
        S.EndingStep(s, e, id);
      }
      if S.Gone(s, id) {
        S.GoneStep(s, e, id);
      }
    }
  }

  lemma {:induction false} EndsSomeTime(x: Both, deeds: seq<Deed>, i: nat, m: nat, id: nat)
    requires S.Ok(x.s) && i < m <= |deeds| && deeds[i].Exit? && Run(x, deeds[..i]).s.current == id
    ensures var s := Run(x, deeds[..m]).s;
            id < s.counter && if TickedBetween(x, deeds, i, m) then S.Gone(s, id) else S.Ending(s, id)
  {
    hide S.Ok, Run, S.Gone, S.Ending, Next, TickedBetween;
    RunNext(x, deeds, m - 1);
    if i == m - 1 {
      CurrentCounted(Run(x, deeds[..i]).s);
      NotTickedYet(x, deeds, i);
    } else {
      EndsSomeTime(x, deeds, i, m - 1, id);
      TickedMore(x, deeds, i, m);
    }
    EndingDeed(Run(x, deeds[..m - 1]).s, deeds[m - 1], id);
  }

  lemma CurrentCounted(s: S.State)
    requires S.Ok(s)
    ensures s.current < s.counter
  {
  }

  /** A thread that has ended itself keeps the processor until the next tick that finds another waiting. After
      that it is in no queue, nothing is sent to it, and no deed switches to it, in any run. */
  lemma ExitEndsThread(x: Both, deeds: seq<Deed>, i: nat, m: nat)
    requires S.Ok(x.s) && i < m <= |deeds| && deeds[i].Exit?
    ensures var id, y := Run(x, deeds[..i]).s.current, Run(x, deeds[..m]);
            if exists j :: i < j < m && deeds[j].Tick? && Run(x, deeds[..j]).s.ready != [] then
              && y.s.current != id && id !in y.s.ready && S.QueueOf(y.s.msgs, id) == []
              && forall deed :: W.NeverRuns(Acts(y.s, y.w.cpu.cr3, deed), id)
            else y.s.current == id
  {
    hide Run, S.Ok;
    var id := Run(x, deeds[..i]).s.current;
    EndsSomeTime(x, deeds, i, m, id);
    assert TickedBetween(x, deeds, i, m)
      <==> exists j :: i < j < m && deeds[j].Tick? && Run(x, deeds[..j]).s.ready != [];
    hide TickedBetween;
    var y := Run(x, deeds[..m]);
    if S.Gone(y.s, id) {
      forall deed
        ensures W.NeverRuns(Acts(y.s, y.w.cpu.cr3, deed), id)
      {
        assert y.s.ready != [] ==> y.s.ready[0] in y.s.ready;
      }
    }
  }

  /** The world a thread is created in: a new process has its pages by then. */
  function Grounds(x: Both, deed: Deed): W.World {
    if deed.CreateProcess? then W.Extended(x.w, deed.pd, deed.pages) else x.w
  }

  function Creation(x: Both, deed: Deed): W.Act
    requires deed.CreateThread? || deed.CreateProcess?
  {
    W.Create(x.s.counter, if deed.CreateProcess? then deed.pd else x.w.cpu.cr3, deed.stack, deed.child, deed.start,
             deed.exit)
  }

  lemma CreateActs(x: Both, deed: Deed)
    requires (deed.CreateThread? || deed.CreateProcess?) && Fair(x, deed)
    ensures var w, act := Grounds(x, deed), Creation(x, deed);
            && W.Ok(w) && W.Allowed(Repaired, w, act) && Do(x, deed).w == W.Step(Repaired, w, act)
            && Do(x, deed).s == S.Step(x.s, S.Create)
  {
    hide W.Ok, W.Allowed;
    var w, act := Grounds(x, deed), Creation(x, deed);
    OneAct(w, act);
    if deed.CreateProcess? {
      var map_ := W.Map(deed.pd, deed.pages);
      assert [map_, act][0] == map_ && [map_, act][1..] == [act];
      assert W.Do(Repaired, x.w, map_) == w && DoAll(x.w, [map_, act]) == DoAll(w, [act]);
      assert W.Leads(Repaired, w, [act], DoAll(w, [act]));
    }
  }

  /** A directory with no pages of its own yet has the caller's stack only where every directory has it: the
      boot thread, whose stack the loader gave it, can create processes; a thread whose stack is on a heap
      cannot. */
  lemma CreatesIffLow(x: Both, deed: Deed)
    requires deed.CreateProcess? && forall n :: (deed.pd, n) !in x.w.mapped
    ensures Faults(x, deed) <==> x.w.cpu.regs.esp + 3 >= W.LOW
    ensures W.Ok(x.w) && x.w.threads[x.w.current].base >= W.LOW ==> Faults(x, deed)
  {
    assert W.WordOn(x.w.mapped, deed.pd, x.w.cpu.regs.esp) ==> W.On(x.w.mapped, deed.pd, x.w.cpu.regs.esp + 3);
  }

  /** In a fair run nothing ends in a page fault but a creation by a thread whose stack is not among the
      addresses all directories share. */
  lemma {:induction false} FairRunGoes(x: Both, deeds: seq<Deed>)
    requires FairRun(x, deeds)
    requires forall n :: 0 <= n < |deeds| && deeds[n].CreateProcess? ==> Run(x, deeds[..n]).w.cpu.regs.esp + 3 < W.LOW
    ensures Goes(x, deeds)
  {
    if deeds != [] {
      var n := |deeds| - 1;
      var before, y := deeds[..n], Run(x, deeds[..n]);
      assert forall i :: 0 <= i < n ==> before[..i] == deeds[..i] && before[i] == deeds[i];
      hide W.Ok, Fair, Run, Faults, W.WordOn;
      FairRunGoes(x, before);
      FairGoes(y, deeds[n]);
    }
  }

  lemma FairGoes(x: Both, deed: Deed)
    requires Fair(x, deed) && (deed.CreateProcess? ==> x.w.cpu.regs.esp + 3 < W.LOW)
    ensures !Faults(x, deed)
  {
    hide W.Ok, W.Allowed, Fair, W.Faults;
    if deed.Tick? && x.s.ready != [] {
      TickActs(x);
      W.LastIsSwitch(Repaired, x.w, if x.s.exiting then W.Leave(x.s.ready[0]) else W.Switch(x.s.ready[0]));
      W.FaultsIff(Repaired, x.w, x.s.ready[0]);
    }
  }
}
