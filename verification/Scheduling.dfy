/** Threads and messages as values: what a timer tick, a creation, an exit, a send and a receive of
    kernelcpp/code/TaskManager.cpp and IPC.cpp do, each as one atomic step, and what every run keeps. */
module Scheduling {

  // struct dataq
  datatype Message = Message(tid: nat, data: seq<bv8>)

  /** current_thread, ready_queue, tid and msgs; `exiting` is the current thread's remove flag. */
  datatype State = State(current: nat, exiting: bool, ready: seq<nat>, counter: nat, msgs: seq<Message>)

  datatype Event = Create | Exit | Tick | Send(tid: nat, data: seq<bv8>) | Receive

  const BOOT := State(0, false, [], 1, [])

  predicate IsRunning(s: State, id: nat) {
    id == s.current || id in s.ready
  }

  // ----- the message list -----

  /** The payloads queued for one thread, oldest first. */
  function QueueOf(msgs: seq<Message>, id: nat): seq<seq<bv8>> {
    if msgs == [] then [] else (if msgs[0].tid == id then [msgs[0].data] else []) + QueueOf(msgs[1..], id)
  }

  /** The first message for a thread, or the end of the list. */
  function FirstFor(msgs: seq<Message>, id: nat): (k: nat)
    ensures k <= |msgs| && (k < |msgs| ==> msgs[k].tid == id) && forall i :: 0 <= i < k ==> msgs[i].tid != id
  {
    if msgs == [] then 0 else if msgs[0].tid == id then 0 else 1 + FirstFor(msgs[1..], id)
  }

  /** Removing that message is all a receive does to the list. */
  function Without(msgs: seq<Message>, k: nat): seq<Message>
    requires k < |msgs|
  {
    msgs[..k] + msgs[k + 1..]
  }

  /** clearMessages, repaired: nothing for `id` is left. */
  function Cleared(msgs: seq<Message>, id: nat): seq<Message> {
    if msgs == [] then [] else (if msgs[0].tid == id then [] else [msgs[0]]) + Cleared(msgs[1..], id)
  }

  lemma {:induction false} ClearedHolds(msgs: seq<Message>, id: nat)
    ensures forall m :: m in Cleared(msgs, id) <==> m in msgs && m.tid != id
  {
    if msgs != [] {
      ClearedHolds(msgs[1..], id);
      assert forall m :: m in msgs <==> m == msgs[0] || m in msgs[1..];
    }
  }

  lemma {:induction false} QueueOfAppend(a: seq<Message>, b: seq<Message>, id: nat)
    ensures QueueOf(a + b, id) == QueueOf(a, id) + QueueOf(b, id)
  {
    if a == [] {
      assert a + b == b;
    } else {
      QueueOfAppend(a[1..], b, id);
      assert (a + b)[1..] == a[1..] + b && (a + b)[0] == a[0];
      var h := if a[0].tid == id then [a[0].data] else [];
      assert h + (QueueOf(a[1..], id) + QueueOf(b, id)) == (h + QueueOf(a[1..], id)) + QueueOf(b, id);
    }
  }

  lemma {:induction false} QueueOfNone(msgs: seq<Message>, id: nat)
    requires forall m :: m in msgs ==> m.tid != id
    ensures QueueOf(msgs, id) == []
  {
    if msgs != [] {
      QueueOfNone(msgs[1..], id);
    }
  }

  /** A receive takes the oldest payload of the receiver and touches nobody else's queue. */
  lemma ReceiveTakesOldest(msgs: seq<Message>, id: nat)
    ensures var k := FirstFor(msgs, id);
            if k < |msgs| then
              && QueueOf(msgs, id) == [msgs[k].data] + QueueOf(Without(msgs, k), id)
              && forall other :: other != id ==> QueueOf(Without(msgs, k), other) == QueueOf(msgs, other)
            else QueueOf(msgs, id) == []
  {
    var k := FirstFor(msgs, id);
    if k < |msgs| {
      var a, m, b := msgs[..k], [msgs[k]], msgs[k + 1..];
      assert msgs == a + m + b;
      forall t
        ensures QueueOf(msgs, t) == QueueOf(a, t) + QueueOf(m, t) + QueueOf(b, t)
        ensures QueueOf(Without(msgs, k), t) == QueueOf(a, t) + QueueOf(b, t)
        ensures QueueOf(m, t) == if t == id then [msgs[k].data] else []
      {
        QueueOfAppend(a + m, b, t);
        QueueOfAppend(a, m, t);
        QueueOfAppend(a, b, t);
      }
      QueueOfNone(a, id);
      forall other | other != id
        ensures QueueOf(Without(msgs, k), other) == QueueOf(msgs, other)
      {
        assert QueueOf(a, other) + [] == QueueOf(a, other);
      }
    } else {
      QueueOfNone(msgs, id);
    }
  }

  lemma {:induction false} ClearedQueues(msgs: seq<Message>, id: nat)
    ensures forall t :: QueueOf(Cleared(msgs, id), t) == if t == id then [] else QueueOf(msgs, t)
  {
    if msgs != [] {
      ClearedQueues(msgs[1..], id);
      var r := Cleared(msgs, id);
      forall t
        ensures QueueOf(r, t) == if t == id then [] else QueueOf(msgs, t)
      {
        if msgs[0].tid != id {
          assert r[0] == msgs[0] && r[1..] == Cleared(msgs[1..], id);
        } else {
          assert r == Cleared(msgs[1..], id);
        }
      }
    }
  }

  // ----- steps -----

  /** handleTimerEvent: nothing without a ready thread; otherwise the current thread goes to the back of
      the queue, or, exiting, is dropped with its messages. */
  function TickStep(s: State): State {
    if s.ready == [] then s
    else if s.exiting then s.(current := s.ready[0], exiting := false, ready := s.ready[1..],
                              msgs := Cleared(s.msgs, s.current))
    else s.(current := s.ready[0], exiting := false, ready := s.ready[1..] + [s.current])
  }

  /** `Exit` is thread_exit; an exited thread only waits for its last tick. */
  function Step(s: State, e: Event): State {
    match e
    case Create => s.(ready := s.ready + [s.counter], counter := s.counter + 1)
    case Exit => s.(exiting := true)
    case Tick => TickStep(s)
    case Send(id, data) => if IsRunning(s, id) then s.(msgs := s.msgs + [Message(id, data)]) else s
    case Receive =>
      var k := FirstFor(s.msgs, s.current);
      if k < |s.msgs| then s.(msgs := Without(s.msgs, k)) else s
  }

  function Run(s: State, events: seq<Event>): State {
    if events == [] then s else Step(Run(s, events[..|events| - 1]), events[|events| - 1])
  }

  // ----- what every run keeps -----

  /** Thread ids are distinct and below the counter; every queued message has a living addressee. */
  ghost predicate Ok(s: State) {
    && s.current !in s.ready && (forall i, j :: 0 <= i < j < |s.ready| ==> s.ready[i] != s.ready[j])
    && s.current < s.counter && (forall id :: id in s.ready ==> id < s.counter)
    && (forall m :: m in s.msgs ==> IsRunning(s, m.tid))
  }

  lemma {:induction false} EveryRunOk(events: seq<Event>)
    ensures Ok(Run(BOOT, events))
  {
    if events != [] {
      EveryRunOk(events[..|events| - 1]);
      StepOk(Run(BOOT, events[..|events| - 1]), events[|events| - 1]);
    }
  }

  lemma TickOk(s: State)
    requires Ok(s) && s.ready != []
    ensures Ok(TickStep(s))
    ensures forall id :: IsRunning(TickStep(s), id) <==> IsRunning(s, id) && !(s.exiting && id == s.current)
  {
    var rest := s.ready[1..];
    ClearedHolds(s.msgs, s.current);
    assert s.ready == [s.ready[0]] + rest;
    assert forall id :: id in s.ready <==> id == s.ready[0] || id in rest;
    assert s.ready[0] !in rest && s.current !in rest;
  }

  lemma StepOk(s: State, e: Event)
    requires Ok(s)
    ensures Ok(Step(s, e))
  {
    match e
    case Create =>
      assert s.counter !in s.ready;
      assert forall id :: id in s.ready + [s.counter] <==> id in s.ready || id == s.counter;
    case Exit =>
    case Tick =>
      if s.ready != [] {
        TickOk(s);
      }
    case Send(id, data) =>
    case Receive =>
      var k := FirstFor(s.msgs, s.current);
      if k < |s.msgs| {
        assert forall m :: m in Without(s.msgs, k) ==> m in s.msgs;
      }
  }

  // ----- turns -----

  /** A tick without an exit rotates current and queue by one place. */
  lemma TickRotates(s: State)
    requires !s.exiting
    ensures var s' := TickStep(s); [s'.current] + s'.ready == s.ready + [s.current]
    ensures TickStep(s).msgs == s.msgs
  {
  }

  function Ticks(events: seq<Event>): nat {
    if events == [] then 0 else Ticks(events[..|events| - 1]) + if events[|events| - 1].Tick? then 1 else 0
  }

  /** The thread at position `k` of the queue moves up one place a tick, whatever is created, sent,
      received or ends meanwhile... */
  lemma {:induction false} MovesUp(s: State, events: seq<Event>, k: nat)
    requires k < |s.ready| && Ticks(events) <= k
    ensures var n := Ticks(events); k - n < |Run(s, events).ready| && Run(s, events).ready[k - n] == s.ready[k]
  {
    if events != [] {
      MovesUp(s, events[..|events| - 1], k);
    }
  }

  /** ... so it runs after exactly k + 1 ticks, and not before. */
  lemma {:induction false} RunsInTurn(s: State, events: seq<Event>, k: nat)
    requires Ok(s) && k < |s.ready|
    ensures Ticks(events) <= k ==> Run(s, events).current != s.ready[k]
    ensures Ticks(events) == k + 1 ==> Run(s, events).current == s.ready[k]
  {
    if Ticks(events) <= k {
      MovesUp(s, events, k);
      RunOkFrom(s, events);
      assert Run(s, events).ready[k - Ticks(events)] in Run(s, events).ready;
    } else if Ticks(events) == k + 1 {
      var before, e := events[..|events| - 1], events[|events| - 1];
      if e.Tick? {
        MovesUp(s, before, k);
      } else {
        RunsInTurn(s, before, k);
      }
    }
  }

  lemma {:induction false} RunOkFrom(s: State, events: seq<Event>)
    requires Ok(s)
    ensures Ok(Run(s, events))
  {
    if events != [] {
      RunOkFrom(s, events[..|events| - 1]);
      StepOk(Run(s, events[..|events| - 1]), events[|events| - 1]);
    }
  }

  // ----- the end of a thread -----

  /** The thread has called thread_exit, and no tick has taken the processor from it since. */
  predicate Ending(s: State, id: nat) {
    s.current == id && s.exiting
  }

  /** The thread is there no more: it does not run, does not wait, and no message waits for it. */
  predicate Gone(s: State, id: nat) {
    !IsRunning(s, id) && QueueOf(s.msgs, id) == []
  }

  lemma EndingStep(s: State, e: Event, id: nat)
    requires Ok(s) && Ending(s, id)
    ensures if e.Tick? && s.ready != [] then Gone(Step(s, e), id) else Ending(Step(s, e), id)
  {
    if e.Tick? && s.ready != [] {
      TickOk(s);
      ClearedQueues(s.msgs, id);
    }
  }

  lemma GoneStep(s: State, e: Event, id: nat)
    requires Ok(s) && Gone(s, id) && id < s.counter
    ensures Gone(Step(s, e), id)
  {
    StepOk(s, e);
    if IsRunning(Step(s, e), id) {
      BornByCreate(s, e, id);
    }
    QueueOfNone(Step(s, e).msgs, id);
  }

  ghost predicate TickedBetween(events: seq<Event>, i: nat, m: nat) {
    exists j :: i < j < m <= |events| && events[j].Tick? && Run(BOOT, events[..j]).ready != []
  }

  lemma {:induction false} EndsSomeTime(events: seq<Event>, i: nat, m: nat, id: nat)
    requires i < m <= |events| && events[i].Exit? && Run(BOOT, events[..i]).current == id
    ensures Ok(Run(BOOT, events[..m])) && id < Run(BOOT, events[..m]).counter
    ensures if TickedBetween(events, i, m) then Gone(Run(BOOT, events[..m]), id) else Ending(Run(BOOT, events[..m]), id)
  {
    hide Ok, Run, Gone, Ending, Step, TickedBetween;
    var s, e := Run(BOOT, events[..m - 1]), events[m - 1];
    RunNext(events, m - 1);
    EveryRunOk(events[..m - 1]);
    StepOk(s, e);
    if i == m - 1 {
      ExitEnds(s);
      NotTickedYet(events, i);
    } else {
      EndsSomeTime(events, i, m - 1, id);
      TickedMore(events, i, m);
      if TickedBetween(events, i, m - 1) {
        GoneStep(s, e, id);
      } else {
        EndingStep(s, e, id);
      }
      CounterGrows(s, e);
    }
  }

  lemma RunNext(events: seq<Event>, m: nat)
    requires m < |events|
    ensures Run(BOOT, events[..m + 1]) == Step(Run(BOOT, events[..m]), events[m])
  {
    assert events[..m + 1][..m] == events[..m];
  }

  lemma NotTickedYet(events: seq<Event>, i: nat)
    ensures !TickedBetween(events, i, i + 1)
  {
  }

  lemma ExitEnds(s: State)
    requires Ok(s)
    ensures Ending(Step(s, Exit), s.current) && s.current < Step(s, Exit).counter
  {
  }

  lemma CounterGrows(s: State, e: Event)
    ensures s.counter <= Step(s, e).counter
  {
  }

  lemma TickedMore(events: seq<Event>, i: nat, m: nat)
    requires i + 1 < m <= |events|
    ensures TickedBetween(events, i, m)
       <==> TickedBetween(events, i, m - 1) || (events[m - 1].Tick? && Run(BOOT, events[..m - 1]).ready != [])
  {
    hide Run;
  }

  /** A thread that has called thread_exit is out at the next tick that finds another waiting, and for good:
      it never runs or waits again, and nothing is ever queued for it. Before that tick it goes on running. */
  lemma ExitEndsThread(events: seq<Event>, i: nat, m: nat)
    requires i < m <= |events| && events[i].Exit?
    ensures var id, s := Run(BOOT, events[..i]).current, Run(BOOT, events[..m]);
            if exists j :: i < j < m && events[j].Tick? && Run(BOOT, events[..j]).ready != []
            then s.current != id && id !in s.ready && QueueOf(s.msgs, id) == []
            else s.current == id
  {
    hide Run;
    EndsSomeTime(events, i, m, Run(BOOT, events[..i]).current);
  }

  // ----- one shared list as a queue per thread -----

  /** The payloads sent to `id` while it was there to be sent to, in order. */
  function Accepted(events: seq<Event>, id: nat): seq<seq<bv8>> {
    if events == [] then []
    else
      var before, e := events[..|events| - 1], events[|events| - 1];
      Accepted(before, id) + Sent(Run(BOOT, before), e, id)
  }

  /** The payloads `id` got from its receives, in order. */
  function Delivered(events: seq<Event>, id: nat): seq<seq<bv8>> {
    if events == [] then []
    else
      var before, e := events[..|events| - 1], events[|events| - 1];
      Delivered(before, id) + Got(Run(BOOT, before), e, id)
  }

  /** Nothing has passed for a thread that does not exist yet. */
  lemma {:induction false} NothingEarly(events: seq<Event>, id: nat)
    requires id >= Run(BOOT, events).counter
    ensures Accepted(events, id) == Delivered(events, id) == QueueOf(Run(BOOT, events).msgs, id) == []
  {
    EveryRunOk(events);
    QueueOfNone(Run(BOOT, events).msgs, id);
    if events != [] {
      var before := events[..|events| - 1];
      EveryRunOk(before);
      NothingEarly(before, id);
    }
  }

  /** What one step takes from and adds to the queue of a thread that lives through it. */
  lemma QueueStep(s: State, e: Event, id: nat)
    requires Ok(s) && IsRunning(s, id) && IsRunning(Step(s, e), id)
    ensures Got(s, e, id) + QueueOf(Step(s, e).msgs, id) == QueueOf(s.msgs, id) + Sent(s, e, id)
  {
    hide Ok, QueueOf, Cleared, FirstFor, Without, IsRunning;
    match e
    case Create =>
    case Exit =>
    case Tick => QueueTick(s, id);
    case Send(t, data) => QueueSend(s, t, data, id);
    case Receive => ReceiveTakesOldest(s.msgs, s.current);
  }

  lemma QueueTick(s: State, id: nat)
    requires Ok(s) && IsRunning(s, id) && IsRunning(TickStep(s), id)
    ensures QueueOf(TickStep(s).msgs, id) == QueueOf(s.msgs, id)
  {
    ClearedQueues(s.msgs, s.current);
    if s.ready != [] {
      TickOk(s);
    }
  }

  lemma QueueSend(s: State, t: nat, data: seq<bv8>, id: nat)
    ensures QueueOf(Step(s, Send(t, data)).msgs, id) == QueueOf(s.msgs, id) + Sent(s, Send(t, data), id)
  {
    QueueOfAppend(s.msgs, [Message(t, data)], id);
    assert QueueOf([Message(t, data)], id) == if t == id then [data] else [];
  }

  lemma Regroup<T>(d: seq<T>, got: seq<T>, after: seq<T>, queued: seq<T>, sent: seq<T>)
    requires got + after == queued + sent
    ensures (d + got) + after == (d + queued) + sent
  {
    assert (d + got) + after == d + (got + after);
    assert (d + queued) + sent == d + (queued + sent);
  }

  function Sent(s: State, e: Event, id: nat): seq<seq<bv8>> {
    if e.Send? && e.tid == id && IsRunning(s, id) then [e.data] else []
  }

  function Got(s: State, e: Event, id: nat): seq<seq<bv8>> {
    if e.Receive? && s.current == id && FirstFor(s.msgs, id) < |s.msgs| then [s.msgs[FirstFor(s.msgs, id)].data] else []
  }

  /** For a living thread, what it got followed by what is still queued for it is exactly what was
      accepted for it, byte for byte and in order. */
  lemma {:induction false} FifoPerThread(events: seq<Event>, id: nat)
    requires IsRunning(Run(BOOT, events), id)
    ensures Delivered(events, id) + QueueOf(Run(BOOT, events).msgs, id) == Accepted(events, id)
  {
    if events != [] {
      var before, e := events[..|events| - 1], events[|events| - 1];
      var s := Run(BOOT, before);
      EveryRunOk(before);
      hide Ok, QueueOf, FirstFor, Without, TickStep, Got, Sent, Step;
      if IsRunning(s, id) {
        FifoPerThread(before, id);
        QueueStep(s, e, id);
        Regroup(Delivered(before, id), Got(s, e, id), QueueOf(Step(s, e).msgs, id), QueueOf(s.msgs, id),
                Sent(s, e, id));
      } else {
        BornByCreate(s, e, id);
        NothingEarly(before, id);
      }
    }
  }

  lemma BornByCreate(s: State, e: Event, id: nat)
    requires Ok(s) && !IsRunning(s, id) && IsRunning(Step(s, e), id)
    ensures e.Create? && id == s.counter
  {
    if e.Tick? && s.ready != [] {
      TickOk(s);
    }
  }

  /** No thread ever gets anything that was not accepted for it, nor out of order. */
  lemma {:induction false} DeliveredIsPrefix(events: seq<Event>, id: nat)
    ensures Delivered(events, id) <= Accepted(events, id)
  {
    if events != [] {
      var before := events[..|events| - 1];
      if IsRunning(Run(BOOT, events), id) {
        FifoPerThread(events, id);
      } else {
        DeliveredIsPrefix(before, id);
      }
    }
  }
}
