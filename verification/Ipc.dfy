/** The shared message list of kernelcpp/code/IPC.cpp, node by node. */
module Ipc {
  import opened Basics
  import opened Scheduling

  // struct dataq; `freed` notes that kernel_free has had it, which leaves its words as they were
  class Node {
    const tid: nat
    const data: seq<bv8>
    var next: Node?
    var freed: bool

    constructor (tid: nat, data: seq<bv8>)
      ensures this.tid == tid && this.data == data && next == null && !freed
    {
      this.tid, this.data, next, freed := tid, data, null, false;
    }
  }

  function After(ns: seq<Node>, i: nat): Node? {
    if i + 1 < |ns| then ns[i + 1] else null
  }

  lemma AfterAppend(ns: seq<Node>, n: Node)
    ensures After(ns + [n], |ns|) == null && (ns != [] ==> After(ns + [n], |ns| - 1) == n)
    ensures forall i :: 0 <= i < |ns| - 1 ==> After(ns + [n], i) == After(ns, i)
  {
  }

  lemma AfterRemove(ns: seq<Node>, j: nat)
    requires j + 1 < |ns|
    ensures var ns' := ns[..j + 1] + ns[j + 2..];
            && (forall i :: 0 <= i < j ==> After(ns', i) == After(ns, i))
            && (forall i :: j <= i < |ns'| ==> After(ns', i) == After(ns, i + 1))
            && (forall i :: 0 <= i <= j ==> ns'[i] == ns[i]) && (forall i :: j < i < |ns'| ==> ns'[i] == ns[i + 1])
  {
  }

  /** `ns` are the nodes of the list that starts at `head`. */
  ghost predicate Linked(head: Node?, ns: seq<Node>)
    reads ns
  {
    && head == (if ns == [] then null else ns[0])
    && (forall i :: 0 <= i < |ns| ==> ns[i].next == After(ns, i))
    && (forall i, j :: 0 <= i < j < |ns| ==> ns[i] != ns[j])
  }

  ghost function Contents(ns: seq<Node>): (r: seq<Message>)
    ensures |r| == |ns| && forall i :: 0 <= i < |ns| ==> r[i] == Message(ns[i].tid, ns[i].data)
  {
    seq(|ns|, i requires 0 <= i < |ns| => Message(ns[i].tid, ns[i].data))
  }

  lemma ContentsWithout(ns: seq<Node>, k: nat)
    requires k < |ns|
    ensures Contents(ns[..k] + ns[k + 1..]) == Without(Contents(ns), k)
    ensures k == 0 ==> Contents(ns[1..]) == Without(Contents(ns), 0)
  {
    assert ns[..0] + ns[1..] == ns[1..];
  }

  lemma ContentsPlus(ns: seq<Node>, n: Node)
    ensures Contents(ns + [n]) == Contents(ns) + [Message(n.tid, n.data)]
  {
  }

  lemma HeadOf(head: Node?, ns: seq<Node>)
    requires Linked(head, ns)
    ensures head == null <==> ns == []
    ensures ns != [] ==> head == ns[0]
  {
  }

  // ----- clearMessages as written -----

  /** The loop from a node it has settled on: the node after a removed one is never looked at. */
  function SkipScan(l: seq<Message>, id: nat): seq<Message> {
    if |l| <= 1 then l
    else if l[1].tid == id then [l[0]] + SkipScan(l[2..], id)
    else [l[0]] + SkipScan(l[1..], id)
  }

  /** The whole of clearMessages: a removed head stays the loop's starting point, so a second match right
      behind it is freed but still linked. */
  function ClearedAsWritten(l: seq<Message>, id: nat): seq<Message> {
    if l == [] || l[0].tid != id then SkipScan(l, id)
    else if |l| > 1 && l[1].tid == id then [l[1]] + SkipScan(l[2..], id)
    else SkipScan(l[1..], id)
  }

  ghost predicate NoPair(l: seq<Message>, id: nat) {
    forall i :: 0 <= i < |l| - 1 ==> !(l[i].tid == id && l[i + 1].tid == id)
  }

  ghost predicate NoneFor(l: seq<Message>, id: nat) {
    forall i :: 0 <= i < |l| ==> l[i].tid != id
  }

  lemma {:induction false} SkipScanIff(l: seq<Message>, id: nat)
    ensures NoneFor(SkipScan(l, id), id) <==> (l == [] || l[0].tid != id) && NoPair(l, id)
    decreases |l|
  {
    if |l| > 1 {
      var rest := if l[1].tid == id then l[2..] else l[1..];
      SkipScanIff(rest, id);
      var r := SkipScan(l, id);
      assert r[1..] == SkipScan(rest, id);
      assert NoneFor(r, id) <==> r[0].tid != id && NoneFor(r[1..], id) by {
        assert forall i :: 0 < i < |r| ==> r[i] == r[1..][i - 1];
        assert forall i :: 0 <= i < |r| - 1 ==> r[1..][i] == r[i + 1];
      }
      assert NoPair(l, id) <==> !(l[0].tid == id && l[1].tid == id) && NoPair(l[1..], id) by {
        PairSplit(l, id);
      }
      if l[1].tid == id && |l| > 2 {
        PairSplit(l[1..], id);
        assert l[1..][1..] == l[2..];
      }
    }
  }

  lemma PairSplit(l: seq<Message>, id: nat)
    requires |l| > 1
    ensures NoPair(l, id) <==> !(l[0].tid == id && l[1].tid == id) && NoPair(l[1..], id)
  {
    if NoPair(l[1..], id) {
      forall i | 0 < i < |l| - 1
        ensures !(l[i].tid == id && l[i + 1].tid == id)
      {
        assert l[i] == l[1..][i - 1] && l[i + 1] == l[1..][i];
      }
    }
    if NoPair(l, id) {
      forall i | 0 <= i < |l[1..]| - 1
        ensures !(l[1..][i].tid == id && l[1..][i + 1].tid == id)
      {
        assert l[1..][i] == l[i + 1] && l[1..][i + 1] == l[i + 2];
      }
    }
  }

  /** As written, a dead thread's messages are all gone exactly when no two of them were neighbours. */
  lemma ClearAsWrittenIff(l: seq<Message>, id: nat)
    ensures NoneFor(ClearedAsWritten(l, id), id) <==> NoPair(l, id)
  {
    if l == [] || l[0].tid != id {
      SkipScanIff(l, id);
    } else if |l| > 1 {
      PairSplit(l, id);
      if l[1].tid == id {
        assert ClearedAsWritten(l, id)[0] == l[1];
      } else {
        SkipScanIff(l[1..], id);
      }
    }
  }

  lemma {:induction false} SkipScanClears(l: seq<Message>, id: nat)
    requires NoPair(l, id) && (l == [] || l[0].tid != id)
    ensures SkipScan(l, id) == Cleared(l, id)
    decreases |l|
  {
    if |l| > 1 {
      PairSplit(l, id);
      if l[1].tid == id {
        if |l| > 2 {
          PairSplit(l[1..], id);
          assert l[1..][1..] == l[2..];
        }
        SkipScanClears(l[2..], id);
        assert Cleared(l[1..], id) == Cleared(l[2..], id) by {
          assert l[1..][1..] == l[2..] && l[1..][0] == l[1];
        }
      } else {
        SkipScanClears(l[1..], id);
      }
    }
  }

  /** Without such a pair it leaves exactly what the repaired loop leaves. */
  lemma ClearAsWrittenClears(l: seq<Message>, id: nat)
    requires NoPair(l, id)
    ensures ClearedAsWritten(l, id) == Cleared(l, id)
  {
    if l == [] || l[0].tid != id {
      SkipScanClears(l, id);
    } else {
      if |l| > 1 {
        PairSplit(l, id);
      }
      SkipScanClears(l[1..], id);
    }
  }

  /** How many messages for the thread stand right before message `i`, if that is one for it too. */
  function RunBefore(l: seq<Message>, id: nat, i: nat): (n: nat)
    requires i < |l|
    ensures n <= i && forall x :: i - n <= x < i ==> l[x].tid == id
    ensures n > 0 ==> l[i].tid == id
  {
    if i > 0 && l[i].tid == id && l[i - 1].tid == id then RunBefore(l, id, i - 1) + 1 else 0
  }

  /** What the loop leaves: every message for another thread; of those in a row for this one every second, the
      first going; but of a row that starts the list the third as well as the second, and every second after. */
  predicate Stays(l: seq<Message>, id: nat, i: nat)
    requires i < |l|
  {
    var n := RunBefore(l, id, i);
    l[i].tid != id || if n == i && i >= 2 then i % 2 == 0 else n % 2 == 1
  }

  function Staying(l: seq<Message>, id: nat, from: nat): seq<Message>
    requires from <= |l|
    decreases |l| - from
  {
    if from == |l| then [] else (if Stays(l, id, from) then [l[from]] else []) + Staying(l, id, from + 1)
  }

  lemma {:induction false} SkipScanLeaves(l: seq<Message>, id: nat, i: nat)
    requires i < |l| && Stays(l, id, i) && !(i == 1 && l[0].tid == l[1].tid == id)
    ensures SkipScan(l[i..], id) == Staying(l, id, i)
    decreases |l| - i
  {
    var t := l[i..];
    hide Stays, RunBefore;
    if i + 1 < |l| {
      assert t[1] == l[i + 1] && t[1..] == l[i + 1..];
      if l[i + 1].tid == id {
        EverySecond(l, id, i);
        assert t[2..] == l[i + 2..];
        if i + 2 < |l| {
          SkipScanLeaves(l, id, i + 2);
        }
        StayingTwo(l, id, i);
        assert SkipScan(t, id) == [t[0]] + SkipScan(t[2..], id);
      } else {
        OthersStay(l, id, i + 1);
        SkipScanLeaves(l, id, i + 1);
        assert SkipScan(t, id) == [t[0]] + SkipScan(t[1..], id);
      }
    }
  }

  lemma StayingTwo(l: seq<Message>, id: nat, i: nat)
    requires i + 1 < |l| && Stays(l, id, i) && !Stays(l, id, i + 1)
    ensures Staying(l, id, i) == [l[i]] + Staying(l, id, i + 2)
  {
    hide Stays;
    assert Staying(l, id, i + 1) == [] + Staying(l, id, i + 2);
  }

  lemma EverySecond(l: seq<Message>, id: nat, i: nat)
    requires i + 1 < |l| && Stays(l, id, i) && l[i + 1].tid == id && !(i == 1 && l[0].tid == l[1].tid == id)
    ensures !Stays(l, id, i + 1) && (i + 2 < |l| ==> Stays(l, id, i + 2))
  {
  }

  lemma OthersStay(l: seq<Message>, id: nat, i: nat)
    requires i < |l| && l[i].tid != id
    ensures Stays(l, id, i)
  {
  }

  /** As written, clearing leaves exactly the messages that stay, in order; none of another thread's is lost. */
  lemma ClearedLeaves(l: seq<Message>, id: nat)
    ensures ClearedAsWritten(l, id) == Staying(l, id, 0)
    ensures forall t :: t != id ==> QueueOf(ClearedAsWritten(l, id), t) == QueueOf(l, t)
  {
    if l != [] {
      assert l[0..] == l;
      if l[0].tid != id {
        SkipScanLeaves(l, id, 0);
      } else if |l| > 1 {
        assert !Stays(l, id, 0);
        assert Staying(l, id, 0) == Staying(l, id, 1);
        if l[1].tid == id {
          assert Stays(l, id, 1) && Staying(l, id, 1) == [l[1]] + Staying(l, id, 2);
          if |l| > 2 {
            assert Stays(l, id, 2);
            SkipScanLeaves(l, id, 2);
          }
        } else {
          SkipScanLeaves(l, id, 1);
        }
      }
      forall t | t != id
        ensures QueueOf(Staying(l, id, 0), t) == QueueOf(l, t)
      {
        StayingQueue(l, id, 0, t);
      }
    }
  }

  lemma {:induction false} StayingQueue(l: seq<Message>, id: nat, from: nat, t: nat)
    requires from <= |l| && t != id
    ensures QueueOf(Staying(l, id, from), t) == QueueOf(l[from..], t)
    decreases |l| - from
  {
    if from < |l| {
      StayingQueue(l, id, from + 1, t);
      var r, rest := Staying(l, id, from), Staying(l, id, from + 1);
      assert l[from..][0] == l[from] && l[from..][1..] == l[from + 1..];
      if Stays(l, id, from) {
        assert r[0] == l[from] && r[1..] == rest;
      } else {
        assert r == rest;
      }
    }
  }

  /** Of two messages for thread 1 in a row, one is left behind. */
  lemma LeftBehindExample(d: seq<bv8>)
    ensures ClearedAsWritten([Message(2, d), Message(1, d), Message(1, d)], 1) == [Message(2, d), Message(1, d)]
  {
    var l := [Message(2, d), Message(1, d), Message(1, d)];
    assert l[2..] == [Message(1, d)] && SkipScan(l[2..], 1) == l[2..];
    assert SkipScan(l, 1) == [l[0]] + SkipScan(l[2..], 1);
  }

  ghost predicate PairInFront(l: seq<Message>, id: nat) {
    |l| > 1 && l[0].tid == id && l[1].tid == id
  }

  /** One round of the loop, on the contents. */
  lemma SkipRound(l: seq<Message>, j: nat, id: nat)
    requires j + 1 < |l|
    ensures var l' := if l[j + 1].tid == id then Without(l, j + 1) else l;
            l[..j] + SkipScan(l[j..], id) == l'[..j + 1] + SkipScan(l'[j + 1..], id)
  {
    var t := l[j..];
    assert t[0] == l[j] && t[1] == l[j + 1];
    var l' := if l[j + 1].tid == id then Without(l, j + 1) else l;
    var tail := if l[j + 1].tid == id then t[2..] else t[1..];
    assert SkipScan(t, id) == [l[j]] + SkipScan(tail, id);
    hide SkipScan;
    assert l'[j + 1..] == tail;
    assert l'[..j + 1] == l[..j] + [l[j]];
    hide *;
    Regrouped(l[..j], l[j], SkipScan(tail, id));
  }

  lemma Regrouped(s: seq<Message>, m: Message, t: seq<Message>)
    ensures s + ([m] + t) == (s + [m]) + t
  {
  }

  /** One round of the repaired walk. */
  lemma ClearedRound(l: seq<Message>, k: nat, id: nat)
    requires k <= |l|
    ensures l[..k] + Cleared(l[k..], id)
         == (if k == |l| then l
             else if l[k].tid == id then Without(l, k)[..k] + Cleared(Without(l, k)[k..], id)
             else l[..k + 1] + Cleared(l[k + 1..], id))
    ensures k == 0 ==> l[..k] + Cleared(l[k..], id) == Cleared(l, id)
    ensures k == 0 < |l| && l[0].tid == id ==> Cleared(l, id) == Cleared(Without(l, 0), id)
  {
    if k == 0 {
      assert l[..0] == [] && l[0..] == l;
    }
    if k < |l| {
      var t := l[k..];
      assert t[0] == l[k] && t[1..] == l[k + 1..];
      if l[k].tid == id {
        assert Without(l, k)[..k] == l[..k] && Without(l, k)[k..] == t[1..];
        if k == 0 {
          assert Without(l, 0) == l[1..];
        }
      } else {
        assert l[..k + 1] == l[..k] + [l[k]];
        assert l[..k] + ([l[k]] + Cleared(t[1..], id)) == (l[..k] + [l[k]]) + Cleared(t[1..], id);
      }
    }
  }

  // ----- the class -----

  // the node after the `j`th is passed over and freed
  method UnlinkNext(head: Node?, ghost ns: seq<Node>, it: Node, ghost j: nat)
    requires Linked(head, ns) && j + 1 < |ns| && it == ns[j]
    modifies it, ns[j + 1]
    ensures var ns' := ns[..j + 1] + ns[j + 2..];
            Linked(head, ns') && it.next == After(ns', j) && forall n :: n in ns' ==> n in ns && n.freed == old(n.freed)
    ensures ns[j + 1].freed
  {
    AfterRemove(ns, j);
    assert ns[j].next == After(ns, j) == ns[j + 1] && ns[j + 1].next == After(ns, j + 1);
    hide After;
    var tmp := it.next;
    it.next := tmp.next;
    tmp.freed := true;
  }

  class MessageList {
    var msgs: Node?
    ghost var nodes: seq<Node>

    ghost predicate Valid()
      reads this, nodes
    {
      Linked(msgs, nodes) && forall i :: 0 <= i < |nodes| ==> !nodes[i].freed
    }

    constructor ()
      ensures Valid() && nodes == []
    {
      msgs, nodes := null, [];
    }

    // the head leaves the list and is freed
    method UnlinkHead()
      requires Valid() && msgs != null
      modifies this, msgs
      ensures Valid() && old(nodes) != [] && nodes == old(nodes)[1..]
      ensures old(nodes)[0] !in nodes && old(nodes)[0].freed && old(nodes)[0].next == msgs
    {
      assert nodes[0].next == After(nodes, 0);
      var tmp := msgs;
      msgs := tmp.next;
      tmp.freed := true;
      nodes := nodes[1..];
      assert forall i :: 0 <= i < |nodes| ==> nodes[i].next == After(nodes, i) by {
        assert forall i :: 0 <= i < |nodes| ==> After(nodes, i) == After(old(nodes), i + 1)
                                                && nodes[i] == old(nodes)[i + 1];
      }
    }

    // the node after the `j`th leaves the list and is freed
    method UnlinkAfter(it: Node, ghost j: nat)
      requires Linked(msgs, nodes) && j + 1 < |nodes| && it == nodes[j]
      modifies this, it, nodes[j + 1]
      ensures Linked(msgs, nodes) && nodes == old(nodes)[..j + 1] + old(nodes)[j + 2..] && msgs == old(msgs)
      ensures it.next == After(nodes, j) && old(nodes)[j + 1].freed
      ensures forall n :: n in nodes ==> n in old(nodes) && n.freed == old(n.freed)
    {
      hide Linked, After;
      ghost var ns := nodes;
      UnlinkNext(msgs, ns, it, j);
      nodes := ns[..j + 1] + ns[j + 2..];
    }

    // the last node of a list that is not empty
    method Last() returns (it: Node)
      requires Valid() && msgs != null
      ensures nodes != [] && it == nodes[|nodes| - 1]
    {
      it := msgs;
      ghost var j := 0;
      while it.next != null
        invariant 0 <= j < |nodes| && it == nodes[j]
        decreases |nodes| - j
      {
        assert nodes[j].next == After(nodes, j);
        it := it.next;
        j := j + 1;
      }
      assert nodes[j].next == After(nodes, j);
    }

    /** sendMessage; `running` is what isRunning(tid) says. */
    method SendMessage(running: bool, tid: nat, data: seq<bv8>)
      requires Valid()
      modifies this, nodes
      ensures Valid()
      ensures Contents(nodes) == old(Contents(nodes)) + if running then [Message(tid, data)] else []
      ensures forall n :: n in nodes ==> n in old(nodes) || fresh(n)
    {
      hide Linked, After, Contents;
      if running {
        var msg := new Node(tid, data);
        ContentsPlus(nodes, msg);
        Append(msg);
      }
    }

    // lines 37-44: the new message behind the last one
    method Append(msg: Node)
      requires Valid() && msg !in nodes && msg.next == null && !msg.freed
      modifies this, nodes
      ensures Valid() && nodes == old(nodes) + [msg]
    {
      HeadOf(msgs, nodes);
      AfterAppend(nodes, msg);
      hide After;
      if msgs == null {
        msgs := msg;
      } else {
        var it := Last();
        it.next := msg;
      }
      nodes := nodes + [msg];
    }

    /** receiveMessage for thread `id`, as written. `throughNull`: line 69 reads through NULL, exactly on an
        empty list. Page 0 is mapped, so the read goes through; the rest holds if the word there is 0. */
    method ReceiveMessage(id: nat) returns (throughNull: bool, r: Option<seq<bv8>>)
      requires Valid()
      modifies this, nodes
      ensures throughNull <==> old(nodes) == []
      ensures Valid() && forall n :: n in nodes ==> n in old(nodes)
      ensures var l, k := old(Contents(nodes)), FirstFor(old(Contents(nodes)), id);
              if k < |l| then r == Some(l[k].data) && Contents(nodes) == Without(l, k)
              else r == None && Contents(nodes) == l
    {
      hide Linked, FirstFor, After, Contents, Without;
      ghost var ns, l := nodes, Contents(nodes);
      HeadOf(msgs, nodes);
      throughNull, r := false, None;
      var it := msgs;
      if it != null && it.tid == id {
        FirstForAt(l, id, 0);
        ContentsWithout(ns, 0);
        r := Some(it.data);
        UnlinkHead();
        return;
      }
      if it == null {
        throughNull := true;
        FirstForAt(l, id, 0);
        return;
      }
      var before;
      ghost var j;
      before, j := NodeBefore(id);
      if before != null {
        ContentsWithout(ns, j + 1);
        r := Some(before.next.data);
        UnlinkAfter(before, j);
      }
    }

    /** clearMessages as written: what is left is ClearedAsWritten, and when the first two messages both
        match, the second stays in the list although it has been freed. */
    method ClearMessages(id: nat)
      requires Valid()
      modifies this, nodes
      ensures Linked(msgs, nodes) && forall n :: n in nodes ==> n in old(nodes)
      ensures Contents(nodes) == ClearedAsWritten(old(Contents(nodes)), id)
      ensures OnlyFirstFreed(PairInFront(old(Contents(nodes)), id))
    {
      ghost var ns, l := nodes, Contents(nodes);
      HeadOf(msgs, nodes);
      ghost var pair := PairInFront(l, id);
      assert l[..0] == [] && l[0..] == l && (l != [] ==> l[1..][..0] == [] && l[1..][0..] == l[1..]);
      assert |l| > 1 ==> l[1..][..1] == [l[1]] && l[1..][1..] == l[2..] && l[1] == l[1..][0];
      hide Linked, After, Contents, SkipScan, OnlyFirstFreed, Without;
      var it := msgs;
      if it != null && it.tid == id {
        ContentsWithout(ns, 0);
        UnlinkHead();
        assert Contents(nodes) == l[1..];
        it := LeaveFreedHead(it, id);
        SkipFrom(it, if pair then 1 else 0, id, pair);
      } else {
        SkipFrom(it, 0, id, false);
      }
    }

    // the loop's first round when it starts at the freed head, still linked to the list
    method LeaveFreedHead(head: Node, id: nat) returns (it: Node?)
      requires Valid() && head !in nodes && head.next == msgs
      modifies head, nodes
      ensures Linked(msgs, nodes) && nodes == old(nodes) && msgs == old(msgs)
      ensures OnlyFirstFreed(nodes != [] && nodes[0].tid == id)
      ensures it == if nodes == [] then null else if nodes[0].tid == id then After(nodes, 0) else nodes[0]
    {
      HeadOf(msgs, nodes);
      assert nodes != [] ==> nodes[0].next == After(nodes, 0);
      it := head;
      if it.next != null {
        if it.next.tid == id {
          var tmp := it.next;
          it.next := tmp.next;
          tmp.freed := true;
        }
      }
      it := it.next;
    }

    // the loop from the node `start` of the list
    method SkipFrom(start: Node?, ghost k: nat, id: nat, ghost f: bool)
      requires Linked(msgs, nodes) && OnlyFirstFreed(f) && k <= |nodes|
      requires start == if k < |nodes| then nodes[k] else null
      modifies this, nodes
      ensures Linked(msgs, nodes) && OnlyFirstFreed(f) && forall n :: n in nodes ==> n in old(nodes)
      ensures Contents(nodes) == old(Contents(nodes))[..k] + SkipScan(old(Contents(nodes))[k..], id)
    {
      ghost var l := Contents(nodes);
      ghost var j: nat := k;
      var it := start;
      hide Linked, SkipScan, Contents, Without, After, OnlyFirstFreed;
      while it != null && it.next != null
        invariant Linked(msgs, nodes) && OnlyFirstFreed(f) && (forall n :: n in nodes ==> n in old(nodes))
        invariant j <= |nodes| && it == (if j < |nodes| then nodes[j] else null)
        invariant l[..k] + SkipScan(l[k..], id) == Contents(nodes)[..j] + SkipScan(Contents(nodes)[j..], id)
        decreases |nodes| - j
      {
        assert forall i :: 0 <= i < |nodes| ==> nodes[i] in nodes;
        it := Round(it, j, id, f);
        j := j + 1;
      }
      AtEnd(j, id);
    }

    // one round
    method Round(start: Node, ghost j: nat, id: nat, ghost f: bool) returns (it: Node?)
      requires Linked(msgs, nodes) && OnlyFirstFreed(f) && j < |nodes| && start == nodes[j] && start.next != null
      modifies this, nodes
      ensures Linked(msgs, nodes) && OnlyFirstFreed(f) && forall n :: n in nodes ==> n in old(nodes)
      ensures j + 1 <= |nodes| <= |old(nodes)| && it == if j + 1 < |nodes| then nodes[j + 1] else null
      ensures old(Contents(nodes))[..j] + SkipScan(old(Contents(nodes))[j..], id)
           == Contents(nodes)[..j + 1] + SkipScan(Contents(nodes)[j + 1..], id)
    {
      assert nodes[j].next == After(nodes, j);
      it := start;
      SkipRound(Contents(nodes), j, id);
      assert it.next.tid == Contents(nodes)[j + 1].tid;
      hide Linked, SkipScan, Contents, Without, OnlyFirstFreed;
      if it.next.tid == id {
        ContentsWithout(nodes, j + 1);
        UnlinkLater(it, j, f);
      }
      it := it.next;
    }

    method UnlinkLater(it: Node, ghost j: nat, ghost f: bool)
      requires Linked(msgs, nodes) && OnlyFirstFreed(f) && j + 1 < |nodes| && it == nodes[j]
      modifies this, it, nodes[j + 1]
      ensures Linked(msgs, nodes) && nodes == old(nodes)[..j + 1] + old(nodes)[j + 2..]
      ensures OnlyFirstFreed(f) && it.next == After(nodes, j) && forall n :: n in nodes ==> n in old(nodes)
    {
      hide Linked, After;
      UnlinkAfter(it, j);
      assert forall i :: 0 <= i < |nodes| ==> nodes[i] in nodes && nodes[i] == old(nodes)[if i <= j then i else i + 1];
    }

    ghost predicate OnlyFirstFreed(f: bool)
      reads this, nodes
    {
      forall i :: 0 <= i < |nodes| ==> (nodes[i].freed <==> i == 0 && f)
    }

    lemma AtEnd(j: nat, id: nat)
      requires Linked(msgs, nodes) && j <= |nodes| && (j < |nodes| ==> nodes[j].next == null)
      ensures Contents(nodes)[..j] + SkipScan(Contents(nodes)[j..], id) == Contents(nodes)
    {
      if j < |nodes| {
        assert nodes[j].next == After(nodes, j);
        assert Contents(nodes)[..j] + [Contents(nodes)[j]] == Contents(nodes);
        assert Contents(nodes)[j..] == [Contents(nodes)[j]];
      }
    }

    /** clearMessages, repaired: matching heads go first, and the walk stays on a node until the one behind
        it does not match. */
    method ClearMessagesRepaired(id: nat)
      requires Valid()
      modifies this, nodes
      ensures Valid() && forall n :: n in nodes ==> n in old(nodes)
      ensures Contents(nodes) == Cleared(old(Contents(nodes)), id)
    {
      ghost var l := Contents(nodes);
      HeadOf(msgs, nodes);
      hide Linked, Contents, After, Cleared;
      while msgs != null && msgs.tid == id
        invariant Valid() && (forall n :: n in nodes ==> n in old(nodes)) && (msgs == null <==> nodes == [])
        invariant nodes != [] ==> msgs == nodes[0]
        invariant Cleared(l, id) == Cleared(Contents(nodes), id)
        decreases |nodes|
      {
        ClearedRound(Contents(nodes), 0, id);
        ContentsWithout(nodes, 0);
        assert forall i :: 0 <= i < |nodes| ==> nodes[i] in nodes;
        UnlinkHead();
        HeadOf(msgs, nodes);
      }
      if msgs != null {
        assert forall i :: 0 <= i < |nodes| ==> nodes[i] in nodes;
        ClearBehindHead(id);
      } else {
        ClearedRound(Contents(nodes), 0, id);
      }
    }

    method ClearBehindHead(id: nat)
      requires Valid() && msgs != null && msgs.tid != id
      modifies this, nodes
      ensures Valid() && forall n :: n in nodes ==> n in old(nodes)
      ensures Contents(nodes) == Cleared(old(Contents(nodes)), id)
    {
      ghost var l := Contents(nodes);
      HeadOf(msgs, nodes);
      ClearedRound(l, 0, id);
      var it := msgs;
      ghost var j: nat := 0;
      hide Linked, Cleared, Contents, After;
      while it.next != null
        invariant Valid() && (forall n :: n in nodes ==> n in old(nodes)) && j < |nodes| && it == nodes[j]
        invariant Cleared(l, id) == Contents(nodes)[..j + 1] + Cleared(Contents(nodes)[j + 1..], id)
        decreases |nodes| - j
      {
        assert forall i :: 0 <= i < |nodes| ==> nodes[i] in nodes;
        it, j := ClearRound(it, j, id);
      }
      NextNode(j);
      ClearedRound(Contents(nodes), j + 1, id);
    }

    method ClearRound(start: Node, ghost k: nat, id: nat) returns (it: Node, ghost j: nat)
      requires Valid() && k < |nodes| && start == nodes[k] && start.next != null
      modifies this, nodes
      ensures Valid() && forall n :: n in nodes ==> n in old(nodes)
      ensures j < |nodes| && it == nodes[j] && |nodes| - j < |old(nodes)| - k
      ensures old(Contents(nodes))[..k + 1] + Cleared(old(Contents(nodes))[k + 1..], id)
           == Contents(nodes)[..j + 1] + Cleared(Contents(nodes)[j + 1..], id)
    {
      NextNode(k);
      ClearedRound(Contents(nodes), k + 1, id);
      it, j := start, k;
      assert it.next.tid == Contents(nodes)[j + 1].tid;
      hide Linked, Cleared, Contents, After, Without;
      if it.next.tid == id {
        ContentsWithout(nodes, j + 1);
        UnlinkAfter(it, j);
      } else {
        it := it.next;
        j := j + 1;
      }
    }

    lemma NextNode(j: nat)
      requires Valid() && j < |nodes|
      ensures nodes[j].next == null <==> j + 1 == |nodes|
      ensures j + 1 < |nodes| ==> nodes[j].next == nodes[j + 1]
    {
      assert nodes[j].next == After(nodes, j);
    }

    // the walk of lines 69-84: the node in front of the first match, or NULL
    method NodeBefore(id: nat) returns (it: Node?, ghost j: nat)
      requires Valid() && msgs != null && msgs.tid != id
      ensures j <= |nodes|
      ensures it != null ==>
                j + 1 < |nodes| && it == nodes[j] && it.next == nodes[j + 1] && FirstFor(Contents(nodes), id) == j + 1
      ensures it == null ==> FirstFor(Contents(nodes), id) == |nodes|
    {
      ghost var l := Contents(nodes);
      it, j := msgs, 0;
      while it.next != null
        invariant 0 <= j < |nodes| && it == nodes[j]
        invariant forall i :: 0 <= i <= j ==> l[i].tid != id
        decreases |nodes| - j
      {
        assert nodes[j].next == After(nodes, j);
        if it.next.tid == id {
          FirstForAt(l, id, j + 1);
          return;
        }
        it := it.next;
        j := j + 1;
      }
      assert nodes[j].next == After(nodes, j);
      FirstForAt(l, id, |l|);
      it := null;
    }
  }

  lemma {:induction false} FirstForAt(l: seq<Message>, id: nat, k: nat)
    requires k <= |l| && (forall i :: 0 <= i < k ==> l[i].tid != id) && (k < |l| ==> l[k].tid == id)
    ensures FirstFor(l, id) == k
  {
    var f := FirstFor(l, id);
    assert f < |l| ==> l[f].tid == id;
    assert k < |l| ==> l[k].tid == id;
  }
}
