/** Whole runs of kmalloc and kfree. */
module HeapRuns {
  import opened Basics
  import opened HeapLists
  import opened HeapTiling

  datatype Op = Malloc(length: nat) | Free(p: nat)

  /** Pointers handed out and not freed since, with the size asked for. */
  type Ledger = map<nat, nat>

  datatype World = World(h: HeapState, live: Ledger)

  /** Only live pointers are freed. */
  function Step(rule: Rule, w: World, op: Op): (r: World)
    requires WellShaped(w.h)
    ensures WellShaped(r.h)
  {
    match op
    case Malloc(n) =>
      var (h, p) := Kmalloc(rule, w.h, n);
      World(h, if p == 0 then w.live else w.live[p := n])
    case Free(p) => if p in w.live then World(Kfree(w.h, p), w.live - {p}) else w
  }

  function Run(rule: Rule, w: World, ops: seq<Op>): (r: World)
    requires WellShaped(w.h)
    ensures WellShaped(r.h)
  {
    if ops == [] then w else Step(rule, Run(rule, w, ops[..|ops| - 1]), ops[|ops| - 1])
  }

  const START := World(Empty(), map[])

  // ----- the invariant: lists and ledger are two views of one tiling -----

  predicate Tiled(h: HeapState, all: seq<Block>) {
    && WellShaped(h) && Tiles(all, HEAP_START, h.cur)
    && (forall c :: 0 <= c < CLASSES ==> h.lists[c] == ListOf(all, c))
    && (forall b :: b in all ==> b.cls < CLASSES && (b.cls < NONSTANDARD ==> b.chunk.length == SizeOf(b.cls)))
  }

  predicate Booked(all: seq<Block>, live: Ledger) {
    && (forall b :: b in all && b.chunk.used ==>
          b.chunk.Payload() in live && live[b.chunk.Payload()] <= b.chunk.length
          && ClassOf(live[b.chunk.Payload()]) == b.cls)
    && (forall p :: p in live ==> p >= HEADER && Holder(all, p) < |all|)
  }

  /** Index of the used block with payload `p`, or |all|. */
  function Holder(all: seq<Block>, p: nat): (i: nat)
    ensures i <= |all| && (i < |all| ==> all[i].chunk.used && all[i].chunk.Payload() == p)
    ensures i == |all| ==> forall j :: 0 <= j < |all| ==> !(all[j].chunk.used && all[j].chunk.Payload() == p)
  {
    if all == [] then 0 else if all[0].chunk.used && all[0].chunk.Payload() == p then 0 else 1 + Holder(all[1..], p)
  }

  /** The same used blocks, wherever they stand. */
  ghost predicate SameUsed(all: seq<Block>, all': seq<Block>) {
    forall b: Block :: b.chunk.used ==> (b in all <==> b in all')
  }

  lemma BookedKept(all: seq<Block>, all': seq<Block>, live: Ledger)
    requires Booked(all, live) && SameUsed(all, all')
    ensures Booked(all', live)
  {
    forall p | p in live
      ensures Holder(all', p) < |all'|
    {
      assert all[Holder(all, p)] in all';
    }
  }

  /** Searching the non-standard list under the repaired rule regroups free bytes only. */
  lemma {:induction false} FindTiled(all: seq<Block>, need: nat, from: nat, to: nat) returns (all': seq<Block>)
    requires Tiles(all, from, to)
    ensures Tiles(all', from, to)
    ensures ListOf(all', NONSTANDARD) == Find(Repaired, ListOf(all, NONSTANDARD), need).0
    ensures forall c :: c != NONSTANDARD ==> ListOf(all', c) == ListOf(all, c)
    ensures SameUsed(all, all')
    ensures forall b :: b in all' && b.cls != NONSTANDARD ==> b in all
    decreases |all|
  {
    var l := ListOf(all, NONSTANDARD);
    if all == [] {
      all' := [];
    } else if all[0].cls != NONSTANDARD {
      assert l == ListOf(all[1..], NONSTANDARD);
      var rest := FindTiled(all[1..], need, all[0].chunk.End(), to);
      all' := [all[0]] + rest;
      assert all'[1..] == rest;
    } else if Fits(l[0], need) {
      all' := all;
    } else if |l| > 1 && Mergeable(Repaired, l[0], l[1]) {
      NextIsAdjacent(all[1..], all[0].chunk.End(), to);
      assert l[1..] == ListOf(all[1..], NONSTANDARD);
      var merged := Block(NONSTANDARD, Merged(Repaired, l[0], l[1]));
      var shorter := [merged] + all[2..];
      assert l[2..] == ListOf(all[2..], NONSTANDARD);
      assert shorter[1..] == all[2..] && ListOf(shorter, NONSTANDARD) == [merged.chunk] + l[2..];
      all' := FindTiled(shorter, need, from, to);
      assert all == [all[0], all[1]] + all[2..];
      assert SameUsed(all, shorter);
      assert forall c :: ListOf(all, c) == (if c == NONSTANDARD then [l[0], l[1]] else []) + ListOf(all[2..], c);
    } else {
      assert l[1..] == ListOf(all[1..], NONSTANDARD);
      var rest := FindTiled(all[1..], need, all[0].chunk.End(), to);
      all' := [all[0]] + rest;
      assert all'[1..] == rest;
    }
  }

  /** A listed chunk that starts where the tiling starts is the tiling's first block. */
  lemma NextIsAdjacent(all: seq<Block>, from: nat, to: nat)
    requires Tiles(all, from, to) && ListOf(all, NONSTANDARD) != [] && ListOf(all, NONSTANDARD)[0].addr == from
    ensures all != [] && all[0] == Block(NONSTANDARD, ListOf(all, NONSTANDARD)[0])
  {
    TilesOrdered(all, from, to);
    var p := Locate(all, NONSTANDARD, 0);
  }

  /** Distinct blocks have distinct payloads. */
  lemma PayloadsDiffer(all: seq<Block>, from: nat, to: nat)
    requires Tiles(all, from, to)
    ensures forall i, j :: 0 <= i < |all| && 0 <= j < |all| && i != j ==>
              all[i].chunk.Payload() != all[j].chunk.Payload()
  {
    TilesOrdered(all, from, to);
  }

  lemma FreeIsNotLive(all: seq<Block>, p: nat, from: nat, to: nat, live: Ledger)
    requires Tiles(all, from, to) && Booked(all, live) && p < |all| && !all[p].chunk.used
    ensures all[p].chunk.Payload() !in live
  {
    PayloadsDiffer(all, from, to);
    var i := Holder(all, all[p].chunk.Payload());
    assert i < |all| ==> i == p;
  }

  /** Booking one more used block, next to the used blocks already booked. */
  lemma BookOneMore(all: seq<Block>, all': seq<Block>, live: Ledger, b: Block, n: nat)
    requires Booked(all, live) && b in all' && b.chunk.used && b.chunk.Payload() !in live
    requires n <= b.chunk.length && ClassOf(n) == b.cls
    requires forall x: Block :: x.chunk.used ==> (x in all' <==> x in all || x == b)
    ensures Booked(all', live[b.chunk.Payload() := n])
  {
    var q := b.chunk.Payload();
    forall r | r in live[q := n]
      ensures r >= HEADER && Holder(all', r) < |all'|
    {
      if r != q {
        assert all[Holder(all, r)] in all';
      }
    }
  }

  // the used blocks once a free one has given way to a used one and free ones
  lemma UsedAfter(all: seq<Block>, p: nat, news: seq<Block>)
    requires p < |all| && !all[p].chunk.used && news != [] && news[0].chunk.used
    requires forall i :: 1 <= i < |news| ==> !news[i].chunk.used
    ensures forall x: Block :: x.chunk.used ==> (x in all[..p] + news + all[p + 1..] <==> x in all || x == news[0])
  {
    assert all == all[..p] + [all[p]] + all[p + 1..];
    assert forall x :: x in news && x.chunk.used ==> x == news[0];
  }

  /** A free block handed out: its payload was not live, and is booked now. */
  lemma TakeBooked(all: seq<Block>, p: nat, news: seq<Block>, from: nat, to: nat, live: Ledger, n: nat)
    requires Tiles(all, from, to) && Booked(all, live) && p < |all| && !all[p].chunk.used
    requires news != [] && news[0].chunk.used && news[0].chunk.addr == all[p].chunk.addr
    requires forall i :: 1 <= i < |news| ==> !news[i].chunk.used
    requires n <= news[0].chunk.length && ClassOf(n) == news[0].cls
    ensures all[p].chunk.Payload() !in live
    ensures Booked(all[..p] + news + all[p + 1..], live[all[p].chunk.Payload() := n])
  {
    FreeIsNotLive(all, p, from, to, live);
    var all' := all[..p] + news + all[p + 1..];
    UsedAfter(all, p, news);
    hide Booked, Tiles;
    BookOneMore(all, all', live, news[0], n);
  }

  lemma AppendBooked(all: seq<Block>, b: Block, from: nat, to: nat, live: Ledger, n: nat)
    requires Tiles(all, from, to) && Booked(all, live) && b.chunk.addr == to && b.chunk.used
    requires n <= b.chunk.length && ClassOf(n) == b.cls
    ensures b.chunk.Payload() !in live
    ensures Booked(all + [b], live[b.chunk.Payload() := n])
  {
    TilesOrdered(all, from, to);
    assert (all + [b])[|all|] == b;
    BookOneMore(all, all + [b], live, b, n);
  }

  // ----- one step -----

  /** A new chunk at the end of the heap. */
  lemma AppendKeeps(h: HeapState, all: seq<Block>, live: Ledger, c: nat, size: nat, n: nat)
    requires Tiled(h, all) && Booked(all, live)
    requires c < CLASSES && ClassOf(n) == c && n <= size && (c < NONSTANDARD ==> size == SizeOf(c))
    ensures h.cur + HEADER !in live
    ensures var all' := all + [Block(c, Chunk(h.cur, size, true))];
            Tiled(Append(h, c, size), all') && Booked(all', live[h.cur + HEADER := n])
  {
    hide Tiles, ListOf, Holder, ClassOf, SizeOf, Booked;
    var b := Block(c, Chunk(h.cur, size, true));
    Extend(all, b, HEAP_START, h.cur);
    AppendBooked(all, b, HEAP_START, h.cur, live, n);
    forall x | x in all + [b]
      ensures x in all || x == b
    {
    }
  }

  /** Chunk `k` of list `c` replaced by blocks filling its bytes, the first of them handed out. */
  lemma ReuseKeeps(h: HeapState, all: seq<Block>, live: Ledger, c: nat, k: nat, news: seq<Block>, l': seq<Chunk>,
                   n: nat)
    returns (all': seq<Block>)
    requires Tiled(h, all) && Booked(all, live) && c < CLASSES && k < |h.lists[c]| && !h.lists[c][k].used
    requires news != [] && news[0].chunk.used && (forall i :: 1 <= i < |news| ==> !news[i].chunk.used)
    requires forall b :: b in news ==> b.cls == c && (c < NONSTANDARD ==> b.chunk.length == SizeOf(c))
    requires Tiles(news, h.lists[c][k].addr, h.lists[c][k].End())
    requires l' == h.lists[c][..k] + ChunksOf(news) + h.lists[c][k + 1..]
    requires n <= news[0].chunk.length && ClassOf(n) == c
    ensures h.lists[c][k].Payload() !in live && h.lists[c][k].Payload() >= HEADER
    ensures Tiled(h.(lists := h.lists[c := l']), all')
    ensures Booked(all', live[h.lists[c][k].Payload() := n])
  {
    assert news[0].chunk.addr == h.lists[c][k].addr;
    hide Tiles, ListOf, Holder, ClassOf, SizeOf, ChunksOf;
    var p;
    p, all' := Replace(all, c, k, news, HEAP_START, h.cur);
    TakeBooked(all, p, news, HEAP_START, h.cur, live, n);
    forall b | b in all'
      ensures b in all || b in news
    {
      assert b in all[..p] || b in news || b in all[p + 1..];
    }
  }

  lemma MallocStandardKeeps(rule: Rule, w: World, all: seq<Block>, n: nat) returns (all': seq<Block>)
    requires Tiled(w.h, all) && Booked(all, w.live) && ClassOf(n) < NONSTANDARD
    ensures var w' := Step(rule, w, Malloc(n)); Tiled(w'.h, all') && Booked(all', w'.live)
    ensures Kmalloc(rule, w.h, n).1 !in w.live && Kmalloc(rule, w.h, n).1 >= HEADER
  {
    hide Tiles, ListOf, Holder, FirstFree, ClassOf, SizeOf, Booked;
    var c := ClassOf(n);
    var l := w.h.lists[c];
    var k := FirstFree(l);
    if k < |l| {
      var news := [Block(c, l[k].(used := true))];
      OneBlock(news[0]);
      assert Take(l, k) == l[..k] + ChunksOf(news) + l[k + 1..];
      assert l[k].length == SizeOf(c) by {
        var p := Locate(all, c, k);
        assert all[p] in all;
      }
      all' := ReuseKeeps(w.h, all, w.live, c, k, news, Take(l, k), n);
    } else {
      AppendKeeps(w.h, all, w.live, c, SizeOf(c), n);
      all' := all + [Block(c, Chunk(w.h.cur, SizeOf(c), true))];
    }
  }

  lemma MallocOtherKeeps(w: World, all: seq<Block>, n: nat) returns (all': seq<Block>)
    requires Tiled(w.h, all) && Booked(all, w.live) && 512 <= n < 0x8000_0000
    ensures var w' := Step(Repaired, w, Malloc(n)); Tiled(w'.h, all') && Booked(all', w'.live)
    ensures Kmalloc(Repaired, w.h, n).1 !in w.live && Kmalloc(Repaired, w.h, n).1 >= HEADER
  {
    hide Tiles, ListOf, Holder, Find, Booked;
    var (l, k) := Find(Repaired, w.h.lists[NONSTANDARD], n);
    var all1 := FindTiled(all, n, HEAP_START, w.h.cur);
    BookedKept(all, all1, w.live);
    var h1 := w.h.(lists := w.h.lists[NONSTANDARD := l]);
    assert Tiled(h1, all1);
    if k < |l| {
      var pieces := SplitPieces(Repaired, l[k], n);
      var head := Block(NONSTANDARD, pieces[0].(used := true));
      var news := [head];
      if |pieces| == 1 {
        OneBlock(head);
      } else {
        news := [head, Block(NONSTANDARD, pieces[1])];
        TwoBlocks(head, news[1]);
      }
      var l' := Take(Split(Repaired, l, k, n), k);
      assert l' == l[..k] + ChunksOf(news) + l[k + 1..];
      all' := ReuseKeeps(h1, all1, w.live, NONSTANDARD, k, news, l', n);
      assert h1.lists[NONSTANDARD := l'] == w.h.lists[NONSTANDARD := l'];
    } else {
      AppendKeeps(h1, all1, w.live, NONSTANDARD, n, n);
      all' := all1 + [Block(NONSTANDARD, Chunk(w.h.cur, n, true))];
    }
  }

  function ReleasedBlocks(all: seq<Block>, p: nat): (r: seq<Block>)
    ensures |r| == |all| && forall i :: 0 <= i < |all| ==> r[i] == all[i].(chunk := ReleasedChunk(all[i].chunk, p))
  {
    if all == [] then [] else [all[0].(chunk := ReleasedChunk(all[0].chunk, p))] + ReleasedBlocks(all[1..], p)
  }

  lemma {:induction false} ReleaseTiles(all: seq<Block>, p: nat, from: nat, to: nat)
    requires Tiles(all, from, to)
    ensures Tiles(ReleasedBlocks(all, p), from, to)
    ensures forall c :: ListOf(ReleasedBlocks(all, p), c) == ReleasedList(ListOf(all, c), p)
  {
    if all != [] {
      ReleaseTiles(all[1..], p, all[0].chunk.End(), to);
      var r := ReleasedBlocks(all, p);
      assert r[1..] == ReleasedBlocks(all[1..], p);
      forall c
        ensures ListOf(r, c) == ReleasedList(ListOf(all, c), p)
      {
        if all[0].cls == c {
          assert ListOf(all, c) == [all[0].chunk] + ListOf(all[1..], c);
          assert ListOf(all, c)[1..] == ListOf(all[1..], c);
        } else {
          assert ListOf(all, c) == ListOf(all[1..], c);
        }
      }
    }
  }

  lemma ReleaseBooked(all: seq<Block>, p: nat, live: Ledger)
    requires Booked(all, live) && p in live
    ensures Booked(ReleasedBlocks(all, p), live - {p})
  {
    hide ReleasedBlocks, Holder, ClassOf;
    var all' := ReleasedBlocks(all, p);
    forall b | b in all' && b.chunk.used
      ensures b in all && b.chunk.Payload() != p
    {
      var i :| 0 <= i < |all'| && all'[i] == b;
      assert all'[i] == all[i].(chunk := ReleasedChunk(all[i].chunk, p));
    }
    forall q | q in live - {p}
      ensures q >= HEADER && Holder(all', q) < |all'|
    {
      var i := Holder(all, q);
      assert all'[i] == all[i];
    }
  }

  lemma FreeKeeps(rule: Rule, w: World, all: seq<Block>, p: nat) returns (all': seq<Block>)
    requires Tiled(w.h, all) && Booked(all, w.live) && p in w.live
    ensures var w' := Step(rule, w, Free(p)); Tiled(w'.h, all') && Booked(all', w'.live)
  {
    all' := ReleasedBlocks(all, p);
    ReleaseTiles(all, p, HEAP_START, w.h.cur);
    ReleaseBooked(all, p, w.live);
  }

  /** Under the repaired rule any request; as written, only those below the non-standard sizes. */
  predicate InScope(rule: Rule, op: Op) {
    rule == Repaired || (op.Malloc? ==> op.length < 512)
  }

  lemma StepKeeps(rule: Rule, w: World, all: seq<Block>, op: Op) returns (all': seq<Block>)
    requires Tiled(w.h, all) && Booked(all, w.live) && InScope(rule, op)
    ensures var w' := Step(rule, w, op); Tiled(w'.h, all') && Booked(all', w'.live)
  {
    all' := all;
    match op
    case Malloc(n) =>
      if ClassOf(n) < NONSTANDARD {
        all' := MallocStandardKeeps(rule, w, all, n);
      } else if n < 0x8000_0000 {
        all' := MallocOtherKeeps(w, all, n);
      }
    case Free(p) =>
      if p in w.live {
        all' := FreeKeeps(rule, w, all, p);
      }
  }

  // ----- every run -----

  /** After any run the chunks of all lists tile [HEAP_START, cur) exactly, each on the one list of its
      class in ascending order, and live payloads are as large as asked for. */
  lemma {:induction false} EveryRunTiles(rule: Rule, ops: seq<Op>) returns (all: seq<Block>)
    requires forall op :: op in ops ==> InScope(rule, op)
    ensures var w := Run(rule, START, ops); Tiled(w.h, all) && Booked(all, w.live)
  {
    if ops == [] {
      all := [];
    } else {
      var before := EveryRunTiles(rule, ops[..|ops| - 1]);
      all := StepKeeps(rule, Run(rule, START, ops[..|ops| - 1]), before, ops[|ops| - 1]);
    }
  }

  /** Two live payloads never share a byte, and both lie inside the heap. */
  lemma LivePayloadsDisjoint(ops: seq<Op>, p: nat, q: nat)
    requires var w := Run(Repaired, START, ops); p in w.live && q in w.live && p != q
    ensures var w := Run(Repaired, START, ops);
            && HEAP_START < p && p + w.live[p] <= w.h.cur
            && (p + w.live[p] <= q || q + w.live[q] <= p)
  {
    var w := Run(Repaired, START, ops);
    var all := EveryRunTiles(Repaired, ops);
    TilesOrdered(all, HEAP_START, w.h.cur);
    hide Tiles, ListOf, Run, Holder, ClassOf;
    var i, j := Holder(all, p), Holder(all, q);
    assert all[i] in all && all[j] in all;
    assert i < j || j < i;
  }

  // ----- how much a request holds -----

  /** Every used chunk of the list is a live request, with at most 8 bytes to spare. */
  predicate Tight(l: seq<Chunk>, live: Ledger) {
    forall a :: a in l && a.used ==> a.Payload() in live && live[a.Payload()] <= a.length <= live[a.Payload()] + HEADER
  }

  lemma {:induction false} UsedFound(l: seq<Chunk>, need: nat)
    ensures forall a :: a in Find(Repaired, l, need).0 && a.used ==> a in l
    decreases |l|
  {
    if l == [] || Fits(l[0], need) {
    } else if |l| > 1 && Mergeable(Repaired, l[0], l[1]) {
      UsedFound([Merged(Repaired, l[0], l[1])] + l[2..], need);
    } else {
      UsedFound(l[1..], need);
    }
  }

  lemma TightTaken(l: seq<Chunk>, live: Ledger, k: nat, n: nat)
    requires Tight(l, live) && k < |l| && Fits(l[k], n) && l[k].Payload() !in live
    ensures Tight(Take(Split(Repaired, l, k, n), k), live[l[k].Payload() := n])
  {
    var r := Take(Split(Repaired, l, k, n), k);
    forall a | a in r && a.used
      ensures a in l || (a.Payload() == l[k].Payload() && n <= a.length <= n + HEADER)
    {
      var i :| 0 <= i < |r| && r[i] == a;
      assert i < k ==> a == l[i];
    }
  }

  lemma TightStep(w: World, all: seq<Block>, op: Op)
    requires Tiled(w.h, all) && Booked(all, w.live) && Tight(w.h.lists[NONSTANDARD], w.live)
    ensures var v := Step(Repaired, w, op); Tight(v.h.lists[NONSTANDARD], v.live)
  {
    var l := w.h.lists[NONSTANDARD];
    hide Tiled, Booked, Find, SplitPieces, Split, ClassOf;
    match op
    case Malloc(n) =>
      if n < FIELD && ClassOf(n) == NONSTANDARD {
        TightServed(w, all, n);
      } else if n < FIELD {
        var _ := MallocStandardKeeps(Repaired, w, all, n);
      }
    case Free(p) =>
      TightFreed(l, w.live, p);
  }

  lemma TightServed(w: World, all: seq<Block>, n: nat)
    requires Tiled(w.h, all) && Booked(all, w.live) && Tight(w.h.lists[NONSTANDARD], w.live)
    requires n < FIELD && ClassOf(n) == NONSTANDARD
    ensures var v := Step(Repaired, w, Malloc(n)); Tight(v.h.lists[NONSTANDARD], v.live)
  {
    var l := w.h.lists[NONSTANDARD];
    hide Tiled, Booked, Find, SplitPieces, Split, ClassOf;
    var _ := MallocOtherKeeps(w, all, n);
    UsedFound(l, n);
    var (r, k) := Find(Repaired, l, n);
    if k < |r| {
      TightTaken(r, w.live, k, n);
    }
  }

  lemma TightFreed(l: seq<Chunk>, live: Ledger, p: nat)
    requires Tight(l, live)
    ensures Tight(ReleasedList(l, p), live - {p})
  {
    var r := ReleasedList(l, p);
    forall a | a in r && a.used
      ensures a in l && a.Payload() != p
    {
      var i :| 0 <= i < |r| && r[i] == a;
      assert r[i] == ReleasedChunk(l[i], p);
    }
  }

  /** After any repaired run a chunk of the last list that is in use is a live request's own, and at most
      8 bytes longer than asked for. */
  lemma {:induction false} RequestsAreTight(ops: seq<Op>)
    ensures var w := Run(Repaired, START, ops);
            forall a :: a in w.h.lists[NONSTANDARD] && a.used ==>
              && a.Payload() in w.live
              && w.live[a.Payload()] <= a.length <= w.live[a.Payload()] + HEADER
  {
    if ops != [] {
      var before := ops[..|ops| - 1];
      RequestsAreTight(before);
      var all := EveryRunTiles(Repaired, before);
      hide Tiled, Booked, Step;
      assert Tight(Run(Repaired, START, before).h.lists[NONSTANDARD], Run(Repaired, START, before).live);
      TightStep(Run(Repaired, START, before), all, ops[|ops| - 1]);
    }
  }

  // ----- peaks -----

  function LiveOf(live: Ledger, c: nat): set<nat> {
    set p | p in live && ClassOf(live[p]) == c
  }

  /** The largest number of requests of class `c` live at once at any point of the run. */
  function Peak(rule: Rule, ops: seq<Op>, c: nat): nat {
    if ops == [] then 0
    else
      var before, now := Peak(rule, ops[..|ops| - 1], c), |LiveOf(Run(rule, START, ops).live, c)|;
      if now > before then now else before
  }

  function UsedCount(l: seq<Chunk>): (n: nat)
    ensures n <= |l|
    ensures n == |l| <==> forall i :: 0 <= i < |l| ==> l[i].used
  {
    if l == [] then 0 else (if l[0].used then 1 else 0) + UsedCount(l[1..])
  }

  function UsedPayloads(all: seq<Block>, c: nat): (r: set<nat>)
    ensures forall p :: p in r <==> exists b :: b in all && b.cls == c && b.chunk.used && b.chunk.Payload() == p
  {
    if all == [] then {}
    else
      assert forall b :: b in all <==> b == all[0] || b in all[1..];
      (if all[0].cls == c && all[0].chunk.used then {all[0].chunk.Payload()} else {}) + UsedPayloads(all[1..], c)
  }

  lemma {:induction false} UsedPayloadsCount(all: seq<Block>, c: nat, from: nat, to: nat)
    requires Tiles(all, from, to)
    ensures |UsedPayloads(all, c)| == UsedCount(ListOf(all, c))
  {
    if all != [] {
      UsedPayloadsCount(all[1..], c, all[0].chunk.End(), to);
      PayloadsDiffer(all, from, to);
      var p, rest := all[0].chunk.Payload(), UsedPayloads(all[1..], c);
      forall b | b in all[1..]
        ensures b.chunk.Payload() != p
      {
        var i :| 0 <= i < |all[1..]| && all[1..][i] == b;
        assert all[i + 1] == b;
      }
      assert p !in rest;
      var l := ListOf(all[1..], c);
      if all[0].cls == c {
        assert ListOf(all, c) == [all[0].chunk] + l && ([all[0].chunk] + l)[1..] == l;
      } else {
        assert ListOf(all, c) == l;
      }
    }
  }

  /** The allocated chunks of a list are exactly the live requests of its class. */
  lemma UsedIsLive(h: HeapState, all: seq<Block>, live: Ledger, c: nat)
    requires Tiled(h, all) && Booked(all, live) && c < CLASSES
    ensures UsedCount(h.lists[c]) == |LiveOf(live, c)|
  {
    UsedPayloadsCount(all, c, HEAP_START, h.cur);
    forall p
      ensures p in LiveOf(live, c) <==> p in UsedPayloads(all, c)
    {
      if p in LiveOf(live, c) {
        assert all[Holder(all, p)] in all;
      }
    }
    assert LiveOf(live, c) == UsedPayloads(all, c);
  }

  /** A standard list only grows when all of it is in use. */
  lemma StandardGrowth(rule: Rule, w: World, op: Op, c: nat)
    requires WellShaped(w.h) && c < NONSTANDARD
    ensures var l, l' := w.h.lists[c], Step(rule, w, op).h.lists[c];
            |l'| == |l| || (|l'| == |l| + 1 && UsedCount(l') == |l'|)
  {
    var l := w.h.lists[c];
    if op.Malloc? && ClassOf(op.length) == c && FirstFree(l) == |l| {
      var l' := l + [Chunk(w.h.cur, SizeOf(c), true)];
      assert forall i :: 0 <= i < |l'| ==> l'[i].used;
    }
  }

  /** Every standard list holds exactly as many chunks as its class ever had live at once. */
  lemma {:induction false} ListsArePeaks(rule: Rule, ops: seq<Op>, c: nat)
    requires forall op :: op in ops ==> InScope(rule, op)
    requires c < NONSTANDARD
    ensures |Run(rule, START, ops).h.lists[c]| == Peak(rule, ops, c)
  {
    if ops != [] {
      var prefix, op := ops[..|ops| - 1], ops[|ops| - 1];
      ListsArePeaks(rule, prefix, c);
      var w, w' := Run(rule, START, prefix), Run(rule, START, ops);
      StandardGrowth(rule, w, op, c);
      var all' := EveryRunTiles(rule, ops);
      UsedIsLive(w'.h, all', w'.live, c);
    }
  }

  // ----- extent -----

  function Span(l: seq<Chunk>): nat {
    if l == [] then 0 else HEADER + l[0].length + Span(l[1..])
  }

  /** The bytes of the blocks of classes below `n`. */
  function SpanBelow(all: seq<Block>, n: nat): nat {
    if n == 0 then 0 else SpanBelow(all, n - 1) + Span(ListOf(all, n - 1))
  }

  lemma {:induction false} SpanBelowStep(all: seq<Block>, n: nat)
    requires all != []
    ensures SpanBelow(all, n) == SpanBelow(all[1..], n) + if all[0].cls < n then HEADER + all[0].chunk.length else 0
  {
    if n > 0 {
      SpanBelowStep(all, n - 1);
      var l := ListOf(all[1..], n - 1);
      if all[0].cls == n - 1 {
        assert ListOf(all, n - 1) == [all[0].chunk] + l && ([all[0].chunk] + l)[1..] == l;
      } else {
        assert ListOf(all, n - 1) == l;
      }
    }
  }

  lemma {:induction false} ExtentIsSpan(all: seq<Block>, from: nat, to: nat, n: nat)
    requires Tiles(all, from, to) && forall b :: b in all ==> b.cls < n
    ensures to == from + SpanBelow(all, n)
  {
    if all == [] {
      EmptySpan(n);
    } else {
      ExtentIsSpan(all[1..], all[0].chunk.End(), to, n);
      SpanBelowStep(all, n);
    }
  }

  lemma {:induction false} EmptySpan(n: nat)
    ensures SpanBelow([], n) == 0
  {
    if n > 0 {
      EmptySpan(n - 1);
    }
  }

  /** Peak times chunk size, header included, over the classes below `n`. */
  function PeakBytes(rule: Rule, ops: seq<Op>, n: nat): nat
    requires n <= NONSTANDARD
  {
    if n == 0 then 0 else PeakBytes(rule, ops, n - 1) + Peak(rule, ops, n - 1) * (SizeOf(n - 1) + HEADER)
  }

  lemma {:induction false} EqualChunksSpan(l: seq<Chunk>, size: nat)
    requires forall a :: a in l ==> a.length == size
    ensures Span(l) == |l| * (size + HEADER)
  {
    if l != [] {
      EqualChunksSpan(l[1..], size);
    }
  }

  lemma ClassChunks(all: seq<Block>, c: nat)
    requires c < NONSTANDARD && forall b :: b in all ==> b.cls < NONSTANDARD ==> b.chunk.length == SizeOf(b.cls)
    ensures forall a :: a in ListOf(all, c) ==> a.length == SizeOf(c)
  {
    var l := ListOf(all, c);
    forall a | a in l
      ensures a.length == SizeOf(c)
    {
      var i :| 0 <= i < |l| && l[i] == a;
      var p := Locate(all, c, i);
      assert all[p] in all;
    }
  }

  lemma StartsShaped()
    ensures WellShaped(START.h)
  {
  }

  lemma ClassSpan(h: HeapState, all: seq<Block>, c: nat)
    requires c < NONSTANDARD && Tiled(h, all)
    ensures Span(ListOf(all, c)) == |h.lists[c]| * (SizeOf(c) + HEADER)
  {
    ClassChunks(all, c);
    EqualChunksSpan(ListOf(all, c), SizeOf(c));
  }

  lemma {:induction false} SpanIsPeakBytes(rule: Rule, ops: seq<Op>, all: seq<Block>, n: nat)
    requires forall op :: op in ops ==> InScope(rule, op)
    requires n <= NONSTANDARD && Tiled(Run(rule, START, ops).h, all)
    ensures SpanBelow(all, n) == PeakBytes(rule, ops, n)
  {
    hide Tiled, WellShaped, InScope, Run, ListOf, Peak, SizeOf, Span;
    if n > 0 {
      SpanIsPeakBytes(rule, ops, all, n - 1);
      StartsShaped();
      ClassSpan(Run(rule, START, ops).h, all, n - 1);
      ListsArePeaks(rule, ops, n - 1);
    }
  }

  /** As written or repaired: how far the heap has grown is what the peaks of the ten classes need,
      plus the chunks of the non-standard list, and nothing else. */
  lemma HeapExtent(rule: Rule, ops: seq<Op>)
    requires forall op :: op in ops ==> InScope(rule, op)
    ensures var h := Run(rule, START, ops).h;
            h.cur == HEAP_START + PeakBytes(rule, ops, NONSTANDARD) + Span(h.lists[NONSTANDARD])
  {
    var all := EveryRunTiles(rule, ops);
    ExtentIsSpan(all, HEAP_START, Run(rule, START, ops).h.cur, CLASSES);
    SpanIsPeakBytes(rule, ops, all, NONSTANDARD);
  }

  /** As written, with small requests only, there is no such chunk. */
  lemma {:induction false} SmallRunsOnly(ops: seq<Op>)
    requires forall op :: op in ops ==> InScope(AsWritten, op)
    ensures Run(AsWritten, START, ops).h.lists[NONSTANDARD] == []
    ensures Run(AsWritten, START, ops).h.cur == HEAP_START + PeakBytes(AsWritten, ops, NONSTANDARD)
  {
    if ops != [] {
      SmallRunsOnly(ops[..|ops| - 1]);
      var w, op := Run(AsWritten, START, ops[..|ops| - 1]), ops[|ops| - 1];
      assert InScope(AsWritten, op);
      assert Step(AsWritten, w, op).h.lists[NONSTANDARD] == [];
    }
    HeapExtent(AsWritten, ops);
  }

  /** ... and the heap's end stays on a multiple of 8. */
  lemma {:induction false} SmallRunsAligned(ops: seq<Op>)
    requires forall op :: op in ops ==> InScope(AsWritten, op)
    ensures Run(AsWritten, START, ops).h.cur % 8 == 0
  {
    if ops != [] {
      var before := ops[..|ops| - 1];
      assert ops[|ops| - 1] in ops;
      SmallRunsAligned(before);
      StandardStepGrows(Run(AsWritten, START, before), ops[|ops| - 1]);
    }
  }

  lemma StandardStepGrows(w: World, op: Op)
    requires WellShaped(w.h) && InScope(AsWritten, op)
    ensures var cur := Step(AsWritten, w, op).h.cur;
            cur == w.h.cur || exists c: nat :: c < NONSTANDARD && cur == w.h.cur + HEADER + SizeOf(c)
    ensures (Step(AsWritten, w, op).h.cur - w.h.cur) % 8 == 0
  {
    if op.Malloc? && ClassOf(op.length) < NONSTANDARD {
      assert SizeOf(ClassOf(op.length)) % 8 == 0;
    }
  }

  lemma RunFirst(rule: Rule, w: World, ops: seq<Op>, i: nat)
    requires WellShaped(w.h) && i < |ops|
    ensures Run(rule, w, ops[..i + 1]) == Step(rule, Run(rule, w, ops[..i]), ops[i])
  {
    assert ops[..i + 1][..i] == ops[..i];
  }

  lemma FindAtFront(rule: Rule, l: seq<Chunk>, need: nat)
    ensures l == [] ==> Find(rule, l, need) == ([], 0)
    ensures l != [] && Fits(l[0], need) ==> Find(rule, l, need) == (l, 0)
  {
  }

  lemma FourSteps(rule: Rule, w: World, a: Op, b: Op, c: Op, d: Op)
    requires WellShaped(w.h)
    ensures Run(rule, w, [a, b, c, d]) == Step(rule, Step(rule, Step(rule, Step(rule, w, a), b), c), d)
  {
    hide Step;
    var ops := [a, b, c, d];
    RunFirst(rule, w, ops, 0);
    RunFirst(rule, w, ops, 1);
    RunFirst(rule, w, ops, 2);
    RunFirst(rule, w, ops, 3);
    assert ops[..4] == ops && ops[..0] == [];
  }

  lemma ExampleCuts()
    ensures Cuts([Chunk(HEAP_START, 608, false), Chunk(HEAP_START + 600, 0x7FFF_FFF8, false)], 700)
  {
    CutExample(HEAP_START);
  }

  const FIRST_PAYLOAD := HEAP_START + HEADER

  lemma FirstAskedAndFreed()
    ensures var w := Step(AsWritten, Step(AsWritten, START, Malloc(600)), Free(FIRST_PAYLOAD));
            w.h.lists[NONSTANDARD] == [Chunk(HEAP_START, 600, false)]
  {
    hide Find;
    FindAtFront(AsWritten, [], 600);
    var w := Step(AsWritten, START, Malloc(600));
    assert w.h.lists[NONSTANDARD] == [Chunk(HEAP_START, 600, true)] && w.live == map[FIRST_PAYLOAD := 600];
  }

  lemma AskedAndFreedAgain(w: World)
    requires WellShaped(w.h) && w.h.lists[NONSTANDARD] == [Chunk(HEAP_START, 600, false)]
    ensures var v := Step(AsWritten, Step(AsWritten, w, Malloc(600)), Free(FIRST_PAYLOAD));
            v.h.lists[NONSTANDARD] == [Chunk(HEAP_START, 608, false), Chunk(HEAP_START + 600, 0x7FFF_FFF8, false)]
  {
    hide Find;
    FindAtFront(AsWritten, [Chunk(HEAP_START, 600, false)], 600);
    var v := Step(AsWritten, w, Malloc(600));
    assert v.h.lists[NONSTANDARD] == [Chunk(HEAP_START, 608, true), Chunk(HEAP_START + 600, 0x7FFF_FFF8, false)];
    assert FIRST_PAYLOAD in v.live;
  }

  /** As written, 600 bytes asked for and freed twice leave the list of CutExample. */
  lemma CutIsReached()
    ensures var p := HEAP_START + HEADER;
            var h := Run(AsWritten, START, [Malloc(600), Free(p), Malloc(600), Free(p)]).h;
            && h.lists[NONSTANDARD] == [Chunk(HEAP_START, 608, false), Chunk(HEAP_START + 600, 0x7FFF_FFF8, false)]
            && Cuts(h.lists[NONSTANDARD], 700)
  {
    hide Step, Cuts, Run;
    var ask, free := Malloc(600), Free(FIRST_PAYLOAD);
    FourSteps(AsWritten, START, ask, free, ask, free);
    FirstAskedAndFreed();
    AskedAndFreedAgain(Step(AsWritten, Step(AsWritten, START, ask), free));
    ExampleCuts();
  }

  /** A length that is negative as an int gets NULL and changes nothing; any other gets a pointer that is not
      NULL and not one still live. */
  lemma FreshPointer(rule: Rule, ops: seq<Op>, n: nat)
    requires forall op :: op in ops ==> InScope(rule, op)
    requires InScope(rule, Malloc(n))
    ensures var w := Run(rule, START, ops);
            var (h, p) := Kmalloc(rule, w.h, n);
            if n >= FIELD then h == w.h && p == 0 else p != 0 && p !in w.live
  {
    var all := EveryRunTiles(rule, ops);
    if n >= FIELD {
    } else if ClassOf(n) < NONSTANDARD {
      var _ := MallocStandardKeeps(rule, Run(rule, START, ops), all, n);
    } else {
      var _ := MallocOtherKeeps(Run(rule, START, ops), all, n);
    }
  }
}
