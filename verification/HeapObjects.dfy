/** The per-process heap of kernelcpp/code/mem/heap.c: chunk headers in memory, linked through `next`,
    and list_array. Each method is proved against the functions of HeapLists. */
module HeapObjects {
  import opened Basics
  import opened Paging
  import opened Pmm
  import opened Mmu
  import opened HeapLists
  import opened HeapTiling
  import opened HeapRuns
  import opened HeapGrowth
  import opened Accounting

  // header_t; 0 is NULL
  datatype Header = Header(next: nat, used: bool, length: nat)

  /** Headers by address, as they lie in the process's memory. */
  type Headers = map<nat, Header>

  function ChunkAt(hs: Headers, a: nat): Chunk
    requires a in hs
  {
    Chunk(a, hs[a].length, hs[a].used)
  }

  /** `chain` is the list that starts at pointer `head`. */
  ghost predicate Linked(hs: Headers, head: nat, chain: seq<nat>) {
    && head == (if chain == [] then 0 else chain[0])
    && (forall i :: 0 <= i < |chain| ==> chain[i] != 0 && chain[i] in hs)
    && (forall i :: 0 <= i < |chain| ==> hs[chain[i]].next == if i + 1 < |chain| then chain[i + 1] else 0)
    && (forall i, j :: 0 <= i < j < |chain| ==> chain[i] != chain[j])
  }

  function View(hs: Headers, chain: seq<nat>): (l: seq<Chunk>)
    requires forall i :: 0 <= i < |chain| ==> chain[i] in hs
    ensures |l| == |chain| && forall i :: 0 <= i < |chain| ==> l[i] == ChunkAt(hs, chain[i])
  {
    seq(|chain|, i requires 0 <= i < |chain| => ChunkAt(hs, chain[i]))
  }

  ghost predicate NodesIn(hs: Headers, chains: seq<seq<nat>>) {
    forall c, i :: 0 <= c < |chains| && 0 <= i < |chains[c]| ==> chains[c][i] in hs
  }

  function Views(hs: Headers, chains: seq<seq<nat>>): (ls: seq<seq<Chunk>>)
    requires NodesIn(hs, chains)
    ensures |ls| == |chains| && forall c :: 0 <= c < |chains| ==> ls[c] == View(hs, chains[c])
  {
    seq(|chains|, c requires 0 <= c < |chains| => View(hs, chains[c]))
  }

  ghost predicate AllLinked(hs: Headers, heads: seq<nat>, chains: seq<seq<nat>>) {
    |heads| == |chains| && forall c :: 0 <= c < |chains| ==> Linked(hs, heads[c], chains[c])
  }

  lemma LinkedAt(hs: Headers, head: nat, chain: seq<nat>, j: nat)
    requires Linked(hs, head, chain)
    ensures head == if chain == [] then 0 else chain[0]
    ensures j < |chain| ==> chain[j] != 0 && chain[j] in hs
                            && hs[chain[j]].next == if j + 1 < |chain| then chain[j + 1] else 0
  {
  }

  /** Unlinking the successor of element `j` while merging it in. */
  lemma MergeLinks(hs: Headers, head: nat, chain: seq<nat>, j: nat, length: nat)
    requires Linked(hs, head, chain) && 0 < j < |chain|
    ensures var hs' := hs[chain[j - 1] := hs[chain[j - 1]].(length := length, next := hs[chain[j]].next)];
            var chain' := chain[..j] + chain[j + 1..];
            && Linked(hs', head, chain')
            && View(hs', chain') == View(hs, chain)[..j - 1] + [View(hs, chain)[j - 1].(length := length)]
              + View(hs, chain)[j + 1..]
  {
    var hs' := hs[chain[j - 1] := hs[chain[j - 1]].(length := length, next := hs[chain[j]].next)];
    var chain' := chain[..j] + chain[j + 1..];
    forall i | 0 <= i < |chain'|
      ensures chain'[i] in hs' && hs'[chain'[i]].next == if i + 1 < |chain'| then chain'[i + 1] else 0
    {
      LinkedAt(hs, head, chain, if i < j - 1 then i else i + 1);
    }
    assert Linked(hs', head, chain');
  }

  /** A walk of `chain` that left `chain'` changed no header off the chain. */
  ghost predicate OnChain(before: Headers, after: Headers, chain: seq<nat>, chain': seq<nat>) {
    && after.Keys == before.Keys
    && (forall a :: a in before && a !in chain ==> after[a] == before[a])
    && (forall a :: a in chain' ==> a in chain)
  }

  lemma OnChainTrans(h0: Headers, h1: Headers, h2: Headers, c0: seq<nat>, c1: seq<nat>, c2: seq<nat>)
    requires OnChain(h0, h1, c0, c1) && OnChain(h1, h2, c1, c2)
    ensures OnChain(h0, h2, c0, c2)
  {
  }

  lemma SearchStarts(rule: Rule, l: seq<Chunk>, need: nat)
    ensures SearchAt(rule, l, l, 0, need)
  {
    assert l[0..] == l;
  }

  /** Where the search stands in terms of Find: `done` chunks passed for good, the rest still to search. */
  ghost predicate SearchAt(rule: Rule, l0: seq<Chunk>, l: seq<Chunk>, i: nat, need: nat) {
    && i <= |l|
    && Find(rule, l0, need).0 == l[..i] + Find(rule, l[i..], need).0
    && Find(rule, l0, need).1 == i + Find(rule, l[i..], need).1
  }

  lemma SearchMerges(rule: Rule, l0: seq<Chunk>, l: seq<Chunk>, i: nat, need: nat)
    requires SearchAt(rule, l0, l, i, need) && i + 1 < |l| && !Fits(l[i], need) && Mergeable(rule, l[i], l[i + 1])
    ensures SearchAt(rule, l0, l[..i] + [Merged(rule, l[i], l[i + 1])] + l[i + 2..], i, need)
    ensures Merged(rule, l[i], l[i + 1]) == l[i].(length := MergedLength(rule, l[i].length, l[i + 1].length))
  {
    var l' := l[..i] + [Merged(rule, l[i], l[i + 1])] + l[i + 2..];
    assert l[i..][2..] == l[i + 2..];
    assert l'[..i] == l[..i] && l'[i..] == [Merged(rule, l[i], l[i + 1])] + l[i + 2..];
  }

  lemma SearchPasses(rule: Rule, l0: seq<Chunk>, l: seq<Chunk>, i: nat, need: nat)
    requires SearchAt(rule, l0, l, i, need) && i < |l| && !Fits(l[i], need)
    requires i + 1 < |l| ==> !Mergeable(rule, l[i], l[i + 1])
    ensures SearchAt(rule, l0, l, i + 1, need)
  {
    var r := Find(rule, l[i + 1..], need);
    assert l[i..][1..] == l[i + 1..] && Find(rule, l[i..], need) == ([l[i]] + r.0, 1 + r.1);
    hide Find;
    assert l[..i + 1] + r.0 == l[..i] + ([l[i]] + r.0);
  }

  lemma SearchHits(rule: Rule, l0: seq<Chunk>, l: seq<Chunk>, i: nat, need: nat)
    requires SearchAt(rule, l0, l, i, need) && (i < |l| ==> Fits(l[i], need))
    ensures Find(rule, l0, need) == (l, i)
  {
    assert l[..i] + l[i..] == l;
    assert i == |l| ==> l[i..] == [];
  }

  lemma SearchEnds(rule: Rule, l0: seq<Chunk>, l: seq<Chunk>, j: nat, need: nat)
    requires j <= |l|
    requires if j < |l| then SearchAt(rule, l0, l, j, need) && Fits(l[j], need)
             else SearchAt(rule, l0, l, if j > 0 then j - 1 else 0, need) && (j > 0 ==> !Fits(l[j - 1], need))
    ensures Find(rule, l0, need) == (l, j)
  {
    if j == |l| && j > 0 {
      SearchPasses(rule, l0, l, j - 1, need);
    }
    SearchHits(rule, l0, l, j, need);
  }

  function WithList(h: HeapState, c: nat, l: seq<Chunk>): HeapState
    requires c < |h.lists|
  {
    h.(lists := h.lists[c := l])
  }

  /** No node lies on two lists, nor at or beyond the end of the heap. */
  ghost predicate Separate(chains: seq<seq<nat>>, cur: nat) {
    && (forall c, e, a :: 0 <= c < |chains| && 0 <= e < |chains| && c != e && a in chains[c] ==> a !in chains[e])
    && (forall c, a :: 0 <= c < |chains| && a in chains[c] ==> a < cur)
  }

  lemma SeparateWith(chains: seq<seq<nat>>, cur: nat, c: nat, chain': seq<nat>, a: nat)
    requires Separate(chains, cur) && c < |chains| && a < cur
    requires forall e :: 0 <= e < |chains| ==> a !in chains[e]
    requires forall b :: b in chain' ==> b in chains[c] || b == a
    ensures Separate(chains[c := chain'], cur)
  {
  }

  /** A tiling keeps the lists apart. */
  lemma TiledSeparate(hs: Headers, chains: seq<seq<nat>>, cur: nat, all: seq<Block>)
    requires |chains| == CLASSES && forall c, i :: 0 <= c < CLASSES && 0 <= i < |chains[c]| ==> chains[c][i] in hs
    requires Tiles(all, HEAP_START, cur)
    requires forall c :: 0 <= c < CLASSES ==> View(hs, chains[c]) == ListOf(all, c)
    ensures Separate(chains, cur)
  {
    TilesOrdered(all, HEAP_START, cur);
    hide Tiles, ListOf;
    forall c, i | 0 <= c < CLASSES && 0 <= i < |chains[c]|
      ensures exists p :: 0 <= p < |all| && all[p].cls == c && all[p].chunk.addr == chains[c][i]
    {
      var p := Locate(all, c, i);
      assert all[p].chunk == View(hs, chains[c])[i];
    }
    forall c, e, a | 0 <= c < CLASSES && 0 <= e < CLASSES && a in chains[c] && a in chains[e]
      ensures c == e
    {
      var i, j :| 0 <= i < |chains[c]| && 0 <= j < |chains[e]| && chains[c][i] == a && chains[e][j] == a;
      var p :| 0 <= p < |all| && all[p].cls == c && all[p].chunk.addr == a;
      var q :| 0 <= q < |all| && all[q].cls == e && all[q].chunk.addr == a;
      assert p == q;
    }
  }

  /** No node lies strictly inside a chunk. */
  lemma InsideIsFree(hs: Headers, chains: seq<seq<nat>>, cur: nat, all: seq<Block>, c: nat, k: nat)
    requires |chains| == CLASSES && NodesIn(hs, chains) && Tiles(all, HEAP_START, cur)
    requires forall e :: 0 <= e < CLASSES ==> View(hs, chains[e]) == ListOf(all, e)
    requires c < CLASSES && k < |chains[c]|
    ensures View(hs, chains[c])[k].End() <= cur
    ensures forall a, e :: View(hs, chains[c])[k].addr < a < View(hs, chains[c])[k].End() && 0 <= e < CLASSES ==>
              a !in chains[e]
  {
    TilesOrdered(all, HEAP_START, cur);
    hide Tiles, ListOf;
    var p := Locate(all, c, k);
    forall a, e | View(hs, chains[c])[k].addr < a < View(hs, chains[c])[k].End() && 0 <= e < CLASSES
      ensures a !in chains[e]
    {
      forall i | 0 <= i < |chains[e]|
        ensures chains[e][i] != a
      {
        var q := Locate(all, e, i);
        assert all[q].chunk == View(hs, chains[e])[i];
        assert p == q || p < q || q < p;
      }
    }
  }

  /** Headers off a chain left alone, its list looks as before. */
  lemma ViewKept(hs: Headers, hs': Headers, head: nat, chain: seq<nat>)
    requires Linked(hs, head, chain)
    requires forall a :: a in chain ==> a in hs' && hs'[a] == hs[a]
    ensures Linked(hs', head, chain) && View(hs', chain) == View(hs, chain)
  {
  }

  /** A list extended by one node behind its last. */
  lemma AppendLinks(hs: Headers, head: nat, chain: seq<nat>, a: nat, h: Header)
    requires Linked(hs, head, chain) && a !in chain && a != 0 && h.next == 0 && a in hs && hs[a] == h
    ensures var hs' := if chain == [] then hs else hs[chain[|chain| - 1] := hs[chain[|chain| - 1]].(next := a)];
            && Linked(hs', if chain == [] then a else head, chain + [a])
            && View(hs', chain + [a]) == View(hs, chain) + [Chunk(a, h.length, h.used)]
  {
  }

  /** The bit of one node set or cleared. */
  lemma MarkLinks(hs: Headers, head: nat, chain: seq<nat>, k: nat, used: bool)
    requires Linked(hs, head, chain) && k < |chain|
    ensures var hs' := hs[chain[k] := hs[chain[k]].(used := used)];
            && Linked(hs', head, chain)
            && View(hs', chain) == View(hs, chain)[k := View(hs, chain)[k].(used := used)]
  {
  }

  /** A new node behind node `k`. */
  lemma InsertLinks(hs: Headers, head: nat, chain: seq<nat>, k: nat, a: nat, h: Header, length: nat)
    requires Linked(hs, head, chain) && k < |chain| && a !in chain && a != 0 && h.next == hs[chain[k]].next
    ensures var hs' := hs[a := h][chain[k] := hs[chain[k]].(next := a, length := length)];
            var chain' := chain[..k + 1] + [a] + chain[k + 1..];
            && Linked(hs', head, chain')
            && View(hs', chain') == View(hs, chain)[..k]
              + [View(hs, chain)[k].(length := length), Chunk(a, h.length, h.used)] + View(hs, chain)[k + 1..]
  {
    var hs' := hs[a := h][chain[k] := hs[chain[k]].(next := a, length := length)];
    var chain' := chain[..k + 1] + [a] + chain[k + 1..];
    forall i | 0 <= i < |chain'|
      ensures chain'[i] in hs' && chain'[i] != 0 && hs'[chain'[i]].next == if i + 1 < |chain'| then chain'[i + 1] else 0
    {
      if i < k {
        assert hs[chain[i]].next == chain[i + 1];
      } else if i == k + 1 {
        assert hs[chain[k]].next == if k + 1 < |chain| then chain[k + 1] else 0;
      } else if i > k + 1 {
        assert chain'[i] == chain[i - 1] && hs[chain[i - 1]].next == if i < |chain| then chain[i] else 0;
      }
    }
    assert Linked(hs', head, chain');
  }

  /** Work on list `c` that touches only its own nodes, or headers on no list, leaves the others alone. */
  lemma OneListChanged(hs: Headers, heads: seq<nat>, chains: seq<seq<nat>>, hs': Headers, head': nat, chain': seq<nat>,
                       c: nat)
    requires AllLinked(hs, heads, chains) && c < |chains| && Linked(hs', head', chain')
    requires forall e, a :: 0 <= e < |chains| && e != c && a in chains[e] ==> a in hs && a in hs' && hs'[a] == hs[a]
    ensures AllLinked(hs', heads[c := head'], chains[c := chain'])
    ensures NodesIn(hs, chains) && NodesIn(hs', chains[c := chain'])
    ensures Views(hs', chains[c := chain']) == Views(hs, chains)[c := View(hs', chain')]
  {
    forall e | 0 <= e < |chains| && e != c
      ensures Linked(hs', heads[e], chains[e]) && View(hs', chains[e]) == View(hs, chains[e])
    {
      ViewKept(hs, hs', heads[e], chains[e]);
    }
  }

  /** The running directory gained heap pages beyond the page of `cur`; nothing mapped up to there,
      and no other directory, changed. */
  ghost predicate HeapStep(m: Memory, o: Owners, m': Memory, o': Owners, d: Frame, cur: nat) {
    && (forall p: Page :: p.slot != TABLES_SLOT && !(PageNumber(cur) < p.Number() < HEAP_END_PAGE) ==>
          Walk(m', d, p) == Walk(m, d, p))
    && (forall s: Index :: s < HEAP_FIRST_PAGE / 1024 ==> At(m', d, s) == At(m, d, s))
    && OthersKept(m, o, m', o', d)
    && (forall f :: f in o ==> f in o' && o'[f] == o[f])
  }

  /** The pages of a heap that has grown to `cur`, up to the one its next chunk starts on, are mapped in
      the running directory, to frames of its own; the pool could not reach the end of the heap's range. */
  ghost predicate Backed(k: Machine, cur: nat)
    reads k, k.mem, k.alloc, k.alloc.bitmap
  {
    && k.Valid() && HeapOwned(k.mem[..], k.owner, k.cr3) && OnlyHeapPages(k.stale)
    && HeapMapped(k.mem[..], k.cr3, PageNumber(cur))
    && Budget(|k.alloc.Free()|, PageNumber(cur))
  }

  /** The heap having grown from `was` to `cur`: its pages are in order again, and the growth's own pages,
      tables, frames and stale translations are all that changed. */
  ghost predicate Served(k: Machine, s: Snapshot, was: nat, cur: nat)
    reads k, k.mem, k.alloc, k.alloc.bitmap
  {
    && Backed(k, cur) && Grown(k, s, PageNumber(was) + 1, Growth(was, cur))
    && HeapStep(s.m, s.o, k.mem[..], k.owner, k.cr3, was)
  }

  /** The pool has the frames that growing by `chunk` bytes at `cur` takes. */
  ghost predicate CanGrow(k: Machine, cur: nat, chunk: nat)
    reads k, k.mem, k.alloc, k.alloc.bitmap
    requires k.Valid() && chunk > 0
  {
    && PageNumber(cur) + 1 + PagesMapped(cur, chunk) <= 0x10_0000
    && |k.alloc.Free()| >= FramesTaken(k.mem[..], k.cr3, PageNumber(cur) + 1, PagesMapped(cur, chunk))
  }

  /** The bytes of the header that the next new chunk would start with, before its pages are mapped, lie on
      mapped pages. */
  ghost predicate HeaderMapped(k: Machine, cur: nat)
    reads k, k.mem
  {
    && k.mem.Length == WORDS && cur + HEADER < 0x1_0000_0000
    && forall b: nat :: cur <= b < cur + HEADER ==> Walk(k.mem[..], k.cr3, PageAt(PageNumber(b))).Some?
  }

  lemma HeaderPages(k: Machine, cur: nat)
    requires Backed(k, cur)
    ensures k.mem.Length == WORDS && cur + HEADER < 0x1_0000_0000
    ensures HeaderMapped(k, cur)
       <==> Walk(k.mem[..], k.cr3, PageAt(PageNumber(cur))).Some?
            && Walk(k.mem[..], k.cr3, PageAt(PageNumber(cur + HEADER - 1))).Some?
    ensures HeaderMapped(k, cur) <==> PageNumber(cur + HEADER - 1) in PagesOf(k.mem[..], k.cr3)
  {
    var m, d := k.mem[..], k.cr3;
    HeaderOnPageIff(cur);
    PageAtNumber(PageAt(PageNumber(cur)), PageNumber(cur));
    hide Walk, Machine.Valid, HeapOwned;
    forall b: nat | cur <= b < cur + HEADER
      ensures PageNumber(b) == PageNumber(cur) || PageNumber(b) == PageNumber(cur + HEADER - 1)
    {
    }
  }

  lemma GrownKeepsBelow(m: Memory, o: Owners, m': Memory, o': Owners, d: Frame, cur: nat, chunk: nat)
    requires chunk > 0 && HEAP_FIRST_PAGE <= PageNumber(cur)
             && PageNumber(cur) + 1 + PagesMapped(cur, chunk) <= HEAP_END_PAGE
    requires GrownBy(m, o, m', o', d, PageNumber(cur) + 1, PagesMapped(cur, chunk))
    ensures HeapStep(m, o, m', o', d, cur)
  {
  }

  lemma {:induction false} InList(all: seq<Block>, i: nat)
    requires i < |all|
    ensures all[i].chunk in ListOf(all, all[i].cls)
  {
    if i > 0 {
      InList(all[1..], i - 1);
    }
  }

  /** Clearing the bit in one header is ReleasedList on every list. */
  lemma ReleaseSeen(hs: Headers, heads: seq<nat>, chains: seq<seq<nat>>, p: nat)
    requires AllLinked(hs, heads, chains) && p >= HEADER && p - HEADER in hs
    ensures var hs' := hs[p - HEADER := hs[p - HEADER].(used := false)];
            && AllLinked(hs', heads, chains) && NodesIn(hs', chains) && NodesIn(hs, chains)
            && Views(hs', chains)
               == seq(|chains|, c requires 0 <= c < |chains| => ReleasedList(Views(hs, chains)[c], p))
  {
    var hs' := hs[p - HEADER := hs[p - HEADER].(used := false)];
    forall c | 0 <= c < |chains|
      ensures Linked(hs', heads[c], chains[c]) && View(hs', chains[c]) == ReleasedList(View(hs, chains[c]), p)
    {
    }
  }

  class Heap {
    const rule: Rule
    var currentMemAddr: nat        // current_mem_addr
    var listArray: seq<nat>        // list_array
    var headers: Headers
    ghost var chains: seq<seq<nat>>
    ghost var all: seq<Block>
    var live: Ledger               // what its callers hold: pointers not freed yet, and the sizes asked for

    ghost predicate LinksOk()
      reads this
      ensures LinksOk() ==> NodesIn(headers, chains)
      ensures LinksOk() ==> forall c, i :: 0 <= c < |chains| && 0 <= i < |chains[c]| ==> chains[c][i] != 0
    {
      && |listArray| == CLASSES && |chains| == CLASSES
      && AllLinked(headers, listArray, chains)
    }

    ghost function State(): HeapState
      reads this
      requires LinksOk()
    {
      HeapState(currentMemAddr, Views(headers, chains))
    }

    ghost predicate Valid()
      reads this
    {
      LinksOk() && Tiled(State(), all) && Booked(all, live) && Separate(chains, currentMemAddr)
    }

    constructor (rule: Rule)
      ensures Valid() && State() == Empty() && live == map[] && this.rule == rule
    {
      this.rule := rule;
      currentMemAddr := HEAP_START;
      listArray := seq(CLASSES, i => 0);
      headers := map[];
      chains := seq(CLASSES, i => []);
      all, live := [], map[];
      new;
      assert State().lists == Empty().lists;
    }

    /** The walk of find_nonstandart_node on `chain`, with `j` nodes passed, of which the last is too
        short; `l0` is the list as it was at the start. */
    ghost predicate Walking(head: nat, chain: seq<nat>, j: nat, l0: seq<Chunk>, need: nat)
      reads this
    {
      && Linked(headers, head, chain) && j <= |chain| && (forall i :: 0 <= i < |chain| ==> chain[i] in headers)
      && SearchAt(rule, l0, View(headers, chain), if j > 0 then j - 1 else 0, need)
      && (j > 0 ==> !Fits(View(headers, chain)[j - 1], need))
    }

    lemma WalkMerges(head: nat, chain: seq<nat>, j: nat, l0: seq<Chunk>, need: nat)
      requires Walking(head, chain, j, l0, need) && 0 < j < |chain|
      requires Mergeable(rule, View(headers, chain)[j - 1], View(headers, chain)[j])
      ensures chain[j - 1] in headers && chain[j] in headers
      ensures var merged := MergedLength(rule, headers[chain[j - 1]].length, headers[chain[j]].length);
              var h := headers[chain[j - 1]].(length := merged, next := headers[chain[j]].next);
              var hs, chain' := headers[chain[j - 1] := h], chain[..j] + chain[j + 1..];
              && Linked(hs, head, chain') && (forall i :: 0 <= i < |chain'| ==> chain'[i] in hs)
              && SearchAt(rule, l0, View(hs, chain'), j - 1, need)
    {
      var merged := MergedLength(rule, headers[chain[j - 1]].length, headers[chain[j]].length);
      SearchMerges(rule, l0, View(headers, chain), j - 1, need);
      MergeLinks(headers, head, chain, j, merged);
    }

    // lines 200-202
    method MergeInto(last: nat, node: nat, ghost head: nat, ghost chain: seq<nat>, ghost j: nat,
                     ghost l0: seq<Chunk>, ghost need: nat)
      returns (ghost chain': seq<nat>)
      requires Walking(head, chain, j, l0, need) && 0 < j < |chain| && last == chain[j - 1] && node == chain[j]
      requires Mergeable(rule, View(headers, chain)[j - 1], View(headers, chain)[j])
      modifies this`headers
      ensures chain' == chain[..j] + chain[j + 1..] && Linked(headers, head, chain')
      ensures SearchAt(rule, l0, View(headers, chain'), j - 1, need)
      ensures headers.Keys == old(headers.Keys) && forall a :: a in headers && a != last ==>
                headers[a] == old(headers)[a]
    {
      hide Find, SearchAt, Merged, Mergeable, Linked, View, Fits;
      WalkMerges(head, chain, j, l0, need);
      var merged := MergedLength(rule, headers[last].length, headers[node].length);
      headers := headers[last := headers[last].(length := merged, next := headers[node].next)];
      chain' := chain[..j] + chain[j + 1..];
    }

    // lines 196-210: the visit of one node
    method Visit(last: nat, node: nat, length: nat, ghost head: nat, ghost chain: seq<nat>, ghost j: nat,
                 ghost l0: seq<Chunk>)
      returns (node': nat, hit: bool, ghost chain': seq<nat>, ghost j': nat)
      requires Walking(head, chain, j, l0, length) && j < |chain| && node == chain[j]
      requires last == if j > 0 then chain[j - 1] else 0
      modifies this`headers
      ensures Linked(headers, head, chain') && j' < |chain'| && node' == chain'[j'] && j' <= j
              && |chain'| - j' <= |chain| - j
      ensures SearchAt(rule, l0, View(headers, chain'), j', length)
      ensures hit <==> Fits(View(headers, chain')[j'], length)
      ensures OnChain(old(headers), headers, chain, chain')
    {
      hide Find, SearchAt, Merged;
      node', chain', j' := node, chain, j;
      if !headers[node].used && last != 0 && !headers[last].used
         && (rule == AsWritten || last + HEADER + headers[last].length == node) {
        assert last in chain;
        chain' := MergeInto(last, node, head, chain, j, l0, length);
        node', j' := last, j - 1;
      } else if last != 0 {
        SearchPasses(rule, l0, View(headers, chain), j - 1, length);
      }
      hit := !headers[node'].used && headers[node'].length >= length;
    }

    /** find_nonstandart_node, under the rule given: walks from `head`, merging on the way. */
    method FindNonstandard(head: nat, length: nat, ghost chain: seq<nat>)
      returns (node: nat, last: nat, ghost chain': seq<nat>)
      requires Linked(headers, head, chain)
      modifies this`headers
      ensures Linked(headers, head, chain') && OnChain(old(headers), headers, chain, chain')
      ensures var (l, k) := Find(rule, View(old(headers), chain), length);
              && View(headers, chain') == l
              && node == (if k < |chain'| then chain'[k] else 0)
              && (k == |chain'| ==> last == if chain' == [] then 0 else chain'[|chain'| - 1])
    {
      ghost var l0 := View(headers, chain);
      ghost var j: nat := 0;
      SearchStarts(rule, l0, length);
      LinkedAt(headers, head, chain, 0);
      chain' := chain;
      node, last := head, 0;
      assert OnChain(headers, headers, chain, chain);
      hide Find, SearchAt, OnChain, Linked;
      var hit := false;
      while node != 0
        invariant Walking(head, chain', j, l0, length) && OnChain(old(headers), headers, chain, chain')
        invariant node == (if j < |chain'| then chain'[j] else 0) && last == if j > 0 then chain'[j - 1] else 0
        invariant !hit
        decreases |chain'| - j
      {
        ghost var h1, c1 := headers, chain';
        node, hit, chain', j := Visit(last, node, length, head, chain', j, l0);
        OnChainTrans(old(headers), h1, headers, chain, c1, chain');
        if hit {
          break;
        }
        LinkedAt(headers, head, chain', j);
        last := node;
        node := headers[node].next;
        j := j + 1;
      }
      SearchEnds(rule, l0, View(headers, chain'), j, length);
    }

    // ----- kmalloc, step by step -----

    // lines 91-95
    method ClassIndex(length: nat) returns (index: nat)
      ensures index == ClassOf(length)
    {
      index := 0;
      while index < NONSTANDARD
        invariant index <= NONSTANDARD && forall b :: 0 <= b < index ==> length >= SizeOf(b)
      {
        if length < SizeOf(index) {
          break;
        }
        index := index + 1;
      }
    }

    // lines 135-144
    method FirstFreeNode(head: nat, ghost chain: seq<nat>) returns (node: nat, last: nat)
      requires Linked(headers, head, chain)
      ensures var k := FirstFree(View(headers, chain));
              && node == (if k < |chain| then chain[k] else 0)
              && (k < |chain| ==> node != 0)
              && (k == |chain| ==> last == if chain == [] then 0 else chain[|chain| - 1])
    {
      ghost var j := 0;
      node, last := head, 0;
      FirstFreeFrom(View(headers, chain), 0);
      while node != 0
        invariant 0 <= j <= |chain| && node == (if j < |chain| then chain[j] else 0)
        invariant last == if j > 0 then chain[j - 1] else 0
        invariant forall i :: 0 <= i < j ==> View(headers, chain)[i].used
        decreases |chain| - j
      {
        FirstFreeFrom(View(headers, chain), j);
        LinkedAt(headers, head, chain, j);
        if !headers[node].used {
          return;
        }
        last := node;
        node := headers[node].next;
        j := j + 1;
      }
      FirstFreeFrom(View(headers, chain), j);
    }

    // lines 116 and 139
    method MarkUsed(c: nat, node: nat, ghost k: nat)
      requires LinksOk() && Separate(chains, currentMemAddr) && c < CLASSES && k < |chains[c]| && node == chains[c][k]
      modifies this`headers
      ensures LinksOk() && State() == WithList(old(State()), c, Take(old(State()).lists[c], k))
    {
      ghost var hs := headers;
      MarkLinks(headers, listArray[c], chains[c], k, true);
      headers := headers[node := headers[node].(used := true)];
      OneListChanged(hs, listArray, chains, headers, listArray[c], chains[c], c);
      assert listArray[c := listArray[c]] == listArray && chains[c := chains[c]] == chains;
    }

    // find_nonstandart_node on the last list
    method SearchNonstandard(length: nat) returns (node: nat, last: nat)
      requires LinksOk() && Separate(chains, currentMemAddr)
      modifies this`headers, this`chains
      ensures LinksOk() && Separate(chains, currentMemAddr)
      ensures var (l, k) := Find(rule, old(State()).lists[NONSTANDARD], length);
              && State() == WithList(old(State()), NONSTANDARD, l)
              && node == (if k < |chains[NONSTANDARD]| then chains[NONSTANDARD][k] else 0)
              && (k == |l| ==>
                    last == if chains[NONSTANDARD] == [] then 0 else chains[NONSTANDARD][|chains[NONSTANDARD]| - 1])
    {
      ghost var hs, chain' := headers, [];
      hide Find;
      node, last, chain' := FindNonstandard(listArray[NONSTANDARD], length, chains[NONSTANDARD]);
      OneListChanged(hs, listArray, chains, headers, listArray[NONSTANDARD], chain', NONSTANDARD);
      assert listArray[NONSTANDARD := listArray[NONSTANDARD]] == listArray;
      chains := chains[NONSTANDARD := chain'];
    }

    /** split_chunk, repaired: what the request leaves over becomes a free chunk behind it. */
    method SplitChunk(node: nat, length: nat, ghost k: nat)
      requires LinksOk() && Separate(chains, currentMemAddr) && rule == Repaired
      requires k < |chains[NONSTANDARD]| && node == chains[NONSTANDARD][k] && headers[node].length >= length
      requires headers[node].length - length > HEADER ==> forall c :: 0 <= c < CLASSES ==>
                 node + HEADER + length !in chains[c]
      requires node + HEADER + headers[node].length <= currentMemAddr
      modifies this`headers, this`chains
      ensures LinksOk() && Separate(chains, currentMemAddr)
      ensures k < |chains[NONSTANDARD]| && node == chains[NONSTANDARD][k]
      ensures State() == WithList(old(State()), NONSTANDARD,
                                  Split(Repaired, old(State()).lists[NONSTANDARD], k, length))
    {
      hide Linked, Find;
      ghost var l := State().lists[NONSTANDARD];
      assert l[k] == ChunkAt(headers, node);
      hide Separate;
      if headers[node].length - length > HEADER {
        ghost var hs := headers;
        var a := node + HEADER + length;
        var h := Header(headers[node].next, false, headers[node].length - length - HEADER);
        ghost var chain := chains[NONSTANDARD];
        ghost var chain' := chain[..k + 1] + [a] + chain[k + 1..];
        InsertLinks(headers, listArray[NONSTANDARD], chain, k, a, h, length);
        SeparateWith(chains, currentMemAddr, NONSTANDARD, chain', a);
        headers := headers[a := h][node := headers[node].(next := a, length := length)];
        OneListChanged(hs, listArray, chains, headers, listArray[NONSTANDARD], chain', NONSTANDARD);
        assert listArray[NONSTANDARD := listArray[NONSTANDARD]] == listArray;
        chains := chains[NONSTANDARD := chain'];
      } else {
        assert Split(Repaired, l, k, length) == l;
      }
    }

    /** Lines 150-155: the new chunk's header, written before its pages are mapped. `ok` is false where that
        is a page fault. */
    method WriteHeader(k: Machine, size: nat) returns (ok: bool)
      requires LinksOk() && Separate(chains, currentMemAddr) && Backed(k, currentMemAddr)
      modifies this`headers
      ensures ok <==> HeaderMapped(k, currentMemAddr)
      ensures LinksOk() && State() == old(State())
      ensures ok ==> currentMemAddr in headers && headers[currentMemAddr] == Header(0, true, size)
    {
      HeaderPages(k, currentMemAddr);
      var a := currentMemAddr;
      ok := Walk(k.mem[..], k.cr3, PageAt(a / 0x1000)).Some?
            && Walk(k.mem[..], k.cr3, PageAt((a + HEADER - 1) / 0x1000)).Some?;
      if ok {
        ghost var hs := headers;
        hide Walk, Machine.Valid, Backed;
        assert forall e :: 0 <= e < CLASSES ==> a !in chains[e];
        headers := headers[a := Header(0, true, size)];
        ViewKept(hs, headers, listArray[0], chains[0]);
        OneListChanged(hs, listArray, chains, headers, listArray[0], chains[0], 0);
        assert listArray[0 := listArray[0]] == listArray && chains[0 := chains[0]] == chains;
      }
    }

    // lines 169-174, the header written and the pages mapped
    method LinkChunk(c: nat, size: nat, last: nat)
      requires LinksOk() && Separate(chains, currentMemAddr) && c < CLASSES && currentMemAddr > 0
      requires currentMemAddr in headers && headers[currentMemAddr] == Header(0, true, size)
      requires last == if chains[c] == [] then 0 else chains[c][|chains[c]| - 1]
      modifies this`headers, this`listArray, this`chains, this`currentMemAddr
      ensures LinksOk() && State() == Append(old(State()), c, size)
      ensures currentMemAddr == old(currentMemAddr) + size + HEADER
    {
      ghost var hs, chain := headers, chains[c];
      var a, h := currentMemAddr, Header(0, true, size);
      assert forall e :: 0 <= e < CLASSES ==> a !in chains[e];
      assert headers[a := h] == headers;
      AppendLinks(headers, listArray[c], chain, a, h);
      if last != 0 {
        headers := headers[last := headers[last].(next := a)];
      } else {
        listArray := listArray[c := a];
      }
      assert old(listArray)[c := listArray[c]] == listArray;
      OneListChanged(hs, old(listArray), chains, headers, listArray[c], chain + [a], c);
      chains := chains[c := chain + [a]];
      currentMemAddr := currentMemAddr + size + HEADER;
    }

    // lines 149-176
    method NewChunk(k: Machine, c: nat, size: nat, last: nat) returns (ok: bool, p: nat)
      requires LinksOk() && Separate(chains, currentMemAddr) && c < CLASSES && currentMemAddr > 0
               && Backed(k, currentMemAddr)
      requires last == if chains[c] == [] then 0 else chains[c][|chains[c]| - 1]
      modifies this`headers, this`listArray, this`chains, this`currentMemAddr
      modifies k`tlb, k`stale, k`owner, k.mem, k.alloc`location, k.alloc`firstFree, k.alloc`given, k.alloc.bitmap
      ensures ok ==> LinksOk() && State() == Append(old(State()), c, size) && p == old(currentMemAddr) + HEADER
      ensures ok ==> Served(k, old(Snap(k)), old(currentMemAddr), currentMemAddr)
      ensures ok <==> old(HeaderMapped(k, currentMemAddr)) && old(CanGrow(k, currentMemAddr, size + HEADER))
    {
      hide Walk, At, SpaceOk, OthersKept, HeapOwned, GrownBy, HeapStep, FramesTaken, PagesMapped, Append, Linked,
           AllLinked, Separate, LinksOk, State, HeaderMapped, PageNumber, Machine.Valid, Remapped;
      MachineValid(k, currentMemAddr);
      ghost var m, o := k.mem[..], k.owner;
      p := currentMemAddr + HEADER;
      ok := WriteHeader(k, size);
      if ok {
        ok := GrowHeap(k, currentMemAddr, size + HEADER);
      }
      if ok {
        GrownKeepsBelow(m, o, k.mem[..], k.owner, k.cr3, currentMemAddr, size + HEADER);
        LinkChunk(c, size, last);
      }
    }

    // ----- kmalloc and kfree -----

    /** After the lists have changed as HeapLists says, the invariant holds again. */
    ghost method Settle(before: HeapState, held: Ledger, op: Op)
      requires LinksOk() && Tiled(before, all) && Booked(all, held) && InScope(rule, op)
      requires State() == Step(rule, World(before, held), op).h
      requires live == Step(rule, World(before, held), op).live
      modifies this`all
      ensures Valid()
    {
      all := StepKeeps(rule, World(before, held), all, op);
      assert forall c :: 0 <= c < CLASSES ==> State().lists[c] == View(headers, chains[c]);
      TiledSeparate(headers, chains, currentMemAddr, all);
    }

    // lines 101-118: the chunk found on the last list, or 0 and that list's tail
    method ReuseNonstandard(length: nat) returns (node: nat, last: nat)
      requires Valid() && rule == Repaired
      modifies this`headers, this`chains
      ensures LinksOk() && Separate(chains, currentMemAddr)
      ensures var (l, k) := Find(Repaired, old(State()).lists[NONSTANDARD], length);
              if k < |l| then
                && node == l[k].addr && node != 0
                && State() == WithList(old(State()), NONSTANDARD, Take(Split(Repaired, l, k, length), k))
              else
                && node == 0 && State() == WithList(old(State()), NONSTANDARD, l)
                && last == if chains[NONSTANDARD] == [] then 0 else chains[NONSTANDARD][|chains[NONSTANDARD]| - 1]
    {
      hide Find, Tiles, ListOf, Booked, Separate, AllLinked, Linked, Split, Take;
      ghost var st := State();
      ghost var l, k := Find(Repaired, st.lists[NONSTANDARD], length).0,
                Find(Repaired, st.lists[NONSTANDARD], length).1;
      node, last := SearchNonstandard(length);
      assert State().lists[NONSTANDARD] == View(headers, chains[NONSTANDARD]) == l;
      if node != 0 {
        ghost var all1 := FindTiled(all, length, HEAP_START, currentMemAddr);
        InsideIsFree(headers, chains, currentMemAddr, all1, NONSTANDARD, k);
        SplitChunk(node, length, k);
        MarkUsed(NONSTANDARD, node, k);
      }
    }

    // lines 91-147: a chunk from the lists, or 0 and the tail of the list to extend
    method ServeFromLists(length: nat) returns (index: nat, node: nat, last: nat)
      requires Valid() && InScope(rule, Malloc(length)) && length < 0x8000_0000
      modifies this`headers, this`chains
      ensures LinksOk() && Separate(chains, currentMemAddr) && index == ClassOf(length)
      ensures node != 0 ==> (State(), node + HEADER) == HeapLists.Kmalloc(rule, old(State()), length)
      ensures node == 0 ==>
                && (Append(State(), index, if index == NONSTANDARD then length else SizeOf(index)),
                    currentMemAddr + HEADER)
                   == HeapLists.Kmalloc(rule, old(State()), length)
                && last == if chains[index] == [] then 0 else chains[index][|chains[index]| - 1]
    {
      hide Find, FirstFree, Tiles, ListOf, Booked, Separate, Linked, Append, Split, Take;
      index := ClassIndex(length);
      if index == NONSTANDARD {
        node, last := ReuseNonstandard(length);
      } else {
        node, last := FirstFreeNode(listArray[index], chains[index]);
        if node != 0 {
          MarkUsed(index, node, FirstFree(State().lists[index]));
        }
      }
    }

    /** If the request needs a new chunk, its header has mapped pages to be written to, and the pool can pay for
        the growth. */
    ghost predicate Servable(k: Machine, length: nat)
      reads this, k, k.mem, k.alloc, k.alloc.bitmap
      requires LinksOk() && k.Valid()
    {
      HeapLists.Kmalloc(rule, State(), length).0.cur == currentMemAddr
      || (HeaderMapped(k, currentMemAddr) && CanGrow(k, currentMemAddr, NewChunkSize(length)))
    }

    lemma ServedAsIs(k: Machine)
      requires Valid() && Backed(k, currentMemAddr)
      ensures LinksOk() && Separate(chains, currentMemAddr)
      ensures Served(k, Snap(k), currentMemAddr, currentMemAddr)
    {
      NothingGrown(k.mem[..], k.owner, k.cr3, currentMemAddr);
      NothingYet(k, PageNumber(currentMemAddr) + 1);
    }

    // lines 91-176, on the lists and the pages
    method Place(k: Machine, length: nat) returns (ok: bool, p: nat)
      requires Valid() && Backed(k, currentMemAddr) && InScope(rule, Malloc(length)) && currentMemAddr > 0
               && length < 0x8000_0000
      modifies this, k, k.mem, k.alloc, k.alloc.bitmap
      ensures all == old(all) && live == old(live) && k.cr3 == old(k.cr3)
      ensures ok ==> LinksOk() && (State(), p) == HeapLists.Kmalloc(rule, old(State()), length)
      ensures ok ==> Served(k, old(Snap(k)), old(currentMemAddr), currentMemAddr)
      ensures ok <==> old(Servable(k, length))
    {
      hide Walk, At, HeapStep, HeapOwned, CanGrow, Separate, AllLinked, HeapLists.Kmalloc, Tiled, Booked, InScope,
           Machine.Valid, Backed, Served, Views, Valid;
      ServedAsIs(k);
      var index, node, last := ServeFromLists(length);
      if node != 0 {
        return true, node + HEADER;
      }
      ok, p := NewChunk(k, index, if index == NONSTANDARD then length else SizeOf(index), last);
    }

    // lines 88-89 before it
    method PlaceOrNull(k: Machine, length: nat) returns (ok: bool, p: nat)
      requires Valid() && Backed(k, currentMemAddr) && InScope(rule, Malloc(length)) && currentMemAddr > 0
      modifies this, k, k.mem, k.alloc, k.alloc.bitmap
      ensures all == old(all) && live == old(live) && k.cr3 == old(k.cr3)
      ensures ok ==> LinksOk() && (State(), p) == HeapLists.Kmalloc(rule, old(State()), length)
      ensures ok ==> Served(k, old(Snap(k)), old(currentMemAddr), currentMemAddr)
      ensures ok <==> old(Servable(k, length))
    {
      if length < 0x8000_0000 {
        ok, p := Place(k, length);
      } else {
        ServedAsIs(k);
        ok, p := true, 0;
      }
    }

    /** Repaired or not, every length in a heap with pages behind it fits the 31-bit field uncut. */
    lemma LengthsFit(k: Machine, c: nat, i: nat)
      requires Valid() && Backed(k, currentMemAddr) && c < CLASSES && i < |State().lists[c]|
      ensures State().lists[c][i].length < FIELD
    {
      var p := Locate(all, c, i);
      TilesOrdered(all, HEAP_START, currentMemAddr);
      assert all[p] in all;
      assert PageNumber(currentMemAddr) < HEAP_END_PAGE;
    }

    lemma EndIsPositive()
      requires Valid()
      ensures currentMemAddr > 0
    {
      EndOfTiles(all, HEAP_START, currentMemAddr);
    }

    /** kmalloc. `ok` is false where the source panics, for lack of pages or in a page fault on the new header;
        `p` is 0 for NULL. */
    method Kmalloc(k: Machine, length: nat) returns (ok: bool, p: nat)
      requires Valid() && Backed(k, currentMemAddr) && InScope(rule, Malloc(length))
      requires length + HEADER < 0x8000_0000 || length >= 0x8000_0000 // no signed overflow at line 156
      modifies this, k, k.mem, k.alloc, k.alloc.bitmap
      ensures k.cr3 == old(k.cr3)
      ensures ok ==> Valid()
      ensures ok ==> (State(), p) == HeapLists.Kmalloc(rule, old(State()), length)
      ensures ok ==> live == if p == 0 then old(live) else old(live)[p := length]
      ensures ok ==> Served(k, old(Snap(k)), old(currentMemAddr), currentMemAddr)
      ensures ok <==> old(Servable(k, length))
    {
      hide Walk, At, HeapStep, HeapOwned, CanGrow, Separate, AllLinked, Tiled, Booked, InScope, Backed, Servable,
           Served, HeapLists.Kmalloc, Machine.Valid;
      EndIsPositive();
      ghost var st := State();
      ok, p := PlaceOrNull(k, length);
      if ok {
        ghost var held := live;
        if p != 0 {
          live := live[p := length];
        }
        Settle(st, held, Malloc(length));
      }
    }

    lemma LiveIsNode(st: HeapState, all: seq<Block>, live: Ledger, p: nat)
      requires LinksOk() && st == State() && Tiled(st, all) && Booked(all, live) && p in live
      ensures p >= HEADER && p - HEADER in headers
    {
      var b := all[Holder(all, p)];
      assert b in all;
      InList(all, Holder(all, p));
      var i :| 0 <= i < |ListOf(all, b.cls)| && ListOf(all, b.cls)[i] == b.chunk;
      assert st.lists[b.cls] == View(headers, chains[b.cls]);
      assert b.chunk == ChunkAt(headers, chains[b.cls][i]);
    }

    /** kfree of a live pointer: its header's bit is cleared, nothing else is touched. */
    method Kfree(p: nat)
      requires Valid() && p in live
      modifies this`headers, this`all, this`live
      ensures Valid() && State() == HeapLists.Kfree(old(State()), p)
      ensures live == old(live) - {p}
    {
      ghost var st := State();
      LiveIsNode(st, all, live, p);
      ReleaseSeen(headers, listArray, chains, p);
      headers := headers[p - HEADER := headers[p - HEADER].(used := false)];
      hide Tiled, Booked, AllLinked;
      ghost var held := live;
      live := live - {p};
      Settle(st, held, Free(p));
    }
  }

  function NewChunkSize(length: nat): nat {
    HEADER + if length < 512 then SizeOf(ClassOf(length)) else length
  }

  lemma NothingGrown(m: Memory, o: Owners, d: Frame, cur: nat)
    requires SpaceOk(m, o, d)
    ensures HeapStep(m, o, m, o, d, cur)
  {
  }

  lemma FirstFreeFrom(l: seq<Chunk>, j: nat)
    requires j <= |l| && forall i :: 0 <= i < j ==> l[i].used
    ensures FirstFree(l) >= j
    ensures j < |l| && !l[j].used ==> FirstFree(l) == j
  {
  }

  // ----- whole runs of one heap on its pages -----

  /** A request kmalloc can take without overflowing line 156. */
  predicate Sound(rule: Rule, op: Op) {
    InScope(rule, op) && (op.Malloc? ==> op.length + HEADER < FIELD || op.length >= FIELD)
  }

  /** Heap `h` is where the run `ops` leads, with exactly the pages mapped that the run maps; of `free` pages
      and the tables in `tables` it has taken what the run costs. */
  ghost predicate Ran(k: Machine, h: Heap, ops: seq<Op>, free: nat, tables: set<nat>)
    reads k, k.mem, k.alloc, k.alloc.bitmap, h
  {
    && h.Valid() && Backed(k, h.currentMemAddr)
    && World(h.State(), h.live) == Run(h.rule, START, ops)
    && HeapMappedTo(k.mem[..], k.cr3, LastMapped(h.rule, ops))
    && Paid(k, RunTables(h.rule, ops, tables), RunCost(h.rule, ops, tables), free) && HeadersMapped(h.rule, ops)
  }

  ghost predicate Paid(k: Machine, tables: set<nat>, cost: nat, free: nat)
    reads k, k.mem, k.alloc, k.alloc.bitmap
  {
    k.Valid() && TablesOf(k.mem[..], k.cr3) == tables && |k.alloc.Free()| + cost == free
  }

  /** A growth is paid for by its pages and tables. */
  lemma PaidFor(k: Machine, s: Snapshot, was: nat, cur: nat)
    requires Served(k, s, was, cur)
    ensures TablesOf(k.mem[..], k.cr3) == GrowthTables(TablesOf(s.m, k.cr3), was, cur)
    ensures |k.alloc.Free()| + GrowthCost(TablesOf(s.m, k.cr3), was, cur) == s.free
    ensures HEAP_FIRST_PAGE <= PageNumber(was) <= PageNumber(cur) ==>
              PagesOf(k.mem[..], k.cr3) == GrowthPages(PagesOf(s.m, k.cr3), was, cur)
  {
    hide TablesOf, PagesOf, NumbersFrom, PagesTaken, SlotsOf, GrownBy, FramesTaken, Backed, HeapStep, Remapped,
         PageNumber, Growth, Machine.Valid, HeapOwned, HeapMapped;
    ServedParts(k, s, was, cur);
    if PageNumber(was) <= PageNumber(cur) {
      GrowthStays(k, s, was, cur);
    }
    if HEAP_FIRST_PAGE <= PageNumber(was) <= PageNumber(cur) {
      PagesGrown(s.m, s.o, k.mem[..], k.owner, k.cr3, PageNumber(was) + 1, Growth(was, cur));
    }
    TablesGrown(s.m, s.o, k.mem[..], k.owner, k.cr3, PageNumber(was) + 1, Growth(was, cur));
    PagesTakenIs(s.m, k.cr3, PageNumber(was) + 1, Growth(was, cur));
  }

  lemma ServedParts(k: Machine, s: Snapshot, was: nat, cur: nat)
    requires Served(k, s, was, cur)
    ensures k.mem.Length == WORDS
  {
  }

  lemma GrowthStays(k: Machine, s: Snapshot, was: nat, cur: nat)
    requires Served(k, s, was, cur) && PageNumber(was) <= PageNumber(cur)
    ensures PageNumber(was) + 1 + Growth(was, cur) <= HEAP_END_PAGE
  {
    hide Machine.Valid, Grown, HeapStep, HeapOwned, HeapMapped, TruncDiv;
    if cur > was {
      PagesMappedExactly(was, cur - was);
    }
  }

  /** Whether the pool can pay is a matter of numbers: the heap's range never runs out before the pool does. */
  lemma CanGrowIff(k: Machine, cur: nat, chunk: nat)
    requires Backed(k, cur) && chunk > 0
    ensures k.Valid() && k.mem.Length == WORDS
    ensures CanGrow(k, cur, chunk) <==> |k.alloc.Free()| >= GrowthCost(TablesOf(k.mem[..], k.cr3), cur, cur + chunk)
  {
    hide PageNumber, HeapOwned, HeapMapped, TablesOf, PagesTaken, FramesTaken, PagesMapped, Machine.Valid;
    MachineValid(k, cur);
    var a, n := PageNumber(cur) + 1, Growth(cur, cur + chunk);
    assert n == PagesMapped(cur, chunk);
    PagesTakenCount(TablesOf(k.mem[..], k.cr3), a, n);
    if a + n <= 0x10_0000 {
      PagesTakenIs(k.mem[..], k.cr3, a, n);
    }
  }

  lemma ServableIff(k: Machine, h: Heap, length: nat)
    requires h.Valid() && Backed(k, h.currentMemAddr) && Sound(h.rule, Malloc(length))
    ensures h.Servable(k, length)
       <==> var cur, cur' := h.currentMemAddr, HeapLists.Kmalloc(h.rule, h.State(), length).0.cur;
            && |k.alloc.Free()| >= GrowthCost(TablesOf(k.mem[..], k.cr3), cur, cur')
            && (cur' > cur ==> PageNumber(cur + HEADER - 1) in PagesOf(k.mem[..], k.cr3))
  {
    hide PageNumber, HeapLists.Kmalloc, Heap.Valid, Heap.State, TablesOf, PagesOf, HeaderMapped, CanGrow, Sound, Backed,
         Machine.Valid, PagesTaken;
    StateEnds(h);
    var cur := h.currentMemAddr;
    HeaderPages(k, cur);
    KmallocGrows(h.rule, h.State(), length);
    CanGrowIff(k, cur, NewChunkSize(length));
    PagesTakenCount(TablesOf(k.mem[..], k.cr3), PageNumber(cur) + 1, 0);
  }

  lemma KmallocGrows(rule: Rule, h: HeapState, length: nat)
    requires WellShaped(h)
    ensures var cur := HeapLists.Kmalloc(rule, h, length).0.cur; cur == h.cur || cur == h.cur + NewChunkSize(length)
    ensures NewChunkSize(length) > 0
  {
    hide Find, Split, Take, FirstFree;
  }

  lemma RanMeans(k: Machine, h: Heap, ops: seq<Op>, free: nat, tables: set<nat>)
    requires Ran(k, h, ops, free, tables)
    ensures h.Valid() && Backed(k, h.currentMemAddr) && h.currentMemAddr == EndOfRun(h.rule, ops)
    ensures World(h.State(), h.live) == Run(h.rule, START, ops)
    ensures HeapMappedTo(k.mem[..], k.cr3, LastMapped(h.rule, ops)) && HEAP_FIRST_PAGE <= PageNumber(h.currentMemAddr)
    ensures PageNumber(h.currentMemAddr) < HEAP_END_PAGE - UNITS && RunCost(h.rule, ops, tables) <= free
    ensures TablesOf(k.mem[..], k.cr3) == RunTables(h.rule, ops, tables)
            && |k.alloc.Free()| + RunCost(h.rule, ops, tables) == free
    ensures HeadersMapped(h.rule, ops)
  {
  }

  // a step of the run has been served
  lemma RanOn(k: Machine, h: Heap, ops: seq<Op>, op: Op, s: Snapshot, was: nat, free: nat, tables: set<nat>)
    requires h.Valid() && was == EndOfRun(h.rule, ops) && Served(k, s, was, h.currentMemAddr)
             && HEAP_FIRST_PAGE <= PageNumber(was)
    requires World(h.State(), h.live) == Step(h.rule, Run(h.rule, START, ops), op)
    requires HeapMappedTo(s.m, k.cr3, LastMapped(h.rule, ops))
    requires TablesOf(s.m, k.cr3) == RunTables(h.rule, ops, tables) && s.free + RunCost(h.rule, ops, tables) == free
    requires HeadersMapped(h.rule, ops + [op])
    ensures Ran(k, h, ops + [op], free, tables)
  {
    hide HeadersMapped, HeapMappedTo, TablesOf, PagesTaken, SlotsOf, GrownBy, FramesTaken, Remapped, HeapStep, Step,
         Heap.Valid, HeapOwned, HeapMapped;
    assert (ops + [op])[..|ops|] == ops;
    assert EndOfRun(h.rule, ops + [op]) == h.currentMemAddr by {
      StateEnds(h);
    }
    LastMappedIs(h.rule, ops);
    PaidFor(k, s, was, h.currentMemAddr);
    MappedLater(s.m, s.o, k.mem[..], k.owner, k.cr3, LastMapped(h.rule, ops), was, h.currentMemAddr);
  }

  lemma StateEnds(h: Heap)
    requires h.Valid()
    ensures h.LinksOk() && WellShaped(h.State()) && h.State().cur == h.currentMemAddr
  {
  }

  /** What the next request costs decides whether it can be served. */
  lemma NextCost(k: Machine, h: Heap, ops: seq<Op>, op: Op, free: nat, tables: set<nat>)
    requires Ran(k, h, ops, free, tables) && Sound(h.rule, op)
    ensures RunCost(h.rule, ops + [op], tables) <= free && HeadersMapped(h.rule, ops + [op])
       <==> (op.Malloc? ==> h.Servable(k, op.length))
  {
    RanMeans(k, h, ops, free, tables);
    StateEnds(h);
    assert (ops + [op])[..|ops|] == ops;
    if op.Malloc? {
      ServableIff(k, h, op.length);
      HeaderLast(k, h, LastMapped(h.rule, ops));
      KmallocGrows(h.rule, h.State(), op.length);
      hide PagesOf, PageNumber, LastMapped, TablesOf, PagesTaken, RunTables, Kmalloc, Heap.Servable, Ran, Heap.Valid,
           Backed, HeapMappedTo;
      assert EndOfRun(h.rule, ops + [op]) == HeapLists.Kmalloc(h.rule, h.State(), op.length).0.cur;
    } else {
      assert EndOfRun(h.rule, ops + [op]) == EndOfRun(h.rule, ops);
    }
  }

  lemma HeaderLast(k: Machine, h: Heap, last: nat)
    requires Backed(k, h.currentMemAddr) && HeapMappedTo(k.mem[..], k.cr3, last)
    ensures PageNumber(h.currentMemAddr + HEADER - 1) in PagesOf(k.mem[..], k.cr3)
       <==> PageNumber(h.currentMemAddr + HEADER - 1) <= last
  {
    var n := PageNumber(h.currentMemAddr + HEADER - 1);
    HeaderOnPageIff(h.currentMemAddr);
    PageAtNumber(PageAt(n), n);
    hide Walk, Machine.Valid, HeapOwned, HeapMapped;
    assert InHeap(PageAt(n));
  }

  /** One request of a run. `ok` is false where the source panics: for lack of pages, or in a page fault on the
      header of a new chunk. */
  method Perform(k: Machine, h: Heap, op: Op, ghost ops: seq<Op>, ghost free: nat, ghost tables: set<nat>)
           returns (ok: bool)
    requires Ran(k, h, ops, free, tables) && Sound(h.rule, op)
    modifies h, k, k.mem, k.alloc, k.alloc.bitmap
    ensures k.cr3 == old(k.cr3)
    ensures ok ==> Ran(k, h, ops + [op], free, tables)
    ensures ok <==> RunCost(h.rule, ops + [op], tables) <= free && HeadersMapped(h.rule, ops + [op])
  {
    hide Ran, HeadersMapped, Served, HeapMappedTo, TablesOf, RunTables, RunCost, LastMapped, EndOfRun, Run, Kmalloc,
         Kfree, Backed, Heap.Servable, Heap.Valid, Heap.State, Machine.Valid;
    RanMeans(k, h, ops, free, tables);
    NextCost(k, h, ops, op, free, tables);
    h.ServedAsIs(k);
    MachineValid(k, h.currentMemAddr);
    ghost var s, was := Snap(k), h.currentMemAddr;
    ok := true;
    match op {
      case Malloc(n) =>
        var p;
        ok, p := h.Kmalloc(k, n);
      case Free(p) =>
        if p in h.live {
          h.Kfree(p);
        }
    }
    if ok {
      RanOn(k, h, ops, op, s, was, free, tables);
    }
  }

  lemma MachineValid(k: Machine, cur: nat)
    requires Backed(k, cur)
    ensures k.Valid() && k.mem.Length == WORDS && k.alloc.Valid() && k.alloc.pagingActive
  {
  }

  lemma RanNothing(k: Machine, h: Heap)
    requires h.Valid() && h.State() == Empty() && h.live == map[] && Backed(k, h.currentMemAddr)
    requires HeapMappedTo(k.mem[..], k.cr3, HEAP_FIRST_PAGE)
    ensures Ran(k, h, [], |k.alloc.Free()|, TablesOf(k.mem[..], k.cr3))
  {
    assert LastMapped(h.rule, []) == HEAP_FIRST_PAGE;
  }

  lemma RanHeader(k: Machine, h: Heap, ops: seq<Op>, free: nat, tables: set<nat>)
    requires Ran(k, h, ops, free, tables)
    ensures HeaderMapped(k, h.currentMemAddr) <==> h.currentMemAddr % 0x1000 <= 0x1000 - HEADER
                                                   || StartedHere(h.rule, ops)
  {
    RanMeans(k, h, ops, free, tables);
    hide HeapMappedTo, Walk;
    HeaderBytes(k.mem[..], k.cr3, h.rule, ops);
  }

  /** A run of requests, from a heap as its constructor leaves it: the pages mapped are exactly those of
      LastMapped, and the bytes of the next header are on mapped pages exactly when the end's page has room
      for them or a growth has started there. `done` falls short, and the source panics, exactly when the
      pool does not hold what the run costs, or a header is written to a page not mapped yet. */
  method RunHeap(k: Machine, h: Heap, ops: seq<Op>) returns (done: nat)
    requires h.Valid() && h.State() == Empty() && h.live == map[] && Backed(k, h.currentMemAddr)
    requires HeapMappedTo(k.mem[..], k.cr3, HEAP_FIRST_PAGE) && forall op :: op in ops ==> Sound(h.rule, op)
    modifies h, k, k.mem, k.alloc, k.alloc.bitmap
    ensures done <= |ops| && k.cr3 == old(k.cr3)
    ensures var free, tables := |old(k.alloc.Free())|, old(TablesOf(k.mem[..], k.cr3));
            && (done == |ops| <==> RunCost(h.rule, ops, tables) <= free && HeadersMapped(h.rule, ops))
            && (done < |ops| ==> RunCost(h.rule, ops[..done + 1], tables) > free
                                 || !HeadersMapped(h.rule, ops[..done + 1]))
            && (done == |ops| ==> Ran(k, h, ops, free, tables))
    ensures done == |ops| ==>
              (HeaderMapped(k, h.currentMemAddr) <==> h.currentMemAddr % 0x1000 <= 0x1000 - HEADER
                                                      || StartedHere(h.rule, ops))
  {
    hide *;
    MachineValid(k, h.currentMemAddr);
    ghost var free, tables := |k.alloc.Free()|, TablesOf(k.mem[..], k.cr3);
    RanNothing(k, h);
    assert ops[..0] == [];
    done := 0;
    var ok := true;
    while done < |ops| && ok
      invariant done <= |ops| && k.cr3 == old(k.cr3) && (ok ==> Ran(k, h, ops[..done], free, tables))
      invariant !ok ==> done < |ops|
      invariant !ok ==> RunCost(h.rule, ops[..done + 1], tables) > free || !HeadersMapped(h.rule, ops[..done + 1])
      decreases |ops| - done, ok
    {
      assert ops[done] in ops && ops[..done + 1] == ops[..done] + [ops[done]];
      ok := Perform(k, h, ops[done], ops[..done], free, tables);
      if ok {
        done := done + 1;
      }
    }
    if ok {
      assert ops[..|ops|] == ops;
      RanMeans(k, h, ops, free, tables);
      RanHeader(k, h, ops, free, tables);
    } else {
      CostGrows(h.rule, ops, done + 1, tables);
      if HeadersMapped(h.rule, ops) {
        HeadersBefore(h.rule, ops, done + 1);
      }
    }
  }

  lemma HeaderBytes(m: Memory, d: Frame, rule: Rule, ops: seq<Op>)
    requires var cur := EndOfRun(rule, ops);
             HeapMappedTo(m, d, LastMapped(rule, ops)) && HEAP_FIRST_PAGE <= PageNumber(cur) < HEAP_END_PAGE - UNITS
    ensures var cur := EndOfRun(rule, ops);
            && cur + HEADER < 0x1_0000_0000
            && ((forall b: nat :: cur <= b < cur + HEADER ==> Walk(m, d, PageAt(PageNumber(b))).Some?)
                <==> cur % 0x1000 <= 0x1000 - HEADER || StartedHere(rule, ops))
  {
    var cur := EndOfRun(rule, ops);
    HeaderMappedIff(rule, ops);
    HeaderOnPageIff(cur);
    hide Walk, EndOfRun, StartedHere, LastMapped;
    forall b: nat | cur <= b < cur + HEADER
      ensures Walk(m, d, PageAt(PageNumber(b))).Some? <==> PageNumber(b) <= LastMapped(rule, ops)
    {
      PageAtNumber(PageAt(PageNumber(b)), PageNumber(b));
      assert InHeap(PageAt(PageNumber(b)));
    }
  }

  /** Two requests for 8 bytes: each growth maps the page after the first anew, the second time without the
      invlpg that RemapSafeIff asks for, so a processor may go on using the frame of the first. */
  method TwoSmallRequests(k: Machine, h: Heap) returns (ok: bool)
    requires h.Valid() && h.State() == Empty() && h.live == map[] && Backed(k, h.currentMemAddr)
    modifies h, k, k.mem, k.alloc, k.alloc.bitmap
    ensures ok ==> PageAt(HEAP_FIRST_PAGE + 1) in k.stale
  {
    hide Machine.Valid, Backed, Served, HeapLists.Kmalloc, Heap.Valid, Heap.State, Heap.Servable, Growth, PageNumber;
    TwoGrowths(h.rule);
    StateEnds(h);
    MachineValid(k, h.currentMemAddr);
    var p;
    ghost var s := Snap(k);
    ok, p := h.Kmalloc(k, 8);
    if ok {
      StateEnds(h);
      GrownPage(k, s, HEAP_START, h.currentMemAddr);
      MachineValid(k, h.currentMemAddr);
      s := Snap(k);
      ok, p := h.Kmalloc(k, 8);
      if ok {
        StateEnds(h);
        GrownPage(k, s, HEAP_START + 24, h.currentMemAddr);
      }
    }
  }

  // the first page of a growth is mapped after it, and stale if it was before
  lemma GrownPage(k: Machine, s: Snapshot, was: nat, cur: nat)
    requires Served(k, s, was, cur) && Growth(was, cur) > 0
    ensures Backed(k, cur) && k.mem.Length == WORDS && PageNumber(was) + 1 < 0x10_0000
    ensures var p := PageAt(PageNumber(was) + 1);
            Walk(k.mem[..], k.cr3, p).Some? && (Walk(s.m, k.cr3, p).Some? ==> p in k.stale)
  {
    hide Walk, Machine.Valid, HeapStep, FramesTaken, At, Growth;
    MachineValid(k, cur);
    PageAtNumber(PageAt(PageNumber(was) + 1), PageNumber(was) + 1);
  }

  lemma TwoGrowths(rule: Rule)
    ensures var h1 := HeapLists.Kmalloc(rule, Empty(), 8).0;
            && h1.cur == HEAP_START + 24 && HeapLists.Kmalloc(rule, h1, 8).0.cur == HEAP_START + 48
    ensures Growth(HEAP_START, HEAP_START + 24) == Growth(HEAP_START + 24, HEAP_START + 48) == 1
    ensures PageNumber(HEAP_START) == PageNumber(HEAP_START + 24) == HEAP_FIRST_PAGE
  {
    var h0 := Empty();
    assert h0.lists[0] == [] && FirstFree([]) == 0;
    var h1 := HeapLists.Kmalloc(rule, h0, 8).0;
    var l := h1.lists[0];
    assert l == [Chunk(HEAP_START, 16, true)];
    assert FirstFree(l) == 1;
  }
}
