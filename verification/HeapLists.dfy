/** The chunk lists of kernelcpp/code/mem/heap.c as values: ten lists of fixed-size chunks and one list
    of chunks of any size that is merged and split on the way. */
module HeapLists {
  import opened Basics

  const HEADER := 8           // sizeof(header_t)
  const HEAP_START := 0xD000_0000
  const NONSTANDARD := 10
  const CLASSES := 11
  const FIELD := 0x8000_0000  // the length field of a header has 31 bits

  /** A chunk: its header's address, the payload length and the allocated bit. */
  datatype Chunk = Chunk(addr: nat, length: nat, used: bool) {
    function Payload(): nat { addr + HEADER }
    function End(): nat { addr + HEADER + length }
  }

  // size_array
  function SizeOf(c: nat): nat
    requires c < NONSTANDARD
  {
    if c < 8 then 16 * (c + 1) else if c == 8 then 256 else 512
  }

  /** The list a request is served from: the first class strictly larger than it. */
  function ClassOf(length: nat): (c: nat)
    ensures c <= NONSTANDARD
    ensures c < NONSTANDARD ==> length < SizeOf(c)
    ensures forall b :: 0 <= b < c ==> length >= SizeOf(b)
    ensures c == NONSTANDARD <==> length >= 512
  {
    if length < 128 then length / 16 else if length < 256 then 8 else if length < 512 then 9 else NONSTANDARD
  }

  // ----- find_nonstandart_node -----

  /** Two free neighbours of the list are merged: always, as written; only when adjacent, repaired. */
  predicate Mergeable(rule: Rule, a: Chunk, b: Chunk) {
    !a.used && !b.used && (rule == AsWritten || a.End() == b.addr)
  }

  /** As written the sum forgets the second header, and what does not fit the field is cut off. Repaired
      lengths always fit it in a heap with pages behind it (HeapObjects.Heap.LengthsFit). */
  function MergedLength(rule: Rule, a: nat, b: nat): nat {
    if rule == AsWritten then (a + b) % FIELD else a + b + HEADER
  }

  function Merged(rule: Rule, a: Chunk, b: Chunk): Chunk {
    a.(length := MergedLength(rule, a.length, b.length))
  }

  predicate Fits(a: Chunk, need: nat) {
    !a.used && a.length >= need
  }

  /** The list after the search and the position of the chunk found, or the length of the list. */
  function Find(rule: Rule, l: seq<Chunk>, need: nat): (r: (seq<Chunk>, nat))
    ensures r.1 <= |r.0| <= |l|
    ensures r.1 < |r.0| ==> Fits(r.0[r.1], need)
    decreases |l|
  {
    if l == [] then ([], 0)
    else if Fits(l[0], need) then (l, 0)
    else if |l| > 1 && Mergeable(rule, l[0], l[1]) then
      Find(rule, [Merged(rule, l[0], l[1])] + l[2..], need)
    else
      var (t, k) := Find(rule, l[1..], need);
      ([l[0]] + t, k + 1)
  }

  function TotalLength(l: seq<Chunk>): nat {
    if l == [] then 0 else l[0].length + TotalLength(l[1..])
  }

  function Allocated(l: seq<Chunk>): seq<Chunk> {
    if l == [] then [] else (if l[0].used then [l[0]] else []) + Allocated(l[1..])
  }

  /** No two neighbours of the first `n` chunks could still be merged. */
  predicate Coalesced(rule: Rule, l: seq<Chunk>, n: nat)
    requires n <= |l|
  {
    forall i :: 0 <= i < n - 1 ==> !Mergeable(rule, l[i], l[i + 1])
  }

  /** As written, the allocated chunks are conserved, and the lengths never add up to more. */
  lemma {:induction false} FindConserves(l: seq<Chunk>, need: nat)
    ensures TotalLength(Find(AsWritten, l, need).0) <= TotalLength(l)
    ensures Allocated(Find(AsWritten, l, need).0) == Allocated(l)
    decreases |l|
  {
    if l == [] || Fits(l[0], need) {
    } else if |l| > 1 && Mergeable(AsWritten, l[0], l[1]) {
      var m := [Merged(AsWritten, l[0], l[1])] + l[2..];
      FindConserves(m, need);
      assert m[1..] == l[2..] && l[1..][1..] == l[2..];
    } else {
      FindConserves(l[1..], need);
      var t := Find(AsWritten, l[1..], need).0;
      assert ([l[0]] + t)[1..] == t;
    }
  }

  predicate FreeRun(l: seq<Chunk>, i: nat, j: nat) {
    i <= j <= |l| && forall x :: i <= x < j ==> !l[x].used
  }

  /** The walk merges the free run from `i` up to `j`, and there the sum outgrows the field: nothing before
      it was long enough, nor was the run without its last chunk. */
  ghost predicate CutsAt(l: seq<Chunk>, need: nat, i: nat, j: nat) {
    && i < j && FreeRun(l, i, j) && (i > 0 ==> l[i - 1].used)
    && TotalLength(l[i..j - 1]) < need && TotalLength(l[i..j]) >= FIELD
    && ShortBefore(l, need, i)
  }

  ghost predicate ShortBefore(l: seq<Chunk>, need: nat, i: nat) {
    forall a: nat, b: nat :: a <= b <= i && FreeRun(l, a, b) ==> TotalLength(l[a..b]) < need
  }

  ghost predicate Cuts(l: seq<Chunk>, need: nat) {
    exists i: nat, j: nat :: CutsAt(l, need, i, j)
  }

  /** As written, the lengths add up to what they did exactly when no free run the walk merges reaches 2^31. */
  lemma {:induction false} LengthsKeptIff(l: seq<Chunk>, need: nat)
    requires forall c :: c in l ==> c.length < FIELD
    ensures TotalLength(Find(AsWritten, l, need).0) == TotalLength(l) <==> !Cuts(l, need)
    decreases |l|
  {
    hide CutsAt;
    if l == [] {
      assert !Cuts(l, need) by {
        NothingCuts(need);
      }
    } else if Fits(l[0], need) {
      FitsNoCut(l, need);
    } else if |l| > 1 && Mergeable(AsWritten, l[0], l[1]) {
      var m := FrontMerged(AsWritten, l);
      assert m[1..] == l[2..] && l[1..][1..] == l[2..];
      if l[0].length + l[1].length < FIELD {
        LengthsKeptIff(m, need);
        MergeCuts(l, need);
      } else {
        FindConserves(m, need);
        FrontCuts(l, need);
      }
    } else {
      LengthsKeptIff(l[1..], need);
      PassCuts(l, need);
      var t := Find(AsWritten, l[1..], need).0;
      assert ([l[0]] + t)[1..] == t;
    }
  }

  lemma NothingCuts(need: nat)
    ensures !Cuts([], need)
  {
  }

  lemma FrontCuts(l: seq<Chunk>, need: nat)
    requires |l| > 1 && !l[0].used && !l[1].used && !Fits(l[0], need) && l[0].length + l[1].length >= FIELD
    ensures Cuts(l, need)
  {
    ShortRuns(l);
    assert ShortBefore(l, need, 0);
    assert 2 - 1 == 1 && FreeRun(l, 0, 2);
    assert CutsAt(l, need, 0, 2);
  }

  lemma FitsNoCut(l: seq<Chunk>, need: nat)
    requires l != [] && Fits(l[0], need) && l[0].length < FIELD
    ensures !Cuts(l, need)
  {
    ShortRuns(l);
    assert FreeRun(l, 0, 1);
    forall i: nat, j: nat
      ensures !CutsAt(l, need, i, j)
    {
      if i == 0 && 1 < j <= |l| {
        TotalOfRun(l, j - 1);
      }
    }
  }

  lemma TotalOfRun(l: seq<Chunk>, j: nat)
    requires 0 < j <= |l|
    ensures TotalLength(l[0..j]) == l[0].length + TotalLength(l[1..j])
  {
    assert l[0..j][1..] == l[1..j];
  }

  lemma ShortRuns(l: seq<Chunk>)
    requires l != []
    ensures TotalLength(l[0..0]) == 0 && TotalLength(l[0..1]) == l[0].length
    ensures |l| > 1 ==> TotalLength(l[0..2]) == l[0].length + l[1].length
  {
    TotalOfRun(l, 1);
    if |l| > 1 {
      TotalOfRun(l, 2);
      assert l[1..2] == [l[1]];
    }
  }

  // the list with its first two chunks, both free, made one
  function FrontMerged(rule: Rule, l: seq<Chunk>): (m: seq<Chunk>)
    requires |l| > 1
    ensures |m| == |l| - 1 && forall x :: 1 <= x < |m| ==> m[x] == l[x + 1]
  {
    [Merged(rule, l[0], l[1])] + l[2..]
  }

  lemma MergeRun(l: seq<Chunk>, i: nat, j: nat)
    requires |l| > 1 && !l[0].used && !l[1].used && l[0].length + l[1].length < FIELD
    requires i != 1 && i <= j <= |l| && j >= 2
    ensures var m, i' := FrontMerged(AsWritten, l), if i == 0 then 0 else i - 1;
            (FreeRun(l, i, j) <==> FreeRun(m, i', j - 1)) && TotalLength(l[i..j]) == TotalLength(m[i'..j - 1])
  {
    var m := FrontMerged(AsWritten, l);
    if i == 0 {
      var x, y := l[0..j], m[0..j - 1];
      assert x[1..] == l[1..j] && x[1..][1..] == l[2..j] && y[1..] == l[2..j];
      if FreeRun(m, 0, j - 1) {
        assert forall k :: 2 <= k < j ==> l[k] == m[k - 1];
      }
    } else {
      assert l[i..j] == m[i - 1..j - 1];
      if FreeRun(m, i - 1, j - 1) {
        assert forall k :: i <= k < j ==> l[k] == m[k - 1];
      }
    }
  }

  lemma MergeBefore(l: seq<Chunk>, need: nat, i: nat)
    requires |l| > 1 && !l[0].used && !l[1].used && !Fits(l[0], need) && l[0].length + l[1].length < FIELD
    requires 2 <= i <= |l|
    ensures ShortBefore(l, need, i) <==> ShortBefore(FrontMerged(AsWritten, l), need, i - 1)
  {
    var m := FrontMerged(AsWritten, l);
    if ShortBefore(l, need, i) {
      forall a: nat, b: nat | a <= b <= i - 1 && FreeRun(m, a, b)
        ensures TotalLength(m[a..b]) < need
      {
        if b > 0 {
          MergeRun(l, if a == 0 then 0 else a + 1, b + 1);
        }
      }
    }
    if ShortBefore(m, need, i - 1) {
      forall a: nat, b: nat | a <= b <= i && FreeRun(l, a, b)
        ensures TotalLength(l[a..b]) < need
      {
        if b >= 2 {
          if a == 1 {
            assert FreeRun(l, 0, b);
            assert l[0..b][1..] == l[1..b];
          }
          MergeRun(l, if a == 1 then 0 else a, b);
        } else if a == 0 && b == 1 {
          assert l[0..1] == [l[0]];
        }
      }
    }
  }

  lemma MergeCutDown(l: seq<Chunk>, need: nat, i: nat, j: nat)
    requires |l| > 1 && !l[0].used && !l[1].used && !Fits(l[0], need) && l[0].length + l[1].length < FIELD
    requires CutsAt(l, need, i, j)
    ensures Cuts(FrontMerged(AsWritten, l), need)
  {
    hide ShortBefore, TotalLength, FreeRun, Fits, FrontMerged;
    ShortRuns(l);
    FreeAt(l, i, j);
    assert i != 1 && (i == 0 ==> j > 2);
    MergeRun(l, i, j - 1);
    MergeRun(l, i, j);
    if i > 0 {
      MergeBefore(l, need, i);
    }
    assert CutsAt(FrontMerged(AsWritten, l), need, if i == 0 then 0 else i - 1, j - 1) by {
      NothingBefore(FrontMerged(AsWritten, l), need);
    }
  }

  lemma MergeCutUp(l: seq<Chunk>, need: nat, i: nat, j: nat)
    requires |l| > 1 && !l[0].used && !l[1].used && !Fits(l[0], need) && l[0].length + l[1].length < FIELD
    requires CutsAt(FrontMerged(AsWritten, l), need, i, j)
    ensures Cuts(l, need)
  {
    hide ShortBefore, TotalLength, FreeRun, FrontMerged;
    ShortRuns(l);
    FreeAt(FrontMerged(AsWritten, l), i, j);
    UsedAt(l);
    var i' := if i == 0 then 0 else i + 1;
    MergeRun(l, i', j + 1);
    if j > 1 {
      MergeRun(l, i', j);
    }
    if i > 0 {
      MergeBefore(l, need, i + 1);
    }
    assert CutsAt(l, need, i', j + 1) by {
      NothingBefore(l, need);
    }
  }

  lemma FreeAt(l: seq<Chunk>, i: nat, j: nat)
    requires FreeRun(l, i, j) && i < j
    ensures j <= |l| && !l[i].used
  {
  }

  lemma UsedAt(l: seq<Chunk>)
    requires |l| > 1 && !l[0].used && !l[1].used
    ensures !FrontMerged(AsWritten, l)[0].used
  {
  }

  lemma NothingBefore(l: seq<Chunk>, need: nat)
    ensures need > 0 ==> ShortBefore(l, need, 0)
  {
  }

  /** Merging two chunks whose sum fits moves every cut along with the list. */
  lemma MergeCuts(l: seq<Chunk>, need: nat)
    requires |l| > 1 && !l[0].used && !l[1].used && !Fits(l[0], need) && l[0].length + l[1].length < FIELD
    ensures Cuts(l, need) <==> Cuts(FrontMerged(AsWritten, l), need)
  {
    hide CutsAt;
    if i: nat, j: nat :| CutsAt(l, need, i, j) {
      MergeCutDown(l, need, i, j);
    }
    if i: nat, j: nat :| CutsAt(FrontMerged(AsWritten, l), need, i, j) {
      MergeCutUp(l, need, i, j);
    }
  }

  lemma PassRun(l: seq<Chunk>, i: nat, j: nat)
    requires 1 <= i <= j <= |l|
    ensures (FreeRun(l, i, j) <==> FreeRun(l[1..], i - 1, j - 1)) && l[i..j] == l[1..][i - 1..j - 1]
  {
    if FreeRun(l[1..], i - 1, j - 1) {
      assert forall k :: i <= k < j ==> l[k] == l[1..][k - 1];
    }
  }

  lemma PassBeforeDown(l: seq<Chunk>, need: nat, i: nat)
    requires 1 <= i <= |l| && ShortBefore(l, need, i)
    ensures ShortBefore(l[1..], need, i - 1)
  {
    hide TotalLength, FreeRun;
    forall a: nat, b: nat | a <= b <= i - 1 && FreeRun(l[1..], a, b)
      ensures TotalLength(l[1..][a..b]) < need
    {
      PassRun(l, a + 1, b + 1);
    }
  }

  lemma PassBeforeUp(l: seq<Chunk>, need: nat, i: nat)
    requires l != [] && !Fits(l[0], need) && (!l[0].used && |l| > 1 ==> l[1].used)
    requires 1 <= i <= |l| && ShortBefore(l[1..], need, i - 1)
    ensures ShortBefore(l, need, i)
  {
    assert FreeRun(l[1..], 0, 0) && TotalLength(l[1..][0..0]) < need;
    hide TotalLength, FreeRun;
    forall a: nat, b: nat | a <= b <= i && FreeRun(l, a, b)
      ensures TotalLength(l[a..b]) < need
    {
      if a >= 1 {
        PassRun(l, a, b);
      } else if b == 0 {
        assert l[0..0] == l[1..][0..0];
      } else {
        FreeAt(l, 0, b);
        if b > 1 {
          FreeRunTail(l, b);
        }
        assert l[0..1] == [l[0]];
        OneLength(l[0]);
      }
    }
  }

  lemma FreeRunTail(l: seq<Chunk>, b: nat)
    requires FreeRun(l, 0, b) && b > 1
    ensures |l| > 1 && !l[1].used
  {
  }

  lemma OneLength(c: Chunk)
    ensures TotalLength([c]) == c.length
  {
  }

  lemma PassCutDown(l: seq<Chunk>, need: nat, i: nat, j: nat)
    requires l != [] && !Fits(l[0], need) && l[0].length < FIELD && (!l[0].used && |l| > 1 ==> l[1].used)
    requires CutsAt(l, need, i, j)
    ensures Cuts(l[1..], need)
  {
    hide ShortBefore, TotalLength;
    ShortRuns(l);
    assert i > 0;
    hide FreeRun;
    PassRun(l, i, j - 1);
    PassRun(l, i, j);
    PassBeforeDown(l, need, i);
    assert CutsAt(l[1..], need, i - 1, j - 1);
  }

  lemma PassCutUp(l: seq<Chunk>, need: nat, i: nat, j: nat)
    requires l != [] && !Fits(l[0], need) && l[0].length < FIELD && (!l[0].used && |l| > 1 ==> l[1].used)
    requires CutsAt(l[1..], need, i, j)
    ensures Cuts(l, need)
  {
    hide ShortBefore, TotalLength, FreeRun;
    FreeAt(l[1..], i, j);
    PassRun(l, i + 1, j);
    PassRun(l, i + 1, j + 1);
    assert l[1..][i] == l[i + 1];
    PassBeforeUp(l, need, i + 1);
    assert CutsAt(l, need, i + 1, j + 1);
  }

  /** Passing a chunk that cannot be merged moves every cut along too. */
  lemma PassCuts(l: seq<Chunk>, need: nat)
    requires l != [] && !Fits(l[0], need) && l[0].length < FIELD && (!l[0].used && |l| > 1 ==> l[1].used)
    ensures Cuts(l, need) <==> Cuts(l[1..], need)
  {
    hide CutsAt;
    if i: nat, j: nat :| CutsAt(l, need, i, j) {
      PassCutDown(l, need, i, j);
    }
    if i: nat, j: nat :| CutsAt(l[1..], need, i, j) {
      PassCutUp(l, need, i, j);
    }
  }

  /** Either rule: the part passed is fully merged and holds no chunk long enough; so the chunk found
      is the first that fits, and when none is found no chunk of the whole, merged list fits. */
  lemma {:induction false} FindIsFirst(rule: Rule, l: seq<Chunk>, need: nat)
    ensures var (r, k) := Find(rule, l, need);
            && Coalesced(rule, r, if k < |r| then k + 1 else k)
            && (forall i :: 0 <= i < k ==> !Fits(r[i], need))
    ensures l != [] ==> Find(rule, l, need).0 != [] && FirstFrom(rule, Find(rule, l, need).0[0], l[0])
    decreases |l|
  {
    if l == [] || Fits(l[0], need) {
    } else if |l| > 1 && Mergeable(rule, l[0], l[1]) {
      FindIsFirst(rule, [Merged(rule, l[0], l[1])] + l[2..], need);
    } else {
      FindIsFirst(rule, l[1..], need);
      var (t, k) := Find(rule, l[1..], need);
      var r := [l[0]] + t;
      forall i | 0 <= i < (if k < |t| then k + 2 else k + 1) - 1
        ensures !Mergeable(rule, r[i], r[i + 1])
      {
        if i > 0 {
          assert r[i] == t[i - 1] && r[i + 1] == t[i];
        }
      }
    }
  }

  /** The first chunk keeps its address and bit and only grows, if it is free. */
  predicate FirstFrom(rule: Rule, r: Chunk, a: Chunk) {
    r.addr == a.addr && r.used == a.used && (a.used ==> r == a)
  }

  // ----- what the repaired search finds, by addresses -----

  /** Chunks i .. j - 1 of the list are free, and each starts where the one before it ends. */
  predicate FreeStretch(l: seq<Chunk>, i: nat, j: nat) {
    && i < j <= |l| && (forall x :: i <= x < j ==> !l[x].used)
    && forall x :: i <= x < j - 1 ==> l[x].End() == l[x + 1].addr
  }

  /** The bytes from the first payload of a stretch to its end. */
  function Room(l: seq<Chunk>, i: nat, j: nat): int
    requires i < j <= |l|
  {
    l[j - 1].End() - l[i].Payload()
  }

  /** Among the first `n` chunks of the list no stretch has room for the request. */
  ghost predicate NoRoom(l: seq<Chunk>, need: nat, n: nat) {
    forall i: nat, j: nat :: FreeStretch(l, i, j) && j <= n ==> Room(l, i, j) < need
  }

  /** The first stretch with room: nothing free touches it from the left, none before it has room, and without
      its last chunk it has none either. */
  ghost predicate FirstRoom(l: seq<Chunk>, need: nat, i: nat, j: nat) {
    && FreeStretch(l, i, j) && Room(l, i, j) >= need && NoRoom(l, need, i)
    && (i > 0 ==> !FreeStretch(l, i - 1, j)) && (i < j - 1 ==> Room(l, i, j - 1) < need)
  }

  lemma JoinedStretch(l: seq<Chunk>, i: nat, j: nat)
    requires FreeStretch(l, 0, 2) && i != 1 && 2 <= j <= |l| && i < j
    ensures var m, i' := FrontMerged(Repaired, l), if i == 0 then 0 else i - 1;
            && (FreeStretch(l, i, j) <==> FreeStretch(m, i', j - 1)) && Room(m, i', j - 1) == Room(l, i, j)
  {
    var m, i' := FrontMerged(Repaired, l), if i == 0 then 0 else i - 1;
    if FreeStretch(m, i', j - 1) {
      assert forall x :: i <= x < j && x >= 2 ==> l[x] == m[x - 1];
    }
  }

  lemma JoinedNoRoom(l: seq<Chunk>, need: nat, n: nat)
    requires FreeStretch(l, 0, 2) && !Fits(l[0], need) && 2 <= n <= |l|
    ensures NoRoom(FrontMerged(Repaired, l), need, n - 1) ==> NoRoom(l, need, n)
  {
    if NoRoom(FrontMerged(Repaired, l), need, n - 1) {
      forall i: nat, j: nat | FreeStretch(l, i, j) && j <= n
        ensures Room(l, i, j) < need
      {
        if i == 1 {
          assert FreeStretch(l, 0, j);
          JoinedStretch(l, 0, j);
        } else if j >= 2 {
          JoinedStretch(l, i, j);
        }
      }
    }
  }

  lemma JoinedFirstRoom(l: seq<Chunk>, need: nat, i: nat, j: nat)
    requires FreeStretch(l, 0, 2) && !Fits(l[0], need) && FirstRoom(FrontMerged(Repaired, l), need, i, j)
    ensures FirstRoom(l, need, if i == 0 then 0 else i + 1, j + 1)
  {
    hide NoRoom, FreeStretch, Room, FrontMerged;
    OneChunk(l);
    StretchIn(FrontMerged(Repaired, l), i, j);
    var i' := if i == 0 then 0 else i + 1;
    JoinedStretch(l, i', j + 1);
    if i == 0 {
      NoRoomInNone(l, need);
      if j > 1 {
        JoinedStretch(l, 0, j);
      }
    } else {
      JoinedNoRoom(l, need, i');
      JoinedStretch(l, if i == 1 then 0 else i, j + 1);
      StretchTail(l, i, j + 1);
      if i < j - 1 {
        JoinedStretch(l, i', j);
      }
    }
  }

  lemma OneChunk(l: seq<Chunk>)
    requires FreeStretch(l, 0, 2)
    ensures |l| > 1 && Room(l, 0, 1) == l[0].length && !l[0].used
  {
  }

  lemma StretchIn(l: seq<Chunk>, i: nat, j: nat)
    requires FreeStretch(l, i, j)
    ensures i < j <= |l|
  {
  }

  lemma NoRoomInNone(l: seq<Chunk>, need: nat)
    ensures NoRoom(l, need, 0)
  {
  }

  // a stretch from the second chunk on is one from the first on, once those two touch
  lemma StretchTail(l: seq<Chunk>, i: nat, j: nat)
    requires FreeStretch(l, 0, 2)
    ensures i == 1 && FreeStretch(l, 1, j) ==> FreeStretch(l, 0, j)
  {
  }

  lemma PassedStretch(l: seq<Chunk>, i: nat, j: nat)
    requires 1 <= i < j <= |l|
    ensures (FreeStretch(l, i, j) <==> FreeStretch(l[1..], i - 1, j - 1)) && Room(l[1..], i - 1, j - 1) == Room(l, i, j)
  {
    if FreeStretch(l[1..], i - 1, j - 1) {
      assert forall x :: i <= x < j ==> l[x] == l[1..][x - 1];
    }
  }

  lemma PassedNoRoom(l: seq<Chunk>, need: nat, n: nat)
    requires l != [] && !Fits(l[0], need) && !FreeStretch(l, 0, 2) && 1 <= n <= |l|
    ensures NoRoom(l[1..], need, n - 1) ==> NoRoom(l, need, n)
  {
    if NoRoom(l[1..], need, n - 1) {
      forall i: nat, j: nat | FreeStretch(l, i, j) && j <= n
        ensures Room(l, i, j) < need
      {
        if i >= 1 {
          PassedStretch(l, i, j);
        } else {
          assert j == 1;
        }
      }
    }
  }

  lemma PassedFirstRoom(l: seq<Chunk>, need: nat, i: nat, j: nat)
    requires l != [] && !Fits(l[0], need) && !FreeStretch(l, 0, 2) && FirstRoom(l[1..], need, i, j)
    ensures FirstRoom(l, need, i + 1, j + 1)
  {
    hide NoRoom;
    PassedStretch(l, i + 1, j + 1);
    PassedNoRoom(l, need, i + 1);
    if i > 0 {
      PassedStretch(l, i, j + 1);
    }
    if i < j - 1 {
      PassedStretch(l, i + 1, j);
    }
  }

  /** What the search made of list `l` is the stretch i .. j - 1, or nothing where there is none with room. */
  ghost predicate Serves(l: seq<Chunk>, need: nat, r: seq<Chunk>, k: nat, i: nat, j: nat) {
    k <= |r| &&
    if k < |r| then
      FirstRoom(l, need, i, j) && r[k] == Chunk(l[i].addr, Room(l, i, j), false) && r[k + 1..] == l[j..]
    else NoRoom(l, need, |l|)
  }

  lemma JoinedServes(l: seq<Chunk>, need: nat, r: seq<Chunk>, k: nat, i: nat, j: nat)
    requires FreeStretch(l, 0, 2) && !Fits(l[0], need) && Serves(FrontMerged(Repaired, l), need, r, k, i, j)
    ensures Serves(l, need, r, k, if i == 0 then 0 else i + 1, j + 1)
  {
    hide NoRoom, FirstRoom, FreeStretch, Room;
    JoinedNoRoom(l, need, |l|);
    if k < |r| {
      FirstRoomIn(FrontMerged(Repaired, l), need, i, j);
      JoinedStretch(l, if i == 0 then 0 else i + 1, j + 1);
      JoinedFirstRoom(l, need, i, j);
      assert FrontMerged(Repaired, l)[j..] == l[j + 1..];
    }
  }

  lemma PassedServes(l: seq<Chunk>, need: nat, r: seq<Chunk>, k: nat, i: nat, j: nat)
    requires l != [] && !Fits(l[0], need) && !FreeStretch(l, 0, 2) && Serves(l[1..], need, r, k, i, j)
    ensures Serves(l, need, [l[0]] + r, k + 1, i + 1, j + 1)
  {
    hide NoRoom, FirstRoom, FreeStretch, Room;
    PassedNoRoom(l, need, |l|);
    if k < |r| {
      FirstRoomIn(l[1..], need, i, j);
      PassedStretch(l, i + 1, j + 1);
      PassedFirstRoom(l, need, i, j);
      assert ([l[0]] + r)[k + 2..] == r[k + 1..] && l[1..][j..] == l[j + 1..];
    }
  }

  /** Repaired, the chunk found is the first stretch of free chunks with room for the request, made one; none
      is found exactly when no stretch of the list as it was has room. */
  lemma {:induction false} FindServes(l: seq<Chunk>, need: nat) returns (i: nat, j: nat)
    ensures Serves(l, need, Find(Repaired, l, need).0, Find(Repaired, l, need).1, i, j)
    decreases |l|
  {
    hide Serves, Room;
    i, j := 0, 1;
    if l == [] || Fits(l[0], need) {
      FrontServes(l, need);
    } else if |l| > 1 && Mergeable(Repaired, l[0], l[1]) {
      i, j := FindServes(FrontMerged(Repaired, l), need);
      var (r, k) := Find(Repaired, FrontMerged(Repaired, l), need);
      JoinedServes(l, need, r, k, i, j);
      i, j := if i == 0 then 0 else i + 1, j + 1;
    } else {
      i, j := FindServes(l[1..], need);
      var (r, k) := Find(Repaired, l[1..], need);
      PassedServes(l, need, r, k, i, j);
      i, j := i + 1, j + 1;
    }
  }

  lemma FrontServes(l: seq<Chunk>, need: nat)
    requires l == [] || Fits(l[0], need)
    ensures Serves(l, need, l, 0, 0, 1)
  {
    if l != [] {
      assert FirstRoom(l, need, 0, 1);
    }
  }

  lemma FirstRoomIn(l: seq<Chunk>, need: nat, i: nat, j: nat)
    requires FirstRoom(l, need, i, j)
    ensures i < j <= |l|
  {
  }

  /** So a request is turned away exactly when no free stretch has room, and no two touching free chunks are
      left apart in the part passed. */
  lemma NothingFoundIff(l: seq<Chunk>, need: nat)
    ensures var (r, k) := Find(Repaired, l, need);
            && (k == |r| <==>
                  forall i: nat, j: nat :: FreeStretch(l, i, j) ==> l[j - 1].End() - l[i].Payload() < need)
            && forall x :: 0 <= x < (if k < |r| then k else k - 1) ==>
                 !(!r[x].used && !r[x + 1].used && r[x].End() == r[x + 1].addr)
  {
    var i, j := FindServes(l, need);
    FindIsFirst(Repaired, l, need);
  }

  // ----- split_chunk -----

  /** What split_chunk makes of the chunk found. As written: the new length keeps 8 bytes too many, the
      new chunk starts at the old length instead of behind the kept part, its length is a wrapping
      difference cut to the 31-bit field, and the caller also loses the rest of the list. */
  function SplitPieces(rule: Rule, a: Chunk, request: nat): (r: seq<Chunk>)
    ensures 1 <= |r| <= 2 && r[0].addr == a.addr
  {
    if rule == AsWritten then
      var len := request + HEADER;
      var rest := (a.length - len) % 0x1_0000_0000;
      if rest > HEADER then [a.(length := len % FIELD), Chunk(a.addr + a.length, rest % FIELD, false)] else [a]
    else
      if a.length >= request && a.length - request > HEADER then
        [a.(length := request), Chunk(a.addr + HEADER + request, a.length - request - HEADER, false)]
      else [a]
  }

  function Split(rule: Rule, l: seq<Chunk>, k: nat, request: nat): seq<Chunk>
    requires k < |l|
  {
    var pieces := SplitPieces(rule, l[k], request);
    l[..k] + pieces + if rule == AsWritten && |pieces| == 2 then [] else l[k + 1..]
  }

  /** Consecutive pieces that fill a chunk's own bytes exactly. */
  predicate FillsExactly(pieces: seq<Chunk>, a: Chunk) {
    && |pieces| >= 1 && pieces[0].addr == a.addr && pieces[|pieces| - 1].End() == a.End()
    && forall i :: 0 <= i < |pieces| - 1 ==> pieces[i].End() == pieces[i + 1].addr
  }

  /** For a chunk that fits, reuse as written stays inside the chunk's bytes exactly when it does not
      split: the request plus 8 bytes must fit, with at most 8 bytes to spare. */
  lemma SplitAsWrittenIff(a: Chunk, request: nat)
    requires Fits(a, request) && a.length < FIELD
    ensures FillsExactly(SplitPieces(AsWritten, a, request), a) <==> request + 8 <= a.length <= request + 16
  {
  }

  /** Repaired, it always does, and the kept piece is long enough. */
  lemma SplitRepairedFills(a: Chunk, request: nat)
    requires Fits(a, request)
    ensures FillsExactly(SplitPieces(Repaired, a, request), a)
    ensures SplitPieces(Repaired, a, request)[0].length >= request
  {
  }

  /** As written, whatever stood behind a chunk that is split is on no list any more. */
  lemma SplitLosesIff(l: seq<Chunk>, k: nat, request: nat)
    requires k < |l| && Fits(l[k], request) && l[k].length < FIELD
    ensures var r := Split(AsWritten, l, k, request);
            if request + 8 <= l[k].length <= request + 16 then r == l
            else |r| == k + 2 && r[k + 1].addr == l[k].addr + l[k].length && !r[k + 1].used
  {
  }

  /** As written, freeing 600 bytes and asking for them again puts a chunk header inside the payload
      just handed out. */
  lemma ReuseOverlaps(a: Chunk)
    requires a.length == 600 && !a.used
    ensures var pieces := SplitPieces(AsWritten, a, 600);
            |pieces| == 2 && pieces[0].Payload() < pieces[1].addr && pieces[1].Payload() == pieces[0].Payload() + 600
            && pieces[1].addr < pieces[0].Payload() + 600
  {
  }

  /** Freeing and asking for 600 bytes twice leaves the second piece of ReuseOverlaps free, with a length that
      had wrapped; asking for 700 then merges the two, and 2^31 bytes of length are gone. */
  lemma CutExample(a: nat)
    ensures var l := [Chunk(a, 608, false), Chunk(a + 600, 0x7FFF_FFF8, false)];
            && SplitPieces(AsWritten, Chunk(a, 600, false), 600) == l
            && Cuts(l, 700) && Find(AsWritten, l, 700) == ([Chunk(a, 600, false)], 1)
            && TotalLength([Chunk(a, 600, false)]) + FIELD == TotalLength(l)
  {
    var l := [Chunk(a, 608, false), Chunk(a + 600, 0x7FFF_FFF8, false)];
    FrontCuts(l, 700);
    ShortRuns(l);
    assert l[0..2] == l && l[2..] == [];
    var m := [Chunk(a, 600, false)];
    assert [Merged(AsWritten, l[0], l[1])] + l[2..] == m;
    assert Find(AsWritten, m, 700) == ([m[0]] + [], 1) by {
      assert m[1..] == [] && Find(AsWritten, [], 700) == ([], 0);
    }
    ShortRuns(m);
    assert m[0..1] == m;
  }

  /** A merged chunk ends where its second part ended only under the repaired rule: as written the
      second header's bytes belong to no chunk any more. */
  lemma MergeKeepsBytesIff(rule: Rule, a: Chunk, b: Chunk)
    requires Mergeable(rule, a, b) && a.End() <= b.addr
    ensures Merged(rule, a, b).End() == b.End() <==> rule == Repaired
  {
  }

  // ----- kmalloc and kfree -----

  datatype HeapState = HeapState(cur: nat, lists: seq<seq<Chunk>>)

  function Empty(): HeapState {
    HeapState(HEAP_START, seq(CLASSES, i => []))
  }

  predicate WellShaped(h: HeapState) {
    |h.lists| == CLASSES
  }

  /** The first free chunk of a list, or its length. */
  function FirstFree(l: seq<Chunk>): (k: nat)
    ensures k <= |l| && (k < |l| ==> !l[k].used) && forall i :: 0 <= i < k ==> l[i].used
  {
    if l == [] then 0 else if !l[0].used then 0 else 1 + FirstFree(l[1..])
  }

  function Append(h: HeapState, c: nat, size: nat): HeapState
    requires WellShaped(h) && c < CLASSES
  {
    HeapState(h.cur + HEADER + size, h.lists[c := h.lists[c] + [Chunk(h.cur, size, true)]])
  }

  function Take(l: seq<Chunk>, k: nat): seq<Chunk>
    requires k < |l|
  {
    l[k := l[k].(used := true)]
  }

  /** kmalloc; the pointer is 0 for a negative (int) length. */
  function Kmalloc(rule: Rule, h: HeapState, length: nat): (r: (HeapState, nat))
    requires WellShaped(h)
    ensures WellShaped(r.0)
  {
    var c := ClassOf(length);
    if length >= FIELD then (h, 0)
    else if c < NONSTANDARD then
      var k := FirstFree(h.lists[c]);
      if k < |h.lists[c]| then (h.(lists := h.lists[c := Take(h.lists[c], k)]), h.lists[c][k].Payload())
      else (Append(h, c, SizeOf(c)), h.cur + HEADER)
    else
      var (l, k) := Find(rule, h.lists[c], length);
      if k < |l| then (h.(lists := h.lists[c := Take(Split(rule, l, k, length), k)]), l[k].Payload())
      else (Append(h.(lists := h.lists[c := l]), c, length), h.cur + HEADER)
  }

  /** Repaired, a request for the last list takes memory the heap already has exactly when free chunks that
      touch have room for it. Then the pointer is to the first such stretch; the chunk handed out has at most
      8 bytes more than asked for; and what is over is a free chunk that starts where it ends and ends where
      the stretch did. */
  lemma KmallocReuses(h: HeapState, n: nat) returns (i: nat, j: nat, k: nat)
    requires WellShaped(h) && 512 <= n < FIELD
    ensures var l, r := h.lists[NONSTANDARD], Kmalloc(Repaired, h, n);
            (r.0.cur == h.cur <==>
               exists a: nat, b: nat :: FreeStretch(l, a, b) && l[b - 1].End() - l[a].Payload() >= n)
    ensures var l, r := h.lists[NONSTANDARD], Kmalloc(Repaired, h, n);
            var l' := r.0.lists[NONSTANDARD];
            r.0.cur == h.cur ==>
              && FirstRoom(l, n, i, j) && r.1 == l[i].Payload() && k < |l'|
              && l'[k].used && l'[k].addr == l[i].addr && n <= l'[k].length <= n + HEADER
              && (l'[k].End() == l[j - 1].End() ==> l'[k + 1..] == l[j..])
              && (l'[k].End() != l[j - 1].End() ==>
                    && k + 1 < |l'| && !l'[k + 1].used && l'[k + 1].addr == l'[k].End()
                    && l'[k + 1].End() == l[j - 1].End() && l'[k + 2..] == l[j..])
  {
    hide Find, NoRoom, FirstRoom;
    var l := h.lists[NONSTANDARD];
    i, j := FindServes(l, n);
    NothingFoundIff(l, n);
    k := Find(Repaired, l, n).1;
    if k < |Find(Repaired, l, n).0| {
      FirstRoomIn(l, n, i, j);
    }
  }

  function ReleasedChunk(a: Chunk, p: nat): Chunk {
    if a.Payload() == p then a.(used := false) else a
  }

  function ReleasedList(l: seq<Chunk>, p: nat): (r: seq<Chunk>)
    ensures |r| == |l| && forall i :: 0 <= i < |l| ==> r[i] == ReleasedChunk(l[i], p)
  {
    if l == [] then [] else [ReleasedChunk(l[0], p)] + ReleasedList(l[1..], p)
  }

  /** kfree: the header 8 bytes before the pointer loses its allocated bit. */
  function Kfree(h: HeapState, p: nat): HeapState {
    h.(lists := seq(|h.lists|, i requires 0 <= i < |h.lists| => ReleasedList(h.lists[i], p)))
  }
}
