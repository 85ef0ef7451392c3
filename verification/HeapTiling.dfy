/** Chunks in memory order. A tiling is one sequence of blocks, header and payload, without gap or
    overlap; each list of the heap must be the sub-sequence of its class. */
module HeapTiling {
  import opened HeapLists

  datatype Block = Block(cls: nat, chunk: Chunk)

  /** The blocks fill [from, to) exactly, in order. */
  predicate Tiles(all: seq<Block>, from: nat, to: nat) {
    if all == [] then from == to
    else all[0].chunk.addr == from && Tiles(all[1..], all[0].chunk.End(), to)
  }

  function EndOf(all: seq<Block>, from: nat): nat {
    if all == [] then from else EndOf(all[1..], all[0].chunk.End())
  }

  /** The chunks of one class, in memory order. */
  function ListOf(all: seq<Block>, c: nat): seq<Chunk> {
    if all == [] then [] else (if all[0].cls == c then [all[0].chunk] else []) + ListOf(all[1..], c)
  }

  lemma {:induction false} ListOfAppend(a: seq<Block>, b: seq<Block>, c: nat)
    ensures ListOf(a + b, c) == ListOf(a, c) + ListOf(b, c)
  {
    if a == [] {
      assert a + b == b;
    } else {
      ListOfAppend(a[1..], b, c);
      assert (a + b)[1..] == a[1..] + b && (a + b)[0] == a[0];
      var h := if a[0].cls == c then [a[0].chunk] else [];
      assert h + (ListOf(a[1..], c) + ListOf(b, c)) == (h + ListOf(a[1..], c)) + ListOf(b, c);
    }
  }

  lemma {:induction false} TilesAppend(a: seq<Block>, b: seq<Block>, from: nat, to: nat)
    ensures Tiles(a + b, from, to) <==> Tiles(a, from, EndOf(a, from)) && Tiles(b, EndOf(a, from), to)
  {
    if a == [] {
      assert a + b == b;
    } else {
      TilesAppend(a[1..], b, a[0].chunk.End(), to);
      assert (a + b)[1..] == a[1..] + b;
    }
  }

  lemma {:induction false} EndOfTiles(a: seq<Block>, from: nat, to: nat)
    requires Tiles(a, from, to)
    ensures EndOf(a, from) == to && from <= to
  {
    if a != [] {
      EndOfTiles(a[1..], a[0].chunk.End(), to);
    }
  }

  /** Later blocks lie wholly after earlier ones, and all of them inside the range. */
  lemma {:induction false} TilesOrdered(all: seq<Block>, from: nat, to: nat)
    requires Tiles(all, from, to)
    ensures from <= to
    ensures forall i :: 0 <= i < |all| ==> from <= all[i].chunk.addr && all[i].chunk.End() <= to
    ensures forall i, j :: 0 <= i < j < |all| ==> all[i].chunk.End() <= all[j].chunk.addr
  {
    if all != [] {
      TilesOrdered(all[1..], all[0].chunk.End(), to);
      forall i, j | 0 <= i < j < |all|
        ensures all[i].chunk.End() <= all[j].chunk.addr
      {
        if i == 0 {
          assert all[j] == all[1..][j - 1];
        } else {
          assert all[i] == all[1..][i - 1] && all[j] == all[1..][j - 1];
        }
      }
      forall i | 0 <= i < |all|
        ensures from <= all[i].chunk.addr && all[i].chunk.End() <= to
      {
        if i > 0 {
          assert all[i] == all[1..][i - 1];
        }
      }
    }
  }

  predicate Covers(b: Block, x: nat) {
    b.chunk.addr <= x < b.chunk.End()
  }

  /** Every byte of the range belongs to exactly one block. */
  lemma {:induction false} EveryByteOnce(all: seq<Block>, from: nat, to: nat, x: nat) returns (i: nat)
    requires Tiles(all, from, to) && from <= x < to
    ensures i < |all| && Covers(all[i], x)
    ensures forall j :: 0 <= j < |all| && Covers(all[j], x) ==> j == i
  {
    TilesOrdered(all, from, to);
    if x < all[0].chunk.End() {
      i := 0;
    } else {
      var k := EveryByteOnce(all[1..], all[0].chunk.End(), to, x);
      i := k + 1;
    }
  }

  /** The place in memory order of element `i` of a list. */
  lemma {:induction false} Locate(all: seq<Block>, c: nat, i: nat) returns (p: nat)
    requires i < |ListOf(all, c)|
    ensures p < |all| && all[p] == Block(c, ListOf(all, c)[i])
    ensures ListOf(all[..p], c) == ListOf(all, c)[..i] && ListOf(all[p + 1..], c) == ListOf(all, c)[i + 1..]
  {
    if all[0].cls == c && i == 0 {
      p := 0;
    } else {
      var k := if all[0].cls == c then i - 1 else i;
      var q := Locate(all[1..], c, k);
      p := q + 1;
      assert all[..p][1..] == all[1..][..q] && all[p + 1..] == all[1..][q + 1..];
      assert ListOf(all, c)[..i] == (if all[0].cls == c then [all[0].chunk] else []) + ListOf(all[1..], c)[..k];
    }
  }

  function ChunksOf(bs: seq<Block>): seq<Chunk> {
    if bs == [] then [] else [bs[0].chunk] + ChunksOf(bs[1..])
  }

  lemma OneBlock(a: Block)
    ensures Tiles([a], a.chunk.addr, a.chunk.End()) && ChunksOf([a]) == [a.chunk]
  {
  }

  lemma TwoBlocks(a: Block, b: Block)
    requires a.chunk.End() == b.chunk.addr
    ensures Tiles([a, b], a.chunk.addr, b.chunk.End()) && ChunksOf([a, b]) == [a.chunk, b.chunk]
  {
    OneBlock(b);
    assert [a, b][1..] == [b];
  }

  lemma {:induction false} ListOfClass(bs: seq<Block>, c: nat, e: nat)
    requires forall b :: b in bs ==> b.cls == c
    ensures ListOf(bs, e) == if e == c then ChunksOf(bs) else []
  {
    if bs != [] {
      ListOfClass(bs[1..], c, e);
    }
  }

  /** Replacing one chunk of a list by blocks of its class that fill the same bytes. */
  lemma Replace(all: seq<Block>, c: nat, i: nat, news: seq<Block>, from: nat, to: nat)
    returns (p: nat, all': seq<Block>)
    requires Tiles(all, from, to) && i < |ListOf(all, c)|
    requires forall b :: b in news ==> b.cls == c
    requires Tiles(news, ListOf(all, c)[i].addr, ListOf(all, c)[i].End())
    ensures p < |all| && all[p] == Block(c, ListOf(all, c)[i]) && all' == all[..p] + news + all[p + 1..]
    ensures Tiles(all', from, to)
    ensures ListOf(all', c) == ListOf(all, c)[..i] + ChunksOf(news) + ListOf(all, c)[i + 1..]
    ensures forall e :: e != c ==> ListOf(all', e) == ListOf(all, e)
  {
    p := Locate(all, c, i);
    var pre, former, post := all[..p], [all[p]], all[p + 1..];
    all' := pre + news + post;
    assert all == pre + former + post;
    TilesAppend(pre + former, post, from, to);
    TilesAppend(pre, former, from, EndOf(pre + former, from));
    EndOfTiles(pre + former, from, EndOf(pre + former, from));
    var mid := all[p].chunk.addr;
    assert EndOf(pre, from) == mid by {
      assert Tiles(former, EndOf(pre, from), EndOf(pre + former, from));
    }
    EndOfTiles(news, mid, all[p].chunk.End());
    TilesAppend(pre, news, from, all[p].chunk.End());
    EndOfTiles(pre + news, from, all[p].chunk.End());
    TilesAppend(pre + news, post, from, to);
    forall e
      ensures ListOf(all', e) == ListOf(pre, e) + (if e == c then ChunksOf(news) else []) + ListOf(post, e)
      ensures e != c ==> ListOf(all', e) == ListOf(all, e)
    {
      ListOfAppend(pre + news, post, e);
      ListOfAppend(pre, news, e);
      ListOfAppend(pre + former, post, e);
      ListOfAppend(pre, former, e);
      ListOfClass(news, c, e);
      ListOfClass(former, c, e);
    }
  }

  /** A new chunk at the end of memory goes to the end of its list. */
  lemma Extend(all: seq<Block>, b: Block, from: nat, to: nat)
    requires Tiles(all, from, to) && b.chunk.addr == to
    ensures Tiles(all + [b], from, b.chunk.End())
    ensures ListOf(all + [b], b.cls) == ListOf(all, b.cls) + [b.chunk]
    ensures forall e :: e != b.cls ==> ListOf(all + [b], e) == ListOf(all, e)
  {
    EndOfTiles(all, from, to);
    TilesAppend(all, [b], from, b.chunk.End());
    assert Tiles([b], to, b.chunk.End());
    forall e
      ensures ListOf(all + [b], e) == ListOf(all, e) + if e == b.cls then [b.chunk] else []
    {
      ListOfAppend(all, [b], e);
      assert ListOf([b], e) == if e == b.cls then [b.chunk] else [];
    }
  }
}
