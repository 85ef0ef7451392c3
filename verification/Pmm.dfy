/** The physical page allocator of kernelcpp/code/mem/pmm.c: a bump pointer until paging is on,
    then a packed bitmap with a cached index of the lowest free page. */
module Pmm {

  const MEM_UNIT_SIZE := 0x1000
  const MEM_SIZE := 0x80_0000
  const UNITS := 2048
  const BITMAP_BYTES := 0x1000

  // ----- bits inside one byte, bits of the map -----

  function Mask(k: nat): bv8
    requires k < 8
  {
    1 << k
  }

  /** The eight values of `1 << k`. */
  lemma MaskValues()
    ensures Mask(0) == 0x01 && Mask(1) == 0x02 && Mask(2) == 0x04 && Mask(3) == 0x08
    ensures Mask(4) == 0x10 && Mask(5) == 0x20 && Mask(6) == 0x40 && Mask(7) == 0x80
  {
  }

  predicate Bit(x: bv8, k: nat)
    requires k < 8
  {
    x & Mask(k) != 0
  }

  function SetIn(x: bv8, k: nat): bv8
    requires k < 8
  {
    x | Mask(k)
  }

  function ClearedIn(x: bv8, k: nat): bv8
    requires k < 8
  {
    x & !Mask(k)
  }

  /** Setting or clearing bit `k` of a byte decides bit `k` and leaves every other bit alone. */
  lemma ByteBits(x: bv8, k: nat, j: nat)
    requires k < 8 && j < 8
    ensures Bit(SetIn(x, k), j) <==> j == k || Bit(x, j)
    ensures Bit(ClearedIn(x, k), j) <==> j != k && Bit(x, j)
  {
    MaskValues();
    assert k == 0 || k == 1 || k == 2 || k == 3 || k == 4 || k == 5 || k == 6 || k == 7;
    assert j == 0 || j == 1 || j == 2 || j == 3 || j == 4 || j == 5 || j == 6 || j == 7;
  }

  /** What `get_bit(b) != 0` says. */
  predicate Marked(bits: seq<bv8>, b: nat)
    requires b < 8 * |bits|
  {
    Bit(bits[b / 8], b % 8)
  }

  function WithBit(bits: seq<bv8>, b: nat): seq<bv8>
    requires b < 8 * |bits|
  {
    bits[b / 8 := SetIn(bits[b / 8], b % 8)]
  }

  function WithoutBit(bits: seq<bv8>, b: nat): seq<bv8>
    requires b < 8 * |bits|
  {
    bits[b / 8 := ClearedIn(bits[b / 8], b % 8)]
  }

  /** Writing one packed bit changes that bit and no other, although eight share a byte. */
  lemma BitWrites(bits: seq<bv8>, b: nat)
    requires b < 8 * |bits|
    ensures forall c: nat :: c < 8 * |bits| ==> (Marked(WithBit(bits, b), c) <==> c == b || Marked(bits, c))
    ensures forall c: nat :: c < 8 * |bits| ==> (Marked(WithoutBit(bits, b), c) <==> c != b && Marked(bits, c))
  {
    forall c: nat | c < 8 * |bits|
      ensures Marked(WithBit(bits, b), c) <==> c == b || Marked(bits, c)
      ensures Marked(WithoutBit(bits, b), c) <==> c != b && Marked(bits, c)
    {
      OneBit(bits, b, c);
    }
  }

  lemma OneBit(bits: seq<bv8>, b: nat, c: nat)
    requires b < 8 * |bits| && c < 8 * |bits|
    ensures Marked(WithBit(bits, b), c) <==> c == b || Marked(bits, c)
    ensures Marked(WithoutBit(bits, b), c) <==> c != b && Marked(bits, c)
  {
    hide Bit, SetIn, ClearedIn;
    if c / 8 == b / 8 {
      ByteBits(bits[b / 8], b % 8, c % 8);
    }
  }

  // ----- the set of free pages the bitmap stands for -----

  predicate IsBitmap(bits: seq<bv8>) {
    |bits| == BITMAP_BYTES
  }

  /** Page 0 of the pool is the bitmap's own page and is never free. */
  function FreeSet(bits: seq<bv8>): set<nat>
    requires IsBitmap(bits)
  {
    set i: nat | 1 <= i < UNITS && !Marked(bits, i)
  }

  /** The cached index is the lowest free page from 1 up, or the end of the pool. */
  predicate CachesLowest(bits: seq<bv8>, first: int)
    requires IsBitmap(bits)
  {
    && 1 <= first <= UNITS
    && (forall i: nat :: 1 <= i < first ==> Marked(bits, i))
    && (first < UNITS ==> !Marked(bits, first))
  }

  /** Clearing bit `i` and lowering the index, as a free does, keeps the cache right for every bit of
      the bitmap's page except bit 0, the bitmap's own page. */
  lemma FreeKeepsCacheIff(bits: seq<bv8>, first: int, i: nat)
    requires IsBitmap(bits) && CachesLowest(bits, first)
    requires i < 8 * BITMAP_BYTES
    ensures CachesLowest(WithoutBit(bits, i), if first > i then i else first) <==> i != 0
  {
    BitWrites(bits, i);
  }

  /** The page numbers 1 .. n-1. */
  function PoolBelow(n: nat): (r: set<nat>)
    ensures forall i :: i in r <==> 1 <= i < n
  {
    if n <= 1 then {} else PoolBelow(n - 1) + {n - 1}
  }

  lemma {:induction false} PoolBelowSize(n: nat)
    requires n >= 1
    ensures |PoolBelow(n)| == n - 1
  {
    if n > 1 {
      PoolBelowSize(n - 1);
    }
  }

  /** Free and allocated pages partition the pool, so their numbers always add up to 2047. */
  lemma {:induction false} PoolConserved(bits: seq<bv8>, taken: set<nat>)
    requires IsBitmap(bits)
    requires taken == set i: nat | 1 <= i < UNITS && Marked(bits, i)
    ensures |FreeSet(bits)| + |taken| == UNITS - 1
  {
    PoolBelowSize(UNITS);
    assert FreeSet(bits) !! taken;
    assert FreeSet(bits) + taken == PoolBelow(UNITS);
  }

  class PageAllocator {
    const bitmap: array<bv8>          // _bitmap, one page of physical memory
    const base: nat                   // its address
    var location: nat                 // pmm_location
    var firstFree: int                // _first_free_index
    var lastAvailable: int            // _last_available_index
    var pagingActive: bool            // pmm_paging_active
    ghost var given: set<nat>         // pages handed out and not given back since

    ghost predicate Valid()
      reads this, bitmap
    {
      && bitmap.Length == BITMAP_BYTES
      && base % MEM_UNIT_SIZE == 0 && 0 < base && base + MEM_SIZE <= 0x1_0000_0000
      && (if pagingActive then
            && lastAvailable == UNITS
            && CachesLowest(bitmap[..], firstFree)
            && given == (set i: nat | 1 <= i < UNITS && Marked(bitmap[..], i))
          else
            && location % MEM_UNIT_SIZE == 0 && base <= location
            && given == PoolBelow((location - base) / MEM_UNIT_SIZE + 1))
    }

    /** The pages the allocator may still hand out, in the bitmap phase. */
    ghost function Free(): set<nat>
      reads this, bitmap
      requires Valid() && pagingActive
    {
      FreeSet(bitmap[..])
    }

    function Page(i: nat): nat {
      base + i * MEM_UNIT_SIZE
    }

    function Index(page: nat): nat {
      if page < base then 0 else (page - base) / MEM_UNIT_SIZE
    }

    // init_pmm; `ram` is the page at the address computed, with whatever it holds.
    constructor (start: nat, ram: array<bv8>)
      requires ram.Length == BITMAP_BYTES
      requires start + 0x1000 + MEM_SIZE <= 0x1_0000_0000
      ensures Valid() && !pagingActive && bitmap == ram
      ensures start < base <= start + 0x1000 && location == base
      ensures given == {}
    {
      base := start + 0x1000 - start % 0x1000;
      location := start + 0x1000 - start % 0x1000;
      bitmap := ram;
      firstFree, lastAvailable, pagingActive, given := 0, 0, false, {};
    }

    // set_bit
    method SetBit(b: nat)
      requires b < 8 * bitmap.Length
      modifies bitmap
      ensures bitmap[..] == WithBit(old(bitmap[..]), b)
    {
      bitmap[b / 8] := bitmap[b / 8] | (1 << (b % 8));
    }

    // clear_bit
    method ClearBit(b: nat)
      requires b < 8 * bitmap.Length
      modifies bitmap
      ensures bitmap[..] == WithoutBit(old(bitmap[..]), b)
    {
      bitmap[b / 8] := bitmap[b / 8] & !(1 << (b % 8));
    }

    // get_bit
    method GetBit(b: nat) returns (set_: bool)
      requires b < 8 * bitmap.Length
      ensures set_ == Marked(bitmap[..], b)
    {
      set_ := bitmap[b / 8] & (1 << (b % 8)) != 0;
    }

    /** The loop of line 68: from a page just taken to the next free one, or to the end. */
    method ScanOn()
      requires bitmap.Length == BITMAP_BYTES && lastAvailable == UNITS && 1 <= firstFree < UNITS
      requires forall j: nat :: 1 <= j <= firstFree ==> Marked(bitmap[..], j)
      modifies this`firstFree
      ensures CachesLowest(bitmap[..], firstFree)
    {
      var scanning := true;
      while scanning
        invariant 1 <= firstFree <= UNITS
        invariant scanning ==> forall j: nat :: 1 <= j <= firstFree && j < UNITS ==> Marked(bitmap[..], j)
        invariant !scanning ==> CachesLowest(bitmap[..], firstFree)
        decreases scanning, UNITS - firstFree
      {
        if firstFree == lastAvailable {
          scanning := false;
        } else {
          firstFree := firstFree + 1;
          scanning := GetBit(firstFree);
        }
      }
    }

    /** pmm_alloc_page. `ok` is false where the source panics for lack of memory. */
    method AllocPage() returns (ok: bool, page: nat)
      requires Valid()
      requires !pagingActive ==> location + MEM_UNIT_SIZE < 0x1_0000_0000
      modifies this`location, this`firstFree, this`given, bitmap
      ensures Valid()
      ensures pagingActive ==> (ok <==> old(Free()) != {})
      ensures pagingActive && !ok ==> Free() == old(Free()) && given == old(given)
      ensures pagingActive && ok ==>
                var i := Index(page);
                && page == Page(i) && i in old(Free()) && (forall j :: j in old(Free()) ==> i <= j)
                && Free() == old(Free()) - {i} && i !in old(given) && given == old(given) + {i}
      ensures !pagingActive ==>
                ok && page == location == old(location) + MEM_UNIT_SIZE
                && given == old(given) + {Index(page)} && Index(page) !in old(given)
    {
      if pagingActive {
        if firstFree == lastAvailable {
          assert Free() == {};
          return false, 0;
        }
        ghost var before := bitmap[..];
        ghost var i := firstFree;
        BitWrites(before, i);
        SetBit(firstFree);
        page := base + firstFree * MEM_UNIT_SIZE;
        given := given + {i};
        ScanOn();
        ok := true;
        assert i in FreeSet(before);
        assert FreeSet(bitmap[..]) == FreeSet(before) - {i};
      } else {
        location := location + 0x1000;
        ok, page := true, location;
        given := given + {Index(page)};
      }
    }

    /** map_pmm_to_virtual_space after its call to map, and the switch of phase at vmm.c:41.
        The bitmap's page holds arbitrary bytes before. */
    method HandOver()
      requires Valid() && !pagingActive
      requires (location - base) / MEM_UNIT_SIZE < UNITS
      modifies this`firstFree, this`lastAvailable, this`pagingActive, bitmap
      ensures Valid() && pagingActive
      ensures given == old(given)
      ensures Free() == PoolBelow(UNITS) - old(given)
    {
      var skipped := (location - base) / MEM_UNIT_SIZE + 1;
      var i := 0;
      while i < skipped
        invariant 0 <= i <= skipped
        modifies bitmap
        invariant forall j: nat :: 1 <= j <= i ==> Marked(bitmap[..], j)
      {
        i := i + 1;
        BitWrites(bitmap[..], i);
        SetBit(i);
      }
      var rest := MEM_SIZE / MEM_UNIT_SIZE - skipped;
      i := 0;
      while i < rest
        invariant 0 <= i <= rest
        modifies bitmap
        invariant forall j: nat :: 1 <= j < skipped ==> Marked(bitmap[..], j)
        invariant forall j: nat :: skipped <= j < skipped + i ==> !Marked(bitmap[..], j)
      {
        BitWrites(bitmap[..], i + skipped);
        ClearBit(i + skipped);
        i := i + 1;
      }
      BitWrites(bitmap[..], MEM_SIZE / MEM_UNIT_SIZE);
      SetBit(MEM_SIZE / MEM_UNIT_SIZE);
      firstFree := skipped;
      lastAvailable := MEM_SIZE / MEM_UNIT_SIZE;
      pagingActive := true;
    }

    /** pmm_free_page, for any address whose bit lies in the bitmap's page. Freeing any page but the bitmap's
        own keeps the allocator in order; freeing that one breaks its index, and so its order. */
    method FreePage(page: nat)
      requires Valid() && pagingActive
      requires base <= page < base + 8 * BITMAP_BYTES * MEM_UNIT_SIZE && page < 0x1_0000_0000
      modifies this`firstFree, this`given, bitmap
      ensures var i := (page - base) / MEM_UNIT_SIZE;
              && bitmap[..] == WithoutBit(old(bitmap[..]), i)
              && firstFree == (if old(firstFree) > i then i else old(firstFree)) && given == old(given) - {i}
              && (Valid() <==> i != 0)
              && (i != 0 ==> Free() == old(Free()) + if i < UNITS then {i} else {})
    {
      var index := (page - base) / MEM_UNIT_SIZE;
      BitWrites(bitmap[..], index);
      FreeKeepsCacheIff(bitmap[..], firstFree, index);
      ClearBit(index);
      if firstFree > index {
        firstFree := index;
      }
      given := given - {index};
    }
  }
}
