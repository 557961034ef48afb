/** rt_malloc and rt_free of rt-thread/src/slab.c over the page allocator. */
module Slab {
  import opened Sequences
  import opened PageModel
  import opened Zones
  import opened SlabModel
  import PageHeap

  const NULL: int := -1

  class SlabHeap {
    const pages: PageHeap.PageHeap
    /** memusage */
    const usage: array<Usage>
    const zoneSize: nat
    const zoneLimit: nat
    /** the header at the start of each zone, by the zone's first page */
    var zones: map<nat, Zone>
    /** zone_array and zone_free, as the lists their z_next links make */
    var zoneArray: seq<seq<nat>>
    var zoneFree: seq<nat>
    var zoneFreeCnt: nat
    ghost var large: map<nat, nat>

    ghost function View(): State
      reads this, pages, usage
    {
      State(zoneSize, pages.npages, pages.runs, usage[..], zones, zoneArray, zoneFree, large,
            map[0 := TablePages(pages.npages)])
    }

    ghost predicate Apart()
      reads this, pages
    {
      usage.Length == pages.npages
    }

    ghost predicate Valid()
      reads this, pages, pages.next, pages.count, usage
    {
      && pages.Valid() && Apart()
      && Inv(View(), ZONE_RELEASE_THRESH) && zoneFreeCnt == |zoneFree|
      && zoneLimit == if zoneSize / 4 > ZALLOC_ZONE_LIMIT then ZALLOC_ZONE_LIMIT else zoneSize / 4
    }

    /** rt_system_heap_init, for a heap of npages whole pages: those behind the page map are free. */
    constructor (npages: nat)
      requires npages > 0
      ensures Valid() && View() == Start(npages, zoneSize) && Live(View()) == {}
      ensures Pages(pages.runs) == Interval(TablePages(npages), npages - TablePages(npages))
      ensures fresh(pages) && fresh(pages.next) && fresh(pages.count) && fresh(usage)
    {
      hide PageHeap.PageHeap.Valid, Inv, Live, Pages, Interval, AllocRuns, AllocAt, Canonical, TablePages;
      MapTakesFirst(npages);
      var heap := new PageHeap.PageHeap(npages);
      var size := ZoneSizeFor(npages * PAGE);
      var memusage := heap.Alloc(TablePages(npages));
      pages := heap;
      zoneSize := size;
      zoneLimit := if size / 4 > ZALLOC_ZONE_LIMIT then ZALLOC_ZONE_LIMIT else size / 4;
      usage := new Usage[npages](i => Usage(FreePage, 0));
      zones, large := map[], map[];
      zoneArray, zoneFree, zoneFreeCnt := seq(NZONES, i => []), [], 0;
      new;
      StartKeeps(npages, zoneSize, ZONE_RELEASE_THRESH);
      assert View() == Start(npages, zoneSize);
    }

    /** The zone size: doubled from 32 KiB while twice it stays below a 1024th of the heap, to 128 KiB at most. */
    static method ZoneSizeFor(limsize: nat) returns (size: nat)
      ensures size == ZALLOC_MIN_ZONE_SIZE || size == 65536 || size == ZALLOC_MAX_ZONE_SIZE
      ensures size == ZALLOC_MIN_ZONE_SIZE || size < limsize / 1024
      ensures size == ZALLOC_MAX_ZONE_SIZE || 2 * size >= limsize / 1024
    {
      size := ZALLOC_MIN_ZONE_SIZE;
      while size < ZALLOC_MAX_ZONE_SIZE && 2 * size < limsize / 1024
        invariant size == ZALLOC_MIN_ZONE_SIZE || size == 65536 || size == ZALLOC_MAX_ZONE_SIZE
        invariant size == ZALLOC_MIN_ZONE_SIZE || size < limsize / 1024
        decreases ZALLOC_MAX_ZONE_SIZE - size
      {
        size := 2 * size;
      }
    }

    lemma PagesCanonical()
      requires pages.Valid()
      ensures Canonical(pages.runs, 0, pages.npages)
    {
    }

    /** rt_page_alloc, seen from the slab layer. */
    method AllocPages(n: nat) returns (b: int)
      requires pages.Valid() && Inv(View(), ZONE_RELEASE_THRESH) && n > 0
      modifies pages, pages.next, pages.count
      ensures pages.Valid() && b == AllocAt(old(pages.runs), n) && pages.runs == AllocRuns(old(pages.runs), n)
      ensures b == NONE ==> pages.runs == old(pages.runs)
    {
      PagesCanonical();
      AllocTakes(pages.runs, n, 0, pages.npages);
      b := pages.Alloc(n);
    }

    /** A large request goes to the page allocator. */
    method MallocLarge(n: nat) returns (ptr: int)
      requires Valid()
      modifies this`large, pages, pages.next, pages.count, usage
      ensures Valid()
      ensures ptr == NULL <==> n == 0 || AllocAt(old(pages.runs), n) == NONE
      ensures if ptr == NULL then View() == old(View())
              else 0 <= AllocAt(old(pages.runs), n) < usage.Length && View() == AddLarge(old(View()), n)
                   && HandsOut(old(View()), View(), ptr, n * PAGE)
    {
      hide PageHeap.PageHeap.Valid, Inv, HandsOut;
      InvCounts(View(), ZONE_RELEASE_THRESH);
      ghost var s := View();
      if n == 0 {
        return NULL;
      }
      if AllocAt(pages.runs, n) != NONE {
        AddLargeKeeps(s, ZONE_RELEASE_THRESH, n);
      }
      var b := AllocPages(n);
      if b == NONE {
        return NULL;
      }
      usage[b] := Usage(LargePage, n);
      large := large[b := n];
      ptr := b * PAGE;
      assert View() == AddLarge(s, n);
    }

    /** A chunk of the zone first on list zi. */
    method TakeFrom(zi: nat) returns (ptr: int)
      requires Valid() && zi < NZONES && zoneArray[zi] != [] && 4 * ChunkSize(zi) <= zoneSize
      modifies this`zones, this`zoneArray
      ensures Valid()
      ensures HandsOut(old(View()), View(), ptr, ChunkSize(zi)) && View() == SmallMalloced(old(View()), zi)
    {
      hide PageHeap.PageHeap.Valid, Inv, HandsOut;
      InvCounts(View(), ZONE_RELEASE_THRESH);
      ghost var s := View();
      TakeChunkKeeps(s, ZONE_RELEASE_THRESH, zi);
      var z := zoneArray[zi][0];
      var zone := zones[z];
      assert zone.nfree > 0;
      zone := zone.(nfree := zone.nfree - 1);
      if zone.nfree == 0 {
        zoneArray := zoneArray[zi := zoneArray[zi][1..]];
      }
      if zone.uindex + 1 != zone.nmax {
        zone := zone.(uindex := zone.uindex + 1);
        ptr := zone.base + zone.uindex * zone.chunkSize;
      } else {
        ptr := zone.free[0];
        zone := zone.(free := zone.free[1..]);
      }
      zones := zones[z := zone];
      assert View() == TakeChunk(s, zi);
    }

    /** A spare zone is laid out for list zi and gives its first chunk. */
    method LayOut(z: nat, zi: nat, size: nat, ghost s: State) returns (ptr: int)
      requires s == View().(spare := [z] + zoneFree) && Inv(s, 3) && pages.Valid() && Apart()
               && zoneFreeCnt == |zoneFree| <= 2
      requires zoneLimit == if zoneSize / 4 > ZALLOC_ZONE_LIMIT then ZALLOC_ZONE_LIMIT else zoneSize / 4
      requires zi < NZONES && size == ChunkSize(zi) && 4 * size <= zoneSize
      modifies this`zones, this`zoneArray
      ensures Valid()
      ensures HandsOut(s, View(), ptr, ChunkSize(zi)) && Capacity(zoneSize, size) >= 3 && View() == ReuseSpare(s, zi)
    {
      hide PageHeap.PageHeap.Valid, Inv, HandsOut, ChunkSize, Capacity, FirstOffset;
      InvCounts(s, 3);
      ReuseSpareKeeps(s, 3, zi);
      InvCounts(ReuseSpare(s, zi), 2);
      var nmax := Capacity(zoneSize, size);
      var zone := Zone(nmax - 1, nmax, 0, size, zi, z * PAGE + FirstOffset(size), []);
      zones := zones[z := zone];
      ptr := zone.base + zone.uindex * size;
      zoneArray := zoneArray[zi := [z] + zoneArray[zi]];
      assert View() == ReuseSpare(s, zi);
    }

    /** A zone of new pages, every page mapped to it, gives its first chunk. */
    method NewZone(zi: nat, size: nat) returns (ptr: int)
      requires Valid() && zi < NZONES && size == ChunkSize(zi) && 4 * size <= zoneSize && zoneArray[zi] == []
               && zoneFree == []
      modifies this`zones, this`zoneArray, pages, pages.next, pages.count, usage
      ensures Valid()
      ensures ptr == NULL <==> AllocAt(old(pages.runs), zoneSize / PAGE) == NONE
      ensures if ptr == NULL then View() == old(View()) else HandsOut(old(View()), View(), ptr, size)
      ensures View() == SmallMalloced(old(View()), zi)
    {
      hide PageHeap.PageHeap.Valid, Inv, HandsOut, ChunkSize;
      ghost var s := View();
      InvCounts(s, ZONE_RELEASE_THRESH);
      ZonePagesPositive(s, ZONE_RELEASE_THRESH);
      if AllocAt(s.runs, ZonePages(s)) != NONE {
        AddSpareKeeps(s, ZONE_RELEASE_THRESH, CLEARED);
      }
      var z := AllocPages(zoneSize / PAGE);
      if z == NONE {
        return NULL;
      }
      MapPages(z, zoneSize / PAGE);
      zones := zones[z := CLEARED];
      ptr := LayOut(z, zi, size, AddSpare(s, CLEARED));
      SameLive(s, AddSpare(s, CLEARED), View(), ptr, size);
    }

    /** The loop over kup of rt_malloc. */
    method MapPages(z: nat, n: nat)
      requires z + n <= usage.Length
      modifies usage
      ensures usage[..] == MapZone(old(usage[..]), z, n)
    {
      var off := 0;
      while off < n
        invariant off <= n && usage[..] == MapZone(old(usage[..]), z, off)
      {
        usage[z + off] := Usage(SmallPage, off);
        off := off + 1;
      }
    }

    /** The loop over kup of rt_free. */
    method UnmapPages(z: nat, n: nat)
      requires z + n <= usage.Length
      modifies usage
      ensures usage[..] == ClearZone(old(usage[..]), z, n)
    {
      var i := 0;
      while i < n
        invariant i <= n && usage[..] == ClearZone(old(usage[..]), z, i)
      {
        usage[z + i] := Usage(FreePage, 0);
        i := i + 1;
      }
    }

    /** rt_malloc. A size that RT_ALIGN cannot round up to whole pages within 32 bits becomes no page at all. */
    method Malloc(size: nat) returns (ptr: int)
      requires Valid() && size < 0x1_0000_0000
      modifies this, pages, pages.next, pages.count, usage
      ensures Valid()
      ensures ptr == NULL <==> !CanServe(old(View()), size)
      ensures View() == Malloced(old(View()), size)
      ensures ptr == NULL ==> View() == old(View())
      ensures ptr != NULL ==> exists granted :: Fair(old(View()), size, granted)
                                                && HandsOut(old(View()), View(), ptr, granted)
    {
      hide PageHeap.PageHeap.Valid, Inv, ChunkSize, ZoneIndex, Fair;
      ghost var s := View();
      InvCounts(s, ZONE_RELEASE_THRESH);
      LimitIs(s, ZONE_RELEASE_THRESH);
      if size == 0 {
        return NULL;
      }
      if size >= zoneLimit {
        PagesHold(size);
        PagesAreFair(s, size);
        ptr := MallocLarge(PagesOf(size));
        return;
      }
      ZoneIndexWithin(size, zoneLimit);
      ChunkIsFair(s, size);
      var (zi, chunk) := ZoneIndex(size);
      if zoneArray[zi] != [] {
        ptr := TakeFrom(zi);
      } else if zoneFree != [] {
        var z := zoneFree[0];
        zoneFree := zoneFree[1..];
        zoneFreeCnt := zoneFreeCnt - 1;
        assert View().(spare := [z] + zoneFree) == s;
        InvMore(s, 2);
        ptr := LayOut(z, zi, chunk, s);
      } else {
        ptr := NewZone(zi, chunk);
      }
    }

    /** rt_free of an address rt_malloc returned and that was not freed since. */
    method Free(ptr: nat)
      requires Valid() && ptr in Live(View())
      modifies this, pages, pages.next, pages.count, usage
      ensures Valid() && Live(View()) == old(Live(View())) - {ptr}
      ensures exists b :: Owns(old(View()), b, ptr) && View() == Freed(old(View()), b, ptr)
    {
      hide PageHeap.PageHeap.Valid, Inv, HandsOut, ChunkSize, Live;
      ghost var s := View();
      InvCounts(s, ZONE_RELEASE_THRESH);
      LiveIsOwned(s, ptr);
      ghost var b :| Owns(s, b, ptr);
      MapLeadsHome(s, ZONE_RELEASE_THRESH, b, ptr);
      BlocksApart(s, ZONE_RELEASE_THRESH, b);
      var kup := usage[ptr / PAGE];
      if kup.kind == LargePage {
        FreeLarge(ptr / PAGE, kup.size);
        return;
      }
      var z := ptr / PAGE - kup.size;
      FreeChunk(z, ptr);
    }

    /** The page count is cleared and the pages go back. */
    method FreeLarge(p: nat, n: nat)
      requires Valid() && p in large && n == large[p]
      modifies this`large, pages, pages.next, pages.count, usage
      ensures Valid() && Live(View()) == old(Live(View())) - {p * PAGE}
      ensures p < usage.Length && View() == DropLarge(old(View()), p)
    {
      hide PageHeap.PageHeap.Valid, Inv, Live;
      ghost var s := View();
      DropLargeKeeps(s, ZONE_RELEASE_THRESH, p);
      usage[p] := usage[p].(size := 0);
      large := large - {p};
      pages.Free(p, n);
      assert View() == DropLarge(s, p);
    }

    /** A chunk goes back on its zone's free list; a zone with nothing in use becomes spare unless it is
        the only one on its list; a third spare zone goes back to the page allocator. */
    method FreeChunk(z: nat, ptr: nat)
      requires Valid() && ptr in LiveIn(View(), z)
      modifies this`zones, this`zoneArray, this`zoneFree, this`zoneFreeCnt, pages, pages.next, pages.count, usage
      ensures Valid() && Live(View()) == old(Live(View())) - {ptr}
      ensures RetireFits(old(View()), z) && View() == AfterFree(old(View()), z, ptr)
    {
      hide PageHeap.PageHeap.Valid, Inv, Live, ZoneLive;
      ghost var s := View();
      InvCounts(s, ZONE_RELEASE_THRESH);
      GiveChunkKeeps(s, ZONE_RELEASE_THRESH, z, ptr);
      ZoneInside(s, ZONE_RELEASE_THRESH, z);
      var zone := zones[z];
      zones := zones[z := zone.(nfree := zone.nfree + 1, free := [ptr] + zone.free)];
      if zone.nfree == 0 {
        zoneArray := zoneArray[zone.index := [z] + zoneArray[zone.index]];
      }
      assert View() == GiveChunk(s, z, ptr);
      ListedWhenFree(View(), ZONE_RELEASE_THRESH, z);
      if zones[z].nfree == zones[z].nmax && (zoneArray[zone.index][0] != z || |zoneArray[zone.index]| > 1) {
        RetireZone(z);
      }
    }

    /** The zone leaves its list and becomes spare. */
    method RetireZone(z: nat)
      requires Valid() && z in zones && z !in zoneFree && zones[z].nfree == zones[z].nmax
      modifies this`zones, this`zoneArray, this`zoneFree, this`zoneFreeCnt, pages, pages.next, pages.count, usage
      ensures Valid() && Live(View()) == old(Live(View()))
      ensures RetireFits(old(View()), z) && View() == AfterRetire(old(View()), z)
    {
      hide PageHeap.PageHeap.Valid, Inv, Live;
      ghost var s := View();
      InvCounts(s, ZONE_RELEASE_THRESH);
      ZoneInside(s, ZONE_RELEASE_THRESH, z);
      RetireKeeps(s, ZONE_RELEASE_THRESH, z);
      RetireEmpty(s, ZONE_RELEASE_THRESH, z);
      Unlink(zones[z].index, z);
      zoneFree := [z] + zoneFree;
      zoneFreeCnt := zoneFreeCnt + 1;
      assert View() == Retire(s, z);
      if zoneFreeCnt > ZONE_RELEASE_THRESH {
        ReleaseZone();
      } else {
        InvTight(View(), ZONE_RELEASE_THRESH + 1, ZONE_RELEASE_THRESH);
      }
    }

    /** The walk along zone_array that takes a zone out. */
    method Unlink(zi: nat, z: nat)
      requires zi < |zoneArray| && z in zoneArray[zi]
      modifies this`zoneArray
      ensures zoneArray == old(zoneArray)[zi := Without(old(zoneArray)[zi], z)]
    {
      var list := zoneArray[zi];
      var k := 0;
      while list[k] != z
        invariant k < |list| && z in list[k..] && z !in list[..k]
        decreases |list| - k
      {
        assert list[k..] == [list[k]] + list[k + 1..] && list[..k + 1] == list[..k] + [list[k]];
        k := k + 1;
      }
      WithoutAt(list, k, z);
      zoneArray := zoneArray[zi := list[..k] + list[k + 1..]];
    }

    /** The newest spare zone: its pages are unmapped and go back. */
    method ReleaseZone()
      requires pages.Valid() && Apart() && Inv(View(), ZONE_RELEASE_THRESH + 1)
               && zoneFreeCnt == |zoneFree| == ZONE_RELEASE_THRESH + 1
      requires zoneLimit == if zoneSize / 4 > ZALLOC_ZONE_LIMIT then ZALLOC_ZONE_LIMIT else zoneSize / 4
      modifies this`zones, this`zoneFree, this`zoneFreeCnt, pages, pages.next, pages.count, usage
      ensures Valid() && Live(View()) == old(Live(View()))
      ensures zoneFree == old(zoneFree)[1..] && old(zoneFree)[0] + ZonePages(old(View())) <= |old(View()).usage|
      ensures View() == DropSpare(old(View()))
    {
      hide PageHeap.PageHeap.Valid, Inv, Live;
      ghost var s := View();
      InvCounts(s, ZONE_RELEASE_THRESH + 1);
      ZonePagesPositive(s, ZONE_RELEASE_THRESH + 1);
      DropSpareKeeps(s, ZONE_RELEASE_THRESH);
      var z := zoneFree[0];
      zoneFree := zoneFree[1..];
      zoneFreeCnt := zoneFreeCnt - 1;
      UnmapPages(z, zoneSize / PAGE);
      zones := zones - {z};
      pages.Free(z, zoneSize / PAGE);
      assert View() == DropSpare(s);
    }
  }

  /** When rt_malloc succeeds. */
  ghost predicate CanServe(s: State, size: nat)
    requires |s.lists| == NZONES
  {
    if size == 0 then false
    else if size >= Limit(s) then size <= LARGEST && AllocAt(s.runs, PagesFor(size)) != NONE
    else
      var zi := ZoneIndex(size).0;
      0 <= zi < NZONES && (s.lists[zi] != [] || s.spare != [] || AllocAt(s.runs, ZonePages(s)) != NONE)
  }
}
