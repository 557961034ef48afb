/** The slab allocator of rt-thread/src/slab.c as a whole: page runs, the page map, zones on their lists
    and spare, large blocks, and the addresses in use. */
module SlabModel {
  import opened Sequences
  import opened PageModel
  import opened Zones

  datatype PageType = FreePage | SmallPage | LargePage

  datatype Usage = Usage(kind: PageType, size: nat)

  const ZONE_RELEASE_THRESH: nat := 2

  /** zones holds the header of each zone at its first page; lists and spare spell out the lists through
      z_next; large holds the page count of each large block in use. reserved holds page runs that are neither:
      the page map's own, from page 0 on, and those a thread has between two of its locked regions. */
  datatype State = State(zoneSize: nat, npages: nat, runs: seq<Run>, usage: seq<Usage>, zones: map<nat, Zone>,
                         lists: seq<seq<nat>>, spare: seq<nat>, large: map<nat, nat>, reserved: map<nat, nat>)

  function ZonePages(s: State): nat {
    s.zoneSize / PAGE
  }

  ghost predicate SizeOk(s: State) {
    s.zoneSize == ZALLOC_MIN_ZONE_SIZE || s.zoneSize == 65536 || s.zoneSize == ZALLOC_MAX_ZONE_SIZE
  }

  // ---------------------------------------------------------------- pages

  /** Zones, large blocks and reserved runs, by first page. */
  ghost function Blocks(s: State): map<nat, nat> {
    map b | b in s.zones.Keys + s.large.Keys + s.reserved.Keys ::
      if b in s.zones then ZonePages(s) else if b in s.large then s.large[b] else s.reserved[b]
  }

  ghost predicate KindsApart(s: State) {
    s.zones.Keys !! s.large.Keys !! s.reserved.Keys && 0 in s.reserved
  }

  ghost predicate BlocksOk(npages: nat, runs: seq<Run>, blocks: map<nat, nat>) {
    && Canonical(runs, 0, npages)
    && (forall b :: b in blocks ==> 0 < blocks[b] && b + blocks[b] <= npages && Interval(b, blocks[b]) !! Pages(runs))
    && (forall b, c :: b in blocks && c in blocks && b < c ==> b + blocks[b] <= c)
  }

  /** Newly allocated pages are in no block. */
  lemma BlockTaken(npages: nat, runs: seq<Run>, blocks: map<nat, nat>, n: nat)
    requires BlocksOk(npages, runs, blocks) && n > 0 && AllocAt(runs, n) != NONE
    ensures var a := AllocAt(runs, n);
            0 <= a && a !in blocks && a + n <= npages && BlocksOk(npages, AllocRuns(runs, n), blocks[a := n])
    ensures var a := AllocAt(runs, n); forall b :: b in blocks ==> a + n <= b || b + blocks[b] <= a
  {
    AllocTakes(runs, n, 0, npages);
    var a := AllocAt(runs, n);
    forall b | b in blocks
      ensures a + n <= b || b + blocks[b] <= a
      ensures Interval(b, blocks[b]) !! Pages(AllocRuns(runs, n))
    {
      hide Pages, Canonical, AllocRuns, AllocAt;
      IntervalsApart(a, n, b, blocks[b]);
    }
    hide Pages, Canonical, AllocRuns, AllocAt;
    assert Interval(a, n) !! Pages(AllocRuns(runs, n));
  }

  lemma IntervalsApart(a: nat, n: nat, b: nat, m: nat)
    requires n > 0 && m > 0 && Interval(a, n) !! Interval(b, m)
    ensures a + n <= b || b + m <= a
  {
    assert a in Interval(a, n) && b in Interval(b, m);
    assert b !in Interval(a, n) && a !in Interval(b, m);
  }

  /** A block given back is free, and still apart from the others. */
  lemma BlockGiven(npages: nat, runs: seq<Run>, blocks: map<nat, nat>, b: nat)
    requires BlocksOk(npages, runs, blocks) && b in blocks
    ensures Interval(b, blocks[b]) !! Pages(runs) && b + blocks[b] <= npages
    ensures BlocksOk(npages, FreeRuns(runs, b, blocks[b]), blocks - {b})
  {
    FreeGives(runs, b, blocks[b], 0, npages);
    hide Pages, Canonical, FreeRuns;
    forall c | c in blocks - {b}
      ensures Interval(c, blocks[c]) !! Pages(FreeRuns(runs, b, blocks[b]))
    {
      assert Interval(c, blocks[c]) !! Interval(b, blocks[b]);
    }
  }

  // ---------------------------------------------------------------- lists

  ghost predicate OnList(s: State, z: nat, i: nat) {
    z in s.zones && z !in s.spare && s.zones[z].index == i && s.zones[z].nfree > 0
  }

  /** A zone is on the list of its index iff it is in use and has a chunk to give; at most limit are spare. */
  ghost predicate ListsOk(s: State, limit: nat) {
    && |s.lists| == NZONES && |s.spare| <= limit
    && Distinct(s.spare) && (forall z :: z in s.spare ==> z in s.zones)
    && (forall i :: 0 <= i < NZONES ==> Distinct(s.lists[i]))
    && (forall i, z :: 0 <= i < NZONES ==> (z in s.lists[i] <==> OnList(s, z, i)))
  }

  ghost predicate ZonesOk(s: State) {
    forall z :: z in s.zones && z !in s.spare ==>
      ZoneOk(s.zones[z], z, s.zoneSize) && s.zones[z].index < NZONES
        && s.zones[z].chunkSize == ChunkSize(s.zones[z].index)
  }

  /** Every page of a zone leads back to its first page; the first page of a large block tells its length. */
  ghost predicate MapOk(s: State) {
    && |s.usage| == s.npages
    && (forall b, i :: b in s.zones && 0 <= i < ZonePages(s) && b + i < s.npages ==> PageLeadsTo(s, b, i))
    && (forall p :: p in s.large && p < s.npages ==> s.usage[p] == Usage(LargePage, s.large[p]))
  }

  ghost predicate PageLeadsTo(s: State, b: nat, i: nat)
    requires b + i < |s.usage|
  {
    s.usage[b + i] == Usage(SmallPage, i)
  }

  ghost predicate Inv(s: State, limit: nat) {
    && SizeOk(s) && KindsApart(s)
    && BlocksOk(s.npages, s.runs, Blocks(s))
    && MapOk(s) && ListsOk(s, limit) && ZonesOk(s)
  }

  // ---------------------------------------------------------------- addresses in use

  ghost function LiveIn(s: State, z: nat): set<nat> {
    if z in s.zones && z !in s.spare then ZoneLive(s.zones[z]) else {}
  }

  ghost function LargeLive(s: State): set<nat> {
    set p | p in s.large :: p * PAGE
  }

  ghost function SmallLive(s: State): set<nat> {
    set z, a | z in s.zones && a in LiveIn(s, z) :: a
  }

  ghost function Live(s: State): set<nat> {
    SmallLive(s) + LargeLive(s)
  }

  ghost function SizeAt(s: State, b: nat): nat {
    if b in s.zones then s.zones[b].chunkSize else if b in s.large then s.large[b] * PAGE else 0
  }

  /** The block an address in use belongs to. */
  ghost predicate Owns(s: State, b: nat, a: nat) {
    a in LiveIn(s, b) || (b in s.large && a == b * PAGE)
  }

  lemma LiveIsOwned(s: State, a: nat)
    ensures a in Live(s) <==> exists b :: Owns(s, b, a)
  {
    if a in SmallLive(s) {
      var z :| z in s.zones && a in LiveIn(s, z);
      assert Owns(s, z, a);
    } else if a in LargeLive(s) {
      var p :| p in s.large && a == p * PAGE;
      assert Owns(s, p, a);
    }
  }

  lemma OwnerHolds(s: State, limit: nat, b: nat, a: nat)
    requires Inv(s, limit) && Owns(s, b, a)
    ensures b in Blocks(s) && b * PAGE <= a && a + SizeAt(s, b) <= (b + Blocks(s)[b]) * PAGE && SizeAt(s, b) > 0
    ensures b in s.zones ==> b * PAGE + HEADER <= a
  {
    hide BlocksOk, MapOk, ListsOk, ZoneOk, ZoneLive;
    BlocksPositive(s.npages, s.runs, Blocks(s));
    if a in LiveIn(s, b) {
      LiveChunksApart(s.zones[b], b, s.zoneSize, a, a);
      WholePages(s);
    }
  }

  lemma WholePages(s: State)
    requires SizeOk(s)
    ensures ZonePages(s) * PAGE == s.zoneSize
  {
  }

  /** An address in use belongs to one block only. */
  lemma OwnerIsUnique(s: State, limit: nat, b: nat, c: nat, a: nat)
    requires Inv(s, limit) && Owns(s, b, a) && Owns(s, c, a)
    ensures b == c
  {
    OwnerHolds(s, limit, b, a);
    OwnerHolds(s, limit, c, a);
  }

  /** Two blocks of memory in use do not overlap. */
  lemma LiveApart(s: State, limit: nat, b: nat, x: nat, c: nat, y: nat)
    requires Inv(s, limit) && Owns(s, b, x) && Owns(s, c, y) && x < y
    ensures x + SizeAt(s, b) <= y
  {
    OwnerHolds(s, limit, b, x);
    OwnerHolds(s, limit, c, y);
    if b == c {
      LiveChunksApart(s.zones[b], b, s.zoneSize, x, y);
    }
  }

  /** The page map leads from any address in use to its block, as rt_free looks it up. */
  lemma MapLeadsHome(s: State, limit: nat, b: nat, a: nat)
    requires Inv(s, limit) && Owns(s, b, a)
    ensures a / PAGE < |s.usage|
    ensures var u := s.usage[a / PAGE];
            if b in s.large then u == Usage(LargePage, s.large[b]) && b == a / PAGE
            else u.kind == SmallPage && u.size <= a / PAGE && b == a / PAGE - u.size
  {
    OwnerHolds(s, limit, b, a);
    if b in s.zones {
      assert PageLeadsTo(s, b, a / PAGE - b);
    }
  }

  // ---------------------------------------------------------------- steps

  /** rt_malloc from the zone first on list zi. */
  function TakeChunk(s: State, zi: nat): State
    requires zi < |s.lists| && s.lists[zi] != [] && s.lists[zi][0] in s.zones
    requires var zone := s.zones[s.lists[zi][0]]; zone.nfree > 0 && (zone.uindex + 1 == zone.nmax ==> zone.free != [])
  {
    var z := s.lists[zi][0];
    var zone := Take(s.zones[z]).0;
    s.(zones := s.zones[z := zone], lists := if zone.nfree == 0 then s.lists[zi := s.lists[zi][1..]] else s.lists)
  }

  /** A spare zone laid out afresh for list zi. */
  function ReuseSpare(s: State, zi: nat): State
    requires zi < |s.lists| && s.spare != [] && ChunkSize(zi) > 0 && Capacity(s.zoneSize, ChunkSize(zi)) >= 1
  {
    var z := s.spare[0];
    s.(spare := s.spare[1..], zones := s.zones[z := Fresh(z, zi, ChunkSize(zi), s.zoneSize)],
       lists := s.lists[zi := [z] + s.lists[zi]])
  }

  function MapZone(usage: seq<Usage>, z: nat, n: nat): (r: seq<Usage>)
    requires z + n <= |usage|
    ensures |r| == |usage|
  {
    usage[..z] + seq(n, i requires 0 <= i < n => Usage(SmallPage, i)) + usage[z + n..]
  }

  function ClearZone(usage: seq<Usage>, z: nat, n: nat): (r: seq<Usage>)
    requires z + n <= |usage|
    ensures |r| == |usage|
  {
    usage[..z] + seq(n, i => Usage(FreePage, 0)) + usage[z + n..]
  }

  /** New pages for a zone, whose header says nothing yet. */
  function AddSpare(s: State, header: Zone): State
    requires AllocAt(s.runs, ZonePages(s)) >= 0 && AllocAt(s.runs, ZonePages(s)) + ZonePages(s) <= |s.usage|
  {
    var z := AllocAt(s.runs, ZonePages(s));
    s.(runs := AllocRuns(s.runs, ZonePages(s)), usage := MapZone(s.usage, z, ZonePages(s)),
       zones := s.zones[z := header], spare := [z] + s.spare)
  }

  /** rt_free to the zone, which goes on its list if it had nothing to give. */
  function GiveChunk(s: State, z: nat, a: nat): State
    requires z in s.zones && s.zones[z].index < |s.lists|
  {
    var zone := s.zones[z];
    s.(zones := s.zones[z := Give(zone, a)],
       lists := if zone.nfree == 0 then s.lists[zone.index := [z] + s.lists[zone.index]] else s.lists)
  }

  function Retire(s: State, z: nat): State
    requires z in s.zones && s.zones[z].index < |s.lists|
  {
    var i := s.zones[z].index;
    s.(lists := s.lists[i := Without(s.lists[i], z)], spare := [z] + s.spare)
  }

  /** The zone first in line goes back to the page allocator. */
  function DropSpare(s: State): State
    requires s.spare != [] && s.spare[0] + ZonePages(s) <= |s.usage|
  {
    var z := s.spare[0];
    s.(runs := FreeRuns(s.runs, z, ZonePages(s)), usage := ClearZone(s.usage, z, ZonePages(s)),
       zones := s.zones - {z}, spare := s.spare[1..])
  }

  ghost predicate RetireFits(s: State, z: nat) {
    z in s.zones && s.zones[z].index < |s.lists| && z + ZonePages(s) <= |s.usage|
  }

  /** A zone with nothing in use becomes spare; one spare too many goes back to the pages. */
  ghost function AfterRetire(s: State, z: nat): State
    requires RetireFits(s, z)
  {
    var r := Retire(s, z);
    if |r.spare| > ZONE_RELEASE_THRESH then DropSpare(r) else r
  }

  /** What rt_free of a chunk leaves: the zone is retired when it has nothing in use and is not alone on its list. */
  ghost function AfterFree(s: State, z: nat, a: nat): State
    requires RetireFits(s, z)
  {
    var g := GiveChunk(s, z, a);
    if g.zones[z].nfree == g.zones[z].nmax && g.lists[g.zones[z].index] != [z] then AfterRetire(g, z) else g
  }

  /** No other zone of the same chunk size has a chunk to give. */
  ghost predicate Alone(s: State, z: nat)
    requires z in s.zones
  {
    forall y :: y in s.zones && y !in s.spare && y != z && s.zones[y].index == s.zones[z].index
      ==> s.zones[y].nfree == 0
  }

  function AddLarge(s: State, n: nat): State
    requires 0 <= AllocAt(s.runs, n) < |s.usage|
  {
    var p := AllocAt(s.runs, n);
    s.(runs := AllocRuns(s.runs, n), usage := s.usage[p := Usage(LargePage, n)], large := s.large[p := n])
  }

  function DropLarge(s: State, p: nat): State
    requires p in s.large && p < |s.usage|
  {
    s.(runs := FreeRuns(s.runs, p, s.large[p]), usage := s.usage[p := s.usage[p].(size := 0)], large := s.large - {p})
  }

  /** Memory not in use before: size bytes from a, in one block, and no other address changes hands. */
  ghost predicate HandsOut(s: State, s': State, a: int, size: nat) {
    && a >= 0 && a !in Live(s) && Live(s') == Live(s) + {a}
    && exists b :: Owns(s', b, a) && SizeAt(s', b) == size
  }

  // ---------------------------------------------------------------- every step keeps the invariant

  /** Only zone z changed, and a is now in use there. */
  lemma LiveGrows(s: State, s': State, limit: nat, z: nat, a: nat)
    requires Inv(s', limit) && a in LiveIn(s', z) && a !in LiveIn(s, z)
    requires s'.large == s.large && s'.zones.Keys == s.zones.Keys
    requires forall y :: y != z ==> LiveIn(s', y) == LiveIn(s, y)
    requires LiveIn(s', z) == LiveIn(s, z) + {a}
    ensures a !in Live(s) && Live(s') == Live(s) + {a}
  {
    forall x
      ensures x in Live(s') <==> x in Live(s) || x == a
    {
      LiveIsOwned(s, x);
      LiveIsOwned(s', x);
      assert forall b :: Owns(s', b, x) <==> Owns(s, b, x) || (b == z && x == a);
    }
    LiveIsOwned(s, a);
    if a in Live(s) {
      var b :| Owns(s, b, a);
      OwnerIsUnique(s', limit, b, z, a);
      assert false;
    }
  }

  /** A step that leaves pages, map and blocks alone. */
  lemma PagesUntouched(s: State, s': State)
    requires s'.zones.Keys == s.zones.Keys && s'.large == s.large && s'.usage == s.usage && s'.runs == s.runs
    requires s'.npages == s.npages && s'.zoneSize == s.zoneSize && s'.reserved == s.reserved && KindsApart(s)
    requires BlocksOk(s.npages, s.runs, Blocks(s)) && MapOk(s)
    ensures BlocksOk(s'.npages, s'.runs, Blocks(s')) && MapOk(s')
  {
    hide BlocksOk;
    assert Blocks(s') == Blocks(s);
    forall b, i | b in s'.zones && 0 <= i < ZonePages(s') && b + i < s'.npages
      ensures PageLeadsTo(s', b, i)
    {
      assert PageLeadsTo(s, b, i);
    }
  }

  lemma HeadOnList(s: State, limit: nat, zi: nat)
    requires ListsOk(s, limit) && ZonesOk(s) && zi < NZONES && s.lists[zi] != []
    ensures var z := s.lists[zi][0];
            OnList(s, z, zi) && ZoneOk(s.zones[z], z, s.zoneSize)
              && (s.zones[z].uindex + 1 == s.zones[z].nmax ==> s.zones[z].free != [])
  {
    var z := s.lists[zi][0];
    assert z in s.lists[zi];
    TakeKeeps(s.zones[z], z, s.zoneSize);
  }

  /** Handing out a chunk of the zone first on its list: it was not in use, and nothing else changes. */
  lemma TakeChunkKeeps(s: State, limit: nat, zi: nat)
    requires Inv(s, limit) && zi < NZONES && s.lists[zi] != []
    ensures var z := s.lists[zi][0];
            z in s.zones && s.zones[z].nfree > 0 && (s.zones[z].uindex + 1 == s.zones[z].nmax ==> s.zones[z].free != [])
    ensures var z, s' := s.lists[zi][0], TakeChunk(s, zi);
            var a := Take(s.zones[z]).1;
            Inv(s', limit) && HandsOut(s, s', a, ChunkSize(zi))
  {
    hide MapOk, ZoneOk, ZoneLive, BlocksOk, Live;
    ListCount(s, limit);
    HeadOnList(s, limit, zi);
    var z := s.lists[zi][0];
    TakeKeeps(s.zones[z], z, s.zoneSize);
    var (zone, a) := Take(s.zones[z]);
    var s' := TakeChunk(s, zi);
    PagesUntouched(s, s');
    TakeLists(s, s', zone, limit, zi);
    LiveGrows(s, s', limit, z, a);
    assert Owns(s', z, a);
  }

  lemma TakeLists(s: State, s': State, zone: Zone, limit: nat, zi: nat)
    requires ListsOk(s, limit) && zi < NZONES && s.lists[zi] != [] && OnList(s, s.lists[zi][0], zi) && zone.index == zi
    requires s' == s.(zones := s.zones[s.lists[zi][0] := zone],
                      lists := if zone.nfree == 0 then s.lists[zi := s.lists[zi][1..]] else s.lists)
    ensures ListsOk(s', limit)
  {
    var z := s.lists[zi][0];
    assert s.lists[zi] == [z] + s.lists[zi][1..];
    forall i, y | 0 <= i < NZONES
      ensures y in s'.lists[i] <==> OnList(s', y, i)
    {
      assert y in s.lists[i] <==> OnList(s, y, i);
    }
  }

  /** Laying out a spare zone and handing out its first chunk. */
  lemma ReuseSpareKeeps(s: State, limit: nat, zi: nat)
    requires Inv(s, limit) && zi < NZONES && s.spare != [] && 4 * ChunkSize(zi) <= s.zoneSize
    ensures ChunkSize(zi) > 0 && Capacity(s.zoneSize, ChunkSize(zi)) >= 3
    ensures var s', z := ReuseSpare(s, zi), s.spare[0];
            var a := s'.zones[z].base;
            Inv(s', limit - 1) && HandsOut(s, s', a, ChunkSize(zi))
  {
    hide MapOk, ListsOk, ZoneOk, ZoneLive, BlocksOk, Live, Capacity, ChunkSize;
    SpareHead(s, limit);
    ListCount(s, limit);
    var z := s.spare[0];
    FreshKeeps(z, zi, s.zoneSize);
    var s' := ReuseSpare(s, zi);
    var a := s'.zones[z].base;
    PagesUntouched(s, s');
    ReuseLists(s, s', s'.zones[z], limit, zi);
    LiveGrows(s, s', limit - 1, z, a);
    assert Owns(s', z, a);
  }

  lemma ReuseLists(s: State, s': State, zone: Zone, limit: nat, zi: nat)
    requires ListsOk(s, limit) && zi < NZONES && s.spare != [] && limit > 0 && zone.index == zi && zone.nfree > 0
    requires s' == s.(spare := s.spare[1..], zones := s.zones[s.spare[0] := zone],
             lists := s.lists[zi := [s.spare[0]] + s.lists[zi]])
    ensures ListsOk(s', limit - 1)
  {
    var z := s.spare[0];
    assert s.spare == [z] + s.spare[1..];
    forall i, y | 0 <= i < NZONES
      ensures y in s'.lists[i] <==> OnList(s', y, i)
    {
      assert y in s.lists[i] <==> OnList(s, y, i);
    }
    assert z !in s.lists[zi] by { assert z in s.lists[zi] <==> OnList(s, z, zi); }
  }

  /** The steps that move pages change nothing that is in use. */
  lemma LiveSame(s: State, s': State)
    requires s'.large == s.large && forall y :: LiveIn(s', y) == LiveIn(s, y)
    ensures Live(s') == Live(s)
  {
    forall x
      ensures x in Live(s') <==> x in Live(s)
    {
      LiveIsOwned(s, x);
      LiveIsOwned(s', x);
      assert forall b :: Owns(s', b, x) <==> Owns(s, b, x);
    }
  }

  lemma LiveShrinks(s: State, s': State, limit: nat, z: nat, a: nat)
    requires Inv(s, limit) && Owns(s, z, a)
    requires forall b, x :: Owns(s', b, x) <==> Owns(s, b, x) && !(b == z && x == a)
    ensures Live(s') == Live(s) - {a}
  {
    forall x
      ensures x in Live(s') <==> x in Live(s) && x != a
    {
      LiveIsOwned(s, x);
      LiveIsOwned(s', x);
      if x == a {
        forall b
          ensures !Owns(s', b, a)
        {
          if Owns(s, b, a) {
            OwnerIsUnique(s, limit, b, z, a);
          }
        }
      }
    }
  }

  lemma UsageSize(s: State)
    requires MapOk(s)
    ensures |s.usage| == s.npages
  {
  }

  lemma ListCount(s: State, limit: nat)
    requires ListsOk(s, limit)
    ensures |s.lists| == NZONES && |s.spare| <= limit
  {
  }

  lemma SpareHead(s: State, limit: nat)
    requires ListsOk(s, limit) && s.spare != []
    ensures s.spare[0] in s.zones && s.spare[0] !in s.spare[1..] && s.spare == [s.spare[0]] + s.spare[1..]
  {
  }

  /** A zone cut from free pages, all of them mapped to it. */
  lemma AddSpareKeeps(s: State, limit: nat, header: Zone)
    requires Inv(s, limit) && AllocAt(s.runs, ZonePages(s)) != NONE
    ensures var z := AllocAt(s.runs, ZonePages(s)); 0 <= z && z + ZonePages(s) <= |s.usage|
    ensures var s' := AddSpare(s, header); Inv(s', limit + 1) && Live(s') == Live(s)
  {
    hide MapOk, ListsOk, ZoneOk, ZoneLive, BlocksOk, Live, Pages, Interval;
    UsageSize(s);
    var n := ZonePages(s);
    var z := AllocAt(s.runs, n);
    BlockTaken(s.npages, s.runs, Blocks(s), n);
    assert z !in Blocks(s);
    var s' := AddSpare(s, header);
    assert Blocks(s') == Blocks(s)[z := n];
    BlocksPositive(s.npages, s.runs, Blocks(s));
    AddSpareMap(s, s', z);
    AddSpareLists(s, s', z, limit);
    LiveSame(s, s');
  }

  lemma AddSpareLists(s: State, s': State, z: nat, limit: nat)
    requires ListsOk(s, limit) && z !in s.zones && s'.spare == [z] + s.spare && s'.lists == s.lists
    requires z in s'.zones && s'.zones.Keys == s.zones.Keys + {z}
             && forall y :: y in s.zones ==> s'.zones[y] == s.zones[y]
    ensures ListsOk(s', limit + 1)
  {
    forall i, y | 0 <= i < NZONES
      ensures y in s'.lists[i] <==> OnList(s', y, i)
    {
      assert y in s.lists[i] <==> OnList(s, y, i);
    }
  }

  lemma AddSpareMap(s: State, s': State, z: nat)
    requires MapOk(s) && z + ZonePages(s) <= |s.usage| && s'.usage == MapZone(s.usage, z, ZonePages(s))
    requires s'.npages == s.npages && s'.zoneSize == s.zoneSize && s'.large == s.large
             && s'.zones.Keys == s.zones.Keys + {z}
    requires s.zones.Keys !! s.large.Keys && z !in s.zones && z !in s.large
    requires forall b :: b in Blocks(s) && b != z ==> z + ZonePages(s) <= b || b + Blocks(s)[b] <= z
    requires forall b :: b in Blocks(s) ==> Blocks(s)[b] > 0
    ensures MapOk(s')
  {
    forall b, i | b in s'.zones && 0 <= i < ZonePages(s') && b + i < s'.npages
      ensures PageLeadsTo(s', b, i)
    {
      if b != z {
        assert b in Blocks(s) && PageLeadsTo(s, b, i);
      }
    }
    forall p | p in s'.large && p < s'.npages
      ensures s'.usage[p] == Usage(LargePage, s'.large[p])
    {
      assert p in Blocks(s);
    }
  }

  /** A chunk in use goes back to its zone. */
  lemma GiveChunkKeeps(s: State, limit: nat, z: nat, a: nat)
    requires Inv(s, limit) && a in LiveIn(s, z)
    ensures s.zones[z].index < |s.lists|
    ensures var s' := GiveChunk(s, z, a); Inv(s', limit) && Live(s') == Live(s) - {a}
    ensures var s' := GiveChunk(s, z, a); z in s'.zones && z !in s'.spare && s'.zones[z].nfree > 0
  {
    GiveKeeps(s.zones[z], z, s.zoneSize, a);
    assert z !in s.large && Owns(s, z, a);
    var s' := GiveChunk(s, z, a);
    hide MapOk, ListsOk, ZoneOk, ZoneLive, BlocksOk, Live, ChunkSize;
    PagesUntouched(s, s');
    GiveLists(s, s', limit, z, a);
    LiveShrinks(s, s', limit, z, a);
  }

  lemma GiveLists(s: State, s': State, limit: nat, z: nat, a: nat)
    requires ListsOk(s, limit) && z in s.zones && z !in s.spare && s.zones[z].index < NZONES && s' == GiveChunk(s, z, a)
    ensures ListsOk(s', limit)
  {
    var zi := s.zones[z].index;
    assert z in s.lists[zi] <==> OnList(s, z, zi);
    forall i, y | 0 <= i < NZONES
      ensures y in s'.lists[i] <==> OnList(s', y, i)
    {
      assert y in s.lists[i] <==> OnList(s, y, i);
    }
  }

  /** A zone with every chunk free leaves its list and becomes spare. */
  lemma RetireKeeps(s: State, limit: nat, z: nat)
    requires Inv(s, limit) && z in s.zones && z !in s.spare && s.zones[z].nfree == s.zones[z].nmax
    ensures s.zones[z].index < |s.lists|
    ensures var s' := Retire(s, z); Inv(s', limit + 1) && Live(s') == Live(s)
  {
    LivePlusFree(s.zones[z], z, s.zoneSize);
    assert LiveIn(s, z) == {};
    var s' := Retire(s, z);
    hide MapOk, ListsOk, ZoneOk, ZoneLive, BlocksOk, Live, ChunkSize;
    PagesUntouched(s, s');
    RetireLists(s, s', limit, z);
    LiveSame(s, s');
  }

  lemma RetireLists(s: State, s': State, limit: nat, z: nat)
    requires ListsOk(s, limit) && z in s.zones && z !in s.spare && s.zones[z].index < NZONES && s' == Retire(s, z)
    ensures ListsOk(s', limit + 1)
  {
    var zi := s.zones[z].index;
    WithoutMembers(s.lists[zi], z);
    forall i, y | 0 <= i < NZONES
      ensures y in s'.lists[i] <==> OnList(s', y, i)
    {
      assert y in s.lists[i] <==> OnList(s, y, i);
    }
  }

  /** A spare zone goes back to the page allocator, and its pages lead nowhere. */
  lemma DropSpareKeeps(s: State, limit: nat)
    requires Inv(s, limit + 1) && s.spare != []
    ensures var z := s.spare[0]; z + ZonePages(s) <= |s.usage| && Interval(z, ZonePages(s)) !! Pages(s.runs)
    ensures var s' := DropSpare(s); Inv(s', limit) && Live(s') == Live(s)
  {
    hide MapOk, ListsOk, ZoneOk, ZoneLive, BlocksOk, Live, Pages, Interval;
    UsageSize(s);
    var n, z := ZonePages(s), s.spare[0];
    SpareHead(s, limit + 1);
    assert z in Blocks(s) && Blocks(s)[z] == n;
    BlockGiven(s.npages, s.runs, Blocks(s), z);
    BlocksSpread(s.npages, s.runs, Blocks(s), z);
    var s' := DropSpare(s);
    assert Blocks(s') == Blocks(s) - {z};
    DropSpareMap(s, s', z);
    DropSpareLists(s, s', limit);
    LiveSame(s, s');
  }

  lemma BlocksSpread(npages: nat, runs: seq<Run>, blocks: map<nat, nat>, z: nat)
    requires BlocksOk(npages, runs, blocks) && z in blocks
    ensures forall b :: b in blocks && b != z ==> z + blocks[z] <= b || b + blocks[b] <= z
    ensures forall b :: b in blocks ==> blocks[b] > 0
  {
  }

  lemma DropSpareLists(s: State, s': State, limit: nat)
    requires ListsOk(s, limit + 1) && s.spare != [] && s'.spare == s.spare[1..] && s'.lists == s.lists
    requires s'.zones == s.zones - {s.spare[0]}
    ensures ListsOk(s', limit)
  {
    var z := s.spare[0];
    assert s.spare == [z] + s.spare[1..];
    forall i, y | 0 <= i < NZONES
      ensures y in s'.lists[i] <==> OnList(s', y, i)
    {
      assert y in s.lists[i] <==> OnList(s, y, i);
    }
  }

  lemma DropSpareMap(s: State, s': State, z: nat)
    requires MapOk(s) && z + ZonePages(s) <= |s.usage| && s'.usage == ClearZone(s.usage, z, ZonePages(s))
    requires s'.npages == s.npages && s'.zoneSize == s.zoneSize && s'.large == s.large
             && s'.zones.Keys == s.zones.Keys - {z}
    requires s.zones.Keys !! s.large.Keys && z in s.zones
    requires forall b :: b in Blocks(s) && b != z ==> z + ZonePages(s) <= b || b + Blocks(s)[b] <= z
    requires forall b :: b in Blocks(s) ==> Blocks(s)[b] > 0
    ensures MapOk(s')
  {
    forall b, i | b in s'.zones && 0 <= i < ZonePages(s') && b + i < s'.npages
      ensures PageLeadsTo(s', b, i)
    {
      assert b in Blocks(s) && PageLeadsTo(s, b, i);
    }
    forall p | p in s'.large && p < s'.npages
      ensures s'.usage[p] == Usage(LargePage, s'.large[p])
    {
      assert p in Blocks(s);
    }
  }

  /** A large block comes straight from the pages. */
  lemma AddLargeKeeps(s: State, limit: nat, n: nat)
    requires Inv(s, limit) && n > 0 && AllocAt(s.runs, n) != NONE
    ensures 0 <= AllocAt(s.runs, n) < |s.usage|
    ensures var s', p := AddLarge(s, n), AllocAt(s.runs, n);
            Inv(s', limit) && HandsOut(s, s', p * PAGE, n * PAGE)
  {
    hide MapOk, ListsOk, ZoneOk, ZoneLive, BlocksOk, Live, Pages, Interval;
    UsageSize(s);
    var p := AllocAt(s.runs, n);
    BlockTaken(s.npages, s.runs, Blocks(s), n);
    assert p !in Blocks(s);
    BlocksPositive(s.npages, s.runs, Blocks(s));
    var s' := AddLarge(s, n);
    assert Blocks(s') == Blocks(s)[p := n];
    LargeMap(s, s', p);
    LargeLists(s, s', limit);
    LiveShrinks(s', s, limit, p, p * PAGE);
    assert Owns(s', p, p * PAGE);
    LiveIsOwned(s', p * PAGE);
    assert Live(s') == Live(s) + {p * PAGE};
  }

  lemma BlocksPositive(npages: nat, runs: seq<Run>, blocks: map<nat, nat>)
    requires BlocksOk(npages, runs, blocks)
    ensures forall b :: b in blocks ==> blocks[b] > 0
  {
  }

  lemma LargeLists(s: State, s': State, limit: nat)
    requires ListsOk(s, limit) && s'.zones == s.zones && s'.lists == s.lists && s'.spare == s.spare
    ensures ListsOk(s', limit)
  {
    forall i, y | 0 <= i < NZONES
      ensures y in s'.lists[i] <==> OnList(s', y, i)
    {
      assert y in s.lists[i] <==> OnList(s, y, i);
    }
  }

  lemma LargeMap(s: State, s': State, p: nat)
    requires MapOk(s) && p < |s.usage| && p in s'.large && s'.usage == s.usage[p := Usage(LargePage, s'.large[p])]
    requires s'.npages == s.npages && s'.zoneSize == s.zoneSize && s'.zones == s.zones
             && s'.large == s.large[p := s'.large[p]]
    requires s.zones.Keys !! s.large.Keys && p !in s.zones && p !in s.large
    requires forall b :: b in Blocks(s) && b != p ==> p < b || b + Blocks(s)[b] <= p
    ensures MapOk(s')
  {
    forall b, i | b in s'.zones && 0 <= i < ZonePages(s') && b + i < s'.npages
      ensures PageLeadsTo(s', b, i)
    {
      assert b in Blocks(s) && PageLeadsTo(s, b, i);
    }
  }

  lemma DropLargeMap(s: State, s': State, p: nat)
    requires MapOk(s) && p in s.large && p < |s.usage| && |s'.usage| == |s.usage|
             && s'.usage == s.usage[p := s'.usage[p]]
    requires s'.npages == s.npages && s'.zoneSize == s.zoneSize && s'.zones == s.zones && s'.large == s.large - {p}
    requires s.zones.Keys !! s.large.Keys
    requires forall b :: b in Blocks(s) && b != p ==> p + s.large[p] <= b || b + Blocks(s)[b] <= p
    requires forall b :: b in Blocks(s) ==> Blocks(s)[b] > 0
    ensures MapOk(s')
  {
    forall b, i | b in s'.zones && 0 <= i < ZonePages(s') && b + i < s'.npages
      ensures PageLeadsTo(s', b, i)
    {
      assert b in Blocks(s) && PageLeadsTo(s, b, i);
    }
  }

  /** A large block goes straight back to the pages. */
  lemma DropLargeKeeps(s: State, limit: nat, p: nat)
    requires Inv(s, limit) && p in s.large
    ensures p < |s.usage| && s.large[p] > 0 && p + s.large[p] <= s.npages && Interval(p, s.large[p]) !! Pages(s.runs)
    ensures var s' := DropLarge(s, p); Inv(s', limit) && Live(s') == Live(s) - {p * PAGE}
  {
    hide MapOk, ListsOk, ZoneOk, ZoneLive, BlocksOk, Live, Pages, Interval;
    UsageSize(s);
    assert p in Blocks(s) && Blocks(s)[p] == s.large[p];
    BlockGiven(s.npages, s.runs, Blocks(s), p);
    BlocksSpread(s.npages, s.runs, Blocks(s), p);
    var s' := DropLarge(s, p);
    assert Blocks(s') == Blocks(s) - {p};
    DropLargeMap(s, s', p);
    LargeLists(s, s', limit);
    LiveShrinks(s, s', limit, p, p * PAGE);
  }

  lemma InvCounts(s: State, limit: nat)
    requires Inv(s, limit)
    ensures |s.lists| == NZONES && |s.spare| <= limit && |s.usage| == s.npages
  {
  }

  lemma InvMore(s: State, limit: nat)
    requires Inv(s, limit)
    ensures Inv(s, limit + 1)
  {
  }

  lemma ZonePagesPositive(s: State, limit: nat)
    requires Inv(s, limit)
    ensures ZonePages(s) > 0
  {
  }

  lemma SameLive(s: State, s1: State, s2: State, a: int, size: nat)
    requires Live(s1) == Live(s) && HandsOut(s1, s2, a, size)
    ensures HandsOut(s, s2, a, size)
  {
  }

  lemma InvTight(s: State, limit: nat, limit': nat)
    requires Inv(s, limit) && |s.spare| <= limit'
    ensures Inv(s, limit')
  {
  }

  lemma BlocksApart(s: State, limit: nat, b: nat)
    requires Inv(s, limit)
    ensures b in s.large ==> b !in s.zones
    ensures b in s.zones ==> b !in s.large
  {
  }

  lemma ListedWhenFree(s: State, limit: nat, z: nat)
    requires Inv(s, limit) && z in s.zones && z !in s.spare && s.zones[z].nfree > 0
    ensures s.zones[z].index < |s.lists| && z in s.lists[s.zones[z].index]
  {
    assert OnList(s, z, s.zones[z].index);
  }

  /** A zone with every chunk free has a chunk to give, so it is on its list. */
  lemma RetireEmpty(s: State, limit: nat, z: nat)
    requires Inv(s, limit) && z in s.zones && z !in s.spare && s.zones[z].nfree == s.zones[z].nmax
    ensures s.zones[z].index < |s.lists| && z in s.lists[s.zones[z].index]
  {
    ListedWhenFree(s, limit, z);
  }

  lemma ZoneInside(s: State, limit: nat, z: nat)
    requires Inv(s, limit) && z in s.zones
    ensures z + ZonePages(s) <= |s.usage|
  {
    assert z in Blocks(s);
  }

  // ---------------------------------------------------------------- empty zones

  /** The list of z after a chunk of it came back holds z, and nothing else exactly when z is alone. */
  lemma ListAfterGive(s: State, limit: nat, z: nat, a: nat)
    requires Inv(s, limit) && a in LiveIn(s, z)
    ensures s.zones[z].index < |s.lists|
    ensures var list := GiveChunk(s, z, a).lists[s.zones[z].index]; z in list && (list == [z] <==> Alone(s, z))
  {
    hide ZoneOk, ZoneLive, MapOk, BlocksOk, KindsApart, Live, ChunkSize;
    GiveChunkKeeps(s, limit, z, a);
    var i, g := s.zones[z].index, GiveChunk(s, z, a);
    var list := g.lists[i];
    assert forall y :: y in list <==> OnList(g, y, i);
    assert OnList(g, z, i);
    Single(list, z);
    if !Alone(s, z) {
      var y :| y in s.zones && y !in s.spare && y != z && s.zones[y].index == s.zones[z].index && s.zones[y].nfree != 0;
      assert OnList(g, y, i) && y in list;
    }
  }

  lemma Single(list: seq<nat>, z: nat)
    requires Distinct(list) && z in list
    ensures list == [z] <==> forall y :: y in list ==> y == z
  {
    if |list| > 1 {
      assert list[0] in list && list[1] in list;
    }
  }

  /** A zone is entirely free after its chunk a came back exactly when a was the last one in use. */
  lemma EmptyAfterGive(s: State, limit: nat, z: nat, a: nat)
    requires Inv(s, limit) && a in LiveIn(s, z)
    ensures var zone := Give(s.zones[z], a); zone.nfree == zone.nmax <==> LiveIn(s, z) == {a}
  {
    hide ZoneOk, ZoneLive, MapOk, ListsOk, BlocksOk;
    var zone := Give(s.zones[z], a);
    GiveKeeps(s.zones[z], z, s.zoneSize, a);
    LivePlusFree(zone, z, s.zoneSize);
    assert |ZoneLive(zone)| == 0 <==> ZoneLive(zone) == {};
    assert LiveIn(s, z) == {a} <==> ZoneLive(s.zones[z]) - {a} == {};
  }

  /** The zone that gave back its last chunk in use becomes spare, unless it is the only one of its size with chunks to
      give; with two spare zones already its pages are free again. Any other zone stays where it can serve. */
  lemma LastChunkRetires(s: State, z: nat, a: nat)
    requires Inv(s, ZONE_RELEASE_THRESH) && a in LiveIn(s, z)
    ensures RetireFits(s, z)
    ensures var s', gone := AfterFree(s, z, a), LiveIn(s, z) == {a} && !Alone(s, z);
            && (!gone ==> s'.spare == s.spare && s'.runs == s.runs && OnList(s', z, s.zones[z].index))
            && (gone && |s.spare| < ZONE_RELEASE_THRESH ==>
                  s'.spare == [z] + s.spare && s'.runs == s.runs && z in s'.zones)
            && (gone && |s.spare| == ZONE_RELEASE_THRESH ==>
                  s'.spare == s.spare && z !in s'.zones && Pages(s'.runs) == Pages(s.runs) + Interval(z, ZonePages(s)))
    ensures var s', gone, i := AfterFree(s, z, a), LiveIn(s, z) == {a} && !Alone(s, z), s.zones[z].index;
            i < |s.lists| && s'.lists == s.lists[i := if gone then Without(s.lists[i], z)
                                                      else if s.zones[z].nfree == 0 then [z] + s.lists[i]
                                                      else s.lists[i]]
  {
    hide ZoneOk, ZoneLive, MapOk, BlocksOk, Pages, Interval, Live, ChunkSize, Canonical;
    GiveChunkKeeps(s, ZONE_RELEASE_THRESH, z, a);
    ZoneInside(s, ZONE_RELEASE_THRESH, z);
    EmptyAfterGive(s, ZONE_RELEASE_THRESH, z, a);
    ListAfterGive(s, ZONE_RELEASE_THRESH, z, a);
    var g := GiveChunk(s, z, a);
    FullIsUnlisted(s, ZONE_RELEASE_THRESH, z);
    if LiveIn(s, z) == {a} && !Alone(s, z) {
      RetireKeeps(g, ZONE_RELEASE_THRESH, z);
      if |s.spare| == ZONE_RELEASE_THRESH {
        SparePages(Retire(g, z), ZONE_RELEASE_THRESH + 1);
      }
    } else {
      assert OnList(g, z, s.zones[z].index);
    }
  }

  /** Where the chunk for a small request comes from: the first zone on its list; else the newest spare zone; and only
      when there is none of either, new pages. */
  lemma SmallRequestSource(s: State, zi: nat)
    requires Inv(s, ZONE_RELEASE_THRESH) && zi < NZONES && 4 * ChunkSize(zi) <= s.zoneSize
    ensures var s' := SmallMalloced(s, zi); |s.lists| == NZONES && |s'.lists| == NZONES
    ensures var s' := SmallMalloced(s, zi);
            && (s.lists[zi] != [] ==>
                  && s'.runs == s.runs && s'.spare == s.spare && s.lists[zi][0] in s.zones
                  && LiveIn(s, s.lists[zi][0]) < LiveIn(s', s.lists[zi][0])
                  && s'.lists == if s.zones[s.lists[zi][0]].nfree > 1 then s.lists
                                 else s.lists[zi := s.lists[zi][1..]])
            && (s.lists[zi] == [] && s.spare != [] ==>
                  && s'.runs == s.runs && s.spare == [s.spare[0]] + s'.spare && s'.lists[zi] == [s.spare[0]])
            && (s.lists[zi] == [] && s.spare == [] && s' != s ==>
                  && s'.spare == [] && s'.zones.Keys > s.zones.Keys && |s'.lists[zi]| == 1
                  && Pages(s'.runs) == Pages(s.runs) - Interval(s'.lists[zi][0], ZonePages(s)))
  {
    hide ZoneOk, MapOk, BlocksOk, Pages, Interval, Live, ChunkSize, Canonical, ZoneLive, Inv, HandsOut, AllocRuns,
         MapZone;
    LimitIs(s, ZONE_RELEASE_THRESH);
    if s.lists[zi] != [] {
      TakeChunkKeeps(s, ZONE_RELEASE_THRESH, zi);
      HeadGives(s, ZONE_RELEASE_THRESH, zi);
    } else if s.spare != [] {
      ReuseSpareKeeps(s, ZONE_RELEASE_THRESH, zi);
    } else if AllocAt(s.runs, ZonePages(s)) != NONE {
      AddSpareKeeps(s, ZONE_RELEASE_THRESH, CLEARED);
      ReuseSpareKeeps(AddSpare(s, CLEARED), ZONE_RELEASE_THRESH + 1, zi);
      NewZonePages(s, ZONE_RELEASE_THRESH);
    }
  }

  lemma HeadGives(s: State, limit: nat, zi: nat)
    requires Inv(s, limit) && zi < NZONES && |s.lists| == NZONES && s.lists[zi] != []
    ensures var z := s.lists[zi][0];
            && z in s.zones && z !in s.spare && s.zones[z].nfree > 0
            && (s.zones[z].uindex + 1 == s.zones[z].nmax ==> s.zones[z].free != [])
            && ZoneLive(s.zones[z]) < ZoneLive(Take(s.zones[z]).0)
  {
    hide ZoneOk, MapOk, BlocksOk, ZoneLive;
    HeadOnList(s, limit, zi);
    TakeKeeps(s.zones[s.lists[zi][0]], s.lists[zi][0], s.zoneSize);
  }

  lemma NewZonePages(s: State, limit: nat)
    requires Inv(s, limit) && AllocAt(s.runs, ZonePages(s)) != NONE
    ensures var z := AllocAt(s.runs, ZonePages(s));
            z >= 0 && z !in s.zones && Pages(AllocRuns(s.runs, ZonePages(s)))
              == Pages(s.runs) - Interval(z, ZonePages(s))
  {
    hide MapOk, ListsOk, ZonesOk, Pages, Interval;
    BlockTaken(s.npages, s.runs, Blocks(s), ZonePages(s));
    AllocTakes(s.runs, ZonePages(s), 0, s.npages);
  }

  /** A zone with nothing to give is on no list, so that taking it off changes nothing. */
  lemma FullIsUnlisted(s: State, limit: nat, z: nat)
    requires Inv(s, limit) && z in s.zones && z !in s.spare
    ensures s.zones[z].index < |s.lists|
    ensures var list := s.lists[s.zones[z].index]; s.zones[z].nfree == 0 ==> Without(list, z) == list
  {
    var list := s.lists[s.zones[z].index];
    if s.zones[z].nfree == 0 {
      assert z in list <==> OnList(s, z, s.zones[z].index);
      WithoutAbsent(list, z);
    }
  }

  lemma SparePages(s: State, limit: nat)
    requires Inv(s, limit) && s.spare != []
    ensures var z := s.spare[0]; Pages(FreeRuns(s.runs, z, ZonePages(s))) == Pages(s.runs) + Interval(z, ZonePages(s))
  {
    hide MapOk, ListsOk, ZonesOk, Pages, Interval;
    SpareHead(s, limit);
    var z := s.spare[0];
    assert z in Blocks(s) && Blocks(s)[z] == ZonePages(s);
    BlockGiven(s.npages, s.runs, Blocks(s), z);
    FreeGives(s.runs, z, ZonePages(s), 0, s.npages);
  }

  // ---------------------------------------------------------------- the start

  function PagesFor(size: nat): nat {
    (size + PAGE - 1) / PAGE
  }

  /** The pages of the page map, 4 bytes an entry. */
  function TablePages(npages: nat): nat {
    PagesFor(4 * npages)
  }

  /** What rt_system_heap_init leaves: the page map has the first pages, the rest is one free run. */
  function Start(npages: nat, zoneSize: nat): State {
    State(zoneSize, npages, AllocRuns([Run(0, npages)], TablePages(npages)),
          seq(npages, i => Usage(FreePage, 0)), map[], seq(NZONES, i => []), [], map[], map[0 := TablePages(npages)])
  }

  lemma MapTakesFirst(npages: nat)
    requires npages > 0
    ensures 0 < TablePages(npages) <= npages && AllocAt([Run(0, npages)], TablePages(npages)) == 0
    ensures Canonical([Run(0, npages)], 0, npages)
    ensures Pages(AllocRuns([Run(0, npages)], TablePages(npages)))
            == Interval(TablePages(npages), npages - TablePages(npages))
  {
    var one := [Run(0, npages)];
    assert one[1..] == [];
    AllocTakes(one, TablePages(npages), 0, npages);
    assert Pages(one) == Interval(0, npages);
  }

  lemma StartKeeps(npages: nat, zoneSize: nat, limit: nat)
    requires npages > 0
    requires zoneSize == ZALLOC_MIN_ZONE_SIZE || zoneSize == 65536 || zoneSize == ZALLOC_MAX_ZONE_SIZE
    ensures Inv(Start(npages, zoneSize), limit) && Live(Start(npages, zoneSize)) == {}
  {
    var s := Start(npages, zoneSize);
    MapTakesFirst(npages);
    BlockTaken(npages, [Run(0, npages)], map[], TablePages(npages));
    assert Blocks(s) == map[0 := TablePages(npages)];
    hide BlocksOk;
    assert ListsOk(s, limit);
  }

  // ---------------------------------------------------------------- whole calls

  function Limit(s: State): nat {
    if s.zoneSize / 4 > ZALLOC_ZONE_LIMIT then ZALLOC_ZONE_LIMIT else s.zoneSize / 4
  }

  /** A zone header after rt_memset. */
  const CLEARED: Zone := Zone(0, 0, 0, 0, 0, 0, [])

  lemma LimitIs(s: State, limit: nat)
    requires Inv(s, limit)
    ensures (Limit(s) == 8192 || Limit(s) == 16384) && 4 * Limit(s) <= s.zoneSize && ZonePages(s) > 0
            && |s.lists| == NZONES
  {
  }

  lemma ZoneIndexWithin(size: nat, limit: nat)
    requires 0 < size < limit && (limit == 8192 || limit == 16384)
    ensures var (zi, chunk) := ZoneIndex(size);
            0 <= zi < NZONES && chunk == ChunkSize(zi) && size <= chunk <= limit
  {
    ZoneIndexFits(size);
  }

  /** rt_malloc hands out at most an eighth more than was asked for, and 8 bytes; or whole pages for a large size. */
  predicate Fair(s: State, size: nat, granted: nat) {
    && size <= granted
    && if size < Limit(s) then granted % 8 == 0 && 8 * (granted - size) < size + 64
       else granted % PAGE == 0 && granted < size + PAGE
  }

  lemma ChunkIsFair(s: State, size: nat)
    requires 0 < size < Limit(s)
    ensures Fair(s, size, ZoneIndex(size).1)
  {
    ZoneIndexFits(size);
  }

  lemma PagesAreFair(s: State, size: nat)
    requires size >= Limit(s)
    ensures Fair(s, size, PagesFor(size) * PAGE)
  {
  }

  /** The largest size that rounds up to whole pages within 32 bits. */
  const LARGEST: nat := 0xffff_f000

  /** RT_ALIGN to pages in 32-bit arithmetic, in pages: nothing for sizes above LARGEST. */
  function PagesOf(size: nat): nat {
    (size + PAGE - 1) % 0x1_0000_0000 / PAGE
  }

  lemma PagesHold(size: nat)
    requires 0 < size < 0x1_0000_0000
    ensures size > LARGEST ==> PagesOf(size) == 0
    ensures size <= LARGEST ==> PagesOf(size) == PagesFor(size) > 0 && size <= PagesFor(size) * PAGE
  {
    if size > LARGEST {
      assert (size + PAGE - 1) % 0x1_0000_0000 == size + PAGE - 1 - 0x1_0000_0000;
    } else {
      assert (size + PAGE - 1) % 0x1_0000_0000 == size + PAGE - 1;
    }
  }

  /** The state rt_malloc(size) leaves: pages for a large request; for a small one a chunk of the first
      zone of its list, else of a spare zone, else of a new one; nothing changed when there is nothing. */
  ghost function Malloced(s: State, size: nat): State
    requires Inv(s, ZONE_RELEASE_THRESH)
  {
    LimitIs(s, ZONE_RELEASE_THRESH);
    if size == 0 then s
    else if size >= Limit(s) then
      if size > LARGEST || AllocAt(s.runs, PagesFor(size)) == NONE then s
      else
        AddLargeKeeps(s, ZONE_RELEASE_THRESH, PagesFor(size));
        AddLarge(s, PagesFor(size))
    else
      ZoneIndexWithin(size, Limit(s));
      SmallMalloced(s, ZoneIndex(size).0)
  }

  ghost function SmallMalloced(s: State, zi: nat): State
    requires Inv(s, ZONE_RELEASE_THRESH) && zi < NZONES && 4 * ChunkSize(zi) <= s.zoneSize
  {
    LimitIs(s, ZONE_RELEASE_THRESH);
    if s.lists[zi] != [] then
      TakeChunkKeeps(s, ZONE_RELEASE_THRESH, zi);
      TakeChunk(s, zi)
    else if s.spare != [] then
      ReuseSpareKeeps(s, ZONE_RELEASE_THRESH, zi);
      ReuseSpare(s, zi)
    else if AllocAt(s.runs, ZonePages(s)) == NONE then s
    else
      AddSpareKeeps(s, ZONE_RELEASE_THRESH, CLEARED);
      ReuseSpareKeeps(AddSpare(s, CLEARED), ZONE_RELEASE_THRESH + 1, zi);
      ReuseSpare(AddSpare(s, CLEARED), zi)
  }

  /** The state rt_free leaves for an address of block b. */
  ghost function Freed(s: State, b: nat, a: nat): State
    requires Inv(s, ZONE_RELEASE_THRESH) && Owns(s, b, a)
  {
    if b in s.large then
      DropLargeKeeps(s, ZONE_RELEASE_THRESH, b);
      DropLarge(s, b)
    else
      GiveChunkKeeps(s, ZONE_RELEASE_THRESH, b, a);
      ZoneInside(s, ZONE_RELEASE_THRESH, b);
      AfterFree(s, b, a)
  }
}
