/** The slab allocator at the grain of its lock. rt_malloc and rt_free let go of heap_sem around the page
    allocator, so two threads may each be between two of their locked regions; a step here is one region,
    or the page map write of a large block, and any thread may take any step that is open. Pages that a
    thread has taken from the page allocator, or is about to give back to it, are reserved meanwhile. */
module SlabSteps {
  import opened Sequences
  import opened PageModel
  import opened Zones
  import opened SlabModel

  datatype Step =
    | Grab(n: nat)                  // rt_page_alloc
    | HandLarge(b: nat)             // rt_malloc writes the page map entry of a large block
    | TakeFrom(zi: nat)             // rt_malloc: a chunk of the first zone on its list
    | Reuse(zi: nat)                // rt_malloc: a spare zone is laid out
    | Install(b: nat, zi: nat)      // rt_malloc: grabbed pages become a zone
    | GiveTo(z: nat, a: nat)        // rt_free of a chunk, with retiring and unmapping
    | DropEntry(p: nat)             // rt_free clears the page map entry of a large block
    | Return(b: nat)                // rt_page_free

  /** Reserved pages that some thread has in hand; those from page 0 on are the page map's own. */
  predicate InHand(s: State, b: nat) {
    b != 0 && b in s.reserved
  }

  ghost predicate Enabled(s: State, e: Step) {
    match e
    case Grab(n) => n > 0
    case HandLarge(b) => InHand(s, b)
    case TakeFrom(zi) => zi < NZONES && zi < |s.lists| && s.lists[zi] != []
    case Reuse(zi) => zi < NZONES && 4 * ChunkSize(zi) <= s.zoneSize && s.spare != []
    case Install(b, zi) => zi < NZONES && 4 * ChunkSize(zi) <= s.zoneSize && InHand(s, b)
      && s.reserved[b] == ZonePages(s)
    case GiveTo(z, a) => a in LiveIn(s, z)
    case DropEntry(p) => p in s.large
    case Return(b) => InHand(s, b)
  }

  // ---------------------------------------------------------------- what each region does

  function Grabbed(s: State, n: nat): State {
    var a := AllocAt(s.runs, n);
    if a < 0 then s else s.(runs := AllocRuns(s.runs, n), reserved := s.reserved[a := n])
  }

  function LargeHanded(s: State, b: nat): State
    requires b in s.reserved && b < |s.usage|
  {
    var n := s.reserved[b];
    s.(usage := s.usage[b := Usage(LargePage, n)], large := s.large[b := n], reserved := s.reserved - {b})
  }

  /** The page map leads from the grabbed pages to their zone, whose header is still to be written. */
  function Mapped(s: State, b: nat): State
    requires b in s.reserved && b + ZonePages(s) <= |s.usage|
  {
    s.(usage := MapZone(s.usage, b, ZonePages(s)), zones := s.zones[b := CLEARED], spare := [b] + s.spare,
       reserved := s.reserved - {b})
  }

  /** The newest spare zone leaves the page map, and its pages are on their way back. */
  function Unmapped(s: State): State
    requires s.spare != [] && s.spare[0] + ZonePages(s) <= |s.usage|
  {
    var z := s.spare[0];
    s.(usage := ClearZone(s.usage, z, ZonePages(s)), zones := s.zones - {z}, spare := s.spare[1..],
       reserved := s.reserved[z := ZonePages(s)])
  }

  ghost function Given(s: State, z: nat, a: nat): State
    requires RetireFits(s, z)
  {
    var g := GiveChunk(s, z, a);
    if g.zones[z].nfree == g.zones[z].nmax && g.lists[g.zones[z].index] != [z] then
      var r := Retire(g, z);
      if |r.spare| > ZONE_RELEASE_THRESH then Unmapped(r) else r
    else g
  }

  function EntryDropped(s: State, p: nat): State
    requires p in s.large && p < |s.usage|
  {
    s.(usage := s.usage[p := s.usage[p].(size := 0)], large := s.large - {p}, reserved := s.reserved[p := s.large[p]])
  }

  function Returned(s: State, b: nat): State
    requires b in s.reserved
  {
    s.(runs := FreeRuns(s.runs, b, s.reserved[b]), reserved := s.reserved - {b})
  }

  // ---------------------------------------------------------------- every region keeps the invariant

  ghost predicate InBlock(blocks: map<nat, nat>, p: nat) {
    exists b :: b in blocks && b <= p < b + blocks[b]
  }

  /** No page is lost: each is free or in a block. */
  ghost predicate Covered(s: State) {
    forall p: nat :: p < s.npages ==> p in Pages(s.runs) || InBlock(Blocks(s), p)
  }

  /** What holds between any two steps. */
  ghost predicate Ok(s: State) {
    Inv(s, ZONE_RELEASE_THRESH) && Covered(s)
  }

  lemma CoveredSame(s: State, s': State)
    requires Covered(s) && Blocks(s') == Blocks(s) && s'.runs == s.runs && s'.npages == s.npages
    ensures Covered(s')
  {
  }

  lemma CoveredTaken(s: State, s': State, a: nat, n: nat)
    requires Covered(s) && a !in Blocks(s) && Blocks(s') == Blocks(s)[a := n] && s'.npages == s.npages
    requires Pages(s'.runs) == Pages(s.runs) - Interval(a, n)
    ensures Covered(s')
  {
    hide Pages;
    forall p: nat | p < s'.npages
      ensures p in Pages(s'.runs) || InBlock(Blocks(s'), p)
    {
      if a <= p < a + n {
        assert a in Blocks(s') && Blocks(s')[a] == n;
        assert InBlock(Blocks(s'), p);
      } else if InBlock(Blocks(s), p) {
        var b :| b in Blocks(s) && b <= p < b + Blocks(s)[b];
        assert b in Blocks(s') && Blocks(s')[b] == Blocks(s)[b];
      }
    }
  }

  lemma CoveredGiven(s: State, s': State, b: nat)
    requires Covered(s) && b in Blocks(s) && Blocks(s') == Blocks(s) - {b} && s'.npages == s.npages
    requires Pages(s'.runs) == Pages(s.runs) + Interval(b, Blocks(s)[b])
    ensures Covered(s')
  {
    hide Pages;
    forall p: nat | p < s'.npages
      ensures p in Pages(s'.runs) || InBlock(Blocks(s'), p)
    {
      if p !in Pages(s'.runs) {
        var c :| c in Blocks(s) && c <= p < c + Blocks(s)[c];
        assert c in Blocks(s') && Blocks(s')[c] == Blocks(s)[c];
      }
    }
  }

  /** Steps that leave zones, large blocks and the page map alone. */
  lemma OnlyPages(s: State, s': State, limit: nat)
    requires Inv(s, limit) && s' == s.(runs := s'.runs, reserved := s'.reserved)
    requires KindsApart(s') && BlocksOk(s'.npages, s'.runs, Blocks(s'))
    ensures Inv(s', limit) && Live(s') == Live(s)
  {
    hide BlocksOk, Blocks, ListsOk, ZoneOk;
    forall b, i | b in s'.zones && 0 <= i < ZonePages(s') && b + i < s'.npages
      ensures PageLeadsTo(s', b, i)
    {
      assert PageLeadsTo(s, b, i);
    }
    LargeLists(s, s', limit);
    LiveSame(s, s');
  }

  lemma GrabKeeps(s: State, n: nat)
    requires Ok(s) && n > 0
    ensures Ok(Grabbed(s, n)) && Live(Grabbed(s, n)) == Live(s)
    ensures AllocAt(s.runs, n) >= 0 ==> AllocAt(s.runs, n) !in Blocks(s)
  {
    hide MapOk, ListsOk, ZoneOk, ZoneLive, BlocksOk, Live, Pages, Interval, Covered, Canonical, AllocRuns, AllocAt;
    var a := AllocAt(s.runs, n);
    if a >= 0 {
      var s' := Grabbed(s, n);
      CanonicalRuns(s);
      AllocTakes(s.runs, n, 0, s.npages);
      BlockTaken(s.npages, s.runs, Blocks(s), n);
      assert a !in Blocks(s);
      assert Blocks(s') == Blocks(s)[a := n];
      OnlyPages(s, s', ZONE_RELEASE_THRESH);
      CoveredTaken(s, s', a, n);
    }
  }

  lemma CanonicalRuns(s: State)
    requires BlocksOk(s.npages, s.runs, Blocks(s))
    ensures Canonical(s.runs, 0, s.npages)
  {
  }

  lemma ReturnKeeps(s: State, b: nat)
    requires Ok(s) && InHand(s, b)
    ensures Ok(Returned(s, b)) && Live(Returned(s, b)) == Live(s)
  {
    hide MapOk, ListsOk, ZoneOk, ZoneLive, BlocksOk, Live, Pages, Interval, Covered, Canonical, FreeRuns;
    var s' := Returned(s, b);
    assert b in Blocks(s) && Blocks(s)[b] == s.reserved[b];
    CanonicalRuns(s);
    BlocksPositive(s.npages, s.runs, Blocks(s));
    BlockGiven(s.npages, s.runs, Blocks(s), b);
    FreeGives(s.runs, b, s.reserved[b], 0, s.npages);
    assert Blocks(s') == Blocks(s) - {b};
    OnlyPages(s, s', ZONE_RELEASE_THRESH);
    CoveredGiven(s, s', b);
  }

  lemma HandLargeKeeps(s: State, b: nat)
    requires Ok(s) && InHand(s, b)
    ensures b < |s.usage|
    ensures Ok(LargeHanded(s, b)) && HandsOut(s, LargeHanded(s, b), b * PAGE, s.reserved[b] * PAGE)
  {
    hide MapOk, ListsOk, ZoneOk, ZoneLive, BlocksOk, Live, Pages, Interval, Covered;
    InvCounts(s, ZONE_RELEASE_THRESH);
    assert b in Blocks(s) && Blocks(s)[b] == s.reserved[b];
    BlockInside(s, b);
    var s' := LargeHanded(s, b);
    assert Blocks(s') == Blocks(s);
    BlocksSpread(s.npages, s.runs, Blocks(s), b);
    LargeMap(s, s', b);
    LargeLists(s, s', ZONE_RELEASE_THRESH);
    LiveShrinks(s', s, ZONE_RELEASE_THRESH, b, b * PAGE);
    assert Owns(s', b, b * PAGE);
    LiveIsOwned(s', b * PAGE);
    assert Live(s') == Live(s) + {b * PAGE};
    CoveredSame(s, s');
  }

  lemma BlockInside(s: State, b: nat)
    requires BlocksOk(s.npages, s.runs, Blocks(s)) && b in Blocks(s)
    ensures b + Blocks(s)[b] <= s.npages && Blocks(s)[b] > 0
  {
  }

  /** The grabbed pages become a zone. */
  lemma MapKeeps(s: State, b: nat)
    requires Ok(s) && InHand(s, b) && s.reserved[b] == ZonePages(s)
    ensures b + ZonePages(s) <= |s.usage|
    ensures var s' := Mapped(s, b);
            Inv(s', ZONE_RELEASE_THRESH + 1) && Covered(s') && Live(s') == Live(s) && s'.spare != [] && s'.spare[0] == b
  {
    hide MapOk, ListsOk, ZoneOk, ZoneLive, BlocksOk, Live, Pages, Interval, Covered;
    InvCounts(s, ZONE_RELEASE_THRESH);
    assert b in Blocks(s) && Blocks(s)[b] == s.reserved[b];
    BlockInside(s, b);
    var s' := Mapped(s, b);
    assert Blocks(s') == Blocks(s);
    BlocksSpread(s.npages, s.runs, Blocks(s), b);
    AddSpareMap(s, s', b);
    AddSpareLists(s, s', b, ZONE_RELEASE_THRESH);
    LiveSame(s, s');
    CoveredSame(s, s');
  }

  lemma ReuseKeeps(s: State, zi: nat, limit: nat)
    requires Inv(s, limit) && Covered(s) && zi < NZONES && s.spare != [] && 4 * ChunkSize(zi) <= s.zoneSize
    ensures ChunkSize(zi) > 0 && Capacity(s.zoneSize, ChunkSize(zi)) >= 1 && |s.lists| == NZONES
    ensures var s' := ReuseSpare(s, zi);
            Inv(s', limit - 1) && Covered(s') && exists a :: HandsOut(s, s', a, ChunkSize(zi))
  {
    hide Inv, Live, HandsOut, Covered, ChunkSize, Capacity;
    InvCounts(s, limit);
    ReuseSpareKeeps(s, limit, zi);
    SpareIn(s, limit);
    var s' := ReuseSpare(s, zi);
    assert Blocks(s') == Blocks(s);
    CoveredSame(s, s');
  }

  lemma SpareIn(s: State, limit: nat)
    requires Inv(s, limit) && s.spare != []
    ensures s.spare[0] in s.zones && s.spare[0] !in s.large && s.spare[0] !in s.reserved && ZonePages(s) > 0
  {
  }

  lemma UnmapKeeps(s: State)
    requires Inv(s, ZONE_RELEASE_THRESH + 1) && Covered(s) && s.spare != []
    ensures s.spare[0] + ZonePages(s) <= |s.usage|
    ensures Ok(Unmapped(s)) && Live(Unmapped(s)) == Live(s)
  {
    hide MapOk, ListsOk, ZoneOk, ZoneLive, BlocksOk, Live, Pages, Interval, Covered, LiveIn, ClearZone,
         ZonesOk;
    InvCounts(s, ZONE_RELEASE_THRESH + 1);
    SpareHead(s, ZONE_RELEASE_THRESH + 1);
    var z := s.spare[0];
    assert z in Blocks(s) && Blocks(s)[z] == ZonePages(s);
    BlockInside(s, z);
    BlocksSpread(s.npages, s.runs, Blocks(s), z);
    var s' := Unmapped(s);
    assert Blocks(s') == Blocks(s);
    DropSpareMap(s, s', z);
    DropSpareLists(s, s', ZONE_RELEASE_THRESH);
    SpareNotLive(s, s');
    ZonesStay(s, s');
    LiveSame(s, s');
    CoveredSame(s, s');
  }

  lemma ZonesStay(s: State, s': State)
    requires ZonesOk(s) && s.spare != [] && s'.zones == s.zones - {s.spare[0]} && s'.spare == s.spare[1..]
    requires s.spare == [s.spare[0]] + s.spare[1..] && s'.zoneSize == s.zoneSize
    ensures ZonesOk(s')
  {
    hide ZoneOk;
  }

  lemma SpareNotLive(s: State, s': State)
    requires s.spare != [] && s'.zones == s.zones - {s.spare[0]} && s'.spare == s.spare[1..]
    requires s.spare[0] !in s.spare[1..] && s.spare == [s.spare[0]] + s.spare[1..]
    ensures forall y :: LiveIn(s', y) == LiveIn(s, y)
  {
    hide ZoneLive;
  }

  lemma DropEntryKeeps(s: State, p: nat)
    requires Ok(s) && p in s.large
    ensures p < |s.usage|
    ensures Ok(EntryDropped(s, p)) && Live(EntryDropped(s, p)) == Live(s) - {p * PAGE}
  {
    hide MapOk, ListsOk, ZoneOk, ZoneLive, BlocksOk, Live, Pages, Interval, Covered;
    InvCounts(s, ZONE_RELEASE_THRESH);
    assert p in Blocks(s) && Blocks(s)[p] == s.large[p];
    BlockInside(s, p);
    BlocksSpread(s.npages, s.runs, Blocks(s), p);
    var s' := EntryDropped(s, p);
    assert Blocks(s') == Blocks(s);
    DropLargeMap(s, s', p);
    LargeLists(s, s', ZONE_RELEASE_THRESH);
    LiveShrinks(s, s', ZONE_RELEASE_THRESH, p, p * PAGE);
    CoveredSame(s, s');
  }

  /** A chunk comes back; its zone may become spare, and the oldest spare zone leave the page map. */
  lemma GiveKeepsAll(s: State, z: nat, a: nat)
    requires Ok(s) && a in LiveIn(s, z)
    ensures RetireFits(s, z) && Ok(Given(s, z, a)) && Live(Given(s, z, a)) == Live(s) - {a}
  {
    hide Inv, Live, Covered, LiveIn;
    InvCounts(s, ZONE_RELEASE_THRESH);
    assert z in s.zones && z !in s.spare by { LiveZone(s, z, a); }
    GiveChunkKeeps(s, ZONE_RELEASE_THRESH, z, a);
    ZoneInside(s, ZONE_RELEASE_THRESH, z);
    var g := GiveChunk(s, z, a);
    assert Blocks(g) == Blocks(s);
    CoveredSame(s, g);
    if g.zones[z].nfree == g.zones[z].nmax && g.lists[g.zones[z].index] != [z] {
      RetireKeeps(g, ZONE_RELEASE_THRESH, z);
      var r := Retire(g, z);
      assert Blocks(r) == Blocks(g);
      CoveredSame(g, r);
      if |r.spare| > ZONE_RELEASE_THRESH {
        UnmapKeeps(r);
      } else {
        InvTight(r, ZONE_RELEASE_THRESH + 1, ZONE_RELEASE_THRESH);
      }
    }
  }

  lemma LiveZone(s: State, z: nat, a: nat)
    requires a in LiveIn(s, z)
    ensures z in s.zones && z !in s.spare
  {
  }

  lemma TakeFromKeeps(s: State, zi: nat)
    requires Ok(s) && zi < NZONES && zi < |s.lists| && s.lists[zi] != []
    ensures var z := s.lists[zi][0];
            z in s.zones && s.zones[z].nfree > 0 && (s.zones[z].uindex + 1 == s.zones[z].nmax ==> s.zones[z].free != [])
    ensures Ok(TakeChunk(s, zi)) && exists a :: HandsOut(s, TakeChunk(s, zi), a, ChunkSize(zi))
  {
    hide Inv, Live, HandsOut, Covered, ChunkSize;
    TakeChunkKeeps(s, ZONE_RELEASE_THRESH, zi);
    var s' := TakeChunk(s, zi);
    assert Blocks(s') == Blocks(s);
    CoveredSame(s, s');
  }

  // ---------------------------------------------------------------- runs

  /** The step reads and writes inside the arrays and lists it uses, and finds the chunk it counts on. */
  ghost predicate Fits(s: State, e: Step)
    requires Enabled(s, e)
  {
    match e
    case Grab(_) => true
    case HandLarge(b) => b < |s.usage|
    case TakeFrom(zi) =>
      var z := s.lists[zi][0];
      z in s.zones && s.zones[z].nfree > 0 && (s.zones[z].uindex + 1 == s.zones[z].nmax ==> s.zones[z].free != [])
    case Reuse(zi) => zi < |s.lists| && ZoneFits(s, zi)
    case Install(b, zi) => zi < |s.lists| && ZoneFits(s, zi) && b + ZonePages(s) <= |s.usage|
    case GiveTo(z, _) => RetireFits(s, z)
    case DropEntry(p) => p < |s.usage|
    case Return(_) => true
  }

  predicate ZoneFits(s: State, zi: nat) {
    ChunkSize(zi) > 0 && Capacity(s.zoneSize, ChunkSize(zi)) >= 1
  }

  ghost function Apply(s: State, e: Step): State
    requires Enabled(s, e) && Fits(s, e)
  {
    match e
    case Grab(n) => Grabbed(s, n)
    case HandLarge(b) => LargeHanded(s, b)
    case TakeFrom(zi) => TakeChunk(s, zi)
    case Reuse(zi) => ReuseSpare(s, zi)
    case Install(b, zi) => ReuseSpare(Mapped(s, b), zi)
    case GiveTo(z, a) => Given(s, z, a)
    case DropEntry(p) => EntryDropped(s, p)
    case Return(b) => Returned(s, b)
  }

  /** What each step does to the memory in use. */
  ghost predicate Changes(s: State, e: Step, s': State) {
    match e
    case Grab(_) => Live(s') == Live(s)
    case HandLarge(b) => b in s.reserved && HandsOut(s, s', b * PAGE, s.reserved[b] * PAGE)
    case TakeFrom(zi) => exists a :: HandsOut(s, s', a, ChunkSize(zi))
    case Reuse(zi) => exists a :: HandsOut(s, s', a, ChunkSize(zi))
    case Install(_, zi) => exists a :: HandsOut(s, s', a, ChunkSize(zi))
    case GiveTo(_, a) => Live(s') == Live(s) - {a}
    case DropEntry(p) => Live(s') == Live(s) - {p * PAGE}
    case Return(_) => Live(s') == Live(s)
  }

  /** The page map's pages stay reserved. */
  ghost predicate SameMap(s: State, s': State) {
    0 in s.reserved && 0 in s'.reserved && s'.reserved[0] == s.reserved[0] && s'.npages == s.npages
  }

  lemma StepKeeps(s: State, e: Step)
    requires Ok(s) && Enabled(s, e)
    ensures Fits(s, e)
    ensures Ok(Apply(s, e)) && Changes(s, e, Apply(s, e)) && SameMap(s, Apply(s, e))
  {
    hide Inv, Live, HandsOut, Covered, ChunkSize, Capacity, LiveIn;
    MapReserved(s, ZONE_RELEASE_THRESH);
    match e
    case Grab(n) => GrabKeeps(s, n);
    case HandLarge(b) => HandLargeKeeps(s, b);
    case TakeFrom(zi) => TakeFromKeeps(s, zi);
    case Reuse(zi) =>
      ReuseKeeps(s, zi, ZONE_RELEASE_THRESH);
      InvMore(ReuseSpare(s, zi), ZONE_RELEASE_THRESH - 1);
    case Install(b, zi) => InstallKeeps(s, b, zi);
    case GiveTo(z, a) => GiveToKeeps(s, z, a);
    case DropEntry(p) => DropEntryKeeps(s, p);
    case Return(b) => ReturnKeeps(s, b);
  }

  lemma MapReserved(s: State, limit: nat)
    requires Inv(s, limit)
    ensures 0 in s.reserved && 0 in Blocks(s) && 0 !in s.zones && 0 !in s.large
  {
  }

  lemma InstallKeeps(s: State, b: nat, zi: nat)
    requires Ok(s) && Enabled(s, Install(b, zi))
    ensures Fits(s, Install(b, zi))
    ensures var s', e := Apply(s, Install(b, zi)), Install(b, zi);
            Ok(s') && Changes(s, e, s') && SameMap(s, s')
  {
    hide Inv, Live, Covered, ChunkSize, Capacity, LiveIn, HandsOut;
    MapReserved(s, ZONE_RELEASE_THRESH);
    MapKeeps(s, b);
    var m := Mapped(s, b);
    ReuseKeeps(m, zi, ZONE_RELEASE_THRESH + 1);
    var s' := ReuseSpare(m, zi);
    var a :| HandsOut(m, s', a, ChunkSize(zi));
    SameLive(s, m, s', a, ChunkSize(zi));
  }

  lemma GiveToKeeps(s: State, z: nat, a: nat)
    requires Ok(s) && Enabled(s, GiveTo(z, a))
    ensures Fits(s, GiveTo(z, a))
    ensures var s', e := Apply(s, GiveTo(z, a)), GiveTo(z, a);
            Ok(s') && Changes(s, e, s') && SameMap(s, s')
  {
    hide Inv, Live, Covered, LiveIn;
    MapReserved(s, ZONE_RELEASE_THRESH);
    LiveZone(s, z, a);
    GiveKeepsAll(s, z, a);
  }

  ghost predicate IsRun(trace: seq<State>, steps: seq<Step>) {
    && |trace| == |steps| + 1
    && forall k :: 0 <= k < |steps| ==>
         Enabled(trace[k], steps[k]) && Fits(trace[k], steps[k]) && trace[k + 1] == Apply(trace[k], steps[k])
  }

  /** However the locked regions of any number of threads follow one another, the page runs, the page map, the
      zones and the lists stay in order, no page is lost, and the page map keeps its pages. */
  lemma {:induction false} RunKeeps(trace: seq<State>, steps: seq<Step>, npages: nat, zoneSize: nat)
    requires IsRun(trace, steps) && npages > 0 && trace[0] == Start(npages, zoneSize)
    requires zoneSize == ZALLOC_MIN_ZONE_SIZE || zoneSize == 65536 || zoneSize == ZALLOC_MAX_ZONE_SIZE
    ensures Ok(trace[|steps|]) && SameMap(trace[0], trace[|steps|])
  {
    hide Ok, Fits;
    if steps == [] {
      StartOk(npages, zoneSize);
    } else {
      var m := |steps| - 1;
      RunKeeps(trace[..m + 1], steps[..m], npages, zoneSize);
      StepKeeps(trace[m], steps[m]);
    }
  }

  lemma StartOk(npages: nat, zoneSize: nat)
    requires npages > 0
    requires zoneSize == ZALLOC_MIN_ZONE_SIZE || zoneSize == 65536 || zoneSize == ZALLOC_MAX_ZONE_SIZE
    ensures Ok(Start(npages, zoneSize)) && SameMap(Start(npages, zoneSize), Start(npages, zoneSize))
  {
    hide Inv, Pages, AllocRuns, TablePages;
    var s := Start(npages, zoneSize);
    StartKeeps(npages, zoneSize, ZONE_RELEASE_THRESH);
    MapTakesFirst(npages);
    assert Blocks(s) == map[0 := TablePages(npages)];
    forall p: nat | p < npages
      ensures p in Pages(s.runs) || InBlock(Blocks(s), p)
    {
      if p < TablePages(npages) {
        assert 0 in Blocks(s);
      }
    }
  }

  // ---------------------------------------------------------------- memory in use and the allocator's own

  /** Memory in use meets no free page, whose first words hold the run's header, no page of the page map, and
      no page on its way between a zone or large block and the page allocator. */
  lemma UsedClearOfPages(s: State, b: nat, x: nat)
    requires Ok(s) && Owns(s, b, x)
    ensures forall p :: p in Pages(s.runs) ==> (p + 1) * PAGE <= x || x + SizeAt(s, b) <= p * PAGE
    ensures forall r :: r in s.reserved ==> (r + s.reserved[r]) * PAGE <= x || x + SizeAt(s, b) <= r * PAGE
  {
    hide MapOk, ListsOk, ZoneOk, Pages, LiveIn, Covered;
    OwnerHolds(s, ZONE_RELEASE_THRESH, b, x);
    var blocks := Blocks(s);
    forall p | p in Pages(s.runs)
      ensures (p + 1) * PAGE <= x || x + SizeAt(s, b) <= p * PAGE
    {
      assert p !in Interval(b, blocks[b]);
    }
    forall r | r in s.reserved
      ensures (r + s.reserved[r]) * PAGE <= x || x + SizeAt(s, b) <= r * PAGE
    {
      assert r in blocks && r != b;
    }
  }

  /** Nor does it meet a zone's header, or a free chunk, where rt_free writes the link c_next. */
  lemma UsedClearOfZones(s: State, b: nat, x: nat, z: nat)
    requires Ok(s) && Owns(s, b, x) && z in s.zones
    ensures z * PAGE + HEADER <= x || x + SizeAt(s, b) <= z * PAGE
    ensures z !in s.spare ==>
              forall f :: f in s.zones[z].free ==> f + s.zones[z].chunkSize <= x || x + SizeAt(s, b) <= f
  {
    hide MapOk, ListsOk, ZoneOk, Pages, ZoneLive, Covered;
    OwnerHolds(s, ZONE_RELEASE_THRESH, b, x);
    WholePages(s);
    assert z in Blocks(s) && Blocks(s)[z] == ZonePages(s);
    if z !in s.spare {
      forall f | f in s.zones[z].free
        ensures f + s.zones[z].chunkSize <= x || x + SizeAt(s, b) <= f
      {
        FreeChunkApart(s.zones[z], z, s.zoneSize, f, x);
      }
    }
  }

  // ---------------------------------------------------------------- whole calls

  /** Without a thread in between, the regions make up the calls. */
  lemma CallsAreRegions(s: State)
    requires Ok(s)
    ensures forall n: nat :: n > 0 && 0 <= AllocAt(s.runs, n) < |s.usage| ==>
              AddLarge(s, n) == LargeHanded(Grabbed(s, n), AllocAt(s.runs, n))
    ensures var z := AllocAt(s.runs, ZonePages(s));
            0 <= z && z + ZonePages(s) <= |s.usage| ==> AddSpare(s, CLEARED) == Mapped(Grabbed(s, ZonePages(s)), z)
    ensures forall p :: p in s.large && p < |s.usage| ==> DropLarge(s, p) == Returned(EntryDropped(s, p), p)
    ensures s.spare != [] && s.spare[0] + ZonePages(s) <= |s.usage|
            ==> DropSpare(s) == Returned(Unmapped(s), s.spare[0])
  {
    hide Pages, Covered, MapOk, ListsOk, ZoneOk, Canonical, AllocRuns, FreeRuns, AllocAt;
    forall n: nat | n > 0 && AllocAt(s.runs, n) >= 0
      ensures AllocAt(s.runs, n) !in s.reserved
    {
      GrabKeeps(s, n);
    }
    ZonePagesPositive(s, ZONE_RELEASE_THRESH);
    var z := AllocAt(s.runs, ZonePages(s));
    assert z >= 0 ==> s.reserved[z := ZonePages(s)] - {z} == s.reserved;
    forall n: nat | n > 0 && 0 <= AllocAt(s.runs, n) < |s.usage|
      ensures AddLarge(s, n) == LargeHanded(Grabbed(s, n), AllocAt(s.runs, n))
    {
      assert s.reserved[AllocAt(s.runs, n) := n] - {AllocAt(s.runs, n)} == s.reserved;
    }
    forall p | p in s.large && p < |s.usage|
      ensures DropLarge(s, p) == Returned(EntryDropped(s, p), p)
    {
      assert s.reserved[p := s.large[p]] - {p} == s.reserved;
    }
    if s.spare != [] && s.spare[0] + ZonePages(s) <= |s.usage| {
      SpareIn(s, ZONE_RELEASE_THRESH);
      assert s.reserved[s.spare[0] := ZonePages(s)] - {s.spare[0]} == s.reserved;
    }
  }
}
