/** One zone of the slab allocator of rt-thread/src/slab.c: chunk sizes, the layout of a fresh zone, and
    handing chunks out and taking them back. Addresses count bytes from the start of the heap. */
module Zones {
  import opened Sequences
  import opened Numbers
  import Bits

  const PAGE: nat := 4096
  const HEADER: nat := 36
  const ZALLOC_ZONE_LIMIT: nat := 16384
  const ZALLOC_MIN_ZONE_SIZE: nat := 32768
  const ZALLOC_MAX_ZONE_SIZE: nat := 131072
  const NZONES: nat := 72
  const MIN_CHUNK_SIZE: nat := 8

  // ---------------------------------------------------------------- chunk sizes

  function RoundUp(n: nat, m: nat): nat
    requires m > 0
  {
    (n + m - 1) / m * m
  }

  /** zoneindex: the list for requests of n bytes, and the chunk size n is rounded to. */
  function ZoneIndex(n: nat): (r: (int, nat)) {
    if n < 128 then var c := RoundUp(n, 8); (c / 8 - 1, c)
    else if n < 256 then var c := RoundUp(n, 16); (c / 16 + 7, c)
    else if n < 512 then var c := RoundUp(n, 32); (c / 32 + 15, c)
    else if n < 1024 then var c := RoundUp(n, 64); (c / 64 + 23, c)
    else if n < 2048 then var c := RoundUp(n, 128); (c / 128 + 31, c)
    else if n < 4096 then var c := RoundUp(n, 256); (c / 256 + 39, c)
    else if n < 8192 then var c := RoundUp(n, 512); (c / 512 + 47, c)
    else if n < 16384 then var c := RoundUp(n, 1024); (c / 1024 + 55, c)
    else (0, n)
  }

  /** The chunk size that belongs to a list. */
  function ChunkSize(zi: nat): nat {
    if zi < 16 then (zi + 1) * 8
    else if zi < 24 then (zi - 7) * 16
    else if zi < 32 then (zi - 15) * 32
    else if zi < 40 then (zi - 23) * 64
    else if zi < 48 then (zi - 31) * 128
    else if zi < 56 then (zi - 39) * 256
    else if zi < 64 then (zi - 47) * 512
    else (zi - 55) * 1024
  }

  lemma ZoneIndexList(n: nat)
    requires 0 < n < 16384
    ensures var (zi, c) := ZoneIndex(n); 0 <= zi < NZONES && c == ChunkSize(zi)
  {
    hide RoundUp;
    if n < 128 { RoundsUp(n, 8); }
    else if n < 256 { RoundsUp(n, 16); }
    else if n < 512 { RoundsUp(n, 32); }
    else if n < 1024 { RoundsUp(n, 64); }
    else if n < 2048 { RoundsUp(n, 128); }
    else if n < 4096 { RoundsUp(n, 256); }
    else if n < 8192 { RoundsUp(n, 512); }
    else { RoundsUp(n, 1024); }
  }

  /** Every request goes to a list of chunks that hold it, with less than an eighth and 8 bytes wasted;
      one list has one chunk size, and a bigger list bigger chunks. */
  lemma ZoneIndexFits(n: nat)
    requires 0 < n < 16384
    ensures var (zi, c) := ZoneIndex(n); 0 <= zi < NZONES && c == ChunkSize(zi) && n <= c && c % 8 == 0
    ensures var (zi, c) := ZoneIndex(n); 8 * (c - n) < n + 64
    ensures var (zi, c) := ZoneIndex(n); n <= 8192 ==> c <= 8192
  {
    ZoneIndexList(n);
    hide RoundUp, ChunkSize;
    if n < 128 { Granule(n, 1, 1024); }
    else if n < 256 { Granule(n, 2, 512); }
    else if n < 512 { Granule(n, 4, 256); }
    else if n < 1024 { Granule(n, 8, 128); }
    else if n < 2048 { Granule(n, 16, 64); }
    else if n < 4096 { Granule(n, 32, 32); }
    else if n < 8192 { Granule(n, 64, 16); }
    else { Granule(n, 128, 8); }
  }

  /** Rounding to 8 d bytes, of which 8192 is a multiple. */
  lemma Granule(n: nat, d: nat, q: nat)
    requires d > 0 && q * (8 * d) == 8192 && (d == 1 || 64 * d <= n)
    ensures var c := RoundUp(n, 8 * d);
            n <= c && c % 8 == 0 && 8 * (c - n) < n + 64 && (n <= 8192 ==> c <= 8192)
  {
    hide RoundUp;
    RoundsUp(n, 8 * d);
    var t := Units(n, 8 * d);
    EightTimes(t, d);
    if t > q {
      MulKeepsOrder(q + 1, t, 8 * d);
      OneMore(q, 8 * d);
    }
  }

  lemma Units(n: nat, m: nat) returns (t: nat)
    requires m > 0
    ensures RoundUp(n, m) == t * m
  {
    t := (n + m - 1) / m;
  }

  lemma EightTimes(t: nat, d: nat)
    ensures t * (8 * d) % 8 == 0
  {
    assert t * (8 * d) == 8 * (t * d);
  }

  lemma OneMore(q: nat, m: nat)
    ensures (q + 1) * m == q * m + m
  {
  }

  lemma RoundsUp(n: nat, m: nat)
    requires m > 0
    ensures n <= RoundUp(n, m) < n + m && RoundUp(n, m) % m == 0
  {
    var v := n + m - 1;
    assert v == v / m * m + v % m;
    MultipleOf(v / m, m);
  }

  lemma MultipleOf(q: nat, m: nat)
    requires m > 0
    ensures q * m % m == 0
  {
    var d := q * m / m;
    assert q * m == d * m + q * m % m && (d + 1) * m == d * m + m && (q + 1) * m == q * m + m;
    MulKeepsOrder(d + 1, q, m);
    MulKeepsOrder(q + 1, d, m);
  }

  lemma ChunkSizesGrow(a: nat, b: nat)
    requires a < b < NZONES
    ensures ChunkSize(a) < ChunkSize(b)
  {
  }

  // ---------------------------------------------------------------- layout of a fresh zone

  /** The test for a power of two: (size | (size - 1)) + 1 == size << 1 */
  function IsPower(size: nat): bool {
    size > 0 && Bits.Or(size, size - 1) + 1 == 2 * size
  }

  lemma {:induction false} OrSelf(a: nat)
    ensures Bits.Or(a, a) == a
  {
    if a > 0 {
      OrSelf(a / 2);
    }
  }

  lemma {:induction false} PowerOfTwo(size: nat) returns (k: nat)
    requires IsPower(size)
    ensures size == Bits.Shl1(k)
  {
    if size % 2 == 1 {
      OrSelf(size / 2);
      assert (size - 1) / 2 == size / 2 && (size - 1) % 2 == 0;
      assert Bits.Or(size, size - 1) == size;
      k := 0;
    } else {
      OrOfEven(size / 2);
      var j := PowerOfTwo(size / 2);
      k := j + 1;
    }
  }

  /** Clearing the low bits rounds down. */
  lemma {:induction false} ClearLow(v: nat, k: nat)
    ensures Bits.AndNot(v, Bits.Shl1(k) - 1) == Bits.Shl(Bits.Shr(v, k), k)
    decreases k
  {
    if k == 0 {
      Bits.AndNotNothing(v);
    } else if v == 0 {
      ClearLow(0, k - 1);
    } else {
      var h := Bits.Shl1(k - 1);
      assert (2 * h - 1) / 2 == h - 1 && (2 * h - 1) % 2 == 1;
      ClearLow(v / 2, k - 1);
    }
  }

  lemma {:induction false} OneLeft(k: nat, r: nat)
    requires r < Bits.Shl1(k)
    ensures Bits.Shr(Bits.Shl1(k) + r, k) == 1 && Bits.Shl(1, k) == Bits.Shl1(k)
  {
    if k > 0 {
      assert (Bits.Shl1(k) + r) / 2 == Bits.Shl1(k - 1) + r / 2;
      OneLeft(k - 1, r / 2);
    }
  }

  /** Offset of the first chunk: behind the header, aligned to the chunk size if that is a power of two. */
  function FirstOffset(size: nat): nat
    requires size > 0
  {
    if IsPower(size) then Bits.AndNot(HEADER + size - 1, size - 1)
    else Bits.AndNot(HEADER + MIN_CHUNK_SIZE - 1, MIN_CHUNK_SIZE - 1)
  }

  lemma SmallOffsets()
    ensures Bits.AndNot(43, 7) == 40 && Bits.AndNot(51, 15) == 48 && Bits.AndNot(67, 31) == 64
  {
    hide Bits.AndNot;
    SmallShifts();
    ClearLow(43, 3);
    ClearLow(51, 4);
    ClearLow(67, 5);
  }

  lemma SmallShifts()
    ensures Bits.Shl1(3) == 8 && Bits.Shl1(4) == 16 && Bits.Shl1(5) == 32
    ensures Bits.Shl(Bits.Shr(43, 3), 3) == 40 && Bits.Shl(Bits.Shr(51, 4), 4) == 48
            && Bits.Shl(Bits.Shr(67, 5), 5) == 64
  {
    assert Bits.Shr(43, 3) == Bits.Shr(10, 1) == 5 && Bits.Shl(5, 1) == 10 && Bits.Shl(5, 3) == 4 * Bits.Shl(5, 1);
    assert Bits.Shr(51, 4) == Bits.Shr(12, 2) == 3 && Bits.Shl(3, 2) == 12 && Bits.Shl(3, 4) == 4 * Bits.Shl(3, 2);
    assert Bits.Shr(67, 5) == Bits.Shr(16, 3) == Bits.Shr(4, 1) == 2 && Bits.Shl(2, 1) == 4 && Bits.Shl(2, 3) == 16
        && Bits.Shl(2, 5) == 4 * Bits.Shl(2, 3);
  }

  lemma PowersBelow64(k: nat)
    requires Bits.Shl1(k) < 64 && Bits.Shl1(k) % 8 == 0
    ensures k == 3 || k == 4 || k == 5
    ensures Bits.Shl1(k) == 8 || Bits.Shl1(k) == 16 || Bits.Shl1(k) == 32
  {
    if k >= 6 {
      Bits.ShlMonotone(6, k);
    }
  }

  /** The first chunk of a power of two from 64 up is at its own size; no other is far behind the header. */
  lemma FirstOffsetIs(size: nat)
    requires size > 0 && size % 8 == 0
    ensures HEADER <= FirstOffset(size)
    ensures IsPower(size) && size >= 64 ==> FirstOffset(size) == size
    ensures !IsPower(size) ==> FirstOffset(size) == 40
    ensures size < 64 ==> FirstOffset(size) <= 64
  {
    SmallOffsets();
    if IsPower(size) {
      var k := PowerOfTwo(size);
      if size >= 64 {
        ClearLow(size + 35, k);
        OneLeft(k, 35);
      } else {
        PowersBelow64(k);
      }
    }
  }

  function Capacity(zoneSize: nat, size: nat): int
    requires size > 0
  {
    (zoneSize - FirstOffset(size)) / size
  }

  /** A fresh zone has at least three chunks, so it has two more to give after the first. */
  lemma FreshZoneHasThree(zoneSize: nat, zi: nat)
    requires zoneSize == ZALLOC_MIN_ZONE_SIZE || zoneSize == 65536 || zoneSize == ZALLOC_MAX_ZONE_SIZE
    requires zi < NZONES && 4 * ChunkSize(zi) <= zoneSize
    ensures Capacity(zoneSize, ChunkSize(zi)) >= 3
    ensures FirstOffset(ChunkSize(zi)) + Capacity(zoneSize, ChunkSize(zi)) * ChunkSize(zi) <= zoneSize
  {
    var size, off := ChunkSize(zi), FirstOffset(ChunkSize(zi));
    ChunkSizePositive(zi);
    FirstOffsetIs(size);
    hide FirstOffset;
    if !IsPower(size) && 4 * size == zoneSize {
      BigPowers(size);
    }
    hide ChunkSize, IsPower;
    assert zoneSize - off >= 3 * size;
    Quotient(zoneSize - off, size, 3);
  }

  lemma OrOfEven(h: nat)
    requires h > 0
    ensures Bits.Or(2 * h, 2 * h - 1) == 1 + 2 * Bits.Or(h, h - 1)
  {
    assert (2 * h - 1) / 2 == h - 1 && (2 * h - 1) % 2 == 1 && 2 * h / 2 == h;
  }

  lemma {:induction false} PowersPass(k: nat)
    ensures IsPower(Bits.Shl1(k))
  {
    if k == 0 {
      assert Bits.Or(1, 0) == 1 + 2 * Bits.Or(0, 0);
    } else {
      PowersPass(k - 1);
      OrOfEven(Bits.Shl1(k - 1));
    }
  }

  lemma BigShifts()
    ensures Bits.Shl1(13) == 8192 && Bits.Shl1(14) == 16384 && Bits.Shl1(15) == 32768
  {
    assert Bits.Shl1(4) == 16;
    assert Bits.Shl1(8) == 256;
    assert Bits.Shl1(12) == 4096;
  }

  lemma BigPowers(size: nat)
    requires size == 8192 || size == 16384 || size == 32768
    ensures IsPower(size)
  {
    BigShifts();
    PowersPass(if size == 8192 then 13 else if size == 16384 then 14 else 15);
    hide IsPower;
  }

  lemma Quotient(v: nat, m: nat, q: nat)
    requires m > 0 && v >= q * m
    ensures v / m >= q && v / m * m <= v
  {
    var d := v / m;
    assert v == d * m + v % m && (d + 1) * m == d * m + m;
    MulKeepsOrder(d + 1, q, m);
  }

  // ---------------------------------------------------------------- chunks

  /** slab_zone: the header, with its free-chunk list spelled out. */
  datatype Zone = Zone(nfree: nat, nmax: nat, uindex: nat, chunkSize: nat, index: nat, base: nat, free: seq<nat>)

  function ChunkAt(zone: Zone, k: nat): nat {
    zone.base + k * zone.chunkSize
  }

  /** The first n chunks of an array of them. */
  ghost function Chunks(base: nat, size: nat, n: nat): set<nat> {
    if n == 0 then {} else Chunks(base, size, n - 1) + {base + (n - 1) * size}
  }

  /** The chunks that have ever been handed out. */
  ghost function Touched(zone: Zone): set<nat> {
    Chunks(zone.base, zone.chunkSize, zone.uindex + 1)
  }

  ghost function ZoneLive(zone: Zone): set<nat> {
    Touched(zone) - Elems(zone.free)
  }

  /** The chunks lie behind the header and inside the zone; the free list holds chunks handed out before,
      each once; nfree counts it and the chunks never used. */
  ghost predicate ZoneOk(zone: Zone, start: nat, zoneSize: nat) {
    && zone.chunkSize > 0 && zone.uindex < zone.nmax
    && start * PAGE + HEADER <= zone.base && ChunkAt(zone, zone.nmax) <= start * PAGE + zoneSize
    && Distinct(zone.free) && Elems(zone.free) <= Touched(zone)
    && zone.nfree == zone.nmax - 1 - zone.uindex + |zone.free|
  }

  /** The chunk rt_malloc takes from a zone that has one: never-used ones first. */
  function Take(zone: Zone): (Zone, nat)
    requires zone.nfree > 0 && (zone.uindex + 1 == zone.nmax ==> zone.free != [])
  {
    if zone.uindex + 1 != zone.nmax
      then (zone.(nfree := zone.nfree - 1, uindex := zone.uindex + 1), ChunkAt(zone, zone.uindex + 1))
    else (zone.(nfree := zone.nfree - 1, free := zone.free[1..]), zone.free[0])
  }

  function Give(zone: Zone, a: nat): Zone {
    zone.(nfree := zone.nfree + 1, free := [a] + zone.free)
  }

  function Fresh(start: nat, zi: nat, size: nat, zoneSize: nat): Zone
    requires size > 0 && Capacity(zoneSize, size) >= 1
  {
    var nmax := Capacity(zoneSize, size);
    Zone(nmax - 1, nmax, 0, size, zi, start * PAGE + FirstOffset(size), [])
  }

  lemma {:induction false} ChunksBelow(base: nat, size: nat, n: nat)
    ensures forall a :: a in Chunks(base, size, n) ==> base <= a && a + size <= base + n * size
  {
    if n > 0 {
      ChunksBelow(base, size, n - 1);
      assert n * size == (n - 1) * size + size;
    }
  }

  lemma {:induction false} ChunksApart(base: nat, size: nat, n: nat, a: nat, b: nat)
    requires a in Chunks(base, size, n) && b in Chunks(base, size, n) && a < b
    ensures a + size <= b
  {
    ChunksBelow(base, size, n - 1);
    if a in Chunks(base, size, n - 1) && b in Chunks(base, size, n - 1) {
      ChunksApart(base, size, n - 1, a, b);
    }
  }

  lemma {:induction false} ChunksCount(base: nat, size: nat, n: nat)
    requires size > 0
    ensures |Chunks(base, size, n)| == n
  {
    if n > 0 {
      ChunksBelow(base, size, n - 1);
      ChunksCount(base, size, n - 1);
    }
  }

  /** rt_malloc hands out a chunk that was not in use, and nothing else changes hands. */
  lemma TakeKeeps(zone: Zone, start: nat, zoneSize: nat)
    requires ZoneOk(zone, start, zoneSize) && zone.nfree > 0
    ensures zone.uindex + 1 == zone.nmax ==> zone.free != []
    ensures var (zone', a) := Take(zone);
            ZoneOk(zone', start, zoneSize) && a !in ZoneLive(zone) && ZoneLive(zone') == ZoneLive(zone) + {a}
  {
    var (zone', a) := Take(zone);
    if zone.uindex + 1 != zone.nmax {
      ChunksBelow(zone.base, zone.chunkSize, zone.uindex + 1);
    } else {
      assert zone.free == [a] + zone'.free;
      assert a in Elems(zone.free) && a !in zone'.free;
      assert Elems(zone.free) == Elems(zone'.free) + {a};
      assert Touched(zone') == Touched(zone);
    }
  }

  /** rt_free puts a chunk in use on the free list. */
  lemma GiveKeeps(zone: Zone, start: nat, zoneSize: nat, a: nat)
    requires ZoneOk(zone, start, zoneSize) && a in ZoneLive(zone)
    ensures ZoneOk(Give(zone, a), start, zoneSize) && ZoneLive(Give(zone, a)) == ZoneLive(zone) - {a}
  {
    var zone' := Give(zone, a);
    assert Touched(zone') == Touched(zone);
    assert Elems(zone'.free) == Elems(zone.free) + {a};
    assert a !in zone.free;
  }

  /** A zone gives chunks never used before as long as it has any; after that the one given back last comes first. */
  lemma TakeOrder(zone: Zone, start: nat, zoneSize: nat, a: nat)
    requires ZoneOk(zone, start, zoneSize)
    ensures zone.uindex + 1 < zone.nmax ==> Take(zone).1 !in Touched(zone)
    ensures zone.uindex + 1 == zone.nmax && a in ZoneLive(zone) ==>
              Take(Give(zone, a)) == (zone, a)
  {
    if zone.uindex + 1 < zone.nmax {
      ChunksBelow(zone.base, zone.chunkSize, zone.uindex + 1);
    } else {
      assert ([a] + zone.free)[1..] == zone.free;
    }
  }

  lemma FreshKeeps(start: nat, zi: nat, zoneSize: nat)
    requires zoneSize == ZALLOC_MIN_ZONE_SIZE || zoneSize == 65536 || zoneSize == ZALLOC_MAX_ZONE_SIZE
    requires zi < NZONES && 4 * ChunkSize(zi) <= zoneSize
    ensures ChunkSize(zi) > 0 && Capacity(zoneSize, ChunkSize(zi)) >= 3
    ensures var zone := Fresh(start, zi, ChunkSize(zi), zoneSize);
            ZoneOk(zone, start, zoneSize) && ZoneLive(zone) == {zone.base} && zone.nfree >= 2
  {
    ChunkSizePositive(zi);
    FreshZoneHasThree(zoneSize, zi);
    FirstOffsetIs(ChunkSize(zi));
    hide ChunkSize;
    FreshIsOk(start, zi, ChunkSize(zi), zoneSize);
  }

  lemma ChunkSizePositive(zi: nat)
    requires zi < NZONES
    ensures ChunkSize(zi) > 0 && ChunkSize(zi) % 8 == 0
  {
  }

  lemma FreshIsOk(start: nat, zi: nat, size: nat, zoneSize: nat)
    requires size > 0 && Capacity(zoneSize, size) >= 3 && HEADER <= FirstOffset(size)
    requires FirstOffset(size) + Capacity(zoneSize, size) * size <= zoneSize
    ensures var zone := Fresh(start, zi, size, zoneSize);
            ZoneOk(zone, start, zoneSize) && ZoneLive(zone) == {zone.base} && zone.nfree >= 2
  {
    hide FirstOffset, Capacity;
    var zone := Fresh(start, zi, size, zoneSize);
    assert Chunks(zone.base, size, 1) == Chunks(zone.base, size, 0) + {zone.base};
    assert Touched(zone) == {zone.base};
  }

  /** Chunks in use and chunks free make up the whole zone. */
  lemma LivePlusFree(zone: Zone, start: nat, zoneSize: nat)
    requires ZoneOk(zone, start, zoneSize)
    ensures |ZoneLive(zone)| + zone.nfree == zone.nmax
  {
    ChunksCount(zone.base, zone.chunkSize, zone.uindex + 1);
    ElemsSize(zone.free);
    assert |ZoneLive(zone)| == |Touched(zone)| - |Elems(zone.free)|;
  }

  /** Two chunks in use do not overlap, and none touches the header or leaves the zone. */
  lemma LiveChunksApart(zone: Zone, start: nat, zoneSize: nat, a: nat, b: nat)
    requires ZoneOk(zone, start, zoneSize) && a in ZoneLive(zone) && b in ZoneLive(zone)
    ensures start * PAGE + HEADER <= a && a + zone.chunkSize <= start * PAGE + zoneSize && zone.chunkSize > 0
    ensures a < b ==> a + zone.chunkSize <= b
  {
    ChunksBelow(zone.base, zone.chunkSize, zone.uindex + 1);
    MulKeepsOrder(zone.uindex + 1, zone.nmax, zone.chunkSize);
    if a < b {
      ChunksApart(zone.base, zone.chunkSize, zone.uindex + 1, a, b);
    }
  }

  /** A chunk on the free list, where rt_free writes its link, meets no chunk in use. */
  lemma FreeChunkApart(zone: Zone, start: nat, zoneSize: nat, f: nat, a: nat)
    requires ZoneOk(zone, start, zoneSize) && f in zone.free
    ensures start * PAGE + HEADER <= f && f + zone.chunkSize <= start * PAGE + zoneSize
    ensures a in ZoneLive(zone) ==> f + zone.chunkSize <= a || a + zone.chunkSize <= f
  {
    assert f in Elems(zone.free);
    ChunksBelow(zone.base, zone.chunkSize, zone.uindex + 1);
    MulKeepsOrder(zone.uindex + 1, zone.nmax, zone.chunkSize);
    if a in ZoneLive(zone) {
      if a < f {
        ChunksApart(zone.base, zone.chunkSize, zone.uindex + 1, a, f);
      } else {
        assert a != f;
        ChunksApart(zone.base, zone.chunkSize, zone.uindex + 1, f, a);
      }
    }
  }
}
