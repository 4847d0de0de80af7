/**
 64DD disk images: the walk of sw/deployer/src/disk.rs over the zones of a disk, which gives every
 good block its number and its place in the image file, and the reads and writes through it.
 */
module DiskImage {
  import opened Bytes

  const BLOCKS_PER_TRACK := 2
  const SECTORS_PER_BLOCK := 85
  const SYSTEM_SECTOR_LENGTH := 232
  const BAD_TRACKS_PER_ZONE := 12
  const ZONES := 16
  const TYPES := 7

  datatype DiskZone = DiskZone(head: nat, sectorLength: nat, tracks: nat, trackOffset: nat)

  function Zone(z: nat): (r: DiskZone)
    requires z < ZONES
    ensures r.head == z / 8 && 112 <= r.sectorLength <= 232 && 114 <= r.tracks <= 158
  {
    if z == 0 then DiskZone(0, 232, 158, 0)
    else if z == 1 then DiskZone(0, 216, 158, 158)
    else if z == 2 then DiskZone(0, 208, 149, 316)
    else if z == 3 then DiskZone(0, 192, 149, 465)
    else if z == 4 then DiskZone(0, 176, 149, 614)
    else if z == 5 then DiskZone(0, 160, 149, 763)
    else if z == 6 then DiskZone(0, 144, 149, 912)
    else if z == 7 then DiskZone(0, 128, 114, 1061)
    else if z == 8 then DiskZone(1, 216, 158, 0)
    else if z == 9 then DiskZone(1, 208, 158, 158)
    else if z == 10 then DiskZone(1, 192, 149, 316)
    else if z == 11 then DiskZone(1, 176, 149, 465)
    else if z == 12 then DiskZone(1, 160, 149, 614)
    else if z == 13 then DiskZone(1, 144, 149, 763)
    else if z == 14 then DiskZone(1, 128, 149, 912)
    else DiskZone(1, 112, 114, 1061)
  }

  const VZONE_TO_PZONE: seq<seq<nat>> := [
    [0, 1, 2, 9, 8, 3, 4, 5, 6, 7, 15, 14, 13, 12, 11, 10],
    [0, 1, 2, 3, 10, 9, 8, 4, 5, 6, 7, 15, 14, 13, 12, 11],
    [0, 1, 2, 3, 4, 11, 10, 9, 8, 5, 6, 7, 15, 14, 13, 12],
    [0, 1, 2, 3, 4, 5, 12, 11, 10, 9, 8, 6, 7, 15, 14, 13],
    [0, 1, 2, 3, 4, 5, 6, 13, 12, 11, 10, 9, 8, 7, 15, 14],
    [0, 1, 2, 3, 4, 5, 6, 7, 14, 13, 12, 11, 10, 9, 8, 15],
    [0, 1, 2, 3, 4, 5, 6, 7, 15, 14, 13, 12, 11, 10, 9, 8]]

  const ROM_ZONES: seq<nat> := [5, 7, 9, 11, 13, 15, 16]

  /** The physical zone at place v of the walk. */
  function PZone(diskType: nat, v: nat): (z: nat)
    requires diskType < TYPES && v < ZONES
    ensures z < ZONES
  {
    VZONE_TO_PZONE[diskType][v]
  }

  /** The place of a physical zone in the walk. */
  ghost function VZone(diskType: nat, z: nat): int {
    if diskType == 6 then (if z < 8 then z else 23 - z)
    else if z < 8 then (if z < diskType + 3 then z else z + diskType + 2)
    else if z < diskType + 10 then 2 * diskType + 12 - z else 25 - z + diskType
  }

  lemma {:induction false} VZoneInverts(diskType: nat, v: nat)
    requires diskType < TYPES && v < ZONES
    ensures VZone(diskType, PZone(diskType, v)) == v
  {
    if diskType == 0 {} else if diskType == 1 {} else if diskType == 2 {} else if diskType == 3 {}
    else if diskType == 4 {} else if diskType == 5 {} else {}
  }

  lemma {:induction false} PhysicalUnique(y: nat, i: nat, z: nat, j: nat)
    requires y < ZONES && z < ZONES && i < Zone(y).tracks && j < Zone(z).tracks
    requires Zone(y).head == Zone(z).head && Zone(y).trackOffset + i == Zone(z).trackOffset + j
    ensures y == z && i == j
  {
  }

  // ---------- the tracks of a disk, in walking order ----------

  datatype TrackRef = TrackRef(vzone: nat, zone: nat, index: nat)

  /** Per zone, the tracks to leave out. */
  type BadTracks = b: seq<seq<nat>> | |b| == ZONES witness seq(ZONES, _ => [])

  /** The k-th track of a zone: upper heads are walked upwards, lower ones downwards. Its own inverse. */
  function Order(z: nat, k: nat): (t: nat)
    requires z < ZONES && k < Zone(z).tracks
    ensures t < Zone(z).tracks
  {
    if Zone(z).head == 0 then k else Zone(z).tracks - 1 - k
  }

  /** The good ones among the first k tracks of a zone. */
  function Visited(z: nat, bad: seq<nat>, k: nat): seq<nat>
    requires z < ZONES && k <= Zone(z).tracks
  {
    if k == 0 then [] else Visited(z, bad, k - 1) + (if Order(z, k - 1) in bad then [] else [Order(z, k - 1)])
  }

  function GoodTracks(z: nat, bad: seq<nat>): seq<nat>
    requires z < ZONES
  {
    Visited(z, bad, Zone(z).tracks)
  }

  function Refs(v: nat, z: nat, tracks: seq<nat>): (r: seq<TrackRef>)
    ensures |r| == |tracks| && forall i :: 0 <= i < |r| ==> r[i] == TrackRef(v, z, tracks[i])
  {
    seq(|tracks|, i requires 0 <= i < |tracks| => TrackRef(v, z, tracks[i]))
  }

  /** The tracks of the first v zones of the walk. */
  function Walk(diskType: nat, bad: BadTracks, v: nat): seq<TrackRef>
    requires diskType < TYPES && v <= ZONES
  {
    if v == 0 then [] else
      var z := PZone(diskType, v - 1);
      Walk(diskType, bad, v - 1) + Refs(v - 1, z, GoodTracks(z, bad[z]))
  }

  ghost predicate Distinct<T>(s: seq<T>) {
    forall i, j :: 0 <= i < j < |s| ==> s[i] != s[j]
  }

  lemma {:induction false} VisitedFacts(z: nat, bad: seq<nat>, k: nat)
    requires z < ZONES && k <= Zone(z).tracks
    ensures Distinct(Visited(z, bad, k))
    ensures var s := Visited(z, bad, k);
      forall i :: 0 <= i < |s| ==> s[i] < Zone(z).tracks && s[i] !in bad && Order(z, s[i]) < k
  {
    hide Zone;
    if k > 0 { VisitedFacts(z, bad, k - 1); }
  }

  ghost predicate ProperRef(diskType: nat, bad: BadTracks, v: nat, r: TrackRef)
    requires diskType < TYPES && v <= ZONES
  {
    r.vzone < v && r.zone == PZone(diskType, r.vzone) && r.index < Zone(r.zone).tracks && r.index !in bad[r.zone]
  }

  lemma {:induction false} RefsFacts(diskType: nat, bad: BadTracks, v: nat)
    requires diskType < TYPES && v < ZONES
    ensures var z := PZone(diskType, v); var refs := Refs(v, z, GoodTracks(z, bad[z]));
      Distinct(refs) && forall i :: 0 <= i < |refs| ==> refs[i].vzone == v && ProperRef(diskType, bad, v + 1, refs[i])
  {
    var z := PZone(diskType, v);
    VisitedFacts(z, bad[z], Zone(z).tracks);
    hide PZone, Zone, Visited;
  }

  /** The walk meets every track at most once, and only good ones. */
  lemma {:induction false} WalkFacts(diskType: nat, bad: BadTracks, v: nat)
    requires diskType < TYPES && v <= ZONES
    ensures Distinct(Walk(diskType, bad, v))
    ensures forall i :: 0 <= i < |Walk(diskType, bad, v)| ==> ProperRef(diskType, bad, v, Walk(diskType, bad, v)[i])
  {
    hide PZone, Zone, GoodTracks;
    if v > 0 {
      var z := PZone(diskType, v - 1);
      var before, more := Walk(diskType, bad, v - 1), Refs(v - 1, z, GoodTracks(z, bad[z]));
      assert Walk(diskType, bad, v) == before + more;
      WalkFacts(diskType, bad, v - 1);
      RefsFacts(diskType, bad, v - 1);
      hide Walk;
      DistinctAppend(before, more);
    }
  }

  lemma {:induction false} DistinctAppend<T>(a: seq<T>, b: seq<T>)
    requires Distinct(a) && Distinct(b) && forall i, j :: 0 <= i < |a| && 0 <= j < |b| ==> a[i] != b[j]
    ensures Distinct(a + b)
  {
  }

  // ---------- block numbers, locations and file ranges ----------

  datatype Mapping = Mapping(lba: nat, offset: nat, length: nat, writable: bool)

  function Flip(a: nat, b: nat): nat { (a + b) % 2 }

  /** track, head and block packed the way the drive asks for them. */
  function Location(track: nat, head: nat, block: nat): nat {
    4 * track + 2 * head + block
  }

  function TrackLength(r: TrackRef): nat
    requires r.zone < ZONES
  {
    Zone(r.zone).sectorLength * SECTORS_PER_BLOCK
  }

  ghost predicate ProperTracks(tracks: seq<TrackRef>) {
    forall i :: 0 <= i < |tracks| ==> tracks[i].zone < ZONES && tracks[i].index < Zone(tracks[i].zone).tracks
  }

  /** Bytes of the image in front of track number n. */
  function TrackOffset(tracks: seq<TrackRef>, n: nat): nat
    requires ProperTracks(tracks) && n <= |tracks|
  {
    if n == 0 then 0 else TrackOffset(tracks, n - 1) + 2 * TrackLength(tracks[n - 1])
  }

  function LbaLocation(tracks: seq<TrackRef>, lba: nat): nat
    requires ProperTracks(tracks) && lba < 2 * |tracks|
  {
    var r, zone := tracks[lba / 2], Zone(tracks[lba / 2].zone);
    Location(zone.trackOffset + r.index, zone.head, Flip(lba / 2 % 2, lba % 2))
  }

  function LbaMapping(tracks: seq<TrackRef>, romZones: nat, lba: nat): Mapping
    requires ProperTracks(tracks) && lba < 2 * |tracks|
  {
    var r := tracks[lba / 2];
    Mapping(lba, TrackOffset(tracks, lba / 2) + (if lba % 2 == 0 then 0 else TrackLength(r)), TrackLength(r), r.vzone >= romZones)
  }

  /** The index load_ndd builds: the first n blocks, without the bad ones. */
  function Index(tracks: seq<TrackRef>, romZones: nat, badLbas: seq<nat>, n: nat): map<nat, Mapping>
    requires ProperTracks(tracks) && n <= 2 * |tracks|
  {
    if n == 0 then map[]
    else if n - 1 in badLbas then Index(tracks, romZones, badLbas, n - 1)
    else Index(tracks, romZones, badLbas, n - 1)[LbaLocation(tracks, n - 1) := LbaMapping(tracks, romZones, n - 1)]
  }

  ghost predicate LocationsInjective(tracks: seq<TrackRef>)
    requires ProperTracks(tracks)
  {
    forall a, b :: 0 <= a < 2 * |tracks| && 0 <= b < 2 * |tracks| && LbaLocation(tracks, a) == LbaLocation(tracks, b) ==> a == b
  }

  lemma {:induction false} SamePlaceSameTrack(diskType: nat, bad: BadTracks, r: TrackRef, q: TrackRef)
    requires diskType < TYPES && ProperRef(diskType, bad, ZONES, r) && ProperRef(diskType, bad, ZONES, q)
    requires Zone(r.zone).head == Zone(q.zone).head
    requires Zone(r.zone).trackOffset + r.index == Zone(q.zone).trackOffset + q.index
    ensures r == q
  {
    PhysicalUnique(r.zone, r.index, q.zone, q.index);
    hide Zone, PZone, VZone;
    VZoneInverts(diskType, r.vzone);
    VZoneInverts(diskType, q.vzone);
  }

  lemma {:induction false} SameBlock(a: nat, b: nat)
    requires a / 2 == b / 2 && Flip(a / 2 % 2, a % 2) == Flip(b / 2 % 2, b % 2)
    ensures a == b
  {
  }

  /** Track, head and block determine the block number. */
  lemma {:induction false} LocationDetermines(diskType: nat, bad: BadTracks, tracks: seq<TrackRef>, a: nat, b: nat)
    requires diskType < TYPES && ProperTracks(tracks) && a < 2 * |tracks| && b < 2 * |tracks| && Distinct(tracks)
    requires forall i :: 0 <= i < |tracks| ==> ProperRef(diskType, bad, ZONES, tracks[i])
    requires LbaLocation(tracks, a) == LbaLocation(tracks, b)
    ensures a == b
  {
    var r, q := tracks[a / 2], tracks[b / 2];
    hide Zone, PZone, Location, Flip;
    var x, y := Zone(r.zone), Zone(q.zone);
    FlipRange(a);
    FlipRange(b);
    LocationParts(x.trackOffset + r.index, x.head, Flip(a / 2 % 2, a % 2), y.trackOffset + q.index, y.head, Flip(b / 2 % 2, b % 2));
    SamePlaceSameTrack(diskType, bad, r, q);
    SameBlock(a, b);
  }

  lemma {:induction false} FlipRange(a: nat)
    ensures Flip(a / 2 % 2, a % 2) < 2
  {
  }

  /** No two blocks of a disk have the same track, head and block. */
  lemma {:induction false} WalkIsInjective(diskType: nat, bad: BadTracks)
    requires diskType < TYPES
    ensures ProperTracks(Walk(diskType, bad, ZONES)) && LocationsInjective(Walk(diskType, bad, ZONES))
  {
    hide Walk, PZone, Zone, LbaLocation;
    WalkFacts(diskType, bad, ZONES);
    var tracks := Walk(diskType, bad, ZONES);
    forall a, b | 0 <= a < 2 * |tracks| && 0 <= b < 2 * |tracks| && LbaLocation(tracks, a) == LbaLocation(tracks, b)
      ensures a == b
    {
      LocationDetermines(diskType, bad, tracks, a, b);
    }
  }

  lemma {:induction false} LocationParts(t1: nat, h1: nat, b1: nat, t2: nat, h2: nat, b2: nat)
    requires h1 < 2 && b1 < 2 && h2 < 2 && b2 < 2 && Location(t1, h1, b1) == Location(t2, h2, b2)
    ensures t1 == t2 && h1 == h2 && b1 == b2
  {
  }

  /** File ranges follow each other without gap or overlap. */
  lemma {:induction false} RangesAdjacent(tracks: seq<TrackRef>, romZones: nat, lba: nat)
    requires ProperTracks(tracks) && lba + 1 < 2 * |tracks|
    ensures var m, next := LbaMapping(tracks, romZones, lba), LbaMapping(tracks, romZones, lba + 1);
      m.offset + m.length == next.offset
  {
    hide TrackLength;
    if lba % 2 == 0 {
      assert (lba + 1) / 2 == lba / 2;
    } else {
      assert (lba + 1) / 2 == lba / 2 + 1;
    }
  }

  lemma {:induction false} RangesDisjoint(tracks: seq<TrackRef>, romZones: nat, a: nat, b: nat)
    requires ProperTracks(tracks) && a < b < 2 * |tracks|
    ensures LbaMapping(tracks, romZones, a).offset + LbaMapping(tracks, romZones, a).length <= LbaMapping(tracks, romZones, b).offset
    decreases b - a
  {
    hide LbaMapping, ProperTracks;
    RangesAdjacent(tracks, romZones, b - 1);
    if a < b - 1 {
      RangesDisjoint(tracks, romZones, a, b - 1);
    }
  }

  ghost predicate IndexOf(tracks: seq<TrackRef>, romZones: nat, badLbas: seq<nat>, n: nat, index: map<nat, Mapping>)
    requires ProperTracks(tracks) && n <= 2 * |tracks|
  {
    (forall lba :: 0 <= lba < n && lba !in badLbas ==>
      LbaLocation(tracks, lba) in index && index[LbaLocation(tracks, lba)] == LbaMapping(tracks, romZones, lba)) &&
    (forall location :: location in index ==>
      var lba := index[location].lba; lba < n && lba !in badLbas && LbaLocation(tracks, lba) == location)
  }

  lemma {:induction false} IndexStep(tracks: seq<TrackRef>, romZones: nat, badLbas: seq<nat>, n: nat, before: map<nat, Mapping>)
    requires ProperTracks(tracks) && n < 2 * |tracks| && LocationsInjective(tracks)
    requires IndexOf(tracks, romZones, badLbas, n, before)
    ensures n in badLbas ==> IndexOf(tracks, romZones, badLbas, n + 1, before)
    ensures n !in badLbas ==> LbaLocation(tracks, n) !in before
    ensures n !in badLbas ==>
      IndexOf(tracks, romZones, badLbas, n + 1, before[LbaLocation(tracks, n) := LbaMapping(tracks, romZones, n)])
  {
    var here, m := LbaLocation(tracks, n), LbaMapping(tracks, romZones, n);
    assert m.lba == n;
    hide LbaLocation, LbaMapping;
    assert forall lba :: 0 <= lba < n ==> LbaLocation(tracks, lba) != here;
  }

  /** Every good block is in the index under its location, and nothing else is. */
  lemma {:induction false} IndexMeaning(tracks: seq<TrackRef>, romZones: nat, badLbas: seq<nat>, n: nat)
    requires ProperTracks(tracks) && n <= 2 * |tracks| && LocationsInjective(tracks)
    ensures IndexOf(tracks, romZones, badLbas, n, Index(tracks, romZones, badLbas, n))
  {
    hide LbaLocation, LbaMapping;
    if n > 0 {
      IndexMeaning(tracks, romZones, badLbas, n - 1);
      IndexStep(tracks, romZones, badLbas, n - 1, Index(tracks, romZones, badLbas, n - 1));
      hide IndexOf, LocationsInjective;
    }
  }

  // ---------- load_ndd: the walk ----------

  /** The tracks met before place k of the zone at place v. */
  function WalkTo(diskType: nat, bad: BadTracks, v: nat, k: nat): seq<TrackRef>
    requires diskType < TYPES && v < ZONES && k <= Zone(PZone(diskType, v)).tracks
  {
    Walk(diskType, bad, v) + Refs(v, PZone(diskType, v), Visited(PZone(diskType, v), bad[PZone(diskType, v)], k))
  }

  lemma {:induction false} WalkToFacts(diskType: nat, bad: BadTracks, v: nat, k: nat)
    requires diskType < TYPES && v < ZONES && k <= Zone(PZone(diskType, v)).tracks
    ensures k == 0 ==> WalkTo(diskType, bad, v, k) == Walk(diskType, bad, v)
    ensures k == Zone(PZone(diskType, v)).tracks ==> WalkTo(diskType, bad, v, k) == Walk(diskType, bad, v + 1)
    ensures k > 0 ==> var z := PZone(diskType, v);
      WalkTo(diskType, bad, v, k) ==
        if Order(z, k - 1) in bad[z] then WalkTo(diskType, bad, v, k - 1)
        else WalkTo(diskType, bad, v, k - 1) + [TrackRef(v, z, Order(z, k - 1))]
  {
    hide PZone, Zone, Order;
  }

  lemma {:induction false} ProperPrefix(a: seq<TrackRef>, b: seq<TrackRef>)
    requires ProperTracks(a + b)
    ensures ProperTracks(a)
  {
    assert forall i :: 0 <= i < |a| ==> (a + b)[i] == a[i];
  }

  /** Adding a track at the end leaves offsets, locations and mappings of the others alone. */
  lemma {:induction false} PrefixOffset(a: seq<TrackRef>, b: seq<TrackRef>, n: nat)
    requires ProperTracks(a) && ProperTracks(a + b) && n <= |a|
    ensures TrackOffset(a + b, n) == TrackOffset(a, n)
  {
    hide TrackLength;
    if n > 0 { PrefixOffset(a, b, n - 1); }
  }

  lemma {:induction false} PrefixLba(a: seq<TrackRef>, b: seq<TrackRef>, romZones: nat, lba: nat)
    requires ProperTracks(a) && ProperTracks(a + b) && lba < 2 * |a|
    ensures LbaLocation(a + b, lba) == LbaLocation(a, lba)
    ensures LbaMapping(a + b, romZones, lba) == LbaMapping(a, romZones, lba)
  {
    hide TrackOffset, TrackLength, Zone, Flip, Location;
    PrefixOffset(a, b, lba / 2);
    assert (a + b)[lba / 2] == a[lba / 2];
  }

  lemma {:induction false} PrefixIndex(a: seq<TrackRef>, b: seq<TrackRef>, romZones: nat, badLbas: seq<nat>, n: nat)
    requires ProperTracks(a) && ProperTracks(a + b) && n <= 2 * |a|
    ensures Index(a + b, romZones, badLbas, n) == Index(a, romZones, badLbas, n)
  {
    hide LbaLocation, LbaMapping, ProperTracks;
    if n > 0 {
      PrefixIndex(a, b, romZones, badLbas, n - 1);
      PrefixLba(a, b, romZones, n - 1);
    }
  }

  /** The two blocks of one more track. */
  lemma {:induction false} IndexNext(tracks: seq<TrackRef>, r: TrackRef, romZones: nat, badLbas: seq<nat>)
    requires ProperTracks(tracks + [r])
    ensures ProperTracks(tracks) && r.zone < ZONES
    ensures var all, n, zone, length := tracks + [r], |tracks|, Zone(r.zone), TrackLength(r);
      TrackOffset(all, n) == TrackOffset(tracks, n) && TrackOffset(all, n + 1) == TrackOffset(tracks, n) + 2 * length &&
      Index(all, romZones, badLbas, 2 * n) == Index(tracks, romZones, badLbas, 2 * n) &&
      (forall block :: 0 <= block < 2 ==>
        LbaLocation(all, 2 * n + block) == Location(zone.trackOffset + r.index, zone.head, Flip(n % 2, block)) &&
        LbaMapping(all, romZones, 2 * n + block) ==
          Mapping(2 * n + block, TrackOffset(tracks, n) + (if block == 0 then 0 else length), length, r.vzone >= romZones))
  {
    hide Zone, Flip, Location, Index, TrackLength;
    ProperPrefix(tracks, [r]);
    PrefixOffset(tracks, [r], |tracks|);
    PrefixIndex(tracks, [r], romZones, badLbas, 2 * |tracks|);
    var all, n := tracks + [r], |tracks|;
    assert all[n] == r;
    TwoBlocks(n);
    assert LbaLocation(all, 2 * n) == Location(Zone(r.zone).trackOffset + r.index, Zone(r.zone).head, Flip(n % 2, 0));
    assert LbaLocation(all, 2 * n + 1) == Location(Zone(r.zone).trackOffset + r.index, Zone(r.zone).head, Flip(n % 2, 1));
  }

  lemma {:induction false} TwoBlocks(n: nat)
    ensures 2 * n / 2 == n && 2 * n % 2 == 0 && (2 * n + 1) / 2 == n && (2 * n + 1) % 2 == 1
  {
  }

  /** The part of load_ndd that numbers the blocks. */
  method BuildIndex(diskType: nat, bad: BadTracks, badLbas: seq<nat>) returns (mapping: map<nat, Mapping>)
    requires diskType < TYPES
    ensures var tracks := Walk(diskType, bad, ZONES);
      ProperTracks(tracks) && mapping == Index(tracks, ROM_ZONES[diskType], badLbas, 2 * |tracks|)
  {
    hide PZone, Zone, Walk, Index, TrackOffset;
    mapping := map[];
    var lba, offset, startingBlock := 0, 0, 0;
    WalkStart(diskType, bad, badLbas);
    for v := 0 to ZONES
      invariant ProperTracks(Walk(diskType, bad, v))
      invariant At(Walk(diskType, bad, v), ROM_ZONES[diskType], badLbas, mapping, lba, offset, startingBlock)
    {
      mapping, lba, offset, startingBlock := NumberZone(diskType, bad, badLbas, v, mapping, lba, offset, startingBlock);
    }
  }

  /** One zone of the walk. */
  method NumberZone(diskType: nat, bad: BadTracks, badLbas: seq<nat>, v: nat,
                    start: map<nat, Mapping>, startLba: nat, startOffset: nat, startBlock: nat)
    returns (mapping: map<nat, Mapping>, lba: nat, offset: nat, startingBlock: nat)
    requires diskType < TYPES && v < ZONES && ProperTracks(Walk(diskType, bad, v))
    requires At(Walk(diskType, bad, v), ROM_ZONES[diskType], badLbas, start, startLba, startOffset, startBlock)
    ensures ProperTracks(Walk(diskType, bad, v + 1))
    ensures At(Walk(diskType, bad, v + 1), ROM_ZONES[diskType], badLbas, mapping, lba, offset, startingBlock)
  {
    hide PZone, Zone, Walk, WalkTo, At, Order, Flip, ProperTracks;
    mapping, lba, offset, startingBlock := start, startLba, startOffset, startBlock;
    var pzone := PZone(diskType, v);
    var romZones := ROM_ZONES[diskType];
    WalkToFacts(diskType, bad, v, 0);
    for k := 0 to Zone(pzone).tracks
      invariant ProperTracks(WalkTo(diskType, bad, v, k))
      invariant At(WalkTo(diskType, bad, v, k), romZones, badLbas, mapping, lba, offset, startingBlock)
    {
      var zoneTrack := Order(pzone, k);
      ghost var before := WalkTo(diskType, bad, v, k);
      WalkToFacts(diskType, bad, v, k + 1);
      if zoneTrack !in bad[pzone] {
        mapping, lba, offset := AddTrack(before, TrackRef(v, pzone, zoneTrack), romZones, badLbas, mapping, lba, offset, startingBlock);
        startingBlock := Flip(startingBlock, 1);
      }
    }
    WalkToFacts(diskType, bad, v, Zone(pzone).tracks);
  }

  /** The loop variables after the given tracks. */
  ghost predicate At(tracks: seq<TrackRef>, romZones: nat, badLbas: seq<nat>, mapping: map<nat, Mapping>, lba: nat,
          offset: nat, startingBlock: nat)
    requires ProperTracks(tracks)
  {
    lba == 2 * |tracks| && offset == TrackOffset(tracks, |tracks|) && startingBlock == |tracks| % 2 &&
    mapping == Index(tracks, romZones, badLbas, 2 * |tracks|)
  }

  lemma {:induction false} WalkStart(diskType: nat, bad: BadTracks, badLbas: seq<nat>)
    requires diskType < TYPES
    ensures Walk(diskType, bad, 0) == [] && At([], ROM_ZONES[diskType], badLbas, map[], 0, 0, 0)
  {
  }

  method AddTrack(ghost before: seq<TrackRef>, r: TrackRef, romZones: nat, badLbas: seq<nat>,
                  start: map<nat, Mapping>, startLba: nat, startOffset: nat, startingBlock: nat)
    returns (mapping: map<nat, Mapping>, lba: nat, offset: nat)
    requires ProperTracks(before) && r.zone < ZONES && r.index < Zone(r.zone).tracks
    requires At(before, romZones, badLbas, start, startLba, startOffset, startingBlock)
    ensures ProperTracks(before + [r])
    ensures At(before + [r], romZones, badLbas, mapping, lba, offset, Flip(startingBlock, 1))
  {
    hide Zone, Location, TrackOffset, TrackLength, LbaLocation, LbaMapping;
    mapping, lba, offset := start, startLba, startOffset;
    IndexNext(before, r, romZones, badLbas);
    ghost var all := before + [r];
    for block := 0 to BLOCKS_PER_TRACK
      invariant lba == startLba + block
      invariant offset == startOffset + if block == 0 then 0 else if block == 1 then TrackLength(r) else 2 * TrackLength(r)
      invariant mapping == Index(all, romZones, badLbas, 2 * |before| + block)
    {
      var track := Zone(r.zone).trackOffset + r.index;
      var location := Location(track, Zone(r.zone).head, Flip(startingBlock, block));
      var length := TrackLength(r);
      if lba !in badLbas {
        var writable := r.vzone >= romZones;
        mapping := mapping[location := Mapping(lba, offset, length, writable)];
      }
      lba := lba + 1;
      offset := offset + length;
    }
  }
}
