/**
 The layout promises of a 64DD image: its size when every zone leaves out twelve tracks, exactly
 which bad track lists break that, and where the first blocks are without looking at the index
 (load_ndd, load_sys_lba and get_lba in sw/deployer/src/disk.rs).
 */
module DiskLayout {
  import opened Bytes
  import opened DiskImage
  import opened DiskStore
  import opened DiskGeometry

  const FULL_LBAS := 4316
  const FULL_LENGTH := 64931840

  // ---------- how many bad tracks a list names ----------

  lemma {:induction false} OneMore<T>(s: set<T>, t: T)
    ensures |s| <= |s + {t}| <= |s| + 1
    ensures |s + {t}| == |s| + 1 <==> t !in s
  {
    if t in s { assert s + {t} == s; }
  }

  ghost predicate Exact(z: nat, bad: seq<nat>)
    requires z < ZONES
  {
    Distinct(bad) && forall i :: 0 <= i < |bad| ==> bad[i] < Zone(z).tracks
  }

  /** A list names as many tracks as it has entries just when they are distinct and exist. */
  lemma {:induction false} NamedTracks(z: nat, bad: seq<nat>)
    requires z < ZONES
    ensures |BadSet(z, bad)| <= |bad|
    ensures |BadSet(z, bad)| == |bad| <==> Exact(z, bad)
  {
    hide Zone;
    if bad == [] {
      assert BadSet(z, bad) == {};
    } else {
      var init, last := bad[..|bad| - 1], bad[|bad| - 1];
      assert bad == init + [last];
      NamedTracks(z, init);
      assert BadSet(z, bad) == BadSet(z, init) + (if last < Zone(z).tracks then {last} else {});
      OneMore(BadSet(z, init), last);
      ExactNext(z, init, last);
      hide BadSet, Exact;
      assert BadSet(z, init) + {} == BadSet(z, init);
    }
  }

  lemma {:induction false} ExactNext(z: nat, init: seq<nat>, last: nat)
    requires z < ZONES
    ensures Exact(z, init + [last]) <==> Exact(z, init) && last < Zone(z).tracks && last !in BadSet(z, init)
  {
    hide Zone;
    var all := init + [last];
    assert all[|init|] == last;
    assert forall i :: 0 <= i < |init| ==> all[i] == init[i];
  }

  // ---------- the size of a disk ----------

  ghost predicate TwelveEach(bad: BadTracks) {
    forall z :: 0 <= z < ZONES ==> |bad[z]| == BAD_TRACKS_PER_ZONE
  }

  ghost predicate AllExact(bad: BadTracks) {
    forall z :: 0 <= z < ZONES ==> Exact(z, bad[z])
  }

  /** With twelve entries a zone, a disk never has fewer blocks than 4316, and that many just when every entry counts. */
  lemma {:induction false} BlockCount(diskType: nat, bad: BadTracks)
    requires diskType < TYPES && TwelveEach(bad)
    ensures 2 * |Walk(diskType, bad, ZONES)| >= FULL_LBAS
    ensures 2 * |Walk(diskType, bad, ZONES)| == FULL_LBAS <==> AllExact(bad)
  {
    TrackCount(diskType, bad);
    hide Walk, BadSet, Exact;
    NamedTracks(0, bad[0]);
    NamedTracks(1, bad[1]);
    NamedTracks(2, bad[2]);
    NamedTracks(3, bad[3]);
    NamedTracks(4, bad[4]);
    NamedTracks(5, bad[5]);
    NamedTracks(6, bad[6]);
    NamedTracks(7, bad[7]);
    NamedTracks(8, bad[8]);
    NamedTracks(9, bad[9]);
    NamedTracks(10, bad[10]);
    NamedTracks(11, bad[11]);
    NamedTracks(12, bad[12]);
    NamedTracks(13, bad[13]);
    NamedTracks(14, bad[14]);
    NamedTracks(15, bad[15]);
  }

  lemma {:induction false} FullZone(bad: BadTracks, z: nat)
    requires z < ZONES && TwelveEach(bad) && AllExact(bad)
    ensures BytesOf(bad)(z) == (Zone(z).tracks - 12) * (170 * Zone(z).sectorLength)
  {
    hide Zone, BadSet, GoodTracks, Exact;
    BytesOfZone(bad, z);
    GoodCount(z, bad[z]);
    NamedTracks(z, bad[z]);
  }

  /** Every disk type then ends at byte 64,931,840. */
  lemma {:induction false} ImageLength(diskType: nat, bad: BadTracks)
    requires diskType < TYPES && TwelveEach(bad) && AllExact(bad)
    ensures ProperTracks(Walk(diskType, bad, ZONES))
    ensures TrackOffset(Walk(diskType, bad, ZONES), |Walk(diskType, bad, ZONES)|) == FULL_LENGTH
  {
    hide Walk, SumOver, BytesOf, TrackOffset, AllExact, TwelveEach, ProperTracks;
    WalkBytes(diskType, bad, ZONES);
    SumIsOrderFree(diskType, BytesOf(bad));
    FullZone(bad, 0);
    FullZone(bad, 1);
    FullZone(bad, 2);
    FullZone(bad, 3);
    FullZone(bad, 4);
    FullZone(bad, 5);
    FullZone(bad, 6);
    FullZone(bad, 7);
    FullZone(bad, 8);
    FullZone(bad, 9);
    FullZone(bad, 10);
    FullZone(bad, 11);
    FullZone(bad, 12);
    FullZone(bad, 13);
    FullZone(bad, 14);
    FullZone(bad, 15);
  }

  // ---------- the bad tracks of the system area ----------

  /** The tracks the system data lists for a zone. */
  function Listed(sysData: seq<byte>, z: nat): seq<nat>
    requires z < ZONES && ReadableTable(sysData)
  {
    seq(ListedCount(sysData, z), k requires 0 <= k < ListedCount(sysData, z) => sysData[0x20 + ListStart(sysData, z) + k] as nat)
  }

  function ListStart(sysData: seq<byte>, z: nat): nat
    requires z < ZONES && |sysData| == SYSTEM_SECTOR_LENGTH
  {
    if z == 0 then 0 else sysData[7 + z]
  }

  function ListedCount(sysData: seq<byte>, z: nat): nat
    requires z < ZONES && |sysData| == SYSTEM_SECTOR_LENGTH
  {
    if sysData[8 + z] < ListStart(sysData, z) then 0 else sysData[8 + z] - ListStart(sysData, z)
  }

  /** No list is longer than twelve tracks or runs past the system sector. */
  predicate ReadableTable(sysData: seq<byte>) {
    |sysData| == SYSTEM_SECTOR_LENGTH && forall z :: 0 <= z < ZONES ==>
      ListedCount(sysData, z) <= BAD_TRACKS_PER_ZONE &&
      (ListedCount(sysData, z) > 0 ==> 0x20 + ListStart(sysData, z) + ListedCount(sysData, z) <= SYSTEM_SECTOR_LENGTH)
  }

  /** A list filled up to twelve entries with the last tracks of its zone. */
  function Filled(z: nat, listed: seq<nat>): (r: seq<nat>)
    requires z < ZONES && |listed| <= BAD_TRACKS_PER_ZONE
    ensures |r| == BAD_TRACKS_PER_ZONE
  {
    listed + seq(BAD_TRACKS_PER_ZONE - |listed|, k requires k >= 0 => if k < Zone(z).tracks then Zone(z).tracks - k - 1 else 0)
  }

  /** The listed tracks are distinct, and none is one of the fillers or past the end of the zone. */
  ghost predicate Genuine(z: nat, listed: seq<nat>)
    requires z < ZONES
  {
    Distinct(listed) && forall i :: 0 <= i < |listed| ==> listed[i] < Zone(z).tracks - BAD_TRACKS_PER_ZONE + |listed|
  }

  ghost function Filler(tracks: int, k: int): int { tracks - k - 1 }

  lemma {:induction false} BelowFillers(track: int, tracks: int, n: nat)
    requires track < tracks && forall k :: 0 <= k < n ==> Filler(tracks, k) != track
    ensures track < tracks - n
  {
    assert Filler(tracks, tracks - 1 - track) == track;
  }

  /** All entries of a filled list count just when the listed ones are distinct and none is a filler. */
  lemma {:induction false} FilledExact(z: nat, listed: seq<nat>)
    requires z < ZONES && |listed| <= BAD_TRACKS_PER_ZONE
    ensures Exact(z, Filled(z, listed)) <==> Genuine(z, listed)
  {
    var r, n, t := Filled(z, listed), |listed|, Zone(z).tracks;
    hide Zone;
    assert forall i :: 0 <= i < n ==> r[i] == listed[i];
    assert forall i :: n <= i < 12 ==> r[i] == t - (i - n) - 1;
    hide Filled;
    if Exact(z, r) {
      assert forall i, j :: 0 <= i < j < n ==> r[i] != r[j];
      forall i | 0 <= i < n
        ensures listed[i] < t - 12 + n
      {
        assert r[i] == listed[i] < t;
        forall k | 0 <= k < 12 - n
          ensures Filler(t, k) != listed[i]
        {
          assert r[i] != r[n + k];
        }
        BelowFillers(listed[i], t, 12 - n);
      }
    }
  }

  method ZoneBadTracks(sysData: seq<byte>) returns (bad: BadTracks)
    requires ReadableTable(sysData)
    ensures forall z :: 0 <= z < ZONES ==> bad[z] == Filled(z, Listed(sysData, z))
  {
    var zones: seq<seq<nat>> := [];
    for z := 0 to ZONES
      invariant |zones| == z && forall y :: 0 <= y < z ==> zones[y] == Filled(y, Listed(sysData, y))
    {
      var tracks := OneZone(sysData, z);
      zones := zones + [tracks];
    }
    bad := zones;
  }

  method OneZone(sysData: seq<byte>, z: nat) returns (tracks: seq<nat>)
    requires z < ZONES && ReadableTable(sysData)
    ensures tracks == Filled(z, Listed(sysData, z))
  {
    hide Zone, ReadableTable, ListedCount, ListStart;
    tracks := ListedTracks(sysData, z);
    hide Listed;
    ghost var listed := tracks;
    ListedLength(sysData, z);
    var missing := BAD_TRACKS_PER_ZONE - |tracks|;
    ghost var all := Filled(z, listed);
    var last := Zone(z).tracks - 1;
    assert forall i :: |listed| <= i < 12 ==> all[i] == last - (i - |listed|);
    assert all[..|listed|] == listed;
    hide Filled;
    for k := 0 to missing
      invariant tracks == all[..|listed| + k]
    {
      assert all[..|listed| + k + 1] == all[..|listed| + k] + [all[|listed| + k]];
      tracks := tracks + [last - k];
    }
  }

  method ListedTracks(sysData: seq<byte>, z: nat) returns (tracks: seq<nat>)
    requires z < ZONES && ReadableTable(sysData)
    ensures tracks == Listed(sysData, z)
  {
    tracks := [];
    var start: int, stop: int := if z == 0 then 0 else sysData[7 + z], sysData[8 + z];
    assert ListedCount(sysData, z) <= 12 && (start < stop ==> 0x20 + stop <= SYSTEM_SECTOR_LENGTH);
    ghost var listed := Listed(sysData, z);
    assert forall k :: 0 <= k < |listed| ==> listed[k] == sysData[0x20 + start + k];
    assert |listed| == if stop < start then 0 else stop - start;
    hide Listed, ReadableTable;
    var offset := start;
    while offset < stop
      invariant start <= offset && (start <= stop ==> offset <= stop) && (stop < start ==> offset == start)
      invariant tracks == listed[..offset - start]
    {
      assert listed[..offset - start + 1] == listed[..offset - start] + [listed[offset - start]];
      tracks := tracks + [sysData[0x20 + offset] as nat];
      offset := offset + 1;
    }
  }

  /** A disk read from its system data has 4316 blocks just when no zone lists a track twice or lists one of its fillers. */
  lemma {:induction false} SystemDataDecides(diskType: nat, sysData: seq<byte>, bad: BadTracks)
    requires diskType < TYPES && ReadableTable(sysData)
    requires forall z :: 0 <= z < ZONES ==> bad[z] == Filled(z, Listed(sysData, z))
    ensures 2 * |Walk(diskType, bad, ZONES)| == FULL_LBAS <==> forall z :: 0 <= z < ZONES ==> Genuine(z, Listed(sysData, z))
  {
    hide Walk, Listed, Zone, Filled, Exact, Genuine;
    forall z | 0 <= z < ZONES
      ensures Exact(z, bad[z]) <==> Genuine(z, Listed(sysData, z))
    {
      assert |Listed(sysData, z)| <= 12 by { ListedLength(sysData, z); }
      FilledExact(z, Listed(sysData, z));
    }
    BlockCount(diskType, bad);
  }

  lemma {:induction false} ListedLength(sysData: seq<byte>, z: nat)
    requires z < ZONES && ReadableTable(sysData)
    ensures |Listed(sysData, z)| <= 12
  {
  }

  // ---------- even places ----------

  /** On every disk image blocks start at even offsets, and their disk sectors have even lengths. */
  lemma {:induction false} EvenBlocks(diskType: nat, bad: BadTracks, romZones: nat, lba: nat)
    requires diskType < TYPES && ProperTracks(Walk(diskType, bad, ZONES)) && lba < 2 * |Walk(diskType, bad, ZONES)|
    ensures var m, zone := LbaMapping(Walk(diskType, bad, ZONES), romZones, lba), Walk(diskType, bad, ZONES)[lba / 2].zone;
      m.offset % 2 == 0 && m.length == Zone(zone).sectorLength * SECTORS_PER_BLOCK && Zone(zone).sectorLength % 2 == 0
  {
    hide Walk, Zone, ProperTracks;
    EvenMapping(Walk(diskType, bad, ZONES), romZones, lba);
  }

  lemma {:induction false} EvenMapping(tracks: seq<TrackRef>, romZones: nat, lba: nat)
    requires ProperTracks(tracks) && lba < 2 * |tracks|
    ensures var m, zone := LbaMapping(tracks, romZones, lba), tracks[lba / 2].zone;
      m.offset % 2 == 0 && m.length == Zone(zone).sectorLength * SECTORS_PER_BLOCK && Zone(zone).sectorLength % 2 == 0
  {
    EvenLength(tracks[lba / 2].zone);
    EvenOffset(tracks, lba / 2);
    hide Zone, TrackOffset;
  }

  lemma {:induction false} EvenLength(z: nat)
    requires z < ZONES
    ensures Zone(z).sectorLength % 2 == 0 && Zone(z).sectorLength * SECTORS_PER_BLOCK % 2 == 0
  {
  }

  lemma {:induction false} EvenOffset(tracks: seq<TrackRef>, n: nat)
    requires ProperTracks(tracks) && n <= |tracks|
    ensures TrackOffset(tracks, n) % 2 == 0
  {
    hide TrackLength;
    if n > 0 { EvenOffset(tracks, n - 1); }
  }

  // ---------- the first blocks ----------

  lemma {:induction false} FirstZone(diskType: nat, bad: BadTracks, v: nat)
    requires diskType < TYPES && 0 < v <= ZONES
    ensures Refs(0, 0, GoodTracks(0, bad[0])) <= Walk(diskType, bad, v)
  {
    hide GoodTracks, Zone;
    WalkNext(diskType, bad, v - 1);
    if v == 1 {
      assert PZone(diskType, 0) == 0;
      assert Walk(diskType, bad, 0) == [];
    } else {
      FirstZone(diskType, bad, v - 1);
    }
  }

  lemma {:induction false} ZoneOffset(tracks: seq<TrackRef>, n: nat)
    requires ProperTracks(tracks) && n <= |tracks| && forall i :: 0 <= i < n ==> tracks[i].zone == 0
    ensures TrackOffset(tracks, n) == 2 * n * (SYSTEM_SECTOR_LENGTH * SECTORS_PER_BLOCK)
  {
    if n > 0 {
      ZoneOffset(tracks, n - 1);
      assert TrackLength(tracks[n - 1]) == 232 * 85;
    }
  }

  /** The blocks of the first zone are where load_sys_lba looks for them. */
  lemma {:induction false} FirstZoneOffsets(diskType: nat, bad: BadTracks, romZones: nat, lba: nat)
    requires diskType < TYPES && ProperTracks(Walk(diskType, bad, ZONES))
    requires lba < 2 * |GoodTracks(0, bad[0])|
    ensures lba < 2 * |Walk(diskType, bad, ZONES)|
    ensures var m := LbaMapping(Walk(diskType, bad, ZONES), romZones, lba);
      m.offset == lba * (SYSTEM_SECTOR_LENGTH * SECTORS_PER_BLOCK) && m.length == SYSTEM_SECTOR_LENGTH * SECTORS_PER_BLOCK
  {
    FirstZone(diskType, bad, ZONES);
    hide Walk, GoodTracks, TrackOffset, Zone;
    var tracks, first := Walk(diskType, bad, ZONES), Refs(0, 0, GoodTracks(0, bad[0]));
    assert forall i :: 0 <= i < |first| ==> tracks[i] == first[i];
    hide Refs;
    ZoneOffset(tracks, lba / 2);
    assert TrackLength(tracks[lba / 2]) == 232 * 85 by { FirstLength(); }
  }

  lemma {:induction false} FirstLength()
    ensures Zone(0).sectorLength == 232 && Zone(0).tracks == 158
  {
  }

  /** The system blocks are all there: twelve bad tracks leave 146 in the first zone. */
  lemma {:induction false} SystemBlocks(bad: BadTracks)
    requires |bad[0]| <= 12
    ensures |GoodTracks(0, bad[0])| >= 146
  {
    hide GoodTracks, Zone;
    GoodCount(0, bad[0]);
    NamedTracks(0, bad[0]);
    FirstLength();
  }

  lemma {:induction false} VisitedStart(z: nat, bad: seq<nat>, k: nat, n: nat)
    requires z < 8 && n <= k <= Zone(z).tracks && forall t :: 0 <= t < n ==> t !in bad
    ensures n <= |Visited(z, bad, k)| && forall t :: 0 <= t < n ==> Visited(z, bad, k)[t] == t
    decreases k
  {
    hide Zone;
    if k > 0 {
      VisitedStart(z, bad, k - 1, if n < k then n else k - 1);
      VisitedSize(z, bad, k - 1);
    }
  }

  lemma {:induction false} VisitedSize(z: nat, bad: seq<nat>, k: nat)
    requires z < ZONES && k <= Zone(z).tracks
    ensures |Visited(z, bad, k)| <= k
  {
    hide Zone, Order;
    if k > 0 { VisitedSize(z, bad, k - 1); }
  }

  lemma {:induction false} FlipFlip(a: nat, b: nat)
    requires a < 2 && b < 2
    ensures Flip(a, Flip(b, a)) == b && (2 * a + Flip(b, a)) % 2 == Flip(b, a) < 2
  {
  }

  /** With the tracks up to this one good, the closed form is the number the index gives. */
  lemma {:induction false} ClosedFormAgrees(diskType: nat, bad: BadTracks, track: nat, block: nat)
    requires diskType < TYPES && ProperTracks(Walk(diskType, bad, ZONES))
    requires track < 158 && block < 2 && forall t :: 0 <= t <= track ==> t !in bad[0]
    ensures ClosedForm(track, block) < 2 * |Walk(diskType, bad, ZONES)|
    ensures LbaLocation(Walk(diskType, bad, ZONES), ClosedForm(track, block)) == Location(track, 0, block)
  {
    var tracks, first, lba := Walk(diskType, bad, ZONES), Refs(0, 0, GoodTracks(0, bad[0])), ClosedForm(track, block);
    FirstZone(diskType, bad, ZONES);
    assert Zone(0).head == 0 && Zone(0).tracks == 158 && Zone(0).trackOffset == 0;
    VisitedStart(0, bad[0], 158, track + 1);
    hide Walk, Zone, Visited, Location;
    assert tracks[track] == first[track] == TrackRef(0, 0, track);
    FlipFlip(track % 2, block);
    assert lba / 2 == track && lba % 2 == Flip(block, track % 2) by { ClosedFormParts(track, block); }
  }

  lemma {:induction false} ClosedFormParts(track: nat, block: nat)
    requires block < 2
    ensures ClosedForm(track, block) / 2 == track && ClosedForm(track, block) % 2 == Flip(block, track % 2)
  {
  }

  /** A bad track of the first zone is under no location, whatever the closed form says. */
  lemma {:induction false} BadTrackAbsent(diskType: nat, bad: BadTracks, track: nat, block: nat, lba: nat)
    requires diskType < TYPES && ProperTracks(Walk(diskType, bad, ZONES)) && lba < 2 * |Walk(diskType, bad, ZONES)|
    requires track < 158 && block < 2 && track in bad[0]
    ensures LbaLocation(Walk(diskType, bad, ZONES), lba) != Location(track, 0, block)
  {
    var tracks := Walk(diskType, bad, ZONES);
    WalkFacts(diskType, bad, ZONES);
    var r := tracks[lba / 2];
    assert Zone(0).head == 0 && Zone(0).tracks == 158 && Zone(0).trackOffset == 0;
    hide Walk, Zone, Location, PZone, Flip;
    if LbaLocation(tracks, lba) == Location(track, 0, block) {
      FlipRange(lba);
      LocationParts(Zone(r.zone).trackOffset + r.index, Zone(r.zone).head, Flip(lba / 2 % 2, lba % 2), track, 0, block);
      PhysicalUnique(r.zone, r.index, 0, track);
    }
  }

  /** What get_lba says of track, head 0 and block without the index is what the index says. */
  ghost predicate ClosedFormInIndex(diskType: nat, bad: BadTracks, badLbas: seq<nat>, track: nat, block: nat)
    requires diskType < TYPES && ProperTracks(Walk(diskType, bad, ZONES))
  {
    var tracks := Walk(diskType, bad, ZONES);
    var index := Index(tracks, ROM_ZONES[diskType], badLbas, 2 * |tracks|);
    Location(track, 0, block) in index && index[Location(track, 0, block)].lba == ClosedForm(track, block)
  }

  lemma {:induction false} EntryLba(tracks: seq<TrackRef>, romZones: nat, badLbas: seq<nat>, index: map<nat, Mapping>, lba: nat)
    requires ProperTracks(tracks) && IndexOf(tracks, romZones, badLbas, 2 * |tracks|, index) && lba < 2 * |tracks| &&
      lba !in badLbas
    ensures LbaLocation(tracks, lba) in index && index[LbaLocation(tracks, lba)].lba == lba
  {
    hide LbaLocation, ProperTracks;
  }

  /** With an upward walk, number i of the good tracks is at least i, and is i just when no track up to it is left out. */
  lemma {:induction false} VisitedAhead(z: nat, bad: seq<nat>, k: nat, i: nat)
    requires z < 8 && k <= Zone(z).tracks && i < |Visited(z, bad, k)|
    ensures Visited(z, bad, k)[i] >= i
    ensures Visited(z, bad, k)[i] == i ==> forall t :: 0 <= t <= i ==> t !in bad
  {
    hide Zone;
    var before := Visited(z, bad, k - 1);
    VisitedSize(z, bad, k - 1);
    if i < |before| {
      VisitedAhead(z, bad, k - 1, i);
    } else if i > 0 {
      VisitedAhead(z, bad, k - 1, i - 1);
      VisitedBelow(z, bad, k - 1, i - 1);
    }
  }

  lemma {:induction false} VisitedBelow(z: nat, bad: seq<nat>, k: nat, i: nat)
    requires z < 8 && k <= Zone(z).tracks && i < |Visited(z, bad, k)|
    ensures Visited(z, bad, k)[i] < k
  {
    hide Zone;
    VisitedFacts(z, bad, k);
  }

  /** The closed form is the number of a place on a disk only if every track up to it is good. */
  lemma {:induction false} ClosedFormOnlyIf(diskType: nat, bad: BadTracks, track: nat, block: nat)
    requires diskType < TYPES && ProperTracks(Walk(diskType, bad, ZONES)) && |bad[0]| <= BAD_TRACKS_PER_ZONE
    requires track < 12 && block < 2 && ClosedForm(track, block) < 2 * |Walk(diskType, bad, ZONES)|
    requires LbaLocation(Walk(diskType, bad, ZONES), ClosedForm(track, block)) == Location(track, 0, block)
    ensures forall t :: 0 <= t <= track ==> t !in bad[0]
  {
    var tracks, good := Walk(diskType, bad, ZONES), GoodTracks(0, bad[0]);
    FirstZone(diskType, bad, ZONES);
    SystemBlocks(bad);
    ClosedFormParts(track, block);
    assert Zone(0).head == 0 && Zone(0).tracks == 158 && Zone(0).trackOffset == 0;
    VisitedAhead(0, bad[0], 158, track);
    hide Walk, Zone, Visited, Location, ClosedForm, Flip;
    assert tracks[track] == Refs(0, 0, good)[track] == TrackRef(0, 0, good[track]);
    FlipRange(ClosedForm(track, block));
    LocationParts(good[track], 0, Flip(track % 2, ClosedForm(track, block) % 2), track, 0, block);
  }

  /**
   get_lba's shortcut for one of the first twelve tracks gives the number in the index just when the tracks
   up to it are good and so is the block.
   */
  lemma {:induction false} ShortcutExact(diskType: nat, bad: BadTracks, badLbas: seq<nat>, track: nat, block: nat)
    requires diskType < TYPES && |bad[0]| <= BAD_TRACKS_PER_ZONE && track < 12 && block < 2
    ensures ProperTracks(Walk(diskType, bad, ZONES))
    ensures ClosedFormInIndex(diskType, bad, badLbas, track, block) <==>
      (forall t :: 0 <= t <= track ==> t !in bad[0]) && ClosedForm(track, block) !in badLbas
  {
    var tracks, lba, location := Walk(diskType, bad, ZONES), ClosedForm(track, block), Location(track, 0, block);
    WalkIsInjective(diskType, bad);
    var index := Index(tracks, ROM_ZONES[diskType], badLbas, 2 * |tracks|);
    IndexMeaning(tracks, ROM_ZONES[diskType], badLbas, 2 * |tracks|);
    hide Walk, Index, ClosedForm, Location, LbaLocation, LbaMapping, LocationsInjective, ProperTracks;
    if ClosedFormInIndex(diskType, bad, badLbas, track, block) {
      ClosedFormOnlyIf(diskType, bad, track, block);
    }
    if (forall t :: 0 <= t <= track ==> t !in bad[0]) && lba !in badLbas {
      ClosedFormAgrees(diskType, bad, track, block);
      hide IndexOf;
      EntryLba(tracks, ROM_ZONES[diskType], badLbas, index, lba);
    }
  }
}
