/**
 In which order load_ndd of sw/deployer/src/disk.rs meets the tracks of a 64DD disk, that it meets
 all of them, and so where in the image file a block lies and which blocks are writable.
 */
module DiskOrder {
  import opened DiskImage
  import opened DiskGeometry
  import opened DiskLayout

  // ---------- the physical zones ----------

  /** The zones of a head follow each other without a gap, the tracks of a disk are 1175 per head, and a zone of the
      lower head records as many bytes as the next zone of the upper one. */
  lemma {:induction false} ZonesTile(z: nat)
    requires z < ZONES
    ensures z % 8 == 0 ==> Zone(z).trackOffset == 0
    ensures z % 8 == 7 ==> Zone(z).trackOffset + Zone(z).tracks == 1175
    ensures z % 8 < 7 ==> Zone(z).trackOffset + Zone(z).tracks == Zone(z + 1).trackOffset
    ensures 8 <= z < 15 ==> Zone(z).sectorLength == Zone(z - 7).sectorLength
    ensures z % 8 < 7 ==> Zone(z).sectorLength > Zone(z + 1).sectorLength
  {
    assert z == 0 || z == 1 || z == 2 || z == 3 || z == 4 || z == 5 || z == 6 || z == 7 || z == 8 || z == 9
      || z == 10 || z == 11 || z == 12 || z == 13 || z == 14 || z == 15;
  }

  lemma {:induction false} UpperZone(diskType: nat, z: nat)
    requires diskType < TYPES && z < 8
    ensures 0 <= VZone(diskType, z) < ZONES && PZone(diskType, VZone(diskType, z)) == z
  {
    if diskType == 0 {} else if diskType == 1 {} else if diskType == 2 {} else if diskType == 3 {}
    else if diskType == 4 {} else if diskType == 5 {} else {}
  }

  lemma {:induction false} LowerZone(diskType: nat, z: nat)
    requires diskType < TYPES && 8 <= z < ZONES
    ensures 0 <= VZone(diskType, z) < ZONES && PZone(diskType, VZone(diskType, z)) == z
  {
    if diskType == 0 {} else if diskType == 1 {} else if diskType == 2 {} else if diskType == 3 {}
    else if diskType == 4 {} else if diskType == 5 {} else {}
  }

  /** Every zone has its place in the walk. */
  lemma {:induction false} PZoneInverts(diskType: nat, z: nat)
    requires diskType < TYPES && z < ZONES
    ensures 0 <= VZone(diskType, z) < ZONES && PZone(diskType, VZone(diskType, z)) == z
  {
    hide PZone, VZone;
    if z < 8 { UpperZone(diskType, z); } else { LowerZone(diskType, z); }
  }

  // ---------- upper heads inwards, lower heads outwards ----------

  /** Tracks of one zone in the order the walk meets them. */
  ghost predicate InOrder(head: nat, s: seq<nat>) {
    forall i, j :: 0 <= i < j < |s| ==> if head == 0 then s[i] < s[j] else s[i] > s[j]
  }

  lemma {:induction false} VisitedInOrder(z: nat, bad: seq<nat>, k: nat)
    requires z < ZONES && k <= Zone(z).tracks
    ensures InOrder(Zone(z).head, Visited(z, bad, k))
    ensures forall t :: t in Visited(z, bad, k) ==> if Zone(z).head == 0 then t < k else t >= Zone(z).tracks - k
  {
    hide Zone;
    if k > 0 {
      VisitedInOrder(z, bad, k - 1);
      var before := Visited(z, bad, k - 1);
      assert forall i :: 0 <= i < |before| ==> before[i] in before;
    }
  }

  lemma {:induction false} VisitedAll(z: nat, bad: seq<nat>, k: nat, t: nat)
    requires z < ZONES && k <= Zone(z).tracks && t < Zone(z).tracks && Order(z, t) < k && t !in bad
    ensures t in Visited(z, bad, k)
  {
    hide Zone, Order;
    OrderInverts(z, t);
    if Order(z, t) < k - 1 { VisitedAll(z, bad, k - 1, t); }
  }

  ghost predicate Follows(a: TrackRef, b: TrackRef)
    requires a.zone < ZONES
  {
    a.vzone < b.vzone || (a.vzone == b.vzone && if Zone(a.zone).head == 0 then a.index < b.index else a.index > b.index)
  }

  ghost predicate AllFollow(s: seq<TrackRef>)
    requires ProperTracks(s)
  {
    forall i, j :: 0 <= i < j < |s| ==> Follows(s[i], s[j])
  }

  lemma {:induction false} RefsFollow(v: nat, z: nat, tracks: seq<nat>)
    requires z < ZONES && InOrder(Zone(z).head, tracks) && ProperTracks(Refs(v, z, tracks))
    ensures AllFollow(Refs(v, z, tracks))
  {
    hide Zone;
  }

  lemma {:induction false} FollowAppend(a: seq<TrackRef>, b: seq<TrackRef>)
    requires ProperTracks(a + b) && ProperTracks(a) && ProperTracks(b) && AllFollow(a) && AllFollow(b)
    requires forall i, j :: 0 <= i < |a| && 0 <= j < |b| ==> a[i].vzone < b[j].vzone
    ensures AllFollow(a + b)
  {
    hide Zone, ProperTracks;
  }

  lemma {:induction false} ProperSuffix(a: seq<TrackRef>, b: seq<TrackRef>)
    requires ProperTracks(a + b)
    ensures ProperTracks(b)
  {
    hide Zone;
    assert forall i :: 0 <= i < |b| ==> (a + b)[|a| + i] == b[i];
  }

  lemma {:induction false} WalkFollows(diskType: nat, bad: BadTracks, v: nat)
    requires diskType < TYPES && v <= ZONES
    ensures ProperTracks(Walk(diskType, bad, v)) && AllFollow(Walk(diskType, bad, v))
  {
    hide PZone, Zone, GoodTracks, Follows, ProperTracks;
    WalkIsProper(diskType, bad, v);
    if v > 0 {
      var z := PZone(diskType, v - 1);
      var before, more := Walk(diskType, bad, v - 1), Refs(v - 1, z, GoodTracks(z, bad[z]));
      WalkNext(diskType, bad, v - 1);
      WalkFollows(diskType, bad, v - 1);
      WalkFacts(diskType, bad, v - 1);
      ProperSuffix(before, more);
      GoodInOrder(z, bad[z]);
      RefsFollow(v - 1, z, GoodTracks(z, bad[z]));
      hide Walk, AllFollow;
      FollowAppend(before, more);
    }
  }

  lemma {:induction false} GoodInOrder(z: nat, bad: seq<nat>)
    requires z < ZONES
    ensures InOrder(Zone(z).head, GoodTracks(z, bad))
  {
    VisitedInOrder(z, bad, Zone(z).tracks);
  }

  /** The zones are met in the order of their disk type, the tracks of a zone upwards on head 0 and downwards on head 1. */
  lemma {:induction false} WalkOrder(diskType: nat, bad: BadTracks, i: nat, j: nat)
    requires diskType < TYPES && i < j < |Walk(diskType, bad, ZONES)|
    ensures var a, b := Walk(diskType, bad, ZONES)[i], Walk(diskType, bad, ZONES)[j];
      a.zone < ZONES && a.vzone <= b.vzone &&
      (a.vzone == b.vzone && Zone(a.zone).head == 0 ==> a.index < b.index) &&
      (a.vzone == b.vzone && Zone(a.zone).head == 1 ==> a.index > b.index)
  {
    hide Walk, Zone;
    WalkFollows(diskType, bad, ZONES);
    assert Follows(Walk(diskType, bad, ZONES)[i], Walk(diskType, bad, ZONES)[j]);
  }

  // ---------- no good track is missed ----------

  lemma {:induction false} WalkContains(diskType: nat, bad: BadTracks, v: nat, place: nat, t: nat)
    requires diskType < TYPES && place < v <= ZONES
    requires t < Zone(PZone(diskType, place)).tracks && t !in bad[PZone(diskType, place)]
    ensures TrackRef(place, PZone(diskType, place), t) in Walk(diskType, bad, v)
  {
    hide PZone, Zone, GoodTracks;
    var z := PZone(diskType, v - 1);
    var more := Refs(v - 1, z, GoodTracks(z, bad[z]));
    assert Walk(diskType, bad, v) == Walk(diskType, bad, v - 1) + more;
    if place < v - 1 {
      WalkContains(diskType, bad, v - 1, place, t);
    } else {
      GoodContains(z, bad[z], t);
      var i :| 0 <= i < |GoodTracks(z, bad[z])| && GoodTracks(z, bad[z])[i] == t;
      assert more[i] == TrackRef(place, z, t);
    }
  }

  lemma {:induction false} GoodContains(z: nat, bad: seq<nat>, t: nat)
    requires z < ZONES && t < Zone(z).tracks && t !in bad
    ensures t in GoodTracks(z, bad)
  {
    VisitedAll(z, bad, Zone(z).tracks, t);
  }

  /** Every good track of every zone is met. */
  lemma {:induction false} WalkIsComplete(diskType: nat, bad: BadTracks, z: nat, t: nat)
    requires diskType < TYPES && z < ZONES && t < Zone(z).tracks && t !in bad[z]
    ensures exists n :: 0 <= n < |Walk(diskType, bad, ZONES)| && var r := Walk(diskType, bad, ZONES)[n];
      r.zone == z && r.index == t && r.vzone == VZone(diskType, z)
  {
    hide Walk, PZone, Zone, VZone;
    PZoneInverts(diskType, z);
    WalkContains(diskType, bad, ZONES, VZone(diskType, z), t);
    var n :| 0 <= n < |Walk(diskType, bad, ZONES)| && Walk(diskType, bad, ZONES)[n] == TrackRef(VZone(diskType, z), z, t);
  }

  // ---------- where a block lies ----------

  /** The first block of a track is block 0 of even numbered tracks and block 1 of odd ones. */
  lemma {:induction false} PlaceOfBlock(tracks: seq<TrackRef>, lba: nat)
    requires ProperTracks(tracks) && lba < 2 * |tracks|
    ensures var r, place := tracks[lba / 2], LbaLocation(tracks, lba);
      place / 4 == Zone(r.zone).trackOffset + r.index && place / 2 % 2 == Zone(r.zone).head &&
      (place % 2 == 0 <==> lba % 4 == 0 || lba % 4 == 3)
  {
    hide Zone;
    FlipRange(lba);
    var r := tracks[lba / 2];
    LocationSplit(Zone(r.zone).trackOffset + r.index, Zone(r.zone).head, Flip(lba / 2 % 2, lba % 2));
    assert (lba / 2 % 2 + lba % 2) % 2 == 0 <==> lba % 4 == 0 || lba % 4 == 3;
  }

  lemma {:induction false} LocationSplit(track: nat, head: nat, block: nat)
    requires head < 2 && block < 2
    ensures Location(track, head, block) / 4 == track
    ensures Location(track, head, block) / 2 % 2 == head
    ensures Location(track, head, block) % 2 == block
  {
    if head == 0 {
      if block == 0 {} else {}
    } else {
      if block == 0 {} else {}
    }
  }

  ghost predicate OnZone(place: nat, z: nat)
    requires z < ZONES
  {
    place / 2 % 2 == Zone(z).head && Zone(z).trackOffset <= place / 4 < Zone(z).trackOffset + Zone(z).tracks
  }

  lemma {:induction false} ZoneOfPlace(diskType: nat, bad: BadTracks, lba: nat, z: nat)
    requires diskType < TYPES && z < ZONES && ProperTracks(Walk(diskType, bad, ZONES))
    requires lba < 2 * |Walk(diskType, bad, ZONES)| && OnZone(LbaLocation(Walk(diskType, bad, ZONES), lba), z)
    ensures var r := Walk(diskType, bad, ZONES)[lba / 2];
      r.zone == z && r.vzone == VZone(diskType, z) &&
      LbaLocation(Walk(diskType, bad, ZONES), lba) / 4 == Zone(z).trackOffset + r.index
  {
    hide Walk, Zone, PZone, VZone, LbaLocation;
    var tracks := Walk(diskType, bad, ZONES);
    WalkFacts(diskType, bad, ZONES);
    PlaceOfBlock(tracks, lba);
    var r, place := tracks[lba / 2], LbaLocation(tracks, lba);
    PhysicalUnique(r.zone, r.index, z, place / 4 - Zone(z).trackOffset);
    VZoneInverts(diskType, r.vzone);
  }

  /** In the index of a disk, a block on a higher track of the same zone comes later in the file on head 0, earlier on
      head 1. */
  lemma {:induction false} FileOrder(diskType: nat, bad: BadTracks, romZones: nat, badLbas: seq<nat>, z: nat, x: nat, y: nat)
    requires diskType < TYPES && z < ZONES && ProperTracks(Walk(diskType, bad, ZONES))
    requires var index := Index(Walk(diskType, bad, ZONES), romZones, badLbas, 2 * |Walk(diskType, bad, ZONES)|);
      x in index && y in index && OnZone(x, z) && OnZone(y, z) && x / 4 < y / 4
    ensures var index := Index(Walk(diskType, bad, ZONES), romZones, badLbas, 2 * |Walk(diskType, bad, ZONES)|);
      if Zone(z).head == 0 then index[x].lba < index[y].lba && index[x].offset + index[x].length <= index[y].offset
      else index[y].lba < index[x].lba && index[y].offset + index[y].length <= index[x].offset
  {
    hide Walk, Zone, Index, OnZone, LbaLocation, LbaMapping;
    var tracks := Walk(diskType, bad, ZONES);
    WalkIsInjective(diskType, bad);
    IndexMeaning(tracks, romZones, badLbas, 2 * |tracks|);
    var index := Index(tracks, romZones, badLbas, 2 * |tracks|);
    var a, b := index[x].lba, index[y].lba;
    ZoneOfPlace(diskType, bad, a, z);
    ZoneOfPlace(diskType, bad, b, z);
    hide IndexOf, ProperTracks, LocationsInjective;
    if a / 2 < b / 2 {
      WalkOrder(diskType, bad, a / 2, b / 2);
      RangesDisjoint(tracks, romZones, a, b);
    } else {
      assert b / 2 < a / 2;
      WalkOrder(diskType, bad, b / 2, a / 2);
      RangesDisjoint(tracks, romZones, b, a);
    }
  }

  // ---------- which blocks may be written ----------

  /** The number of the first writable block of each disk type, when every zone leaves out twelve tracks. */
  ghost function FirstWritable(diskType: nat): nat
    requires diskType < TYPES
  {
    if diskType == 0 then 0x5A2 else if diskType == 1 then 0x7C6 else if diskType == 2 then 0x9EA
    else if diskType == 3 then 0xC0E else if diskType == 4 then 0xE32 else if diskType == 5 then 0x1010 else 0x10DC
  }

  lemma {:induction false} FullGood(bad: BadTracks, z: nat)
    requires z < ZONES && TwelveEach(bad) && AllExact(bad)
    ensures GoodOf(bad)(z) == Zone(z).tracks - 12
  {
    hide Zone, BadSet, GoodTracks, Exact;
    GoodCount(z, bad[z]);
    NamedTracks(z, bad[z]);
  }

  /** The read-only zones are the first ones of each head. */
  ghost predicate RomZone(diskType: nat, z: nat) {
    if z < 8 then z < diskType + 3 else z < diskType + 10
  }

  lemma {:induction false} RomZonesFirst(diskType: nat, v: nat)
    requires diskType < TYPES && v < ZONES
    ensures RomZone(diskType, PZone(diskType, v)) <==> v < ROM_ZONES[diskType]
  {
    if diskType == 0 {} else if diskType == 1 {} else if diskType == 2 {} else if diskType == 3 {}
    else if diskType == 4 {} else if diskType == 5 {} else {}
  }

  ghost function RomTracks(diskType: nat): nat -> int {
    z => if 0 <= z < ZONES && RomZone(diskType, z) then Zone(z).tracks - 12 else 0
  }

  lemma {:induction false} RomSum(diskType: nat, bad: BadTracks, v: nat)
    requires diskType < TYPES && v <= ZONES && TwelveEach(bad) && AllExact(bad)
    ensures ROM_ZONES[diskType] <= ZONES
    ensures SumOver(diskType, RomTracks(diskType), v) ==
      SumOver(diskType, GoodOf(bad), if v < ROM_ZONES[diskType] then v else ROM_ZONES[diskType])
  {
    hide PZone, Zone, GoodOf, TwelveEach, AllExact, RomZone;
    if v > 0 {
      RomSum(diskType, bad, v - 1);
      RomZonesFirst(diskType, v - 1);
      FullGood(bad, PZone(diskType, v - 1));
    }
  }

  lemma {:induction false} ZoneTracks()
    ensures forall z :: 0 <= z < ZONES ==> Zone(z).tracks == if z % 8 < 2 then 158 else if z % 8 < 7 then 149 else 114
  {
  }

  lemma {:induction false} RomTotal(diskType: nat)
    requires diskType < TYPES
    ensures 2 * SumOfAll(RomTracks(diskType)) == FirstWritable(diskType)
  {
    ZoneTracks();
    hide Zone;
    if diskType == 0 {} else if diskType == 1 {} else if diskType == 2 {} else if diskType == 3 {}
    else if diskType == 4 {} else if diskType == 5 {} else {}
  }

  lemma {:induction false} RomBlocks(diskType: nat, bad: BadTracks)
    requires diskType < TYPES && TwelveEach(bad) && AllExact(bad)
    ensures ROM_ZONES[diskType] <= ZONES && 2 * |Walk(diskType, bad, ROM_ZONES[diskType])| == FirstWritable(diskType)
  {
    hide Walk, TwelveEach, AllExact, RomTracks, GoodOf, SumOver, SumOfAll, FirstWritable;
    RomSum(diskType, bad, ZONES);
    WalkLength(diskType, bad, ROM_ZONES[diskType]);
    SumIsOrderFree(diskType, RomTracks(diskType));
    RomTotal(diskType);
  }

  lemma {:induction false} WalkPrefix(diskType: nat, bad: BadTracks, v: nat, w: nat)
    requires diskType < TYPES && v <= w <= ZONES
    ensures Walk(diskType, bad, v) <= Walk(diskType, bad, w)
    decreases w - v
  {
    hide PZone, Zone, GoodTracks;
    if v < w {
      WalkPrefix(diskType, bad, v, w - 1);
    }
  }

  lemma {:induction false} ZonesBehind(diskType: nat, bad: BadTracks, v: nat, w: nat, n: nat)
    requires diskType < TYPES && v <= w <= ZONES && n < |Walk(diskType, bad, w)|
    ensures Walk(diskType, bad, w)[n].vzone >= v <==> n >= |Walk(diskType, bad, v)|
    decreases w
  {
    hide PZone, Zone, GoodTracks;
    WalkPrefix(diskType, bad, v, w);
    WalkFacts(diskType, bad, v);
    if n >= |Walk(diskType, bad, v)| && v < w {
      if n < |Walk(diskType, bad, w - 1)| {
        ZonesBehind(diskType, bad, v, w - 1, n);
      }
    }
  }

  /** A block may be written exactly when its number has reached the bound of the disk type. */
  lemma {:induction false} WritableBlocks(diskType: nat, bad: BadTracks, lba: nat)
    requires diskType < TYPES && TwelveEach(bad) && AllExact(bad) && ProperTracks(Walk(diskType, bad, ZONES))
    requires lba < 2 * |Walk(diskType, bad, ZONES)|
    ensures LbaMapping(Walk(diskType, bad, ZONES), ROM_ZONES[diskType], lba).writable <==> lba >= FirstWritable(diskType)
  {
    hide Walk, ProperTracks, TwelveEach, AllExact, FirstWritable, TrackLength, TrackOffset;
    RomBlocks(diskType, bad);
    ZonesBehind(diskType, bad, ROM_ZONES[diskType], ZONES, lba / 2);
  }
}
