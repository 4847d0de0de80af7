/**
 How many blocks and bytes the walk over a 64DD disk covers, and where the first blocks are
 (load_ndd and get_lba in sw/deployer/src/disk.rs).
 */
module DiskGeometry {
  import opened Bytes
  import opened DiskImage
  import opened DiskStore

  // ---------- counting good tracks ----------

  /** The distinct bad tracks met among the first k. */
  ghost function BadMet(z: nat, bad: seq<nat>, k: nat): set<nat>
    requires z < ZONES && k <= Zone(z).tracks
  {
    if k == 0 then {} else BadMet(z, bad, k - 1) + if Order(z, k - 1) in bad then {Order(z, k - 1)} else {}
  }

  /** The distinct bad tracks that exist in a zone. */
  ghost function BadSet(z: nat, bad: seq<nat>): set<nat>
    requires z < ZONES
  {
    set t | t in bad && t < Zone(z).tracks
  }

  lemma {:induction false} OrderInverts(z: nat, k: nat)
    requires z < ZONES && k < Zone(z).tracks
    ensures Order(z, Order(z, k)) == k
  {
    hide Zone;
  }

  lemma {:induction false} BadMetMeaning(z: nat, bad: seq<nat>, k: nat)
    requires z < ZONES && k <= Zone(z).tracks
    ensures forall t :: t in BadMet(z, bad, k) <==> t < Zone(z).tracks && t in bad && Order(z, t) < k
  {
    hide Zone, Order;
    if k > 0 {
      BadMetMeaning(z, bad, k - 1);
      OrderInverts(z, k - 1);
      forall t: nat | t < Zone(z).tracks
        ensures Order(z, t) == k - 1 <==> t == Order(z, k - 1)
      {
        OrderInverts(z, t);
      }
    }
  }

  lemma {:induction false} AddFresh(s: set<nat>, t: nat)
    requires t !in s
    ensures |s + {t}| == |s| + 1 && |s + {}| == |s|
  {
    assert s + {} == s;
  }

  lemma {:induction false} CountsStart(z: nat, bad: seq<nat>)
    requires z < ZONES
    ensures |Visited(z, bad, 0)| == 0 && |BadMet(z, bad, 0)| == 0
  {
    hide Zone;
  }

  lemma {:induction false} CountsNext(z: nat, bad: seq<nat>, k: nat)
    requires z < ZONES && k < Zone(z).tracks
    ensures |BadMet(z, bad, k + 1)| + |Visited(z, bad, k + 1)| == |BadMet(z, bad, k)| + |Visited(z, bad, k)| + 1
  {
    hide Zone, Order;
    BadMetMeaning(z, bad, k);
    OrderInverts(z, k);
    AddFresh(BadMet(z, bad, k), Order(z, k));
  }

  lemma {:induction false} VisitedCount(z: nat, bad: seq<nat>, k: nat)
    requires z < ZONES && k <= Zone(z).tracks
    ensures |Visited(z, bad, k)| + |BadMet(z, bad, k)| == k
  {
    hide *;
    if k > 0 {
      VisitedCount(z, bad, k - 1);
      CountsNext(z, bad, k - 1);
    } else {
      CountsStart(z, bad);
    }
  }

  /** A zone has its tracks less the distinct bad ones. */
  lemma {:induction false} GoodCount(z: nat, bad: seq<nat>)
    requires z < ZONES
    ensures |GoodTracks(z, bad)| == Zone(z).tracks - |BadSet(z, bad)|
  {
    VisitedCount(z, bad, Zone(z).tracks);
    BadMetMeaning(z, bad, Zone(z).tracks);
    hide Zone, Visited, Order, BadMet;
    assert BadMet(z, bad, Zone(z).tracks) == BadSet(z, bad);
  }

  // ---------- sums over the zones of a walk ----------

  ghost function SumOver(diskType: nat, f: nat -> int, v: nat): int
    requires diskType < TYPES && v <= ZONES
  {
    if v == 0 then 0 else SumOver(diskType, f, v - 1) + f(PZone(diskType, v - 1))
  }

  ghost function SumOfAll(f: nat -> int): int {
    f(0) + f(1) + f(2) + f(3) + f(4) + f(5) + f(6) + f(7) + f(8) + f(9) + f(10) + f(11) + f(12) + f(13) + f(14) + f(15)
  }

  ghost function SumInOrder(diskType: nat, f: nat -> int): int
    requires diskType < TYPES
  {
    f(PZone(diskType, 0)) + f(PZone(diskType, 1)) + f(PZone(diskType, 2)) + f(PZone(diskType, 3)) +
    f(PZone(diskType, 4)) + f(PZone(diskType, 5)) + f(PZone(diskType, 6)) + f(PZone(diskType, 7)) +
    f(PZone(diskType, 8)) + f(PZone(diskType, 9)) + f(PZone(diskType, 10)) + f(PZone(diskType, 11)) +
    f(PZone(diskType, 12)) + f(PZone(diskType, 13)) + f(PZone(diskType, 14)) + f(PZone(diskType, 15))
  }

  lemma {:induction false} SumNext(diskType: nat, f: nat -> int, v: nat)
    requires diskType < TYPES && v < ZONES
    ensures SumOver(diskType, f, v + 1) == SumOver(diskType, f, v) + f(PZone(diskType, v))
    ensures SumOver(diskType, f, 0) == 0
  {
  }

  lemma {:induction false} SumUnrolled(diskType: nat, f: nat -> int)
    requires diskType < TYPES
    ensures SumOver(diskType, f, 16) == SumInOrder(diskType, f)
  {
    hide PZone, SumOver;
    SumNext(diskType, f, 0);
    SumNext(diskType, f, 1);
    SumNext(diskType, f, 2);
    SumNext(diskType, f, 3);
    SumNext(diskType, f, 4);
    SumNext(diskType, f, 5);
    SumNext(diskType, f, 6);
    SumNext(diskType, f, 7);
    SumNext(diskType, f, 8);
    SumNext(diskType, f, 9);
    SumNext(diskType, f, 10);
    SumNext(diskType, f, 11);
    SumNext(diskType, f, 12);
    SumNext(diskType, f, 13);
    SumNext(diskType, f, 14);
    SumNext(diskType, f, 15);
  }

  /** The order in which a disk type visits the zones does not matter for a sum over them. */
  lemma {:induction false} SumIsOrderFree(diskType: nat, f: nat -> int)
    requires diskType < TYPES
    ensures SumOver(diskType, f, ZONES) == SumOfAll(f)
  {
    SumUnrolled(diskType, f);
    hide SumOver;
    if diskType == 0 {} else if diskType == 1 {} else if diskType == 2 {} else if diskType == 3 {}
    else if diskType == 4 {} else if diskType == 5 {} else {}
  }

  // ---------- blocks and bytes of a disk ----------

  ghost function GoodOf(bad: BadTracks): nat -> int {
    z => if 0 <= z < ZONES then |GoodTracks(z, bad[z])| else 0
  }

  ghost function BytesOf(bad: BadTracks): nat -> int {
    z => if 0 <= z < ZONES then ZoneBytes(|GoodTracks(z, bad[z])|, z) else 0
  }

  lemma {:induction false} WalkLength(diskType: nat, bad: BadTracks, v: nat)
    requires diskType < TYPES && v <= ZONES
    ensures |Walk(diskType, bad, v)| == SumOver(diskType, GoodOf(bad), v)
  {
    hide PZone, GoodTracks;
    if v > 0 { WalkLength(diskType, bad, v - 1); }
  }

  lemma {:induction false} OffsetOfZone(tracks: seq<TrackRef>, v: nat, z: nat, indices: seq<nat>)
    requires z < ZONES && ProperTracks(tracks + Refs(v, z, indices))
    ensures ProperTracks(tracks)
    ensures var all := tracks + Refs(v, z, indices);
      TrackOffset(all, |all|) == TrackOffset(tracks, |tracks|) + ZoneBytes(|indices|, z)
  {
    hide Zone, ZoneBytes;
    ZoneBytesNext(0, z);
    var all := tracks + Refs(v, z, indices);
    ProperPrefix(tracks, Refs(v, z, indices));
    if indices == [] {
      assert all == tracks;
    } else {
      var init, last := indices[..|indices| - 1], TrackRef(v, z, indices[|indices| - 1]);
      assert all == tracks + Refs(v, z, init) + [last];
      ProperPrefix(tracks + Refs(v, z, init), [last]);
      OffsetOfZone(tracks, v, z, init);
      PrefixOffset(tracks + Refs(v, z, init), [last], |all| - 1);
      assert all[|all| - 1] == last;
      ZoneBytesNext(|init|, z);
    }
  }

  /** Bytes taken by the two blocks of each of n tracks of a zone. */
  ghost function ZoneBytes(n: nat, z: nat): nat
    requires z < ZONES
  {
    n * (2 * SECTORS_PER_BLOCK * Zone(z).sectorLength)
  }

  lemma {:induction false} ZoneBytesNext(n: nat, z: nat)
    requires z < ZONES
    ensures ZoneBytes(n + 1, z) == ZoneBytes(n, z) + 2 * (Zone(z).sectorLength * SECTORS_PER_BLOCK)
    ensures ZoneBytes(0, z) == 0
  {
    var c := 2 * SECTORS_PER_BLOCK * Zone(z).sectorLength;
    assert (n + 1) * c == n * c + c;
  }

  lemma {:induction false} WalkNext(diskType: nat, bad: BadTracks, v: nat)
    requires diskType < TYPES && v < ZONES
    ensures var z := PZone(diskType, v);
      Walk(diskType, bad, v + 1) == Walk(diskType, bad, v) + Refs(v, z, GoodTracks(z, bad[z]))
  {
    hide PZone, GoodTracks, Zone;
  }

  lemma {:induction false} BytesOfZone(bad: BadTracks, z: nat)
    requires z < ZONES
    ensures BytesOf(bad)(z) == ZoneBytes(|GoodTracks(z, bad[z])|, z)
  {
    hide ZoneBytes, GoodTracks;
  }

  /** The offset where the walk ends is the sum of what its zones take. */
  lemma {:induction false} WalkBytes(diskType: nat, bad: BadTracks, v: nat)
    requires diskType < TYPES && v <= ZONES
    ensures ProperTracks(Walk(diskType, bad, v))
    ensures TrackOffset(Walk(diskType, bad, v), |Walk(diskType, bad, v)|) == SumOver(diskType, BytesOf(bad), v)
  {
    hide *;
    WalkIsProper(diskType, bad, v);
    if v > 0 {
      WalkBytes(diskType, bad, v - 1);
      var z, before := PZone(diskType, v - 1), Walk(diskType, bad, v - 1);
      WalkNext(diskType, bad, v - 1);
      SumNext(diskType, BytesOf(bad), v - 1);
      BytesOfZone(bad, z);
      OffsetOfZone(before, v - 1, z, GoodTracks(z, bad[z]));
    } else {
      NoOffset(diskType, bad);
    }
  }

  lemma {:induction false} NoOffset(diskType: nat, bad: BadTracks)
    requires diskType < TYPES
    ensures ProperTracks([]) && TrackOffset([], 0) == 0 && Walk(diskType, bad, 0) == []
    ensures SumOver(diskType, BytesOf(bad), 0) == 0
  {
  }

  lemma {:induction false} WalkIsProper(diskType: nat, bad: BadTracks, v: nat)
    requires diskType < TYPES && v <= ZONES
    ensures ProperTracks(Walk(diskType, bad, v))
  {
    WalkFacts(diskType, bad, v);
    hide Walk, PZone, Zone;
  }

  /** The number of bad tracks that exist, over all zones. */
  ghost function BadTotal(bad: BadTracks): nat {
    |BadSet(0, bad[0])| + |BadSet(1, bad[1])| + |BadSet(2, bad[2])| + |BadSet(3, bad[3])| +
    |BadSet(4, bad[4])| + |BadSet(5, bad[5])| + |BadSet(6, bad[6])| + |BadSet(7, bad[7])| +
    |BadSet(8, bad[8])| + |BadSet(9, bad[9])| + |BadSet(10, bad[10])| + |BadSet(11, bad[11])| +
    |BadSet(12, bad[12])| + |BadSet(13, bad[13])| + |BadSet(14, bad[14])| + |BadSet(15, bad[15])|
  }

  /** Every disk type has 2350 tracks less the bad ones, whatever the bad track table says. */
  lemma {:induction false} TrackCount(diskType: nat, bad: BadTracks)
    requires diskType < TYPES
    ensures |Walk(diskType, bad, ZONES)| == 2350 - BadTotal(bad)
  {
    WalkLength(diskType, bad, ZONES);
    SumIsOrderFree(diskType, GoodOf(bad));
    hide Walk, SumOver, GoodTracks, BadSet;
    GoodCount(0, bad[0]);
    GoodCount(1, bad[1]);
    GoodCount(2, bad[2]);
    GoodCount(3, bad[3]);
    GoodCount(4, bad[4]);
    GoodCount(5, bad[5]);
    GoodCount(6, bad[6]);
    GoodCount(7, bad[7]);
    GoodCount(8, bad[8]);
    GoodCount(9, bad[9]);
    GoodCount(10, bad[10]);
    GoodCount(11, bad[11]);
    GoodCount(12, bad[12]);
    GoodCount(13, bad[13]);
    GoodCount(14, bad[14]);
    GoodCount(15, bad[15]);
  }
}
