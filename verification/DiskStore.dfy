/**
 What the index of a 64DD disk is good for: a store of blocks in the image file
 (Disk in sw/deployer/src/disk.rs), and how many blocks a disk has.
 */
module DiskStore {
  import opened Bytes
  import opened DiskImage

  // ---------- the store ----------

  predicate Apart(a: Mapping, b: Mapping) {
    a.offset + a.length <= b.offset || b.offset + b.length <= a.offset
  }

  /** Different locations never share a byte of the file. */
  ghost predicate IsStore(mapping: map<nat, Mapping>) {
    forall k, l :: k in mapping && l in mapping && k != l ==> Apart(mapping[k], mapping[l])
  }

  lemma {:induction false} BlocksApart(tracks: seq<TrackRef>, romZones: nat, a: nat, b: nat)
    requires ProperTracks(tracks) && a < 2 * |tracks| && b < 2 * |tracks| && a != b
    ensures Apart(LbaMapping(tracks, romZones, a), LbaMapping(tracks, romZones, b))
  {
    hide LbaMapping, ProperTracks;
    if a < b { RangesDisjoint(tracks, romZones, a, b); } else { RangesDisjoint(tracks, romZones, b, a); }
  }

  lemma {:induction false} IndexEntry(tracks: seq<TrackRef>, romZones: nat, badLbas: seq<nat>, n: nat, index: map<nat,
          Mapping>, l: nat)
    requires ProperTracks(tracks) && n <= 2 * |tracks| && IndexOf(tracks, romZones, badLbas, n, index) && l in index
    ensures index[l].lba < n && index[l] == LbaMapping(tracks, romZones, index[l].lba) && l == LbaLocation(tracks, index[l].lba)
  {
    hide LbaLocation, LbaMapping, ProperTracks;
  }

  lemma {:induction false} IndexIsStore(tracks: seq<TrackRef>, romZones: nat, badLbas: seq<nat>)
    requires ProperTracks(tracks) && LocationsInjective(tracks)
    ensures IsStore(Index(tracks, romZones, badLbas, 2 * |tracks|))
  {
    var n := 2 * |tracks|;
    var index := Index(tracks, romZones, badLbas, n);
    IndexMeaning(tracks, romZones, badLbas, n);
    hide Index, IndexOf, LbaLocation, LbaMapping, LocationsInjective, ProperTracks, Apart;
    forall k, l | k in index && l in index && k != l
      ensures Apart(index[k], index[l])
    {
      IndexEntry(tracks, romZones, badLbas, n, index, k);
      IndexEntry(tracks, romZones, badLbas, n, index, l);
      BlocksApart(tracks, romZones, index[k].lba, index[l].lba);
    }
  }

  /** What the file holds for a block, when it is long enough. */
  function Stored(file: seq<byte>, m: Mapping): Option<seq<byte>> {
    if m.offset + m.length <= |file| then Some(file[m.offset..m.offset + m.length]) else None
  }

  /** Writing past the end of a file fills the gap with zeros. */
  function WriteAt(file: seq<byte>, at: nat, data: seq<byte>): seq<byte> {
    var long := if at + |data| <= |file| then file else file + Zeros(at + |data| - |file|);
    long[..at] + data + long[at + |data|..]
  }

  lemma {:induction false} WriteAtMeaning(file: seq<byte>, at: nat, data: seq<byte>)
    ensures var f := WriteAt(file, at, data);
      |f| == (if at + |data| <= |file| then |file| else at + |data|) && f[at..at + |data|] == data &&
      forall i :: 0 <= i < |file| && (i < at || at + |data| <= i) ==> f[i] == file[i]
  {
    var n := at + |data|;
    var long := if n <= |file| then file else file + Zeros(n - |file|);
    var f := WriteAt(file, at, data);
    assert f == long[..at] + data + long[n..];
    assert f[at..n] == data;
    forall i | 0 <= i < |file| && (i < at || n <= i)
      ensures f[i] == file[i]
    {
      assert long[i] == file[i];
      if i < at { assert f[i] == long[..at][i]; } else { assert f[i] == long[n..][i - n]; }
    }
  }

  lemma {:induction false} OthersKept(file: seq<byte>, m: Mapping, data: seq<byte>, other: Mapping)
    requires m.length == |data| && Apart(m, other) && Stored(file, other).Some?
    ensures Stored(WriteAt(file, m.offset, data), other) == Stored(file, other)
  {
    WriteAtMeaning(file, m.offset, data);
    hide WriteAt;
    var f := WriteAt(file, m.offset, data);
    assert f[other.offset..other.offset + other.length] == file[other.offset..other.offset + other.length];
  }

  lemma {:induction false} StoredBack(file: seq<byte>, m: Mapping, data: seq<byte>)
    requires m.length == |data|
    ensures Stored(WriteAt(file, m.offset, data), m) == Some(data)
  {
    WriteAtMeaning(file, m.offset, data);
    hide WriteAt;
  }

  datatype ReadResult = Block(data: seq<byte>) | NoBlock | ReadError

  class Disk {
    var file: seq<byte>
    const mapping: map<nat, Mapping>

    ghost predicate Valid() {
      IsStore(mapping)
    }

    /** open, from the disk type and the bad tracks and blocks found in the system area. */
    constructor (file: seq<byte>, diskType: nat, bad: BadTracks, badLbas: seq<nat>)
      requires diskType < TYPES
      ensures Valid() && this.file == file
      ensures ProperTracks(Walk(diskType, bad, ZONES))
      ensures mapping == Index(Walk(diskType, bad, ZONES), ROM_ZONES[diskType], badLbas, 2 * |Walk(diskType, bad, ZONES)|)
    {
      hide Index, Walk, LocationsInjective;
      this.file := file;
      var m := BuildIndex(diskType, bad, badLbas);
      WalkIsInjective(diskType, bad);
      IndexIsStore(Walk(diskType, bad, ZONES), ROM_ZONES[diskType], badLbas);
      mapping := m;
    }

    function At(track: nat, head: nat, block: nat): Option<Mapping> {
      var location := Location(track, head, block);
      if location in mapping then Some(mapping[location]) else None
    }

    method ReadBlock(track: nat, head: nat, block: nat) returns (r: ReadResult)
      requires head < 2 && block < 2
      ensures r == match At(track, head, block)
        case None => NoBlock
        case Some(m) => (match Stored(file, m) case None => ReadError case Some(d) => Block(d))
      ensures r.Block? ==> At(track, head, block).Some? && var m := At(track, head, block).value;
        m.offset + m.length <= |file| && |r.data| == m.length && forall i :: 0 <= i < m.length ==> r.data[i] == file[m.offset + i]
    {
      var location := Location(track, head, block);
      if location in mapping {
        var m := mapping[location];
        if m.offset + m.length > |file| { return ReadError; }
        return Block(file[m.offset..m.offset + m.length]);
      }
      return NoBlock;
    }

    /** A written block reads back, and every other location keeps what it had. */
    method WriteBlock(track: nat, head: nat, block: nat, data: seq<byte>) returns (written: bool)
      requires Valid() && head < 2 && block < 2
      modifies this`file
      ensures var m := At(track, head, block); written <==> m.Some? && m.value.length == |data| && m.value.writable
      ensures !written ==> file == old(file)
      ensures written ==> Stored(file, At(track, head, block).value) == Some(data)
      ensures written ==> forall l :: l in mapping && l != Location(track, head, block) && Stored(old(file), mapping[l]).Some? ==>
        Stored(file, mapping[l]) == Stored(old(file), mapping[l])
      ensures written ==> var m := At(track, head, block).value;
        forall i :: 0 <= i < |old(file)| && !(m.offset <= i < m.offset + m.length) ==> i < |file| && file[i] == old(file)[i]
    {
      hide WriteAt, Apart, Stored;
      var location := Location(track, head, block);
      if location in mapping {
        var m := mapping[location];
        if m.length == |data| && m.writable {
          forall l | l in mapping && l != location && Stored(file, mapping[l]).Some?
            ensures Stored(WriteAt(file, m.offset, data), mapping[l]) == Stored(file, mapping[l])
          {
            OthersKept(file, m, data, mapping[l]);
          }
          StoredBack(file, m, data);
          WriteAtMeaning(file, m.offset, data);
          file := WriteAt(file, m.offset, data);
          return true;
        }
      }
      return false;
    }

    /** The number the drive firmware uses for a block. */
    method GetLba(track: nat, head: nat, block: nat) returns (lba: Option<nat>)
      requires head < 2 && block < 2
      ensures lba == if head == 0 && track < 12 then Some(ClosedForm(track, block))
        else match At(track, head, block) case None => None case Some(m) => Some(m.lba)
    {
      if head == 0 && track < 12 {
        return Some(2 * track + Flip(block, track % 2));
      }
      var location := Location(track, head, block);
      if location in mapping {
        return Some(mapping[location].lba);
      }
      return None;
    }
  }

  /** The number of a block in the first twelve tracks, without looking at the index. */
  function ClosedForm(track: nat, block: nat): nat {
    2 * track + Flip(block, track % 2)
  }
}
