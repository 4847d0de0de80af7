/**
 Which files are opened as 64DD images, said about the bytes of the file (load_ndd in sw/deployer/src/disk.rs).
 */
module DiskAccept {
  import opened Bytes
  import opened DiskImage
  import opened DiskLayout
  import opened DiskOpen

  /** Bytes of a block of the system area. */
  const BLOCK := 19720

  /** Sector s of n bytes of a block. */
  function SectorOf(file: seq<byte>, lba: nat, n: nat, s: nat): seq<byte> {
    if lba * BLOCK + s * n + n <= |file| then file[lba * BLOCK + s * n..lba * BLOCK + s * n + n] else []
  }

  /** The 85 sectors of n bytes at the start of this block are the same. */
  ghost predicate SameSectors(file: seq<byte>, lba: nat, n: nat) {
    forall s :: 0 <= s < 85 ==> SectorOf(file, lba, n, s) == SectorOf(file, lba, n, 0)
  }

  /** System data that names a disk type. */
  ghost predicate Genuine(file: seq<byte>, lba: nat, n: nat) {
    (lba + 1) * BLOCK <= |file| && SameSectors(file, lba, n) && file[lba * BLOCK + 4] == 0x10 && 0x10 <= file[lba * BLOCK + 5] < 0x20
  }

  lemma {:induction false} BlockBounds(file: seq<byte>, lba: nat)
    ensures SystemBlock(file, lba).Some? <==> (lba + 1) * BLOCK <= |file|
    ensures SystemBlock(file, lba).Some? ==> SystemBlock(file, lba).value == file[lba * BLOCK..lba * BLOCK + BLOCK]
  {
    assert (lba + 1) * BLOCK == lba * BLOCK + BLOCK;
  }

  lemma {:induction false} CopyIsSector(file: seq<byte>, lba: nat, n: nat, s: nat)
    requires SystemBlock(file, lba).Some? && n <= SYSTEM_SECTOR_LENGTH && s < SECTORS_PER_BLOCK
    ensures Copy(SystemBlock(file, lba).value, n, s) == SectorOf(file, lba, n, s)
  {
    BlockBounds(file, lba);
    SectorInBlock(n, s);
    hide SystemBlock;
    SliceOfSlice(file, lba * BLOCK, BLOCK, s * n, s * n + n);
  }

  lemma {:induction false} ConsistentExactly(file: seq<byte>, lba: nat, n: nat)
    requires SystemBlock(file, lba).Some? && n <= SYSTEM_SECTOR_LENGTH
    ensures Consistent(SystemBlock(file, lba).value, n) <==> SameSectors(file, lba, n)
  {
    hide Copy, SectorOf, SystemBlock;
    CopyIsSector(file, lba, n, 0);
    forall s: nat | s < SECTORS_PER_BLOCK
      ensures Copy(SystemBlock(file, lba).value, n, s) == SectorOf(file, lba, n, s)
    {
      CopyIsSector(file, lba, n, s);
    }
  }

  /** A block names a disk type in the sense of the search just when the bytes of the file say so. */
  lemma {:induction false} GenuineExactly(file: seq<byte>, lba: nat, n: nat)
    requires SystemBlock(file, lba).Some? && n <= SYSTEM_SECTOR_LENGTH
    ensures NamesType(SystemBlock(file, lba).value, n) <==> Genuine(file, lba, n)
  {
    BlockBounds(file, lba);
    ConsistentExactly(file, lba, n);
    hide SameSectors, Consistent, SystemBlock;
  }

  /** Block `lba` is the one among four that counts: it is genuine, and none that is looked at later is. */
  ghost predicate Counts(file: seq<byte>, n: nat, a: nat, b: nat, c: nat, d: nat, lba: nat) {
    Genuine(file, lba, n) &&
    (lba == d || (lba == c && !Genuine(file, d, n)) || (lba == b && !Genuine(file, c, n) && !Genuine(file, d, n)) ||
     (lba == a && !Genuine(file, b, n) && !Genuine(file, c, n) && !Genuine(file, d, n)))
  }

  lemma {:induction false} FourBlocks(file: seq<byte>, n: nat, a: nat, b: nat, c: nat, d: nat)
    requires n <= SYSTEM_SECTOR_LENGTH && AllReadable(file, [a, b, c, d])
    ensures SystemData(file, n, [a, b, c, d]).None? <==>
      !Genuine(file, a, n) && !Genuine(file, b, n) && !Genuine(file, c, n) && !Genuine(file, d, n)
    ensures forall lba: nat :: Counts(file, n, a, b, c, d, lba) ==> SystemData(file, n, [a, b, c, d]) == Some(SectorOf(file, lba, 232, 0))
  {
    assert [a, b, c, d][0] == a && [a, b, c, d][1] == b && [a, b, c, d][2] == c && [a, b, c, d][3] == d;
    assert [a, b, c, d][..3] == [a, b, c] && [a, b, c][..2] == [a, b] && [a, b][..1] == [a] && [a][..0] == [];
    GenuineExactly(file, a, n);
    GenuineExactly(file, b, n);
    GenuineExactly(file, c, n);
    GenuineExactly(file, d, n);
    BlockStarts(file, a);
    BlockStarts(file, b);
    BlockStarts(file, c);
    BlockStarts(file, d);
    hide Genuine, NamesType, SystemBlock, SectorOf;
    assert SystemData(file, n, []) == None;
    assert SystemData(file, n, [a]).Some? <==> Genuine(file, a, n);
    assert SystemData(file, n, [a, b]).Some? <==> Genuine(file, a, n) || Genuine(file, b, n);
  }

  lemma {:induction false} BlockStarts(file: seq<byte>, lba: nat)
    requires SystemBlock(file, lba).Some?
    ensures SystemBlock(file, lba).value[..SYSTEM_SECTOR_LENGTH] == SectorOf(file, lba, 232, 0)
  {
    BlockBounds(file, lba);
    hide SystemBlock;
    SliceOfSlice(file, lba * BLOCK, BLOCK, 0, 232);
  }

  // ---------- the system areas ----------

  /** Block `lba` holds the system data: one of blocks 0, 1, 8 and 9 in retail sectors, or else one of blocks 2, 3, 10 and 11
      in development sectors. */
  ghost predicate HoldsSystem(file: seq<byte>, retail: bool, lba: nat) {
    if retail then Counts(file, 232, 9, 8, 1, 0, lba) else NoRetail(file) && Counts(file, 192, 11, 10, 3, 2, lba)
  }

  ghost predicate NoRetail(file: seq<byte>) {
    !Genuine(file, 0, 232) && !Genuine(file, 1, 232) && !Genuine(file, 8, 232) && !Genuine(file, 9, 232)
  }

  lemma {:induction false} LongEnough(file: seq<byte>)
    requires |file| >= 16 * BLOCK
    ensures AllReadable(file, RETAIL_AREA.sysLba) && AllReadable(file, DEVELOPMENT_AREA.sysLba) && AllReadable(file, ID_LBAS)
  {
    forall lba: nat | lba < 16
      ensures SystemBlock(file, lba).Some?
    {
      BlockBounds(file, lba);
    }
    hide SystemBlock;
  }

  lemma {:induction false} AreaFound(file: seq<byte>, retail: bool, lba: nat)
    requires |file| >= 16 * BLOCK && HoldsSystem(file, retail, lba)
    ensures Area(file).Found? && Area(file).area.data == SectorOf(file, lba, 232, 0) && (Area(file).area.format.Retail? <==> retail)
  {
    LongEnough(file);
    FourBlocks(file, 232, 9, 8, 1, 0);
    FourBlocks(file, 192, 11, 10, 3, 2);
    hide AllReadable, SystemData, Unusable, Genuine, SectorOf;
  }

  lemma {:induction false} NoArea(file: seq<byte>)
    requires |file| >= 16 * BLOCK && NoRetail(file)
    requires !Genuine(file, 2, 192) && !Genuine(file, 3, 192) && !Genuine(file, 10, 192) && !Genuine(file, 11, 192)
    ensures Area(file).Missing?
  {
    LongEnough(file);
    FourBlocks(file, 232, 9, 8, 1, 0);
    FourBlocks(file, 192, 11, 10, 3, 2);
    hide AllReadable, SystemData, Unusable, Genuine, SectorOf;
  }

  /** Some block holds the system data, unless none is genuine. */
  lemma {:induction false} SomeSystem(file: seq<byte>) returns (retail: bool, lba: nat)
    ensures HoldsSystem(file, retail, lba) || (NoRetail(file) && !Genuine(file, 2, 192) && !Genuine(file, 3, 192) &&
      !Genuine(file, 10, 192) && !Genuine(file, 11, 192))
  {
    hide Genuine;
    retail := !NoRetail(file);
    lba := if retail then (if Genuine(file, 0, 232) then 0 else if Genuine(file, 1, 232) then 1 else if Genuine(file, 8, 232) then 8 else 9)
      else (if Genuine(file, 2, 192) then 2 else if Genuine(file, 3, 192) then 3 else if Genuine(file, 10, 192) then 10 else 11);
  }

  lemma {:induction false} UnusableAmong(file: seq<byte>, n: nat, a: nat, b: nat, c: nat, d: nat, x: nat)
    requires n <= SYSTEM_SECTOR_LENGTH && AllReadable(file, [a, b, c, d])
    ensures x in Unusable(file, n, [a, b, c, d]) <==> (x == a || x == b || x == c || x == d) && !Genuine(file, x, n)
  {
    UnusableMeaning(file, n, [a, b, c, d]);
    assert [a, b, c, d][0] == a && [a, b, c, d][1] == b && [a, b, c, d][2] == c && [a, b, c, d][3] == d;
    GenuineExactly(file, a, n);
    GenuineExactly(file, b, n);
    GenuineExactly(file, c, n);
    GenuineExactly(file, d, n);
    hide Genuine, NamesType, SystemBlock, Unusable;
  }

  lemma {:induction false} RetailReserved(b: nat)
    ensures b in RETAIL_AREA.badLba <==> b == 2 || b == 3 || b == 10 || b == 11 || b == 12 || 16 <= b < 24
  {
    var first, rest: seq<nat> := [2, 3, 10, 11, 12], [16, 17, 18, 19, 20, 21, 22, 23];
    assert RETAIL_AREA.badLba == first + rest;
    EightInRow(b);
  }

  lemma {:induction false} DevelopmentReserved(b: nat)
    ensures b in DEVELOPMENT_AREA.badLba <==> b == 0 || b == 1 || b == 8 || b == 9 || 16 <= b < 24
  {
    var first, rest: seq<nat> := [0, 1, 8, 9], [16, 17, 18, 19, 20, 21, 22, 23];
    assert DEVELOPMENT_AREA.badLba == first + rest;
    EightInRow(b);
  }

  lemma {:induction false} EightInRow(b: nat)
    ensures var rest: seq<nat> := [16, 17, 18, 19, 20, 21, 22, 23]; b in rest <==> 16 <= b < 24
  {
    var rest: seq<nat> := [16, 17, 18, 19, 20, 21, 22, 23];
    assert forall i :: 0 <= i < 8 ==> rest[i] == 16 + i;
    if 16 <= b < 24 { assert rest[b - 16] == b; }
  }

  lemma {:induction false} AreaBlocks(file: seq<byte>)
    requires Area(file).Found? && AllReadable(file, RETAIL_AREA.sysLba) && AllReadable(file, DEVELOPMENT_AREA.sysLba)
    ensures Area(file).area.badLbas == if Area(file).area.format.Retail?
      then Unusable(file, 232, [9, 8, 1, 0]) + RETAIL_AREA.badLba else Unusable(file, 192, [11, 10, 3, 2]) + DEVELOPMENT_AREA.badLba
  {
    hide AllReadable, SystemData, Unusable;
  }

  /** The blocks an opened disk leaves out: the copies of the system data that are not genuine, the system area of the other
      format, and the reserved blocks. */
  lemma {:induction false} LeftOut(file: seq<byte>, retail: bool, lba: nat, b: nat)
    requires |file| >= 16 * BLOCK && HoldsSystem(file, retail, lba)
    ensures Area(file).Found?
    ensures b in Area(file).area.badLbas <==>
      16 <= b < 24 || (retail && b == 12) ||
      (b in {0, 1, 8, 9} && (retail ==> !Genuine(file, b, 232))) || (b in {2, 3, 10, 11} && (!retail ==> !Genuine(file, b, 192)))
  {
    hide AllReadable, SystemData, Unusable, Genuine, SectorOf, Area, HoldsSystem;
    AreaFound(file, retail, lba);
    LongEnough(file);
    AreaBlocks(file);
    RetailReserved(b);
    DevelopmentReserved(b);
    if retail { UnusableAmong(file, 232, 9, 8, 1, 0, b); } else { UnusableAmong(file, 192, 11, 10, 3, 2, b); }
  }

  // ---------- which files are opened ----------

  /** No list of bad tracks has more than twelve entries, or runs past the system sector. */
  ghost predicate TablesFit(data: seq<byte>)
    requires |data| == 232
  {
    forall z :: 0 <= z < 16 ==> ListFits(data, z)
  }

  predicate ListFits(data: seq<byte>, z: nat)
    requires |data| == 232 && z < 16
  {
    var start, stop := if z == 0 then 0 else data[7 + z] as int, data[8 + z] as int;
    stop <= start || (stop - start <= 12 && 32 + stop <= 232)
  }

  lemma {:induction false} TablesFitExactly(data: seq<byte>)
    requires |data| == 232
    ensures ReadableTable(data) <==> TablesFit(data)
  {
    forall z: nat | z < 16
      ensures ListFits(data, z) <==>
        ListedCount(data, z) <= 12 && (ListedCount(data, z) > 0 ==> 32 + ListStart(data, z) + ListedCount(data, z) <= 232)
    {
    }
    hide ListedCount, ListStart, ListFits;
  }

  /** Entry i of the bad track lists. */
  function ListEntry(data: seq<byte>, i: int): int {
    if 0 <= i && 32 + i < |data| then data[32 + i] else -1
  }

  /** The bad tracks of a zone: those its list names, and the last ones of the zone for what the list is short of twelve. */
  lemma {:induction false} BadTracksExactly(data: seq<byte>, z: nat, t: nat)
    requires |data| == 232 && ReadableTable(data) && z < 16
    ensures |Listed(data, z)| <= 12
    ensures var start, stop := if z == 0 then 0 else data[7 + z] as int, data[8 + z] as int;
      var n := if stop <= start then 0 else stop - start;
      t in Filled(z, Listed(data, z)) <==>
        (exists i :: start <= i < stop && ListEntry(data, i) == t) || Zone(z).tracks - (12 - n) <= t < Zone(z).tracks
  {
    hide Zone;
    var start, stop := if z == 0 then 0 else data[7 + z] as int, data[8 + z] as int;
    var n := if stop <= start then 0 else stop - start;
    var listed, r := Listed(data, z), Filled(z, Listed(data, z));
    assert |listed| == n && forall k :: 0 <= k < n ==> listed[k] == ListEntry(data, start + k);
    assert forall k :: 0 <= k < n ==> r[k] == listed[k];
    assert forall k :: n <= k < 12 ==> r[k] == Zone(z).tracks - (k - n) - 1;
    hide Filled, Listed, ReadableTable, ListEntry;
    if exists i :: start <= i < stop && ListEntry(data, i) == t {
      var i :| start <= i < stop && ListEntry(data, i) == t;
      assert r[i - start] == listed[i - start] == t;
    } else if Zone(z).tracks - (12 - n) <= t < Zone(z).tracks {
      assert r[n + (Zone(z).tracks - 1 - t)] == t;
    }
  }

  lemma {:induction false} IdsExactly(file: seq<byte>)
    requires |file| >= 16 * BLOCK
    ensures AllReadable(file, ID_LBAS)
    ensures BrokenIds(file, ID_LBAS) == ID_LBAS <==> !SameSectors(file, 14, 232) && !SameSectors(file, 15, 232)
  {
    LongEnough(file);
    assert SystemBlock(file, ID_LBAS[0]).Some? && SystemBlock(file, ID_LBAS[1]).Some?;
    ConsistentExactly(file, 14, 232);
    ConsistentExactly(file, 15, 232);
    hide Consistent, SystemBlock, SameSectors;
    assert ID_LBAS[..1] == [15] && [15][..0] == [];
    assert BrokenIds(file, []) == [];
    assert BrokenIds(file, [15]) == if SameSectors(file, 15, 232) then [] else [15];
  }

  /** What becomes of a file whose system data is in this block. */
  ghost function Judgement(file: seq<byte>, lba: nat): Option<OpenError>
    requires (lba + 1) * BLOCK <= |file|
  {
    HeadLength(file, lba);
    if file[lba * BLOCK + 5] % 16 >= 7 then Some(UnknownType)
    else if !SameSectors(file, 14, 232) && !SameSectors(file, 15, 232) then Some(NoIdBlock)
    else if !TablesFit(SectorOf(file, lba, 232, 0)) then Some(BadTrackTable)
    else None
  }

  lemma {:induction false} HeadLength(file: seq<byte>, lba: nat)
    requires (lba + 1) * BLOCK <= |file|
    ensures lba * BLOCK + 232 <= |file| && |SectorOf(file, lba, 232, 0)| == 232 && SectorOf(file, lba, 232, 0)[5] == file[lba * BLOCK + 5]
  {
  }

  /**
   Which files are opened, and why others are not: no file of fewer than sixteen blocks is; a longer one is refused as no
   disk when no block of the two system areas is genuine, and otherwise by its disk type, its identification blocks and its
   lists of bad tracks, in this order.
   */
  lemma {:induction false} OpenedExactly(file: seq<byte>)
    ensures |file| < 16 * BLOCK ==> Verdict(file).Some?
    ensures |file| >= 16 * BLOCK && (forall retail, lba: nat :: !HoldsSystem(file, retail, lba)) ==> Verdict(file) == Some(NotADisk)
    ensures |file| >= 16 * BLOCK ==> forall retail, lba: nat :: HoldsSystem(file, retail, lba) ==>
      (lba + 1) * BLOCK <= |file| && Verdict(file) == Judgement(file, lba)
  {
    if |file| < 16 * BLOCK {
      TooShort(file);
    } else {
      var r, l := SomeSystem(file);
      if !HoldsSystem(file, r, l) { NoArea(file); }
      forall retail, lba: nat | HoldsSystem(file, retail, lba)
        ensures (lba + 1) * BLOCK <= |file| && Verdict(file) == Judgement(file, lba)
      {
        Judged(file, retail, lba);
      }
    }
  }

  lemma {:induction false} TooShort(file: seq<byte>)
    requires |file| < 16 * BLOCK
    ensures Verdict(file).Some?
  {
    BlockBounds(file, 15);
    hide Area, SystemBlock, BrokenIds, ReadableTable;
    assert !AllReadable(file, ID_LBAS) by { assert SystemBlock(file, ID_LBAS[0]).None?; }
  }

  lemma {:induction false} Judged(file: seq<byte>, retail: bool, lba: nat)
    requires |file| >= 16 * BLOCK && HoldsSystem(file, retail, lba)
    ensures (lba + 1) * BLOCK <= |file| && Verdict(file) == Judgement(file, lba)
  {
    AreaFound(file, retail, lba);
    IdsExactly(file);
    HeadLength(file, lba);
    TablesFitExactly(SectorOf(file, lba, 232, 0));
    hide Area, SectorOf, SameSectors, AllReadable, BrokenIds, ReadableTable, TablesFit;
  }
}
