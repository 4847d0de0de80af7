/**
 Opening a 64DD image: the search of the system area that tells the disk format, the disk type and the
 blocks to leave out (load_ndd, load_sys_lba and verify_sys_lba in sw/deployer/src/disk.rs).
 */
module DiskOpen {
  import opened Bytes
  import opened DiskImage
  import opened DiskStore
  import opened DiskLayout

  datatype Format = Retail | Development

  datatype SystemAreaInfo = SystemAreaInfo(format: Format, sectorLength: nat, sysLba: seq<nat>, badLba: seq<nat>)

  const RETAIL_AREA := SystemAreaInfo(Retail, 232, [9, 8, 1, 0], [2, 3, 10, 11, 12, 16, 17, 18, 19, 20, 21, 22, 23])
  const DEVELOPMENT_AREA := SystemAreaInfo(Development, 192, [11, 10, 3, 2], [0, 1, 8, 9, 16, 17, 18, 19, 20, 21, 22, 23])

  const SYSTEM_LENGTH := SYSTEM_SECTOR_LENGTH * SECTORS_PER_BLOCK

  /** What the file holds for a block of the system area, when it is long enough. */
  function SystemBlock(file: seq<byte>, lba: nat): (r: Option<seq<byte>>)
    ensures r.Some? ==> |r.value| == SYSTEM_LENGTH
  {
    if (lba + 1) * SYSTEM_LENGTH <= |file| then Some(file[lba * SYSTEM_LENGTH..(lba + 1) * SYSTEM_LENGTH]) else None
  }

  /** The place of a system block is the place of that block in the index. */
  lemma {:induction false} SystemBlockIsIndexed(diskType: nat, bad: BadTracks, romZones: nat, file: seq<byte>, lba: nat)
    requires diskType < TYPES && ProperTracks(Walk(diskType, bad, ZONES)) && |bad[0]| <= BAD_TRACKS_PER_ZONE && lba < 24
    ensures lba < 2 * |Walk(diskType, bad, ZONES)|
    ensures SystemBlock(file, lba) == Stored(file, LbaMapping(Walk(diskType, bad, ZONES), romZones, lba))
  {
    SystemBlocks(bad);
    hide Walk, GoodTracks, ProperTracks, LbaMapping;
    FirstZoneOffsets(diskType, bad, romZones, lba);
  }

  /** Sector number s of a block. */
  function Copy(data: seq<byte>, sectorLength: nat, s: nat): seq<byte>
    requires sectorLength <= SYSTEM_SECTOR_LENGTH && s < SECTORS_PER_BLOCK && |data| == SYSTEM_LENGTH
  {
    SectorInBlock(sectorLength, s);
    data[s * sectorLength..s * sectorLength + sectorLength]
  }

  lemma {:induction false} SectorInBlock(sectorLength: nat, s: nat)
    requires sectorLength <= SYSTEM_SECTOR_LENGTH && s < SECTORS_PER_BLOCK
    ensures s * sectorLength + sectorLength <= SYSTEM_LENGTH
  {
    assert s * sectorLength <= 84 * sectorLength;
  }

  /** All sectors of a system block are copies of the first. */
  predicate Consistent(data: seq<byte>, sectorLength: nat)
    requires sectorLength <= SYSTEM_SECTOR_LENGTH && |data| == SYSTEM_LENGTH
  {
    forall s :: 0 <= s < SECTORS_PER_BLOCK ==> Copy(data, sectorLength, s) == Copy(data, sectorLength, 0)
  }

  method VerifySysLba(data: seq<byte>, sectorLength: nat) returns (valid: bool)
    requires sectorLength <= SYSTEM_SECTOR_LENGTH && |data| == SYSTEM_LENGTH
    ensures valid <==> Consistent(data, sectorLength)
  {
    hide Copy;
    var sysData := Copy(data, sectorLength, 0);
    for sector := 1 to SECTORS_PER_BLOCK
      invariant forall s :: 0 <= s < sector ==> Copy(data, sectorLength, s) == Copy(data, sectorLength, 0)
    {
      if sysData != Copy(data, sectorLength, sector) { return false; }
    }
    valid := true;
  }

  /** A system block that names a disk type. */
  predicate NamesType(data: seq<byte>, sectorLength: nat)
    requires sectorLength <= SYSTEM_SECTOR_LENGTH && |data| == SYSTEM_LENGTH
  {
    Consistent(data, sectorLength) && data[4] == 0x10 && data[5] / 16 == 1
  }

  predicate AllReadable(file: seq<byte>, lbas: seq<nat>) {
    forall k :: 0 <= k < |lbas| ==> SystemBlock(file, lbas[k]).Some?
  }

  /** The blocks of a list that name no disk type. */
  function Unusable(file: seq<byte>, sectorLength: nat, lbas: seq<nat>): (r: seq<nat>)
    requires sectorLength <= SYSTEM_SECTOR_LENGTH && AllReadable(file, lbas)
  {
    if lbas == [] then [] else
      var last := lbas[|lbas| - 1];
      Unusable(file, sectorLength, lbas[..|lbas| - 1]) + if NamesType(SystemBlock(file, last).value, sectorLength) then [] else [last]
  }

  /** The last genuine block of a list. */
  function SystemData(file: seq<byte>, sectorLength: nat, lbas: seq<nat>): (r: Option<seq<byte>>)
    requires sectorLength <= SYSTEM_SECTOR_LENGTH && AllReadable(file, lbas)
    ensures r.Some? ==> |r.value| == SYSTEM_SECTOR_LENGTH && r.value[5] / 16 == 1
  {
    if lbas == [] then None else
      var data := SystemBlock(file, lbas[|lbas| - 1]).value;
      if NamesType(data, sectorLength) then Some(data[..SYSTEM_SECTOR_LENGTH]) else SystemData(file, sectorLength, lbas[..|lbas| - 1])
  }

  /** The two go together: every block is unusable, or there is system data. */
  lemma {:induction false} UnusableMeaning(file: seq<byte>, sectorLength: nat, lbas: seq<nat>)
    requires sectorLength <= SYSTEM_SECTOR_LENGTH && AllReadable(file, lbas)
    ensures forall k :: 0 <= k < |lbas| ==> (lbas[k] in Unusable(file, sectorLength, lbas) <==> !NamesType(SystemBlock(file, lbas[k]).value, sectorLength))
    ensures SystemData(file, sectorLength, lbas).None? <==> Unusable(file, sectorLength, lbas) == lbas
    ensures |Unusable(file, sectorLength, lbas)| <= |lbas|
    ensures forall x :: x in Unusable(file, sectorLength, lbas) ==> x in lbas && SystemBlock(file, x).Some? && !NamesType(SystemBlock(file, x).value, sectorLength)
  {
    hide NamesType, SystemBlock;
    if lbas != [] {
      var init, last := lbas[..|lbas| - 1], lbas[|lbas| - 1];
      assert lbas == init + [last];
      UnusableMeaning(file, sectorLength, init);
    }
  }

  method SearchArea(file: seq<byte>, info: SystemAreaInfo) returns (readable: bool, badLbas: seq<nat>, sysData: Option<seq<byte>>)
    requires info.sectorLength <= SYSTEM_SECTOR_LENGTH
    ensures readable <==> AllReadable(file, info.sysLba)
    ensures readable ==> badLbas == Unusable(file, info.sectorLength, info.sysLba) && sysData == SystemData(file, info.sectorLength, info.sysLba)
  {
    hide NamesType, Consistent;
    badLbas, sysData := [], None;
    for k := 0 to |info.sysLba|
      invariant AllReadable(file, info.sysLba[..k])
      invariant badLbas == Unusable(file, info.sectorLength, info.sysLba[..k]) &&
        sysData == SystemData(file, info.sectorLength, info.sysLba[..k])
    {
      var lba := info.sysLba[k];
      assert info.sysLba[..k + 1][..k] == info.sysLba[..k];
      var block := SystemBlock(file, lba);
      if block.None? { return false, badLbas, sysData; }
      var data := block.value;
      var genuine := CheckType(data, info.sectorLength);
      if genuine {
        sysData := Some(data[..SYSTEM_SECTOR_LENGTH]);
      } else {
        badLbas := badLbas + [lba];
      }
    }
    assert info.sysLba[..|info.sysLba|] == info.sysLba;
    readable := true;
  }

  method CheckType(data: seq<byte>, sectorLength: nat) returns (genuine: bool)
    requires sectorLength <= SYSTEM_SECTOR_LENGTH && |data| == SYSTEM_LENGTH
    ensures genuine <==> NamesType(data, sectorLength)
  {
    hide Consistent;
    var valid := VerifySysLba(data, sectorLength);
    genuine := valid && data[4] == 0x10 && data[5] / 16 == 1;
  }

  // ---------- the rest of load_ndd ----------

  const ID_LBAS: seq<nat> := [15, 14]

  /** Identification blocks whose sectors differ. */
  function BrokenIds(file: seq<byte>, lbas: seq<nat>): (r: seq<nat>)
    requires AllReadable(file, lbas)
    ensures |r| <= |lbas|
  {
    if lbas == [] then [] else
      var last := lbas[|lbas| - 1];
      BrokenIds(file, lbas[..|lbas| - 1]) + if Consistent(SystemBlock(file, last).value, SYSTEM_SECTOR_LENGTH) then [] else [last]
  }

  method CheckIds(file: seq<byte>) returns (readable: bool, broken: seq<nat>)
    ensures readable <==> AllReadable(file, ID_LBAS)
    ensures readable ==> broken == BrokenIds(file, ID_LBAS)
  {
    hide Consistent;
    broken := [];
    for k := 0 to |ID_LBAS|
      invariant AllReadable(file, ID_LBAS[..k]) && broken == BrokenIds(file, ID_LBAS[..k])
    {
      assert ID_LBAS[..k + 1][..k] == ID_LBAS[..k];
      var block := SystemBlock(file, ID_LBAS[k]);
      if block.None? { return false, broken; }
      var valid := VerifySysLba(block.value, SYSTEM_SECTOR_LENGTH);
      if !valid { broken := broken + [ID_LBAS[k]]; }
    }
    assert ID_LBAS[..|ID_LBAS|] == ID_LBAS;
    readable := true;
  }

  datatype OpenError = Unreadable | NotADisk | UnknownType | NoIdBlock | BadTrackTable

  datatype OpenResult = Opened(format: Format, disk: Disk) | Refused(error: OpenError)

  /** What the system area says: where it was found, its data, and the blocks that cannot be used. */
  datatype SystemArea = SystemArea(format: Format, data: seq<byte>, badLbas: seq<nat>)

  function AreaIn(file: seq<byte>, info: SystemAreaInfo): Option<SystemArea>
    requires info.sectorLength <= SYSTEM_SECTOR_LENGTH && AllReadable(file, info.sysLba)
  {
    var data := SystemData(file, info.sectorLength, info.sysLba);
    if data.None? then None else Some(SystemArea(info.format, data.value, Unusable(file, info.sectorLength, info.sysLba) + info.badLba))
  }

  datatype AreaOutcome = CannotRead | Missing | Found(area: SystemArea)

  /** The retail area counts if it is there, otherwise the development area. */
  function Area(file: seq<byte>): AreaOutcome {
    if !AllReadable(file, RETAIL_AREA.sysLba) then CannotRead
    else if AreaIn(file, RETAIL_AREA).Some? then Found(AreaIn(file, RETAIL_AREA).value)
    else if !AllReadable(file, DEVELOPMENT_AREA.sysLba) then CannotRead
    else if AreaIn(file, DEVELOPMENT_AREA).Some? then Found(AreaIn(file, DEVELOPMENT_AREA).value)
    else Missing
  }

  /** Why a file is refused. A bad track table that does not fit stops the program. */
  function Verdict(file: seq<byte>): Option<OpenError> {
    match Area(file)
    case CannotRead => Some(Unreadable)
    case Missing => Some(NotADisk)
    case Found(area) =>
      if |area.data| != SYSTEM_SECTOR_LENGTH || area.data[5] % 16 >= TYPES then Some(UnknownType)
      else if !AllReadable(file, ID_LBAS) then Some(Unreadable)
      else if BrokenIds(file, ID_LBAS) == ID_LBAS then Some(NoIdBlock)
      else if !ReadableTable(area.data) then Some(BadTrackTable)
      else None
  }

  /** The place of a block in the opened disk is what the walk over its zones says. */
  ghost predicate IsDiskOf(disk: Disk, area: SystemArea, broken: seq<nat>)
    reads disk
  {
    |area.data| == SYSTEM_SECTOR_LENGTH && ReadableTable(area.data) && area.data[5] % 16 < TYPES &&
    exists bad: BadTracks :: IsTable(bad, area.data) && ProperTracks(Walk(area.data[5] % 16, bad, ZONES)) &&
      disk.mapping == Index(Walk(area.data[5] % 16, bad, ZONES), ROM_ZONES[area.data[5] % 16], area.badLbas + broken,
                            2 * |Walk(area.data[5] % 16, bad, ZONES)|)
  }

  ghost predicate IsTable(bad: BadTracks, sysData: seq<byte>)
    requires ReadableTable(sysData)
  {
    forall z :: 0 <= z < ZONES ==> bad[z] == Filled(z, Listed(sysData, z))
  }

  method SearchAreas(file: seq<byte>) returns (outcome: AreaOutcome)
    ensures outcome == Area(file) && (outcome.Found? ==> |outcome.area.data| == SYSTEM_SECTOR_LENGTH)
  {
    hide AllReadable, Unusable, SystemData;
    var readable, badLbas, sysData := SearchArea(file, RETAIL_AREA);
    if !readable { return CannotRead; }
    if sysData.Some? { return Found(SystemArea(Retail, sysData.value, badLbas + RETAIL_AREA.badLba)); }
    readable, badLbas, sysData := SearchArea(file, DEVELOPMENT_AREA);
    if !readable { return CannotRead; }
    if sysData.Some? { return Found(SystemArea(Development, sysData.value, badLbas + DEVELOPMENT_AREA.badLba)); }
    outcome := Missing;
  }

  lemma {:induction false} AllBroken(file: seq<byte>)
    requires AllReadable(file, ID_LBAS)
    ensures BrokenIds(file, ID_LBAS) == ID_LBAS <==> |BrokenIds(file, ID_LBAS)| == 2
  {
    hide Consistent, SystemBlock;
    assert ID_LBAS[..1] == [15] && [15][..0] == [];
    assert BrokenIds(file, []) == [];
    assert |BrokenIds(file, [15])| == 1 ==> BrokenIds(file, [15]) == [15];
  }

  /** open and load_ndd */
  method Open(file: seq<byte>) returns (r: OpenResult)
    ensures Verdict(file).Some? ==> r == Refused(Verdict(file).value)
    ensures Verdict(file).None? ==> r.Opened? && Area(file).Found? && AllReadable(file, ID_LBAS)
    ensures r.Opened? ==> r.disk.Valid() && r.disk.file == file && r.format == Area(file).area.format
    ensures r.Opened? ==> IsDiskOf(r.disk, Area(file).area, BrokenIds(file, ID_LBAS))
  {
    hide AllReadable, Area, Walk, Index, ReadableTable, Listed, Filled, BrokenIds, DiskStore.Disk.Valid;
    var outcome := SearchAreas(file);
    if outcome.CannotRead? { return Refused(Unreadable); }
    if outcome.Missing? { return Refused(NotADisk); }
    var area := outcome.area;
    var diskType: nat := area.data[5] % 16;
    if diskType >= TYPES { return Refused(UnknownType); }
    var readable, broken := CheckIds(file);
    if !readable { return Refused(Unreadable); }
    AllBroken(file);
    if |broken| == 2 { return Refused(NoIdBlock); }
    if !ReadableTable(area.data) { return Refused(BadTrackTable); }
    var bad := ZoneBadTracks(area.data);
    var disk := new Disk(file, diskType, bad, area.badLbas + broken);
    r := Opened(area.format, disk);
    assert IsTable(bad, area.data);
  }

  // ---------- get_lba against the index of an opened disk ----------

  /** What get_lba says without looking at the index is what the index says. */
  ghost predicate ShortcutRight(disk: Disk, track: nat, block: nat) {
    disk.At(track, 0, block).Some? && disk.At(track, 0, block).value.lba == ClosedForm(track, block)
  }

  /** The fillers of the first zone are far behind its first tracks. */
  lemma {:induction false} FirstTracksListed(sysData: seq<byte>, t: nat)
    requires ReadableTable(sysData) && t < 12
    ensures |Listed(sysData, 0)| <= BAD_TRACKS_PER_ZONE
    ensures t in Filled(0, Listed(sysData, 0)) <==> t in Listed(sysData, 0)
  {
    ListedLength(sysData, 0);
    FirstLength();
    hide Listed, Zone;
    var listed := Listed(sysData, 0);
    var r := Filled(0, listed);
    assert r[..|listed|] == listed;
    assert forall i :: |listed| <= i < 12 ==> r[i] == 157 - (i - |listed|);
  }

  /** On an opened disk the shortcut is right exactly where no track up to there is listed as bad and the block is not left out. */
  lemma {:induction false} OpenedShortcut(disk: Disk, area: SystemArea, broken: seq<nat>, track: nat, block: nat)
    requires IsDiskOf(disk, area, broken) && track < 12 && block < 2
    ensures ShortcutRight(disk, track, block) <==>
      (forall t :: 0 <= t <= track ==> t !in Listed(area.data, 0)) && ClosedForm(track, block) !in area.badLbas + broken
  {
    hide Walk, Index, Listed, Filled, ClosedForm, Location, ReadableTable, ProperTracks;
    var diskType, badLbas := area.data[5] % 16, area.badLbas + broken;
    var bad: BadTracks :| IsTable(bad, area.data) && ProperTracks(Walk(diskType, bad, ZONES)) &&
      disk.mapping == Index(Walk(diskType, bad, ZONES), ROM_ZONES[diskType], badLbas, 2 * |Walk(diskType, bad, ZONES)|);
    forall t | 0 <= t <= track
      ensures t in bad[0] <==> t in Listed(area.data, 0)
    {
      FirstTracksListed(area.data, t);
    }
    FirstTracksListed(area.data, 0);
    assert |bad[0]| <= BAD_TRACKS_PER_ZONE;
    ShortcutExact(diskType, bad, badLbas, track, block);
  }

  /** A found area leaves out block 2 of a retail disk and block 0 of a development disk. */
  lemma {:induction false} AreaLeavesOut(file: seq<byte>)
    requires Area(file).Found?
    ensures (if Area(file).area.format.Retail? then 2 else 0) in Area(file).area.badLbas
  {
    hide AllReadable, Unusable, SystemData;
    assert RETAIL_AREA.badLba[0] == 2 && DEVELOPMENT_AREA.badLba[0] == 0;
  }

  lemma {:induction false} LeftOutWrong(disk: Disk, area: SystemArea, broken: seq<nat>, track: nat, block: nat)
    requires IsDiskOf(disk, area, broken) && track < 12 && block < 2 && ClosedForm(track, block) in area.badLbas
    ensures !ShortcutRight(disk, track, block)
  {
    hide *;
    OpenedShortcut(disk, area, broken, track, block);
    assert ClosedForm(track, block) in area.badLbas + broken;
  }

  lemma {:induction false} ListedWrong(disk: Disk, area: SystemArea, broken: seq<nat>, bad: nat, track: nat, block: nat)
    requires IsDiskOf(disk, area, broken) && bad <= track < 12 && block < 2 && bad in Listed(area.data, 0)
    ensures !ShortcutRight(disk, track, block)
  {
    hide *;
    OpenedShortcut(disk, area, broken, track, block);
  }

  lemma {:induction false} FirstForms()
    ensures ClosedForm(1, 1) == 2 && ClosedForm(0, 0) == 0
  {
  }

  lemma {:induction false} ShortcutWrong(disk: Disk, area: SystemArea, broken: seq<nat>)
    requires IsDiskOf(disk, area, broken) && (if area.format.Retail? then 2 else 0) in area.badLbas
    ensures if area.format.Retail? then !ShortcutRight(disk, 1, 1) else !ShortcutRight(disk, 0, 0)
  {
    hide *;
    FirstForms();
    if area.format.Retail? {
      LeftOutWrong(disk, area, broken, 1, 1);
    } else {
      LeftOutWrong(disk, area, broken, 0, 0);
    }
  }

  /** So there is no opened disk on which the shortcut is right everywhere. */
  lemma {:induction false} ShortcutNeverRight(file: seq<byte>, disk: Disk)
    requires Verdict(file).None? && Area(file).Found? && AllReadable(file, ID_LBAS)
    requires IsDiskOf(disk, Area(file).area, BrokenIds(file, ID_LBAS))
    ensures if Area(file).area.format.Retail? then !ShortcutRight(disk, 1, 1) else !ShortcutRight(disk, 0, 0)
  {
    hide *;
    AreaLeavesOut(file);
    ShortcutWrong(disk, Area(file).area, BrokenIds(file, ID_LBAS));
  }

  // ---------- a disk that lists a track twice ----------

  /** Byte i of a system sector that names disk type 0 and lists track 5 of the first zone twice. */
  function TwiceByte(i: nat): byte {
    if i == 4 || i == 5 then 0x10 else if i == 8 then 2 else if i == 0x20 || i == 0x21 then 5 else 0
  }

  function TwiceSector(): (s: seq<byte>)
    ensures |s| == SYSTEM_SECTOR_LENGTH
  {
    seq(SYSTEM_SECTOR_LENGTH, i requires 0 <= i => TwiceByte(i))
  }

  /** A file of 24 blocks full of that sector. */
  function TwiceFile(): (f: seq<byte>)
    ensures |f| == 24 * SYSTEM_LENGTH
  {
    seq(24 * SYSTEM_LENGTH, i requires 0 <= i => TwiceByte(i % SYSTEM_SECTOR_LENGTH))
  }

  lemma {:induction false} SameByte(a: nat, j: nat)
    requires j < SYSTEM_SECTOR_LENGTH
    ensures (a * SYSTEM_SECTOR_LENGTH + j) % SYSTEM_SECTOR_LENGTH == j
  {
  }

  lemma {:induction false} TwiceAt(lba: nat, s: nat, j: nat)
    requires lba < 24 && s < SECTORS_PER_BLOCK && j < SYSTEM_SECTOR_LENGTH
    ensures s * SYSTEM_SECTOR_LENGTH + j < SYSTEM_LENGTH && SystemBlock(TwiceFile(), lba).Some?
    ensures SystemBlock(TwiceFile(), lba).value[s * SYSTEM_SECTOR_LENGTH + j] == TwiceByte(j)
  {
    hide TwiceByte;
    SectorInBlock(SYSTEM_SECTOR_LENGTH, s);
    SameByte(85 * lba + s, j);
  }

  lemma {:induction false} TwiceCopy(lba: nat, s: nat)
    requires lba < 24 && s < SECTORS_PER_BLOCK
    ensures SystemBlock(TwiceFile(), lba).Some? && Copy(SystemBlock(TwiceFile(), lba).value, SYSTEM_SECTOR_LENGTH, s) == TwiceSector()
  {
    hide TwiceByte;
    TwiceAt(lba, s, 0);
    SectorInBlock(SYSTEM_SECTOR_LENGTH, s);
    forall j | 0 <= j < SYSTEM_SECTOR_LENGTH
      ensures SystemBlock(TwiceFile(), lba).value[s * SYSTEM_SECTOR_LENGTH + j] == TwiceByte(j)
    {
      TwiceAt(lba, s, j);
    }
    hide SystemBlock, TwiceFile;
  }

  /** Every block of the file is a system block with that data. */
  lemma {:induction false} TwiceBlock(lba: nat)
    requires lba < 24
    ensures SystemBlock(TwiceFile(), lba).Some? && NamesType(SystemBlock(TwiceFile(), lba).value, SYSTEM_SECTOR_LENGTH)
    ensures SystemBlock(TwiceFile(), lba).value[..SYSTEM_SECTOR_LENGTH] == TwiceSector()
  {
    forall s | 0 <= s < SECTORS_PER_BLOCK
      ensures Copy(SystemBlock(TwiceFile(), lba).value, SYSTEM_SECTOR_LENGTH, s) == TwiceSector()
    {
      TwiceCopy(lba, s);
    }
    TwiceCopy(lba, 0);
    var data := SystemBlock(TwiceFile(), lba).value;
    assert Copy(data, SYSTEM_SECTOR_LENGTH, 0) == data[..SYSTEM_SECTOR_LENGTH];
    assert TwiceSector()[4] == TwiceSector()[5] == 0x10;
  }

  lemma {:induction false} TwiceSearch(lbas: seq<nat>)
    requires forall k :: 0 <= k < |lbas| ==> lbas[k] < 24
    ensures AllReadable(TwiceFile(), lbas) && Unusable(TwiceFile(), SYSTEM_SECTOR_LENGTH, lbas) == [] && BrokenIds(TwiceFile(), lbas) == []
    ensures lbas != [] ==> SystemData(TwiceFile(), SYSTEM_SECTOR_LENGTH, lbas) == Some(TwiceSector())
  {
    hide TwiceFile, TwiceSector, SystemBlock, Consistent;
    if lbas != [] {
      var init, last := lbas[..|lbas| - 1], lbas[|lbas| - 1];
      TwiceSearch(init);
      TwiceBlock(last);
      assert lbas == init + [last];
    }
  }

  lemma {:induction false} TwiceArea()
    ensures Area(TwiceFile()) == Found(SystemArea(Retail, TwiceSector(), RETAIL_AREA.badLba))
    ensures AllReadable(TwiceFile(), ID_LBAS) && BrokenIds(TwiceFile(), ID_LBAS) == []
  {
    TwiceSearch([9, 8, 1, 0]);
    TwiceSearch([15, 14]);
    hide TwiceFile, TwiceSector, AllReadable, SystemData, Unusable, BrokenIds;
    assert [] + RETAIL_AREA.badLba == RETAIL_AREA.badLba;
  }

  lemma {:induction false} TwiceTable()
    ensures ReadableTable(TwiceSector()) && Listed(TwiceSector(), 0) == [5, 5] && !Genuine(0, [5, 5])
  {
    var s := TwiceSector();
    assert s[8] == 2 && s[0x20] == s[0x21] == 5;
    forall z | 0 <= z < ZONES
      ensures ListedCount(s, z) == if z == 0 then 2 else 0
      ensures ListStart(s, z) == if z == 1 then 2 else 0
    {
    }
    hide TwiceSector;
    assert [5, 5][0] == [5, 5][1];
  }

  lemma {:induction false} TwiceVerdict()
    ensures Verdict(TwiceFile()).None?
  {
    TwiceArea();
    TwiceTable();
    assert TwiceSector()[5] == 0x10;
    hide TwiceFile, TwiceSector, Area, BrokenIds, ReadableTable, AllReadable;
  }

  lemma {:induction false} RetailLeavesOut()
    ensures ClosedForm(1, 1) in RETAIL_AREA.badLba
  {
    assert RETAIL_AREA.badLba[0] == ClosedForm(1, 1);
  }

  lemma {:induction false} FiveListed()
    ensures ReadableTable(TwiceSector()) && 5 in Listed(TwiceSector(), 0)
  {
    TwiceTable();
    hide TwiceSector, Listed, ReadableTable, Genuine;
    assert Listed(TwiceSector(), 0)[0] == 5;
  }

  lemma {:induction false} TwiceBad()
    ensures Area(TwiceFile()).Found? && ClosedForm(1, 1) in Area(TwiceFile()).area.badLbas
    ensures ReadableTable(Area(TwiceFile()).area.data) && 5 in Listed(Area(TwiceFile()).area.data, 0)
  {
    hide *;
    TwiceArea();
    RetailLeavesOut();
    FiveListed();
  }

  /**
   The file is opened, but the disk has more than 4316 blocks, and get_lba says what the index does not say: for
   block 2, which a retail disk leaves out, and behind the track that is bad, for track 6.
   */
  lemma {:induction false} TwiceOpened(disk: Disk, bad: BadTracks)
    ensures Verdict(TwiceFile()).None? && ReadableTable(TwiceSector())
    ensures Area(TwiceFile()) == Found(SystemArea(Retail, TwiceSector(), RETAIL_AREA.badLba))
    ensures IsTable(bad, TwiceSector()) ==> 2 * |Walk(0, bad, ZONES)| > FULL_LBAS
    ensures IsDiskOf(disk, Area(TwiceFile()).area, []) ==> !ShortcutRight(disk, 1, 1) && !ShortcutRight(disk, 6, 0)
  {
    TwiceVerdict();
    TwiceArea();
    TwiceTable();
    hide *;
    if IsTable(bad, TwiceSector()) { TwiceCount(bad); }
    if IsDiskOf(disk, Area(TwiceFile()).area, []) {
      TwiceBad();
      LeftOutWrong(disk, Area(TwiceFile()).area, [], 1, 1);
      ListedWrong(disk, Area(TwiceFile()).area, [], 5, 6, 0);
    }
  }

  lemma {:induction false} TwiceCount(bad: BadTracks)
    requires ReadableTable(TwiceSector()) && Listed(TwiceSector(), 0) == [5, 5] && !Genuine(0, [5, 5])
    requires IsTable(bad, TwiceSector())
    ensures 2 * |Walk(0, bad, ZONES)| > FULL_LBAS
  {
    hide TwiceSector, Walk, Listed, ReadableTable, Genuine, Filled;
    SystemDataDecides(0, TwiceSector(), bad);
    forall z | 0 <= z < ZONES
      ensures |bad[z]| == BAD_TRACKS_PER_ZONE
    {
      ListedLength(TwiceSector(), z);
    }
    BlockCount(0, bad);
  }
}
