/**
 The 64DD emulation of sw/controller/src/dd.c: one poll of dd_process as a step of a state machine
 over the drive's registers, the block buffer in device memory and the SD card.
 */
module DiskDrive {
  import opened Bytes
  import opened SdBlocks
  import opened DriveBuffer
  import opened DriveControl
  import opened DriveProtocol
  import DiskImage

  /** Tables of a disk image in device memory, or unmapped. */
  datatype DiskInfo = DiskInfo(thbTable: word, sectorTable: word)

  const NO_DISK := DiskInfo(0xFFFF_FFFF, 0xFFFF_FFFF)

  predicate ProperDisk(info: DiskInfo) {
    info == NO_DISK || (info.thbTable < 0x2000_0000 && info.sectorTable < 0x2000_0000)
  }

  // ---------- the tables of a disk ----------

  function Entry(mem: seq<byte>, address: nat): word
    requires |mem| == ADDRESSES && address + 4 <= ADDRESSES
  {
    FromBigEndian(mem[address..address + 4])
  }

  /** Where a block starts in its disk image, if it is there and may be used that way. */
  function BlockStart(mem: seq<byte>, info: DiskInfo, index: nat, isWrite: bool): (start: Option<nat>)
    requires |mem| == ADDRESSES && ProperDisk(info) && index < 0x4000
    ensures start.Some? ==> start.value < WRITABLE_FLAG
  {
    if info.thbTable == UNMAPPED then None else
      var entry := Entry(mem, info.thbTable + 4 * index);
      if entry == UNMAPPED || (isWrite && entry < WRITABLE_FLAG) then None else Some(entry % WRITABLE_FLAG)
  }

  /** The SD sectors n bytes from `start` of the image lie in. */
  function BlockSectors(mem: seq<byte>, info: DiskInfo, start: nat, n: nat): (table: seq<word>)
    requires |mem| == ADDRESSES && info.sectorTable < 0x2000_0000 && start < WRITABLE_FLAG && 0 < n <= BUFFER_SIZE
    ensures |table| == SectorSpan(start, n)
  {
    seq<word>(SectorSpan(start, n), i requires 0 <= i < SectorSpan(start, n) => Entry(mem, info.sectorTable + 4 * (start / SECTOR_SIZE + i)))
  }

  lemma {:induction false} MappedDisk(mem: seq<byte>, info: DiskInfo, index: nat, isWrite: bool)
    requires |mem| == ADDRESSES && ProperDisk(info) && index < 0x4000 && BlockStart(mem, info, index, isWrite).Some?
    ensures info.sectorTable < 0x2000_0000
  {
  }

  /** The SD sectors of a block, none when the block is not there. */
  function BlockTable(mem: seq<byte>, disk: DiskInfo, index: nat, info: SectorInfo, isWrite: bool): (table: seq<word>)
    requires |mem| == ADDRESSES && ProperDisk(disk) && index < 0x4000 && ProperInfo(info)
  {
    var start := BlockStart(mem, disk, index, isWrite);
    if start.None? then [] else
      assert disk.sectorTable < 0x2000_0000 by { MappedDisk(mem, disk, index, isWrite); }
      BlockSectors(mem, disk, start.value, BlockLength(info))
  }

  /** Where the tables say a block is: nowhere without a table or an entry, and not for writing unless its highest bit is set. */
  lemma {:induction false} BlockStartExactly(mem: seq<byte>, info: DiskInfo, index: nat, isWrite: bool)
    requires |mem| == ADDRESSES && ProperDisk(info) && index < 0x4000
    ensures info.thbTable == 0xFFFF_FFFF ==> BlockStart(mem, info, index, isWrite).None?
    ensures info.thbTable < 0xFFFF_FFFF ==>
      var at := info.thbTable + 4 * index;
      var entry := mem[at] as int * 0x100_0000 + mem[at + 1] as int * 0x1_0000 + mem[at + 2] as int * 0x100 + mem[at + 3];
      BlockStart(mem, info, index, isWrite) ==
        if entry == 0xFFFF_FFFF || (isWrite && entry < 0x8000_0000) then None
        else Some(if entry < 0x8000_0000 then entry else entry - 0x8000_0000)
  {
    if info.thbTable < 0xFFFF_FFFF {
      var at := info.thbTable + 4 * index;
      assert mem[at..at + 4] == [mem[at], mem[at + 1], mem[at + 2], mem[at + 3]];
    }
  }

  /** dd_track_head_block */
  function TrackHeadBlock(headTrack: nat, startingBlock: bool): (index: nat)
    requires headTrack < 0x2000
    ensures index == DiskImage.Location(headTrack % 0x1000, headTrack / 0x1000, if startingBlock then 1 else 0) < 0x4000
  {
    var track := headTrack % 0x1000 * 4;
    var head := (if headTrack / 0x1000 % 2 == 1 then 1 else 0) * 2;
    assert headTrack / 0x1000 < 2 && headTrack / 0x1000 % 2 == headTrack / 0x1000;
    var block := if startingBlock then 1 else 0;
    track + head + block
  }

  function BlockLength(info: SectorInfo): (n: nat)
    requires ProperInfo(info)
    ensures 0 < n <= BUFFER_SIZE - SECTOR_SIZE
  {
    (info.sectorSize + 1) * DATA_SECTORS
  }

  // ---------- what a poll does to memory, the card and the block in the buffer ----------

  /** A block transfer that was carried out for a block read from the card. */
  datatype Effect =
    | Delivered(session: Session, sector: nat, data: seq<byte>, card: seq<byte>)
    | WrittenBack(session: Session, before: seq<byte>, after: seq<byte>)

  /**
   A delivered sector is what the card has where the engine finds that sector of the block; a write-back has all
   sectors of the block, and changes what the card had by laying them over it.
   */
  ghost predicate Correct(e: Effect) {
    match e
    case Delivered(s, n, data, card) =>
      Proper(s) && HasImage(card, s.table, s.image) && n < DATA_SECTORS && |data| == s.length &&
      SectorAt(s, n) + s.length <= |s.image| && data == s.image[SectorAt(s, n)..SectorAt(s, n) + s.length]
    case WrittenBack(s, before, after) =>
      Proper(s) && |s.got| == s.sectors && HasImage(before, s.table, s.image) && OnlyListed(s.table, before, after) &&
      HasImage(after, s.table, Overlaid(s))
  }

  /** Where the engine finds sector n of a block in the buffer. */
  function SectorAt(s: Session, n: nat): nat {
    SectorPlace(s.offset, s.length, n)
  }

  datatype Store = Store(mem: seq<byte>, card: seq<byte>, faults: nat, blockReady: bool, blockValid: bool, blockOffset: nat,
                         session: Option<Session>, log: seq<Effect>)

  /** What a block request is about: the SD sectors of its block and whether the card can be used. */
  datatype Place = Place(sdMode: bool, locked: bool, initialized: bool, inLimits: bool, start: Option<nat>, table: seq<word>, info: SectorInfo)

  /** Every sector of the table was transferred. */
  ghost predicate Transferred(p: Place, a: Store, b: Store) {
    p.locked && p.initialized && p.table != [] && FirstZero(p.table) == |p.table| && b.faults == a.faults
  }

  ghost predicate FlagsAfter(p: Place, a: Store, b: Store) {
    b.faults >= a.faults &&
    if p.sdMode then
      b.blockReady && (b.blockValid <==> Transferred(p, a, b)) &&
      (p.locked && p.start.Some? ==> b.blockOffset == p.start.value % SECTOR_SIZE) &&
      (!(p.locked && p.start.Some?) ==> b.blockOffset == a.blockOffset)
    else !b.blockReady && b.blockValid == a.blockValid && b.blockOffset == 0
  }

  /** A block that has just been read. */
  function NewSession(table: seq<word>, blockOffset: nat, info: SectorInfo, image: seq<byte>): Session {
    Session(table, blockOffset, Length(info), if DataSectors(info) < 0 then 0 else DataSectors(info), image, [])
  }

  /** A block read request. */
  ghost predicate ReadRequested(p: Place, a: Store, b: Store) {
    FlagsAfter(p, a, b) && b.card == a.card && b.log == a.log && BufferAlone(a.mem, b.mem) &&
    |b.mem| == ADDRESSES && |p.table| <= TABLE_SIZE &&
    b.session ==
      if p.sdMode && Transferred(p, a, b) && p.inLimits
      then Some(NewSession(p.table, b.blockOffset, p.info, Buffered(b.mem, |p.table| * SECTOR_SIZE)))
      else None
  }

  /** The block of the session lies in these distinct SD sectors, at this place. */
  ghost predicate SamePlace(session: Option<Session>, table: seq<word>, blockOffset: nat) {
    session.Some? && table == session.value.table && blockOffset == session.value.offset && DistinctSectors(table)
  }

  /** All its sectors have been collected. */
  ghost predicate Complete(session: Option<Session>) {
    session.Some? ==> |session.value.got| == session.value.sectors
  }

  /** The buffer goes back to the sectors the block was read from. */
  ghost predicate WritesBack(p: Place, a: Store, b: Store) {
    p.sdMode && Transferred(p, a, b) && p.inLimits && SamePlace(a.session, p.table, b.blockOffset)
  }

  /** A block write request. */
  ghost predicate WriteRequested(p: Place, a: Store, b: Store) {
    FlagsAfter(p, a, b) && b.mem == a.mem && b.session == None && |b.card| == |a.card| &&
    (p.inLimits ==> OnlyListed(p.table, a.card, b.card)) && (!p.sdMode || !p.locked || !p.initialized ==> b.card == a.card) &&
    b.log == if WritesBack(p, a, b) then a.log + [WrittenBack(a.session.value, a.card, b.card)] else a.log
  }

  /** The log after a sector was copied out, and the session after one was copied in. */
  ghost function DeliveredLog(session: Option<Session>, log: seq<Effect>, sector: nat, data: seq<byte>, card: seq<byte>): seq<Effect> {
    if session.None? then log else log + [Delivered(session.value, sector, data, card)]
  }

  lemma {:induction false} LogGrows(session: Option<Session>, log: seq<Effect>, sector: nat, data: seq<byte>, card: seq<byte>)
    ensures log <= DeliveredLog(session, log, sector, data, card)
  {
  }

  ghost function CollectedIn(session: Option<Session>, more: seq<byte>): Option<Session> {
    if session.None? then None else Some(WithSector(session.value, more))
  }

  /** Where the engine finds or puts the sector at hand. */
  function BufferAt(c: Control, blockOffset: nat): nat {
    BUFFER_ADDRESS + SectorPlace(blockOffset, Length(c.info), c.currentSector)
  }

  ghost predicate CopiedOut(c: Control, a: Store, b: Store) {
    var n, at := Length(c.info), BufferAt(c, a.blockOffset);
    |a.mem| == ADDRESSES && at + Paired(n) <= BUFFER_ADDRESS + BUFFER_SIZE && SECTOR_BUFFER_ADDRESS + Paired(n) <= ADDRESSES &&
    b == a.(mem := Blit(a.mem, SECTOR_BUFFER_ADDRESS, a.mem, at, Paired(n)),
            log := DeliveredLog(a.session, a.log, c.currentSector, a.mem[at..at + n], a.card))
  }

  ghost predicate CopiedIn(c: Control, a: Store, b: Store) {
    var n, at := Paired(Length(c.info)), BufferAt(c, a.blockOffset);
    |a.mem| == ADDRESSES && at + n <= BUFFER_ADDRESS + BUFFER_SIZE && SECTOR_BUFFER_ADDRESS + n <= ADDRESSES &&
    b == a.(mem := Blit(a.mem, at, a.mem, SECTOR_BUFFER_ADDRESS, n),
            session := CollectedIn(a.session, a.mem[SECTOR_BUFFER_ADDRESS..SECTOR_BUFFER_ADDRESS + n]))
  }

  /** What the switch over the states does outside the control registers. */
  ghost predicate Stepped(c: Control, p: Place, a: Store, b: Store) {
    match c.state
    case Start => ReadRequested(p, a, b)
    case SectorRead => CopiedOut(c, a, b)
    case SectorWrite => CopiedIn(c, a, b)
    case BlockWrite => WriteRequested(p, a, b)
    case NextBlock => b == if c.fullTrackTransfer then a.(session := None) else a
    case _ => b == a
  }

  /** Nothing changed outside the block buffer. */
  ghost predicate BufferAlone(a: seq<byte>, b: seq<byte>) {
    |a| == |b| && forall j :: 0 <= j < |a| && !(BUFFER_ADDRESS <= j < BUFFER_ADDRESS + BUFFER_SIZE) ==> b[j] == a[j]
  }

  /** The session is what the card, the buffer and the registers say. */
  ghost predicate LiveIn(s: Session, c: Control, mem: seq<byte>, card: seq<byte>, blockOffset: nat) {
    |mem| == ADDRESSES && Proper(s) && HasImage(card, s.table, s.image) && Buffered(mem, |s.image|) == Overlaid(s) &&
    s.offset == blockOffset && s.length == Length(c.info) && s.sectors == DataSectors(c.info) && c.state != Start && ProperInfo(c.info) &&
    (c.transferMode ==> s.got == []) && (!c.transferMode ==> |s.got| == c.currentSector <= DataSectors(c.info))
  }

  ghost predicate SessionIn(session: Option<Session>, c: Control, mem: seq<byte>, card: seq<byte>, blockOffset: nat) {
    session.Some? ==> LiveIn(session.value, c, mem, card, blockOffset)
  }

  ghost predicate AllCorrect(log: seq<Effect>) {
    forall e :: e in log ==> Correct(e)
  }

  lemma {:induction false} AllCorrectNext(log: seq<Effect>, e: Effect)
    requires AllCorrect(log) ==> Correct(e)
    ensures AllCorrect(log) ==> AllCorrect(log + [e])
  {
  }

  /** A session that starts now. */
  ghost predicate Fresh(s: Session, mem: seq<byte>, card: seq<byte>, blockOffset: nat, info: SectorInfo) {
    |mem| == ADDRESSES && Proper(s) && HasImage(card, s.table, s.image) && s.got == [] && s.offset == blockOffset &&
    s.image == Buffered(mem, |s.table| * SECTOR_SIZE) && s.length == Length(info) && s.sectors == DataSectors(info)
  }

  lemma {:induction false} FreshIsLive(session: Option<Session>, c: Control, mem: seq<byte>, card: seq<byte>, blockOffset: nat)
    requires session.Some? ==> Fresh(session.value, mem, card, blockOffset, c.info) && c.state != Start
    requires ProperInfo(c.info) && c.currentSector == 0
    ensures SessionIn(session, c, mem, card, blockOffset)
  {
    hide HasImage, Buffered;
  }

  /** A live session delivers the sector, and stays live. */
  lemma {:induction false} SessionDelivers(session: Option<Session>, log: seq<Effect>, c: Control, d: Control,
                                           mem: seq<byte>, after: seq<byte>, card: seq<byte>, blockOffset: nat)
    requires SessionIn(session, c, mem, card, blockOffset) && AllCorrect(log)
    requires |mem| == ADDRESSES && c.transferMode && c.currentSector < DATA_SECTORS
    requires BufferAt(c, blockOffset) + Length(c.info) <= ADDRESSES
    requires d.info == c.info && d.transferMode && d.state != Start && Untouched(mem, after)
    ensures SessionIn(session, d, after, card, blockOffset)
    ensures var at := BufferAt(c, blockOffset);
      AllCorrect(DeliveredLog(session, log, c.currentSector, mem[at..at + Length(c.info)], card))
  {
    hide HasImage, Correct, AllCorrect, Proper, SectorPlace, Overlaid;
    if session.Some? {
      var s, at := session.value, BufferAt(c, blockOffset);
      LiveDelivers(s, c, mem, after, card, blockOffset);
      AllCorrectNext(log, Delivered(s, c.currentSector, mem[at..at + Length(c.info)], card));
    }
  }

  /** The block buffer is the same. */
  ghost predicate Untouched(mem: seq<byte>, after: seq<byte>) {
    |mem| == ADDRESSES && |after| == ADDRESSES && forall j :: BUFFER_ADDRESS <= j < BUFFER_ADDRESS + BUFFER_SIZE ==> after[j] == mem[j]
  }

  lemma {:induction false} LiveDelivers(s: Session, c: Control, mem: seq<byte>, after: seq<byte>, card: seq<byte>,
          blockOffset: nat)
    requires LiveIn(s, c, mem, card, blockOffset) && c.transferMode && c.currentSector < DATA_SECTORS && Untouched(mem, after)
    ensures Buffered(after, |s.image|) == Overlaid(s)
    ensures var at := BufferAt(c, blockOffset);
      at + Length(c.info) <= ADDRESSES && Correct(Delivered(s, c.currentSector, mem[at..at + Length(c.info)], card))
  {
    LivePlace(s, c, mem, card, blockOffset);
    LiveImage(s, c, mem, card, blockOffset);
    BufferSame(mem, after, |s.image|);
    hide *;
    DeliveredIsCorrect(s, c.currentSector, mem, card);
  }

  lemma {:induction false} BufferSame(mem: seq<byte>, after: seq<byte>, n: nat)
    requires Untouched(mem, after) && n <= BUFFER_SIZE
    ensures Buffered(after, n) == Buffered(mem, n)
  {
    BufferedElsewhere(mem, after, n);
    hide Buffered;
  }

  lemma {:induction false} LiveImage(s: Session, c: Control, mem: seq<byte>, card: seq<byte>, blockOffset: nat)
    requires LiveIn(s, c, mem, card, blockOffset) && c.transferMode
    ensures |mem| == ADDRESSES && Proper(s) && |s.image| <= BUFFER_SIZE && HasImage(card, s.table, s.image)
    ensures Buffered(mem, |s.image|) == Overlaid(s) == s.image
  {
    hide HasImage, Buffered;
  }

  lemma {:induction false} LivePlace(s: Session, c: Control, mem: seq<byte>, card: seq<byte>, blockOffset: nat)
    requires LiveIn(s, c, mem, card, blockOffset) && c.currentSector < DATA_SECTORS
    ensures Length(c.info) == s.length && BufferAt(c, blockOffset) == BUFFER_ADDRESS + SectorAt(s, c.currentSector)
    ensures SectorAt(s, c.currentSector) + s.length <= |s.image| <= BUFFER_SIZE
  {
    SectorFits(c.currentSector, s.length);
    hide SectorsLength, HasImage, Overlaid, AllPaired;
  }

  /** A live session collects the next sector. */
  lemma {:induction false} SessionCollects(session: Option<Session>, c: Control, d: Control, mem: seq<byte>,
          card: seq<byte>, blockOffset: nat)
    requires SessionIn(session, c, mem, card, blockOffset) && |mem| == ADDRESSES && !c.transferMode &&
      c.currentSector < DataSectors(c.info)
    requires BufferAt(c, blockOffset) + Paired(Length(c.info)) <= ADDRESSES && SECTOR_BUFFER_ADDRESS + Paired(Length(c.info)) <= ADDRESSES
    requires d.info == c.info && !d.transferMode && d.state != Start && d.currentSector == c.currentSector + 1
    ensures var at, n := BufferAt(c, blockOffset), Paired(Length(c.info));
      SessionIn(CollectedIn(session, mem[SECTOR_BUFFER_ADDRESS..SECTOR_BUFFER_ADDRESS + n]), d,
        Blit(mem, at, mem, SECTOR_BUFFER_ADDRESS, n), card, blockOffset)
  {
    hide LiveIn, HasImage, Buffered, Overlaid, Blit, Proper, Paired, BufferAt, WithSector;
    if session.Some? {
      assert session.value.length == Length(c.info) by { LiveLength(session.value, c, mem, card, blockOffset); }
      LiveGoesOn(session.value, c, d, mem, mem[SECTOR_BUFFER_ADDRESS..SECTOR_BUFFER_ADDRESS + Paired(Length(c.info))], card, blockOffset);
    }
  }

  lemma {:induction false} LiveLength(s: Session, c: Control, mem: seq<byte>, card: seq<byte>, blockOffset: nat)
    requires LiveIn(s, c, mem, card, blockOffset)
    ensures s.length == Length(c.info)
  {
    hide HasImage, Buffered, Overlaid, Proper;
  }

  lemma {:induction false} LiveGoesOn(s: Session, c: Control, d: Control, mem: seq<byte>, more: seq<byte>, card: seq<byte>,
          blockOffset: nat)
    requires LiveIn(s, c, mem, card, blockOffset) && !c.transferMode && c.currentSector < DataSectors(c.info)
    requires d.info == c.info && !d.transferMode && d.state != Start && d.currentSector == c.currentSector + 1
    requires var n := Paired(s.length);
      SECTOR_BUFFER_ADDRESS + n <= ADDRESSES && more == mem[SECTOR_BUFFER_ADDRESS..SECTOR_BUFFER_ADDRESS + n] &&
      BufferAt(c, blockOffset) + n <= ADDRESSES
    ensures LiveIn(WithSector(s, more), d, Blit(mem, BufferAt(c, blockOffset), mem, SECTOR_BUFFER_ADDRESS, Paired(s.length)), card, blockOffset)
  {
    LiveCollects(s, c, mem, more, card, blockOffset);
    hide HasImage, Buffered, Overlaid, Blit, Proper, SectorPlace, Paired;
  }

  lemma {:induction false} LiveCollects(s: Session, c: Control, mem: seq<byte>, more: seq<byte>, card: seq<byte>,
          blockOffset: nat)
    requires LiveIn(s, c, mem, card, blockOffset) && !c.transferMode && c.currentSector < DataSectors(c.info)
    requires var n := Paired(s.length);
      SECTOR_BUFFER_ADDRESS + n <= ADDRESSES && more == mem[SECTOR_BUFFER_ADDRESS..SECTOR_BUFFER_ADDRESS + n]
    ensures var t, at, n := WithSector(s, more), BufferAt(c, blockOffset), Paired(s.length);
      Proper(t) && at + n <= ADDRESSES && Buffered(Blit(mem, at, mem, SECTOR_BUFFER_ADDRESS, n), |s.image|) == Overlaid(t)
  {
    MoreIsProper(s, c, more);
    OverlaidMore(s, more);
    hide Proper, SectorPlace, HasImage, Buffered, Overlaid, Blit, LaidOver, Paired;
    BufferedBlit(mem, |s.image|, SectorPlace(s.offset, s.length, |s.got|), mem, SECTOR_BUFFER_ADDRESS, Paired(s.length));
  }

  lemma {:induction false} NoSession(c: Control, mem: seq<byte>, card: seq<byte>, blockOffset: nat)
    ensures SessionIn(None, c, mem, card, blockOffset)
  {
  }

  /** Nothing but the state and, when reading, the sector counter moved. */
  lemma {:induction false} SessionPrepared(session: Option<Session>, c: Control, d: Control, mem: seq<byte>,
          card: seq<byte>, blockOffset: nat)
    requires SessionIn(session, c, mem, card, blockOffset)
    requires d.info == c.info && d.transferMode == c.transferMode && (d.currentSector == c.currentSector || d.transferMode)
    requires d.state == c.state || d.state != Start
    ensures SessionIn(session, d, mem, card, blockOffset)
  {
    hide HasImage, Overlaid, Buffered, Proper;
  }

  lemma {:induction false} MoreIsProper(s: Session, c: Control, more: seq<byte>)
    requires Proper(s) && ProperInfo(c.info) && c.currentSector < DataSectors(c.info) && |more| == Paired(s.length) && |s.got| == c.currentSector
    ensures Proper(WithSector(s, more)) && |s.image| <= BUFFER_SIZE
    ensures BUFFER_ADDRESS + SectorPlace(s.offset, s.length, |s.got|) + Paired(s.length) <= ADDRESSES
  {
    PlaceEnds(s.offset, s.length, |s.got|);
    hide SectorPlace, Paired;
  }

  lemma {:induction false} EntryInRange(disk: DiskInfo, index: nat)
    requires ProperDisk(disk) && index < 0x4000 && disk.thbTable != UNMAPPED
    ensures disk.thbTable + index * 4 + 4 <= ADDRESSES
  {
  }

  lemma {:induction false} NoTarget(mem: seq<byte>, disk: DiskInfo, index: nat, info: SectorInfo, isWrite: bool)
    requires |mem| == ADDRESSES && ProperDisk(disk) && index < 0x4000 && ProperInfo(info)
    ensures (disk.thbTable == UNMAPPED || (var e := Entry(mem, disk.thbTable + index * 4); e == UNMAPPED || (isWrite && e < WRITABLE_FLAG))) ==>
      BlockStart(mem, disk, index, isWrite).None? && BlockTable(mem, disk, index, info, isWrite) == []
  {
  }

  lemma {:induction false} Target(mem: seq<byte>, disk: DiskInfo, index: nat, info: SectorInfo, isWrite: bool, entry: word, start: nat, n: nat)
    requires |mem| == ADDRESSES && ProperDisk(disk) && index < 0x4000 && ProperInfo(info) && disk.thbTable != UNMAPPED
    requires entry == Entry(mem, disk.thbTable + index * 4)
    requires entry != UNMAPPED && !(isWrite && entry < WRITABLE_FLAG)
    requires start == entry % WRITABLE_FLAG && n == BlockLength(info)
    ensures var table := BlockTable(mem, disk, index, info, isWrite);
      BlockStart(mem, disk, index, isWrite) == Some(start) && |table| == SectorSpan(start, n) <= TABLE_SIZE &&
      start % SECTOR_SIZE + n <= |table| * SECTOR_SIZE &&
      disk.sectorTable + start / SECTOR_SIZE * 4 + TABLE_SIZE * 4 <= ADDRESSES &&
      forall i :: 0 <= i < |table| ==> table[i] == Entry(mem, disk.sectorTable + start / SECTOR_SIZE * 4 + i * 4)
  {
    hide Entry, SectorSpan;
    SpanFits(start, n);
  }

  lemma {:induction false} TargetFits(mem: seq<byte>, disk: DiskInfo, index: nat, info: SectorInfo, isWrite: bool)
    requires |mem| == ADDRESSES && ProperDisk(disk) && index < 0x4000 && ProperInfo(info)
    ensures |BlockTable(mem, disk, index, info, isWrite)| <= TABLE_SIZE
  {
    hide BlockLength, SectorSpan, BlockStart, ProperInfo;
    var start := BlockStart(mem, disk, index, isWrite);
    if start.Some? { SpanFits(start.value, BlockLength(info)); }
  }

  class Drive {
    var ctl: Control
    var spindle: Spindle
    var blockReady: bool
    var blockValid: bool
    var blockOffset: nat
    var sdMode: bool
    var sdCurrentDisk: nat
    var sdDiskInfo: seq<DiskInfo>
    const sd: Sd
    ghost var session: Option<Session> // the block in the buffer, when it was read from the card
    ghost var log: seq<Effect>

    ghost function Snap(): Store
      reads sd`mem, sd`card, sd`faults, `blockReady, `blockValid, `blockOffset, `session, `log
    {
      Store(sd.mem, sd.card, sd.faults, blockReady, blockValid, blockOffset, session, log)
    }

    ghost predicate Tables()
      reads sd`mem, `sdDiskInfo, `sdCurrentDisk
    {
      |sd.mem| == ADDRESSES && |sdDiskInfo| == 4 && sdCurrentDisk < 4 && forall i :: 0 <= i < 4 ==> ProperDisk(sdDiskInfo[i])
    }

    ghost predicate Mapped()
      reads sd`mem, `sdDiskInfo, `sdCurrentDisk, `spindle
    {
      Tables() && spindle.headTrack < 0x2000
    }

    ghost predicate Valid()
      reads this, sd
    {
      Mapped() && blockOffset < SECTOR_SIZE && InBlock(ctl) && SessionIn(session, ctl, sd.mem, sd.card, blockOffset) && AllCorrect(log)
    }

    /** dd_init */
    constructor (sd: Sd)
      requires |sd.mem| == ADDRESSES
      ensures Valid() && this.sd == sd && session == None && log == []
      ensures ctl.state == Idle && !ctl.bmRunning && !sdMode && sdDiskInfo == seq(4, _ => NO_DISK)
    {
      this.sd := sd;
      ctl := Control(Idle, 0, false, false, false, false, SectorInfo(0, 0, 0));
      spindle := Spindle(0, false, false);
      blockReady, blockValid, blockOffset := false, false, 0;
      sdMode, sdCurrentDisk, sdDiskInfo := false, 0, seq(4, _ => NO_DISK);
      session, log := None, [];
    }

    lemma {:induction false} ValidIs()
      requires Valid()
      ensures Mapped() && AllCorrect(log) && InBlock(ctl) && blockOffset < SECTOR_SIZE
    {
    }

    /** What a block request is about, with the head where it is. */
    ghost function Asked(x: Inputs, isWrite: bool): Place
      requires Mapped() && ProperInfo(ctl.info)
      reads sd`mem, sd`cardInitialized, sd`cardTypeBlock, `sdDiskInfo, `sdCurrentDisk, `spindle, `ctl, `sdMode
    {
      PlaceFor(x, TrackHeadBlock(spindle.headTrack, ctl.startingBlock), ctl.info, isWrite)
    }

    ghost function PlaceFor(x: Inputs, index: nat, info: SectorInfo, isWrite: bool): Place
      requires Tables() && index < 0x4000 && ProperInfo(info)
      reads sd`mem, sd`cardInitialized, sd`cardTypeBlock, `sdDiskInfo, `sdCurrentDisk, `sdMode
    {
      var disk := sdDiskInfo[sdCurrentDisk];
      var table := BlockTable(sd.mem, disk, index, info, isWrite);
      Place(sdMode, x.locked, sd.cardInitialized, sd.InLimits(table), BlockStart(sd.mem, disk, index, isWrite), table, info)
    }

    /** dd_fill_sd_sector_table: the table always fits, and covers the block. */
    method FillSdSectorTable(index: nat, sectorTable: array<word>, isWrite: bool) returns (sectors: nat)
      requires Mapped() && ProperInfo(ctl.info) && index < 0x4000 && sectorTable.Length == TABLE_SIZE
      modifies `blockOffset, sectorTable
      ensures sectors <= TABLE_SIZE && sectorTable[..sectors] == BlockTable(sd.mem, sdDiskInfo[sdCurrentDisk], index, ctl.info, isWrite)
      ensures var start := BlockStart(sd.mem, sdDiskInfo[sdCurrentDisk], index, isWrite);
        if start.None? then sectors == 0 && blockOffset == old(blockOffset)
        else start.value % SECTOR_SIZE == blockOffset && blockOffset + BlockLength(ctl.info) <= sectors * SECTOR_SIZE
    {
      hide BlockLength, Entry, BlockStart, BlockTable, ProperInfo, ProperDisk, SectorSpan;
      var disk := sdDiskInfo[sdCurrentDisk];
      NoTarget(sd.mem, disk, index, ctl.info, isWrite);
      if disk.thbTable == UNMAPPED {
        return 0;
      }
      EntryInRange(disk, index);
      var startOffset := Entry(sd.mem, disk.thbTable + index * 4);
      if startOffset == UNMAPPED || (isWrite && startOffset < WRITABLE_FLAG) {
        return 0;
      }
      Target(sd.mem, disk, index, ctl.info, isWrite, startOffset, startOffset % WRITABLE_FLAG, BlockLength(ctl.info));
      startOffset := startOffset % WRITABLE_FLAG;
      blockOffset := startOffset % SECTOR_SIZE;
      var startingSector := startOffset / SECTOR_SIZE;
      sectors := SectorSpan(startOffset, BlockLength(ctl.info));
      LoadEntries(disk.sectorTable + startingSector * 4, sectorTable, sectors);
      assert sectorTable[..sectors] == BlockTable(sd.mem, disk, index, ctl.info, isWrite);
    }

    method LoadEntries(address: nat, sectorTable: array<word>, sectors: nat)
      requires |sd.mem| == ADDRESSES && sectors <= sectorTable.Length && address + sectors * 4 <= ADDRESSES
      modifies sectorTable
      ensures forall i :: 0 <= i < sectors ==> sectorTable[i] == Entry(sd.mem, address + i * 4)
    {
      hide Entry;
      for i := 0 to sectors
        invariant forall k :: 0 <= k < i ==> sectorTable[k] == Entry(sd.mem, address + k * 4)
      {
        sectorTable[i] := Entry(sd.mem, address + i * 4);
      }
    }

    method TransferBlock(index: nat, direction: Direction) returns (ok: bool)
      requires Mapped() && ProperInfo(ctl.info) && index < 0x4000
      modifies `blockOffset, sd`mem, sd`card, sd`faults
      ensures var table := BlockTable(old(sd.mem), sdDiskInfo[sdCurrentDisk], index, ctl.info, direction == Write);
        |table| <= TABLE_SIZE && sd.Moved(direction, BUFFER_ADDRESS, table, FirstZero(table), old(sd.mem), old(sd.card), old(sd.faults)) &&
        (ok <==> sd.cardInitialized && table != [] && FirstZero(table) == |table| && sd.faults == old(sd.faults))
      ensures var start := BlockStart(old(sd.mem), sdDiskInfo[sdCurrentDisk], index, direction == Write);
        var table := BlockTable(old(sd.mem), sdDiskInfo[sdCurrentDisk], index, ctl.info, direction == Write);
        if start.None? then blockOffset == old(blockOffset) && table == []
        else (start.value % SECTOR_SIZE == blockOffset && blockOffset + BlockLength(ctl.info) <= |table| * SECTOR_SIZE)
    {
      hide BlockTable, BlockStart, BlockLength, FirstZero, ProperInfo, ProperDisk, sd.Moved;
      var sectorTable := new word[TABLE_SIZE];
      var sectors := FillSdSectorTable(index, sectorTable, direction == Write);
      ok := sd.OptimizeSectors(BUFFER_ADDRESS, sectorTable[..sectors], direction);
    }

    /** The locked half of a block read: a complete read starts a session. */
    method ReadFromCard(index: nat) returns (ok: bool)
      requires Mapped() && ProperInfo(ctl.info) && index < 0x4000 && session == None
      modifies `blockOffset, `session, sd`mem, sd`card, sd`faults
      ensures sd.card == old(sd.card) && BufferAlone(old(sd.mem), sd.mem) &&
        sd.faults >= old(sd.faults)
      ensures var table := BlockTable(old(sd.mem), sdDiskInfo[sdCurrentDisk], index, ctl.info, false);
        |table| <= TABLE_SIZE &&
        (ok <==> sd.cardInitialized && table != [] && FirstZero(table) == |table| && sd.faults == old(sd.faults)) &&
        session == if ok && sd.InLimits(table)
          then Some(NewSession(table, blockOffset, ctl.info, Buffered(sd.mem, |table| * SECTOR_SIZE)))
          else None
      ensures var start := BlockStart(old(sd.mem), sdDiskInfo[sdCurrentDisk], index, false);
        blockOffset == if start.None? then old(blockOffset) else start.value % SECTOR_SIZE
      ensures session.Some? ==> Fresh(session.value, sd.mem, sd.card, blockOffset, ctl.info)
    {
      hide BlockTable, BlockStart, BlockLength, FirstZero, ProperInfo, ProperDisk, HasImage;
      ghost var table := BlockTable(sd.mem, sdDiskInfo[sdCurrentDisk], index, ctl.info, false);
      ok := TransferBlock(index, Read);
      if ok && sd.InLimits(table) {
        ghost var image := BlockImage(table, old(sd.mem), old(sd.card), old(sd.faults));
        LengthIs(ctl.info);
        session := Some(NewSession(table, blockOffset, ctl.info, image));
      }
    }

    method BlockReadRequest(x: Inputs) returns (accepted: bool)
      requires Mapped() && ProperInfo(ctl.info) && blockOffset < SECTOR_SIZE
      modifies `blockReady, `blockValid, `blockOffset, `session, sd`mem, sd`card, sd`faults
      ensures accepted == (sdMode || x.queued)
      ensures ReadRequested(old(Asked(x, false)), old(Snap()), Snap())
      ensures Mapped() && blockOffset < SECTOR_SIZE
      ensures session.Some? ==> accepted && Fresh(session.value, sd.mem, sd.card, blockOffset, ctl.info)
    {
      hide BlockTable, BlockStart, BlockLength, FirstZero, ProperInfo, ProperDisk, Fresh, sd.InLimits, Buffered;
      var index := TrackHeadBlock(spindle.headTrack, ctl.startingBlock);
      TargetFits(sd.mem, sdDiskInfo[sdCurrentDisk], index, ctl.info, false);
      session := None;
      if sdMode {
        var ok := false;
        if x.locked {
          ok := ReadFromCard(index);
        }
        blockReady := true;
        blockValid := ok;
        accepted := true;
      } else {
        blockReady := false;
        blockOffset := 0;
        accepted := x.queued;
      }
    }

    /** After a complete read of a block the buffer holds the image of its sectors. */
    ghost method BlockImage(table: seq<word>, mem0: seq<byte>, card0: seq<byte>, faults0: nat) returns (image: seq<byte>)
      requires |mem0| == ADDRESSES && |table| <= TABLE_SIZE && FirstZero(table) == |table|
      requires sd.Moved(Read, BUFFER_ADDRESS, table, |table|, mem0, card0, faults0)
      requires sd.cardInitialized && sd.faults == faults0 && sd.InLimits(table)
      ensures |sd.mem| == ADDRESSES && image == Buffered(sd.mem, |table| * SECTOR_SIZE) && HasImage(sd.card, table, image)
    {
      hide ReadTable, HasImage, FirstZero;
      image := Buffered(sd.mem, |table| * SECTOR_SIZE);
      ReadGivesImage(mem0, sd.card, table);
    }

    /** The locked half of a block write. */
    method WriteToCard(index: nat) returns (ok: bool)
      requires Mapped() && ProperInfo(ctl.info) && index < 0x4000
      requires SessionIn(session, ctl, sd.mem, sd.card, blockOffset) && Complete(session)
      modifies `blockOffset, `log, sd`mem, sd`card, sd`faults
      ensures sd.mem == old(sd.mem) && |sd.card| == |old(sd.card)| && sd.faults >= old(sd.faults)
      ensures var table := BlockTable(sd.mem, sdDiskInfo[sdCurrentDisk], index, ctl.info, true);
        (sd.InLimits(table) ==> OnlyListed(table, old(sd.card), sd.card)) &&
        (ok <==> sd.cardInitialized && table != [] && FirstZero(table) == |table| && sd.faults == old(sd.faults)) &&
        (!sd.cardInitialized ==> sd.card == old(sd.card)) &&
        log == if ok && sd.InLimits(table) && SamePlace(session, table, blockOffset)
          then old(log) + [WrittenBack(session.value, old(sd.card), sd.card)]
          else old(log)
      ensures var start := BlockStart(sd.mem, sdDiskInfo[sdCurrentDisk], index, true);
        blockOffset == if start.None? then old(blockOffset) else start.value % SECTOR_SIZE
      ensures AllCorrect(old(log)) ==> AllCorrect(log)
    {
      hide BlockTable, BlockStart, BlockLength, FirstZero, ProperInfo, ProperDisk, HasImage, WriteTable,
        OnlyListed, AllCorrect, SessionIn, Correct, DistinctSectors, Complete;
      ghost var table := BlockTable(sd.mem, sdDiskInfo[sdCurrentDisk], index, ctl.info, true);
      ok := TransferBlock(index, Write);
      if ok && sd.InLimits(table) && SamePlace(session, table, blockOffset) {
        WriteBackIsCorrect(session, ctl, sd.mem, old(sd.card), old(blockOffset), table, blockOffset);
        AllCorrectNext(log, WrittenBack(session.value, old(sd.card), sd.card));
        log := log + [WrittenBack(session.value, old(sd.card), sd.card)];
      }
    }

    method BlockWriteRequest(x: Inputs) returns (accepted: bool)
      requires Mapped() && ProperInfo(ctl.info) && blockOffset < SECTOR_SIZE
      requires SessionIn(session, ctl, sd.mem, sd.card, blockOffset) && Complete(session)
      modifies `blockReady, `blockValid, `blockOffset, `session, `log, sd`mem, sd`card, sd`faults
      ensures accepted == (sdMode || x.queued)
      ensures WriteRequested(old(Asked(x, true)), old(Snap()), Snap()) && old(log) <= log
      ensures Mapped() && blockOffset < SECTOR_SIZE && session == None
      ensures AllCorrect(old(log)) ==> AllCorrect(log)
    {
      hide BlockTable, BlockStart, BlockLength, FirstZero, ProperInfo, ProperDisk, HasImage, SessionIn, AllCorrect, sd.InLimits,
        OnlyListed, DistinctSectors, Complete;
      var index := TrackHeadBlock(spindle.headTrack, ctl.startingBlock);
      NothingListed(BlockTable(sd.mem, sdDiskInfo[sdCurrentDisk], index, ctl.info, true), sd.card);
      if sdMode {
        var ok := false;
        if x.locked {
          ok := WriteToCard(index);
        }
        blockReady := true;
        blockValid := ok;
        accepted := true;
      } else {
        blockReady := false;
        blockOffset := 0;
        accepted := x.queued;
      }
      session := None;
    }

    /** STATE_START */
    method StepStart(x: Inputs)
      requires Valid() && ctl.state == Start
      modifies `ctl, `blockReady, `blockValid, `blockOffset, `session, sd`mem, sd`card, sd`faults
      ensures Valid()
      ensures ctl == StepControl(old(ctl), Request(sdMode || x.queued, old(blockReady), old(blockValid)))
      ensures ReadRequested(old(Asked(x, false)), old(Snap()), Snap())
    {
      hide InBlock, StepControl, ProperInfo, SessionIn, LiveIn, AllCorrect, HasImage, Proper, Fresh, Snap, PlaceFor, ReadRequested;
      StartStep(ctl, Request(sdMode || x.queued, blockReady, blockValid));
      ctl := ctl.(currentSector := 0);
      var accepted := BlockReadRequest(x);
      if accepted { ctl := ctl.(state := BlockReadWait); }
      FreshIsLive(session, ctl, sd.mem, sd.card, blockOffset);
    }

    /** STATE_SECTOR_READ: the copy stays inside the block buffer. */
    method StepSectorRead(ghost r: Request)
      requires Valid() && ctl.state == SectorRead
      modifies `ctl, `log, sd`mem
      ensures old(log) <= log
      ensures Valid() && CopiedOut(old(ctl), old(Snap()), Snap())
      ensures ctl == StepControl(old(ctl), r)
    {
      hide InBlock, StepControl, ProperInfo, AllCorrect, SessionIn, DeliveredLog, Untouched, SectorsLength, Paired, Even;
      ghost var c, d := ctl, StepControl(ctl, r);
      ReadStep(c, r);
      var n := ctl.info.sectorSize + 1;
      BufferPlace(ctl.info, ctl.currentSector, blockOffset);
      var src := BUFFER_ADDRESS + (blockOffset + SectorsLength(ctl.currentSector, n));
      BufferEven(blockOffset + SectorsLength(ctl.currentSector, n));
      ghost var from := BufferAt(ctl, blockOffset);
      ghost var after := Blit(sd.mem, SECTOR_BUFFER_ADDRESS, sd.mem, from, Paired(n));
      OutsideBuffer(sd.mem, after, Paired(n));
      hide Blit;
      SessionDelivers(session, log, c, d, sd.mem, after, sd.card, blockOffset);
      assert log <= DeliveredLog(session, log, ctl.currentSector, sd.mem[from..from + n], sd.card) by { LogGrows(session, log, ctl.currentSector, sd.mem[from..from + n], sd.card); }
      log := DeliveredLog(session, log, ctl.currentSector, sd.mem[from..from + n], sd.card);
      sd.mem := MemCopy(sd.mem, src, SECTOR_BUFFER_ADDRESS, n);
      ctl := ctl.(state := Idle, currentSector := ctl.currentSector + 1);
    }

    /** STATE_SECTOR_WRITE: the copy stays inside the block buffer. */
    method StepSectorWrite(ghost r: Request)
      requires Valid() && ctl.state == SectorWrite
      modifies `ctl, `session, sd`mem
      ensures Valid() && CopiedIn(old(ctl), old(Snap()), Snap())
      ensures ctl == StepControl(old(ctl), r)
    {
      hide InBlock, StepControl, ProperInfo, AllCorrect, SessionIn, CollectedIn, Blit, SectorsLength, Paired, Even;
      ghost var c, d := ctl, StepControl(ctl, r);
      WriteStep(c, r);
      var n := ctl.info.sectorSize + 1;
      BufferPlace(ctl.info, ctl.currentSector, blockOffset);
      var dst := BUFFER_ADDRESS + (blockOffset + SectorsLength(ctl.currentSector, n));
      BufferEven(blockOffset + SectorsLength(ctl.currentSector, n));
      SessionCollects(session, c, d, sd.mem, sd.card, blockOffset);
      session := CollectedIn(session, sd.mem[SECTOR_BUFFER_ADDRESS..SECTOR_BUFFER_ADDRESS + Paired(n)]);
      sd.mem := MemCopy(sd.mem, SECTOR_BUFFER_ADDRESS, dst, n);
      ctl := ctl.(currentSector := ctl.currentSector + 1);
      ctl := ctl.(state := if ctl.currentSector as int < ctl.info.sectorsInBlock - 4 then Idle else BlockWrite);
    }

    /** STATE_BLOCK_WRITE */
    method StepBlockWrite(x: Inputs)
      requires Valid() && ctl.state == BlockWrite && ProperInfo(ctl.info)
      modifies `ctl, `blockReady, `blockValid, `blockOffset, `session, `log, sd`mem, sd`card, sd`faults
      ensures Valid()
      ensures ctl == StepControl(old(ctl), Request(sdMode || x.queued, old(blockReady), old(blockValid)))
      ensures WriteRequested(old(Asked(x, true)), old(Snap()), Snap()) && old(log) <= log
    {
      hide InBlock, StepControl, ProperInfo, AllCorrect, Snap, Asked, WriteRequested, SessionIn;
      BlockIsComplete(session, ctl, sd.mem, sd.card, blockOffset);
      hide Complete;
      BlockWriteStep(ctl, Request(sdMode || x.queued, blockReady, blockValid));
      var accepted := BlockWriteRequest(x);
      if accepted { ctl := ctl.(state := BlockWriteWait); }
      NoSession(ctl, sd.mem, sd.card, blockOffset);
    }

    /** STATE_BLOCK_READ_WAIT */
    method StepBlockReadWait(scr: Scr, x: Inputs) returns (after: Scr)
      requires Valid() && ctl.state == BlockReadWait && ProperInfo(ctl.info)
      modifies `ctl
      ensures Valid()
      ensures var r := Request(sdMode || x.queued, blockReady, blockValid);
        ctl == StepControl(old(ctl), r) && after == StepScr(old(ctl), scr, r)
      ensures !blockReady ==> ctl == old(ctl) && after == scr
      ensures blockReady ==> ctl.state == if ctl.transferMode then SectorRead else Idle
      ensures blockReady ==> after == scr + (if blockValid then {TransferData} else {MicroError}) + if ctl.transferMode then {} else {BmReady}
    {
      ghost var c := ctl;
      StepStays(c, Request(sdMode || x.queued, blockReady, blockValid));
      hide InBlock, ProperInfo, AllCorrect, SessionIn;
      after := scr;
      if blockReady {
        after := after + {if blockValid then TransferData else MicroError};
        if ctl.transferMode {
          ctl := ctl.(state := SectorRead);
        } else {
          ctl := ctl.(state := Idle);
          after := after + {BmReady};
        }
      }
      SessionPrepared(session, c, ctl, sd.mem, sd.card, blockOffset);
    }

    /** STATE_BLOCK_WRITE_WAIT */
    method StepBlockWriteWait(ghost r: Request)
      requires Valid() && ctl.state == BlockWriteWait && ProperInfo(ctl.info) && r.ready == blockReady
      modifies `ctl
      ensures Valid() && ctl == StepControl(old(ctl), r)
    {
      ghost var c := ctl;
      StepStays(c, r);
      hide InBlock, ProperInfo, AllCorrect, SessionIn;
      if blockReady { ctl := ctl.(state := NextBlock); }
      SessionPrepared(session, c, ctl, sd.mem, sd.card, blockOffset);
    }

    /** STATE_NEXT_BLOCK */
    method StepNextBlock(scr: Scr, ghost r: Request) returns (after: Scr)
      requires Valid() && ctl.state == NextBlock && ProperInfo(ctl.info)
      modifies `ctl, `session
      ensures Valid() && ctl == StepControl(old(ctl), r) && after == StepScr(old(ctl), scr, r)
      ensures Snap() == if old(ctl.fullTrackTransfer) then old(Snap()).(session := None) else old(Snap())
    {
      ghost var c := ctl;
      NextBlockStep(c, scr, r);
      hide InBlock, ProperInfo, AllCorrect, SessionIn, StepControl, StepScr, Mapped;
      after := scr;
      if ctl.fullTrackTransfer {
        after := after - {TransferC2};
        ctl := ctl.(state := Start, fullTrackTransfer := false, startingBlock := !ctl.startingBlock);
        session := None;
        NoSession(ctl, sd.mem, sd.card, blockOffset);
      } else if ctl.transferMode {
        ctl := ctl.(bmRunning := false);
        SessionPrepared(session, c, ctl, sd.mem, sd.card, blockOffset);
      } else {
        ctl := ctl.(state := Idle);
        SessionPrepared(session, c, ctl, sd.mem, sd.card, blockOffset);
        after := after - {TransferC2, TransferData} + {BmReady};
      }
    }

    /** The switch at the end of a poll. */
    method Step(x: Inputs, scr: Scr) returns (after: Scr)
      requires Valid() && ProperInfo(ctl.info)
      modifies `ctl, `blockReady, `blockValid, `blockOffset, `session, `log, sd`mem, sd`card, sd`faults
      ensures Valid()
      ensures var r := Request(sdMode || x.queued, old(blockReady), old(blockValid));
        ctl == StepControl(old(ctl), r) && after == StepScr(old(ctl), scr, r)
      ensures Stepped(old(ctl), old(Asked(x, ctl.state == BlockWrite)), old(Snap()), Snap()) && old(log) <= log
    {
      hide InBlock, ProperInfo, AllCorrect, SessionIn, Asked, Snap, ReadRequested, WriteRequested, CopiedOut, CopiedIn, StepControl, StepScr, Mapped;
      ghost var r := Request(sdMode || x.queued, blockReady, blockValid);
      StepScrCases(ctl, scr, r);
      after := scr;
      match ctl.state {
        case Idle =>
        case Start =>
          StepStart(x);
        case BlockReadWait =>
          after := StepBlockReadWait(scr, x);
        case SectorRead =>
          StepSectorRead(r);
          after := after + {BmReady};
        case SectorWrite =>
          StepSectorWrite(r);
          if ctl.state == Idle { after := after + {BmReady}; }
        case BlockWrite =>
          StepBlockWrite(x);
        case BlockWriteWait =>
          StepBlockWriteWait(r);
        case NextBlock =>
          after := StepNextBlock(scr, r);
      }
    }

    method Pending(scr: Scr) returns (after: Scr)
      requires Valid() && ProperInfo(ctl.info)
      modifies `ctl
      ensures Valid() && ctl == PendingControl(old(ctl)) && after == PendingScr(old(ctl), scr)
    {
      ghost var c := ctl;
      PendingStays(c);
      hide InBlock, ProperInfo, AllCorrect, SessionIn, Mapped;
      after := scr + {BmClear};
      if ctl.transferMode {
        if ctl.currentSector as int < ctl.info.sectorsInBlock - 4 {
          ctl := ctl.(state := SectorRead);
        } else if ctl.currentSector as int == ctl.info.sectorsInBlock - 4 {
          ctl := ctl.(currentSector := ctl.currentSector + 1);
          after := after - {TransferData} + {BmReady};
        } else if ctl.currentSector >= ctl.info.sectorsInBlock {
          ctl := ctl.(state := NextBlock);
        }
      } else if ctl.currentSector as int < ctl.info.sectorsInBlock - 4 {
        ctl := ctl.(state := SectorWrite);
      }
      SessionPrepared(session, c, ctl, sd.mem, sd.card, blockOffset);
    }

    method Ack(scr: Scr) returns (after: Scr)
      requires Valid() && ProperInfo(ctl.info)
      modifies `ctl
      ensures Valid() && ctl == AckControl(old(ctl)) && after == AckScr(old(ctl), scr)
    {
      ghost var c := ctl;
      AckStays(c);
      hide InBlock, ProperInfo, AllCorrect, SessionIn, Mapped;
      after := scr + {BmAckClear};
      if ctl.transferMode {
        if ctl.currentSector as int <= ctl.info.sectorsInBlock - 4 {
        } else if ctl.currentSector < ctl.info.sectorsInBlock {
          ctl := ctl.(currentSector := ctl.currentSector + 1);
          after := after + {BmReady};
        } else if ctl.currentSector == ctl.info.sectorsInBlock {
          ctl := ctl.(currentSector := ctl.currentSector + 1);
          after := after + {TransferC2, BmReady};
        }
      } else if ctl.currentSector as int == ctl.info.sectorsInBlock - 4 {
        ctl := ctl.(bmRunning := false);
      }
      SessionPrepared(session, c, ctl, sd.mem, sd.card, blockOffset);
    }

    /** The part of a poll in front of the switch. */
    method PendingAndAck(scr: Scr) returns (after: Scr)
      requires Valid() && ctl.bmRunning
      modifies `ctl
      ensures Valid() && ProperInfo(ctl.info)
      ensures ctl == Requested(old(ctl), scr) && after == RequestedScr(old(ctl), scr)
    {
      RunningIsProper(ctl);
      assert BmAck in PendingScr(ctl, scr) <==> BmAck in scr;
      hide InBlock, ProperInfo, AllCorrect, SessionIn, Mapped, PendingControl, PendingScr, AckControl, AckScr;
      after := scr;
      if BmPending in after { after := Pending(after); }
      if BmAck in after { after := Ack(after); }
    }

    /** The part of a poll that runs while a block transfer is going on. */
    method PollTransfer(x: Inputs, scr: Scr) returns (after: Scr)
      requires Valid() && ctl.bmRunning
      modifies `ctl, `blockReady, `blockValid, `blockOffset, `session, `log, sd`mem, sd`card, sd`faults
      ensures Valid()
      ensures var r, c := Request(sdMode || x.queued, old(blockReady), old(blockValid)), Requested(old(ctl), scr);
        ctl == StepControl(c, r) && after == StepScr(c, RequestedScr(old(ctl), scr), r)
      ensures var c := Requested(old(ctl), scr);
        Stepped(c, old(Asked(x, c.state == BlockWrite)), old(Snap()), Snap()) && old(log) <= log
    {
      RequestedKeeps(ctl, scr);
      hide InBlock, ProperInfo, AllCorrect, SessionIn, PlaceFor, Snap, Stepped, StepControl, StepScr, Requested,
        RequestedScr, TrackHeadBlock;
      after := PendingAndAck(scr);
      after := Step(x, after);
    }

    /** The hard reset and command parts of a poll. */
    method Prepare(x: Inputs, scr: Scr) returns (after: Scr)
      requires Valid()
      modifies `ctl, `spindle
      ensures Valid()
      ensures ctl == Prepared(old(ctl), scr) && spindle == PolledSpindle(old(spindle), scr, x) &&
        after == PreparedScr(old(spindle), scr, x)
    {
      hide InBlock, AllCorrect, SessionIn, CommandSpindle, CommandScr;
      after := scr;
      if HardReset in scr { after := Reset(scr); }
      if CmdPending in after { after := Command(x, after); }
    }

    method Reset(scr: Scr) returns (after: Scr)
      requires Valid()
      modifies `ctl, `spindle
      ensures Valid() && ctl == old(ctl).(state := Idle, bmRunning := false) && spindle == Spindle(0, false, false)
      ensures after == scr - {DiskChanged}
    {
      ghost var c := ctl;
      PreparedStays(c, {HardReset});
      hide InBlock, AllCorrect, SessionIn;
      after := scr - {DiskChanged};
      ctl := ctl.(state := Idle, bmRunning := false);
      spindle := spindle.(cmdResponseDelayed := false, diskSpinning := false, headTrack := 0);
      SessionPrepared(session, c, ctl, sd.mem, sd.card, blockOffset);
    }

    method Command(x: Inputs, scr: Scr) returns (after: Scr)
      requires spindle.headTrack < 0x2000
      modifies `spindle
      ensures spindle == CommandSpindle(old(spindle), x) && after == CommandScr(old(spindle), scr, x) && spindle.headTrack < 0x2000
    {
      after := scr;
      if spindle.cmdResponseDelayed {
        if x.elapsed {
          spindle := spindle.(cmdResponseDelayed := false);
          after := after + {CmdReady};
        }
      } else if x.cmd == SEEK_READ || x.cmd == SEEK_WRITE {
        spindle := spindle.(cmdResponseDelayed := true, diskSpinning := true, headTrack := x.data % 0x2000);
      } else {
        if x.cmd == CLEAR_DISK_CHANGE {
          after := after - {DiskChanged};
        } else if x.cmd == CLEAR_RESET_STATE {
          after := after - {DiskChanged} + {HardResetClear};
        }
        after := after + {CmdReady};
      }
    }

    method StartTransfer(x: Inputs, scr: Scr) returns (after: Scr)
      requires Valid() && ProperInfo(x.info)
      modifies `ctl, `session
      ensures Valid() && session == None
      ensures ctl == StartControl(old(ctl), scr, x)
      ensures after == scr + {BmClear, BmAckClear, BmStartClear} - {MicroError, TransferC2, TransferData}
    {
      StartStays(ctl, scr, x);
      hide InBlock, AllCorrect, SessionIn, Mapped, ProperInfo;
      after := scr + {BmClear, BmAckClear, BmStartClear} - {MicroError, TransferC2, TransferData};
      ctl := ctl.(state := Start, bmRunning := true, transferMode := TransferMode in scr, fullTrackTransfer := TransferBlocks in scr,
                  info := x.info, startingBlock := x.info.sectorNum as int == x.info.sectorsInBlock + 1);
      session := None;
      NoSession(ctl, sd.mem, sd.card, blockOffset);
    }

    method StopTransfer(scr: Scr) returns (after: Scr)
      requires Valid()
      modifies `ctl
      ensures Valid() && ctl == old(ctl).(bmRunning := false)
      ensures after == scr + {BmStopClear} - {MicroError, TransferC2, TransferData}
    {
      ghost var c := ctl;
      hide AllCorrect, SessionIn, Mapped;
      ctl := ctl.(bmRunning := false);
      after := scr + {BmStopClear} - {MicroError, TransferC2, TransferData};
      SessionPrepared(session, c, ctl, sd.mem, sd.card, blockOffset);
    }

    lemma {:induction false} Announces(x: Inputs, scr: Scr)
      requires Valid()
      ensures var r := Request(sdMode || x.queued, blockReady, blockValid);
        Told(ctl, blockReady, blockValid, scr, Polled(ctl, spindle, scr, x, r), PolledScr(ctl, spindle, scr, x, r))
    {
      hide InBlock, AllCorrect, SessionIn, Mapped, Polled, PolledScr, Told;
      WaitTells(ctl, spindle, scr, x, Request(sdMode || x.queued, blockReady, blockValid));
    }

    /** The body of dd_process. */
    method ProcessParts(starting: Scr, x: Inputs) returns (scr: Scr)
      requires Valid() && ProperInfo(x.info)
      modifies `ctl, `spindle
      modifies `blockReady, `blockValid, `blockOffset, `session, `log, sd`mem, sd`card, sd`faults
      ensures Valid()
      ensures var r := Request(sdMode || x.queued, old(blockReady), old(blockValid));
        ctl == Polled(old(ctl), old(spindle), starting, x, r) && scr == PolledScr(old(ctl), old(spindle), starting, x, r)
      ensures spindle == PolledSpindle(old(spindle), starting, x) && old(log) <= log
      ensures old(ctl.bmRunning) && HardReset !in starting && BmStop !in starting && BmStart !in starting ==>
        var c := Requested(old(ctl), starting);
        old(Mapped()) && old(ProperInfo(ctl.info)) && spindle.headTrack < 0x2000 &&
        Stepped(c, old(PlaceFor(x, TrackHeadBlock(PolledSpindle(spindle, starting, x).headTrack, ctl.startingBlock), ctl.info, c.state == BlockWrite)),
                old(Snap()), Snap())
      ensures BmStop in starting || ((!old(ctl.bmRunning) || HardReset in starting) && BmStart !in starting) ==> Snap() == old(Snap())
      ensures BmStart in starting && BmStop !in starting ==> Snap() == old(Snap()).(session := None)
    {
      if ctl.bmRunning { RunningIsProper(ctl); }
      hide InBlock, ProperInfo, AllCorrect, SessionIn, Tables, Stepped, StepControl, StepScr, Requested, RequestedScr, StartControl,
        PolledSpindle, PlaceFor, TrackHeadBlock;
      scr := Prepare(x, starting);
      PreparedRequested(old(ctl), old(spindle), starting, x);
      hide Prepared, PreparedScr, PreparedSpindle;
      PreparedBits(old(spindle), starting, x, BmStop);
      PreparedBits(old(spindle), starting, x, BmStart);
      if BmStop in scr {
        scr := StopTransfer(scr);
      } else if BmStart in scr {
        scr := StartTransfer(x, scr);
      } else if ctl.bmRunning {
        scr := PollTransfer(x, scr);
      }
    }

    /** dd_process, and what it tells the console when it finds the block ready. */
    method Process(starting: Scr, x: Inputs) returns (scr: Scr)
      requires Valid() && ProperInfo(x.info)
      modifies `ctl, `spindle
      modifies `blockReady, `blockValid, `blockOffset, `session, `log, sd`mem, sd`card, sd`faults
      ensures Valid()
      ensures var r := Request(sdMode || x.queued, old(blockReady), old(blockValid));
        ctl == Polled(old(ctl), old(spindle), starting, x, r) && scr == PolledScr(old(ctl), old(spindle), starting, x, r)
      ensures spindle == PolledSpindle(old(spindle), starting, x) && old(log) <= log
      ensures old(ctl.bmRunning) && HardReset !in starting && BmStop !in starting && BmStart !in starting ==>
        var c := Requested(old(ctl), starting);
        old(Mapped()) && old(ProperInfo(ctl.info)) && spindle.headTrack < 0x2000 &&
        Stepped(c, old(PlaceFor(x, TrackHeadBlock(PolledSpindle(spindle, starting, x).headTrack, ctl.startingBlock), ctl.info, c.state == BlockWrite)),
                old(Snap()), Snap())
      ensures BmStop in starting || ((!old(ctl.bmRunning) || HardReset in starting) && BmStart !in starting) ==> Snap() == old(Snap())
      ensures BmStart in starting && BmStop !in starting ==> Snap() == old(Snap()).(session := None)
      ensures Told(old(ctl), old(blockReady), old(blockValid), starting, ctl, scr)
    {
      hide Valid, Mapped, ProperInfo, InBlock, Stepped, Requested, Polled, PolledScr, PolledSpindle, PlaceFor, TrackHeadBlock, Told;
      Announces(x, starting);
      scr := ProcessParts(starting, x);
    }

    // ---------- everything else that happens to the drive ----------

    /** The host or the console writes device memory. */
    method HostWrite(address: nat, data: seq<byte>)
      requires Valid() && address + |data| <= ADDRESSES
      modifies `session, sd`mem
      ensures Valid() && sd.mem == Blit(old(sd.mem), address, data, 0, |data|)
      ensures address + |data| <= BUFFER_ADDRESS || BUFFER_ADDRESS + BUFFER_SIZE <= address ==> session == old(session)
    {
      hide InBlock, AllCorrect, SessionIn;
      ghost var before := sd.mem;
      sd.mem := Blit(sd.mem, address, data, 0, |data|);
      if address + |data| <= BUFFER_ADDRESS || BUFFER_ADDRESS + BUFFER_SIZE <= address {
        SessionElsewhere(session, ctl, before, sd.mem, sd.card, blockOffset);
      } else {
        session := None;
        NoSession(ctl, sd.mem, sd.card, blockOffset);
      }
    }

    /** Somebody else uses the card. */
    method CardChanges(card: seq<byte>)
      requires Valid()
      modifies `session, sd`card
      ensures Valid() && sd.card == card && session == None
    {
      hide InBlock, AllCorrect, SessionIn;
      sd.card := card;
      session := None;
      NoSession(ctl, sd.mem, sd.card, blockOffset);
    }

    /** dd_set_block_ready, from the USB side */
    method SetBlockReady(valid: bool)
      requires Valid()
      modifies `blockReady, `blockValid
      ensures Valid() && blockReady && blockValid == valid
    {
      blockReady := true;
      blockValid := valid;
    }

    /** dd_set_sd_mode */
    method SetSdMode(value: bool)
      requires Valid()
      modifies `sdMode
      ensures Valid() && sdMode == value
    {
      sdMode := value;
    }

    /** dd_set_disk_mapping */
    method SetDiskMapping(address: nat, length: nat)
      requires Valid() && address + length <= ADDRESSES
      modifies `sdCurrentDisk, `sdDiskInfo
      ensures Valid() && sdCurrentDisk == 0
      ensures forall i :: 0 <= i < 4 ==> sdDiskInfo[i] == MappedDiskInfo(sd.mem, address, length, i)
    {
      hide InBlock, AllCorrect, SessionIn, Entry;
      sdCurrentDisk := 0;
      for i := 0 to 4
        invariant |sdDiskInfo| == 4 && forall k :: 0 <= k < 4 ==> ProperDisk(sdDiskInfo[k])
        invariant forall k :: 0 <= k < i ==> sdDiskInfo[k] == MappedDiskInfo(sd.mem, address, length, k)
        modifies `sdDiskInfo
      {
        if i < length / 8 {
          var thb, sectors := Entry(sd.mem, address + 8 * i), Entry(sd.mem, address + 8 * i + 4);
          sdDiskInfo := sdDiskInfo[i := DiskInfo(thb % 0x2000_0000, sectors % 0x2000_0000)];
        } else {
          sdDiskInfo := sdDiskInfo[i := NO_DISK];
        }
      }
    }

    /** dd_handle_button: the next mapped disk comes in when the current one goes out. */
    method HandleButton(ejected: bool)
      requires Valid()
      modifies `sdCurrentDisk
      ensures Valid() && (ejected ==> sdCurrentDisk == old(sdCurrentDisk))
      ensures !ejected ==> sdDiskInfo[sdCurrentDisk].thbTable != UNMAPPED || forall i :: 0 <= i < 4 ==> sdDiskInfo[i].thbTable == UNMAPPED
      ensures !ejected && sdDiskInfo[sdCurrentDisk].thbTable != UNMAPPED ==> FirstMapped(sdDiskInfo, old(sdCurrentDisk), sdCurrentDisk)
    {
      hide InBlock, AllCorrect, SessionIn, NextDisk, FirstMapped, ProperDisk;
      if !ejected {
        ghost var at := sdCurrentDisk;
        for i := 0 to 4
          invariant sdCurrentDisk == at && forall k :: 0 <= k < i ==> sdDiskInfo[NextDisk(at, k)].thbTable == UNMAPPED
        {
          var next := NextDisk(sdCurrentDisk, i);
          if sdDiskInfo[next].thbTable != UNMAPPED {
            FirstFound(sdDiskInfo, at, i);
            sdCurrentDisk := next;
            return;
          }
        }
        NoneFound(sdDiskInfo, at);
      }
    }

    /** In every run, sectors are copied only inside the block, and all block transfers of a session are correct. */
    method Run(events: seq<Event>)
      requires Valid() && forall i :: 0 <= i < |events| ==> ProperEvent(events[i])
      modifies this, sd
      ensures Valid() && old(log) <= log
    {
      for i := 0 to |events|
        invariant Valid() && old(log) <= log
      {
        match events[i]
        case Poll(scr, x) =>
          var after := Process(scr, x);
        case MemoryWrite(address, data) =>
          HostWrite(address, data);
        case CardWrite(card) =>
          CardChanges(card);
        case BlockReady(valid) =>
          SetBlockReady(valid);
        case SdMode(value) =>
          SetSdMode(value);
        case Mapping(address, length) =>
          SetDiskMapping(address, length);
        case Button(ejected) =>
          HandleButton(ejected);
      }
    }
  }

  /** Disk `next` is the first mapped one behind `disk`, in a ring of four that ends with `disk` itself. */
  predicate FirstMapped(disks: seq<DiskInfo>, disk: nat, next: nat)
    requires |disks| == 4 && disk < 4
  {
    next == (disk + 1) % 4 ||
    (disks[(disk + 1) % 4].thbTable == 0xFFFF_FFFF &&
      (next == (disk + 2) % 4 ||
      (disks[(disk + 2) % 4].thbTable == 0xFFFF_FFFF && (next == (disk + 3) % 4 || (disks[(disk + 3) % 4].thbTable == 0xFFFF_FFFF && next == disk)))))
  }

  lemma {:induction false} FirstFound(disks: seq<DiskInfo>, at: nat, i: nat)
    requires |disks| == 4 && at < 4 && i < 4 && forall k :: 0 <= k < i ==> disks[NextDisk(at, k)].thbTable == UNMAPPED
    ensures FirstMapped(disks, at, NextDisk(at, i))
  {
    assert i > 0 ==> disks[NextDisk(at, 0)].thbTable == UNMAPPED;
    assert i > 1 ==> disks[NextDisk(at, 1)].thbTable == UNMAPPED;
    assert i > 2 ==> disks[NextDisk(at, 2)].thbTable == UNMAPPED;
    if i == 0 {} else if i == 1 {} else if i == 2 {} else {}
  }

  lemma {:induction false} NoneFound(disks: seq<DiskInfo>, at: nat)
    requires |disks| == 4 && at < 4 && forall k :: 0 <= k < 4 ==> disks[NextDisk(at, k)].thbTable == UNMAPPED
    ensures forall i :: 0 <= i < 4 ==> disks[i].thbTable == UNMAPPED
  {
    forall i | 0 <= i < 4
      ensures disks[i].thbTable == UNMAPPED
    {
      assert NextDisk(at, (i + 3 - at) % 4) == i;
    }
  }

  function NextDisk(disk: nat, i: nat): (next: nat)
    ensures next < 4
  {
    (disk + i + 1) % 4
  }

  /** Entry i of a mapping of disk images. */
  function MappedDiskInfo(mem: seq<byte>, address: nat, length: nat, i: nat): DiskInfo
    requires |mem| == ADDRESSES && address + length <= ADDRESSES
  {
    if i >= length / 8 then NO_DISK
    else DiskInfo(Entry(mem, address + 8 * i) % 0x2000_0000, Entry(mem, address + 8 * i + 4) % 0x2000_0000)
  }

  datatype Event =
    | Poll(scr: Scr, inputs: Inputs)
    | MemoryWrite(address: nat, data: seq<byte>)
    | CardWrite(card: seq<byte>)
    | BlockReady(valid: bool)
    | SdMode(value: bool)
    | Mapping(address: nat, length: nat)
    | Button(ejected: bool)

  predicate ProperEvent(e: Event) {
    match e
    case Poll(scr, x) => ProperInfo(x.info)
    case MemoryWrite(address, data) => address + |data| <= ADDRESSES
    case Mapping(address, length) => address + length <= ADDRESSES
    case _ => true
  }

  lemma {:induction false} SessionElsewhere(session: Option<Session>, c: Control, mem: seq<byte>, after: seq<byte>,
          card: seq<byte>, blockOffset: nat)
    requires SessionIn(session, c, mem, card, blockOffset) && Untouched(mem, after)
    ensures SessionIn(session, c, after, card, blockOffset)
  {
    if session.Some? { BufferedElsewhere(mem, after, |session.value.image|); }
    hide HasImage, Overlaid, Buffered;
  }

  lemma {:induction false} OutsideBuffer(mem: seq<byte>, after: seq<byte>, n: nat)
    requires |mem| == ADDRESSES && |after| == ADDRESSES
    requires forall j :: 0 <= j < ADDRESSES && !(SECTOR_BUFFER_ADDRESS <= j < SECTOR_BUFFER_ADDRESS + n) ==> after[j] == mem[j]
    ensures Untouched(mem, after)
  {
  }

  /** What is copied for a disk sector lies inside the block buffer. */
  lemma {:induction false} BufferPlace(info: SectorInfo, sector: nat, blockOffset: nat)
    requires ProperInfo(info) && sector < DATA_SECTORS && blockOffset < SECTOR_SIZE
    ensures SectorPlace(blockOffset, Length(info), sector) + Paired(Length(info)) <= BUFFER_SIZE
    ensures SECTOR_BUFFER_ADDRESS + Paired(Length(info)) <= SECTOR_BUFFER_ADDRESS + SECTOR_MAX_SIZE <= ADDRESSES
  {
    SectorFits(sector, Length(info));
  }

  lemma {:induction false} DeliveredIsCorrect(s: Session, n: nat, mem: seq<byte>, card: seq<byte>)
    requires |mem| == ADDRESSES && Proper(s) && HasImage(card, s.table, s.image) && Buffered(mem, |s.image|) == s.image
    requires n < DATA_SECTORS && SectorAt(s, n) + s.length <= |s.image|
    ensures var at := BUFFER_ADDRESS + SectorAt(s, n); Correct(Delivered(s, n, mem[at..at + s.length], card))
  {
    hide HasImage, SectorPlace, Overlaid, AllPaired;
    SliceOfSlice(mem, BUFFER_ADDRESS, |s.image|, SectorAt(s, n), SectorAt(s, n) + s.length);
  }

  lemma {:induction false} BlockIsComplete(session: Option<Session>, c: Control, mem: seq<byte>, card: seq<byte>, blockOffset: nat)
    requires SessionIn(session, c, mem, card, blockOffset) && InBlock(c) && c.state == BlockWrite
    ensures Complete(session)
  {
    hide HasImage, Overlaid, Buffered, Proper;
  }

  lemma {:induction false} WriteBackIsCorrect(session: Option<Session>, c: Control, mem: seq<byte>, card: seq<byte>, blockOffset: nat,
                                              table: seq<word>, offset: nat)
    requires |mem| == ADDRESSES && SessionIn(session, c, mem, card, blockOffset) && Complete(session) && SamePlace(session, table, offset)
    ensures |table| <= TABLE_SIZE && OnCard(card, table, |table|)
    ensures Correct(WrittenBack(session.value, card, WriteTable(card, mem, BUFFER_ADDRESS, table, |table|)))
  {
    ImageOnCard(card, table, session.value.image);
    hide WriteTable, HasImage, Buffered, Overlaid, DistinctSectors, OnlyListed, AllPaired;
    WriteBackHolds(mem, card, table);
  }

  lemma {:induction false} NothingListed(table: seq<word>, card: seq<byte>)
    ensures OnlyListed(table, card, card)
  {
  }

  lemma {:induction false} LengthIs(info: SectorInfo)
    requires ProperInfo(info)
    ensures Length(info) * DATA_SECTORS == BlockLength(info) && DataSectors(info) > 0
  {
  }
}
