/**
 A whole block write through the 64DD emulation of sw/controller/src/dd.c: whatever happens between the
 start bit and the write-back, the SD card changes by what the console put into the sector buffer.
 */
module DriveTransfer {
  import opened Bytes
  import opened SdBlocks
  import opened DriveControl
  import opened DriveBuffer
  import opened DiskDrive

  /** The block that is written: the sector registers, its place in the disk image, and its SD sectors. */
  datatype Job = Job(info: SectorInfo, start: nat, table: seq<word>)

  // ---------- where a block lies ----------

  ghost predicate InBuffers(j: int) {
    BUFFER_ADDRESS <= j < BUFFER_ADDRESS + BUFFER_SIZE || SECTOR_BUFFER_ADDRESS <= j < SECTOR_BUFFER_ADDRESS + SECTOR_MAX_SIZE
  }

  /** Byte j of memory belongs to the tables that say where the block is. */
  ghost predicate InTables(disk: DiskInfo, index: nat, job: Job, j: int) {
    0 <= j - disk.thbTable - 4 * index < 4 || 0 <= j - disk.sectorTable - job.start / SECTOR_SIZE * 4 < 4 * |job.table|
  }

  /** The block is mapped there and may be written, and its tables lie outside the buffers. */
  ghost predicate Addressed(mem: seq<byte>, disk: DiskInfo, index: nat, job: Job) {
    |mem| == ADDRESSES && ProperDisk(disk) && index < 0x4000 && job.start < WRITABLE_FLAG && ProperInfo(job.info) &&
    BlockStart(mem, disk, index, true) == Some(job.start) && disk.sectorTable < 0x2000_0000 &&
    job.table == BlockSectors(mem, disk, job.start, BlockLength(job.info)) &&
    forall j :: InTables(disk, index, job, j) ==> !InBuffers(j)
  }

  ghost predicate SameTables(mem: seq<byte>, after: seq<byte>, disk: DiskInfo, index: nat, job: Job) {
    |mem| == ADDRESSES && |after| == ADDRESSES && forall j :: 0 <= j < ADDRESSES && InTables(disk, index, job, j) ==> after[j] == mem[j]
  }

  lemma {:induction false} SameEntry(mem: seq<byte>, after: seq<byte>, address: nat)
    requires |mem| == ADDRESSES && |after| == ADDRESSES && address + 4 <= ADDRESSES
    requires forall j :: address <= j < address + 4 ==> after[j] == mem[j]
    ensures Entry(after, address) == Entry(mem, address)
  {
    hide FromBigEndian;
    assert after[address..address + 4] == mem[address..address + 4];
  }

  /** As long as its tables stay, the block is where it was. */
  lemma {:induction false} StillAddressed(mem: seq<byte>, after: seq<byte>, disk: DiskInfo, index: nat, job: Job)
    requires Addressed(mem, disk, index, job) && SameTables(mem, after, disk, index, job)
    ensures Addressed(after, disk, index, job)
    ensures BlockStart(after, disk, index, false) == Some(job.start)
    ensures BlockTable(after, disk, index, job.info, true) == BlockTable(after, disk, index, job.info, false) == job.table
  {
    hide InBuffers, BlockLength, SectorSpan;
    SpanHolds(job.start, BlockLength(job.info));
    SameEntry(mem, after, disk.thbTable + 4 * index);
    hide Entry;
    var now := BlockSectors(after, disk, job.start, BlockLength(job.info));
    forall i | 0 <= i < |job.table|
      ensures now[i] == job.table[i]
    {
      var at := disk.sectorTable + 4 * (job.start / SECTOR_SIZE + i);
      assert forall j :: at <= j < at + 4 ==> InTables(disk, index, job, j);
      SameEntry(mem, after, at);
    }
    assert now == job.table;
  }

  lemma {:induction false} BuffersApart(mem: seq<byte>, after: seq<byte>, disk: DiskInfo, index: nat, job: Job)
    requires Addressed(mem, disk, index, job) && BufferAlone(mem, after)
    ensures SameTables(mem, after, disk, index, job) && SectorBuffer(after) == SectorBuffer(mem)
  {
    hide BlockStart, BlockSectors, ProperInfo, InTables;
  }

  function SectorBuffer(mem: seq<byte>): (buffer: seq<byte>)
    requires |mem| == ADDRESSES
    ensures |buffer| == SECTOR_MAX_SIZE
  {
    mem[SECTOR_BUFFER_ADDRESS..SECTOR_BUFFER_ADDRESS + SECTOR_MAX_SIZE]
  }

  // ---------- what the console supplies ----------

  /** The sector buffer, and what it held each time it was copied. */
  datatype Supply = Supply(buffer: seq<byte>, got: seq<seq<byte>>)

  /** What happens to the sector buffer: stores by the console or the host, and copies when a sector is pending. */
  function Supplied(s: Supply, e: Event, info: SectorInfo): Supply
    requires |s.buffer| == SECTOR_MAX_SIZE && ProperInfo(info)
  {
    match e
    case MemoryWrite(address, data) =>
      s.(buffer := seq(SECTOR_MAX_SIZE, i requires 0 <= i < SECTOR_MAX_SIZE =>
        if address <= SECTOR_BUFFER_ADDRESS + i < address + |data| then data[SECTOR_BUFFER_ADDRESS + i - address] else s.buffer[i]))
    case Poll(scr, x) =>
      if BmPending in scr && |s.got| < DataSectors(info) then s.(got := s.got + [s.buffer[..Paired(Length(info))]]) else s
    case _ => s
  }

  // ---------- the transfer ----------

  /** The session is for this block and holds what was supplied. */
  ghost predicate Holds(session: Option<Session>, job: Job, got: seq<seq<byte>>) {
    AllPaired(got, Length(job.info)) &&
    session.Some? && session.value.table == job.table && session.value.offset == job.start % SECTOR_SIZE &&
    session.value.length == Length(job.info) && session.value.got == got
  }

  /** The SD sectors of the block hold what they held, with the supplied sectors laid over it; no other SD sector has changed. */
  ghost predicate BlockLaid(job: Job, got: seq<seq<byte>>, before: seq<byte>, after: seq<byte>) {
    OnCard(before, job.table, |job.table|) && OnlyListed(job.table, before, after) &&
    HasImage(after, job.table, Laid(ImageOf(before, job.table), job.start % SECTOR_SIZE, Length(job.info), got))
  }

  /** How far the write of a block is: before the read, collecting, or about to be written back. */
  ghost predicate Stage(c: Control, job: Job, supply: Supply) {
    c.bmRunning && !c.transferMode && c.info == job.info && InBlock(c) && |supply.got| <= DataSectors(job.info) &&
    match c.state
    case Start => supply.got == []
    case BlockReadWait => supply.got == []
    case Idle => |supply.got| == c.currentSector < DataSectors(job.info)
    case BlockWrite => |supply.got| == c.currentSector == DataSectors(job.info)
    case _ => false
  }

  /** The write is under way; `read` says that the block was read and reported valid. */
  ghost predicate Writing(d: Drive, job: Job, supply: Supply, read: bool)
    reads d, d.sd
  {
    d.Valid() && d.sdMode && d.sd.cardInitialized && d.sd.InLimits(job.table) &&
    Addressed(d.sd.mem, d.sdDiskInfo[d.sdCurrentDisk], TrackHeadBlock(d.spindle.headTrack, d.ctl.startingBlock), job) &&
    Stage(d.ctl, job, supply) && SectorBuffer(d.sd.mem) == supply.buffer &&
    (read && d.ctl.state != Start ==> Holds(d.session, job, supply.got))
  }

  ghost predicate IsPending(e: Event) {
    e.Poll? && (BmPending in e.scr || BmAck in e.scr)
  }

  /**
   Anything but a reset, a start or stop, a seek, a change of disk or mode, a foreign write to the card, or a
   store into the block buffer or the tables of the block.
   */
  ghost predicate Quiet(e: Event, disk: DiskInfo, index: nat, job: Job) {
    match e
    case Poll(scr, x) =>
      ProperInfo(x.info) && HardReset !in scr && BmStop !in scr && BmStart !in scr &&
      (CmdPending in scr ==> x.cmd != SEEK_READ && x.cmd != SEEK_WRITE)
    case MemoryWrite(address, data) =>
      address + |data| <= ADDRESSES && (address + |data| <= BUFFER_ADDRESS || BUFFER_ADDRESS + BUFFER_SIZE <= address) &&
      forall j :: address <= j < address + |data| ==> !InTables(disk, index, job, j)
    case BlockReady(valid) => true
    case _ => false
  }

  /** What a poll makes of the drive's state while a block is written. */
  lemma {:induction false} WritePoll(c: Control, scr: Scr, r: Request, job: Job, supply: Supply)
    requires Stage(c, job, supply) && r.accepted && ProperInfo(job.info)
    requires c.state == Start ==> BmPending !in scr && BmAck !in scr
    ensures c.state == Start ==> Requested(c, scr) == c && StepControl(c, r) == c.(currentSector := 0, state := BlockReadWait)
    ensures c.state == BlockWrite ==>
      Requested(c, scr).state == BlockWrite && StepControl(Requested(c, scr), r).state == BlockWriteWait
    ensures (c.state == BlockReadWait || c.state == Idle) && BmPending !in scr ==>
      Requested(c, scr) == c && StepControl(c, r) in {c, c.(state := Idle)}
    ensures (c.state == BlockReadWait || c.state == Idle) && BmPending in scr ==>
      Requested(c, scr) == c.(state := SectorWrite) &&
      StepControl(Requested(c, scr), r) ==
        c.(currentSector := c.currentSector + 1, state := if c.currentSector + 1 < DataSectors(c.info) then Idle else BlockWrite)
  {
  }

  lemma {:induction false} QuietSpindle(p: Spindle, scr: Scr, x: Inputs)
    requires HardReset !in scr && (CmdPending in scr ==> x.cmd != SEEK_READ && x.cmd != SEEK_WRITE)
    ensures PolledSpindle(p, scr, x).headTrack == p.headTrack
  {
  }

  lemma {:induction false} QuietPoll(c: Control, p: Spindle, scr: Scr, x: Inputs, r: Request)
    requires HardReset !in scr && BmStop !in scr && BmStart !in scr && c.bmRunning
    ensures Polled(c, p, scr, x, r) == StepControl(Requested(c, scr), r)
  {
    PreparedRequested(c, p, scr, x);
    PreparedBits(p, scr, x, BmStop);
    PreparedBits(p, scr, x, BmStart);
    hide Prepared, PreparedScr, StepControl, Requested;
  }

  lemma {:induction false} PlaceIs(d: Drive, x: Inputs, index: nat, job: Job, isWrite: bool)
    requires d.Tables() && d.sdMode && d.sd.cardInitialized && d.sd.InLimits(job.table)
    requires Addressed(d.sd.mem, d.sdDiskInfo[d.sdCurrentDisk], index, job)
    ensures d.PlaceFor(x, index, job.info, isWrite) == Place(true, x.locked, true, true, Some(job.start), job.table, job.info)
  {
    StillAddressed(d.sd.mem, d.sd.mem, d.sdDiskInfo[d.sdCurrentDisk], index, job);
    hide BlockTable, BlockStart, BlockSectors, BlockLength, InTables, InBuffers;
  }

  function PlaceOf(job: Job, locked: bool): Place {
    Place(true, locked, true, true, Some(job.start), job.table, job.info)
  }

  /** A block request is reported valid: the lock was had, no SD sector is missing and no command failed. */
  ghost predicate Reported(job: Job, locked: bool, before: nat, after: nat) {
    locked && job.table != [] && FirstZero(job.table) == |job.table| && after == before
  }

  /** The poll that reads the block. */
  lemma {:induction false} ReadStarts(a: Store, b: Store, job: Job, locked: bool)
    requires ReadRequested(PlaceOf(job, locked), a, b) && ProperInfo(job.info)
    ensures b.card == a.card && BufferAlone(a.mem, b.mem)
    ensures b.blockValid ==> Holds(b.session, job, [])
    ensures b.faults >= a.faults && (b.blockValid <==> Reported(job, locked, a.faults, b.faults))
  {
    hide FirstZero;
  }

  /** The poll that copies a sector into the block buffer. */
  lemma {:induction false} CopiedOne(c: Control, a: Store, b: Store, job: Job, got: seq<seq<byte>>)
    requires CopiedIn(c, a, b) && c.info == job.info && ProperInfo(job.info) && c.currentSector < DATA_SECTORS && a.blockOffset < SECTOR_SIZE
    ensures b.card == a.card && b.faults == a.faults && BufferAlone(a.mem, b.mem)
    ensures |a.mem| == ADDRESSES && Paired(Length(job.info)) <= SECTOR_MAX_SIZE
    ensures Holds(a.session, job, got) ==> Holds(b.session, job, got + [SectorBuffer(a.mem)[..Paired(Length(job.info))]])
  {
    hide Blit, SectorBuffer, BufferAt, Paired, AllPaired;
    var n := Paired(Length(job.info));
    PlaceInBuffer(c, a.blockOffset);
    CopiedOutside(a.mem, b.mem, BufferAt(c, a.blockOffset), n);
    BufferStart(a.mem, n);
    if Holds(a.session, job, got) { OnePaired(got, Length(job.info), SectorBuffer(a.mem)[..n]); }
  }

  lemma {:induction false} PlaceInBuffer(c: Control, blockOffset: nat)
    requires ProperInfo(c.info) && c.currentSector < DATA_SECTORS && blockOffset < SECTOR_SIZE
    ensures BUFFER_ADDRESS <= BufferAt(c, blockOffset) && BufferAt(c, blockOffset) + Paired(Length(c.info)) <= BUFFER_ADDRESS + BUFFER_SIZE
    ensures Paired(Length(c.info)) <= SECTOR_MAX_SIZE
  {
    BufferPlace(c.info, c.currentSector, blockOffset);
    hide Paired, SectorPlace;
  }

  lemma {:induction false} BufferStart(mem: seq<byte>, n: nat)
    requires |mem| == ADDRESSES && n <= SECTOR_MAX_SIZE
    ensures SectorBuffer(mem)[..n] == mem[SECTOR_BUFFER_ADDRESS..SECTOR_BUFFER_ADDRESS + n]
  {
  }

  lemma {:induction false} OnePaired(got: seq<seq<byte>>, n: nat, more: seq<byte>)
    requires AllPaired(got, n) && |more| == Paired(n)
    ensures AllPaired(got + [more], n)
  {
    hide Paired;
  }

  lemma {:induction false} CopiedOutside(mem: seq<byte>, after: seq<byte>, at: nat, n: nat)
    requires |mem| == ADDRESSES && BUFFER_ADDRESS <= at && at + n <= BUFFER_ADDRESS + BUFFER_SIZE && SECTOR_BUFFER_ADDRESS + n <= ADDRESSES
    requires after == Blit(mem, at, mem, SECTOR_BUFFER_ADDRESS, n)
    ensures BufferAlone(mem, after)
  {
    hide Blit;
  }

  /** The poll that writes the block back. */
  lemma {:induction false} WroteBack(a: Store, b: Store, job: Job, locked: bool, got: seq<seq<byte>>)
    requires WriteRequested(PlaceOf(job, locked), a, b) && AllCorrect(b.log)
    ensures OnlyListed(job.table, a.card, b.card) && b.faults >= a.faults
    ensures b.blockValid <==> Reported(job, locked, a.faults, b.faults)
    ensures b.blockValid && Holds(a.session, job, got) && DistinctSectors(job.table) ==>
      BlockLaid(job, got, a.card, b.card)
  {
    hide FirstZero, DistinctSectors, OnlyListed, HasImage, Laid, Proper;
    if b.blockValid && Holds(a.session, job, got) && DistinctSectors(job.table) {
      var e := WrittenBack(a.session.value, a.card, b.card);
      assert b.log == a.log + [e];
      assert e in b.log;
      assert Correct(e);
      ImageIs(a.card, job.table, e.session.image);
    }
  }

  /** Where the drive's head is. */
  function Index(d: Drive): nat
    requires d.spindle.headTrack < 0x2000
    reads d`spindle, d`ctl
  {
    TrackHeadBlock(d.spindle.headTrack, d.ctl.startingBlock)
  }

  /** One poll, with what it does to the state, and to memory and the card. */
  method QuietProcess(d: Drive, scr: Scr, x: Inputs, ghost job: Job, ghost supply: Supply, ghost read: bool)
    requires Writing(d, job, supply, read) && Quiet(Poll(scr, x), d.sdDiskInfo[d.sdCurrentDisk], Index(d), job)
    modifies d, d.sd
    ensures d.Valid() && d.Mapped() && AllCorrect(d.log) && InBlock(d.ctl)
    ensures d.sdMode && d.sd.cardInitialized && d.sd.InLimits(job.table)
    ensures d.sdDiskInfo == old(d.sdDiskInfo) && d.sdCurrentDisk == old(d.sdCurrentDisk) && d.spindle.headTrack == old(d.spindle.headTrack)
    ensures d.ctl == StepControl(Requested(old(d.ctl), scr), Request(true, old(d.blockReady), old(d.blockValid)))
    ensures Stepped(Requested(old(d.ctl), scr), PlaceOf(job, x.locked), old(d.Snap()), d.Snap())
  {
    hide d.Valid, Addressed, TrackHeadBlock, Requested, StepControl, Polled, PolledScr, PolledSpindle, InTables,
      AllCorrect, Holds, SectorBuffer, InBlock, ProperInfo, Stepped;
    d.ValidIs();
    ghost var index := Index(d);
    JobIsProper(d.sd.mem, d.sdDiskInfo[d.sdCurrentDisk], index, job);
    QuietSpindle(d.spindle, scr, x);
    QuietPoll(d.ctl, d.spindle, scr, x, Request(true, d.blockReady, d.blockValid));
    PlaceIs(d, x, index, job, Requested(d.ctl, scr).state == BlockWrite);
    hide d.Tables;
    var after := d.Process(scr, x);
    d.ValidIs();
  }

  /** The poll that reads the block. */
  method ReadPoll(d: Drive, scr: Scr, x: Inputs, ghost job: Job, ghost supply: Supply, ghost read: bool)
    requires Writing(d, job, supply, read) && Quiet(Poll(scr, x), d.sdDiskInfo[d.sdCurrentDisk], Index(d), job)
    requires d.ctl.state == Start && BmPending !in scr && BmAck !in scr
    modifies d, d.sd
    ensures Writing(d, job, supply, d.blockValid) && d.ctl.state == BlockReadWait
    ensures d.sd.faults >= old(d.sd.faults) && (d.blockValid <==> Reported(job, x.locked, old(d.sd.faults), d.sd.faults))
    ensures d.sd.card == old(d.sd.card) && Index(d) == old(Index(d)) && SameDisk(d, old(d.sdDiskInfo), old(d.sdCurrentDisk))
  {
    hide d.Valid, Addressed, TrackHeadBlock, Requested, StepControl, InTables, AllCorrect, Holds, SectorBuffer,
      ReadRequested, InBlock, ProperInfo;
    d.ValidIs();
    ghost var c, a, index, disk := d.ctl, d.Snap(), Index(d), d.sdDiskInfo[d.sdCurrentDisk];
    JobIsProper(d.sd.mem, disk, index, job);
    WritePoll(c, scr, Request(true, d.blockReady, d.blockValid), job, supply);
    QuietProcess(d, scr, x, job, supply, read);
    ReadStarts(a, d.Snap(), job, x.locked);
    BlockMoved(a.mem, d.sd.mem, disk, index, job);
  }

  /** A poll that copies a sector into the block buffer. */
  method CopyPoll(d: Drive, scr: Scr, x: Inputs, ghost job: Job, ghost supply: Supply, ghost read: bool)
    requires Writing(d, job, supply, read) && Quiet(Poll(scr, x), d.sdDiskInfo[d.sdCurrentDisk], Index(d), job)
    requires (d.ctl.state == BlockReadWait || d.ctl.state == Idle) && BmPending in scr
    modifies d, d.sd
    ensures |supply.got| < DataSectors(job.info) && Paired(Length(job.info)) <= |supply.buffer|
    ensures Writing(d, job, supply.(got := supply.got + [supply.buffer[..Paired(Length(job.info))]]), read) && d.ctl.state != Start
    ensures d.sd.card == old(d.sd.card) && d.sd.faults == old(d.sd.faults) && Index(d) == old(Index(d)) && SameDisk(d, old(d.sdDiskInfo), old(d.sdCurrentDisk))
  {
    hide d.Valid, Addressed, TrackHeadBlock, Requested, StepControl, InTables, AllCorrect, Holds, SectorBuffer,
      CopiedIn, InBlock, ProperInfo, Paired;
    d.ValidIs();
    ghost var c, a, index, disk := d.ctl, d.Snap(), Index(d), d.sdDiskInfo[d.sdCurrentDisk];
    JobIsProper(d.sd.mem, disk, index, job);
    CollectingStage(c, job, supply);
    WritePoll(c, scr, Request(true, d.blockReady, d.blockValid), job, supply);
    QuietProcess(d, scr, x, job, supply, read);
    CopiedOne(Requested(c, scr), a, d.Snap(), job, supply.got);
    BlockMoved(a.mem, d.sd.mem, disk, index, job);
  }

  /** A poll without a pending sector. */
  method WaitPoll(d: Drive, scr: Scr, x: Inputs, ghost job: Job, ghost supply: Supply, ghost read: bool)
    requires Writing(d, job, supply, read) && Quiet(Poll(scr, x), d.sdDiskInfo[d.sdCurrentDisk], Index(d), job)
    requires (d.ctl.state == BlockReadWait || d.ctl.state == Idle) && BmPending !in scr
    modifies d, d.sd
    ensures Writing(d, job, supply, read) && d.ctl.state != Start
    ensures d.sd.card == old(d.sd.card) && d.sd.faults == old(d.sd.faults) && Index(d) == old(Index(d)) && SameDisk(d, old(d.sdDiskInfo), old(d.sdCurrentDisk))
  {
    hide d.Valid, Addressed, TrackHeadBlock, Requested, StepControl, InTables, AllCorrect, Holds, SectorBuffer,
      InBlock, ProperInfo;
    d.ValidIs();
    JobIsProper(d.sd.mem, d.sdDiskInfo[d.sdCurrentDisk], Index(d), job);
    CollectingStage(d.ctl, job, supply);
    WritePoll(d.ctl, scr, Request(true, d.blockReady, d.blockValid), job, supply);
    QuietProcess(d, scr, x, job, supply, read);
  }

  /** The poll that writes the block back. */
  method WriteBackPoll(d: Drive, scr: Scr, x: Inputs, ghost job: Job, ghost supply: Supply, ghost read: bool)
    requires Writing(d, job, supply, read) && Quiet(Poll(scr, x), d.sdDiskInfo[d.sdCurrentDisk], Index(d), job)
    requires d.ctl.state == BlockWrite
    modifies d, d.sd
    ensures d.Valid() && d.ctl.state == BlockWriteWait && |supply.got| == DataSectors(job.info)
    ensures OnlyListed(job.table, old(d.sd.card), d.sd.card) && d.sd.faults >= old(d.sd.faults)
    ensures d.blockValid <==> Reported(job, x.locked, old(d.sd.faults), d.sd.faults)
    ensures read && d.blockValid && DistinctSectors(job.table) ==>
      AllPaired(supply.got, Length(job.info)) &&
      BlockLaid(job, supply.got, old(d.sd.card), d.sd.card)
  {
    hide d.Valid, Addressed, TrackHeadBlock, Requested, StepControl, InTables, AllCorrect, SectorBuffer, Gathered,
      WriteRequested, InBlock, ProperInfo, DistinctSectors, BlockLaid, OnlyListed;
    d.ValidIs();
    ghost var c, a := d.ctl, d.Snap();
    JobIsProper(d.sd.mem, d.sdDiskInfo[d.sdCurrentDisk], Index(d), job);
    WritePoll(c, scr, Request(true, d.blockReady, d.blockValid), job, supply);
    QuietProcess(d, scr, x, job, supply, read);
    WroteBack(a, d.Snap(), job, x.locked, supply.got);
  }

  ghost predicate SameDisk(d: Drive, disks: seq<DiskInfo>, current: nat)
    reads d`sdDiskInfo, d`sdCurrentDisk
  {
    d.sdDiskInfo == disks && d.sdCurrentDisk == current
  }

  lemma {:induction false} CollectingStage(c: Control, job: Job, supply: Supply)
    requires Stage(c, job, supply) && (c.state == BlockReadWait || c.state == Idle) && ProperInfo(job.info)
    ensures |supply.got| == c.currentSector < DataSectors(job.info) <= DATA_SECTORS
  {
  }

  lemma {:induction false} JobIsProper(mem: seq<byte>, disk: DiskInfo, index: nat, job: Job)
    requires Addressed(mem, disk, index, job)
    ensures ProperInfo(job.info) && |mem| == ADDRESSES && 0 < DataSectors(job.info) <= DATA_SECTORS
  {
  }

  /** Only the block buffer has changed. */
  lemma {:induction false} BlockMoved(mem: seq<byte>, after: seq<byte>, disk: DiskInfo, index: nat, job: Job)
    requires Addressed(mem, disk, index, job) && BufferAlone(mem, after)
    ensures Addressed(after, disk, index, job) && |after| == ADDRESSES && SectorBuffer(after) == SectorBuffer(mem)
  {
    BuffersApart(mem, after, disk, index, job);
    hide *;
    StillAddressed(mem, after, disk, index, job);
  }

  /** A store into memory, perhaps into the sector buffer. */
  method StoreStep(d: Drive, address: nat, data: seq<byte>, ghost job: Job, ghost supply: Supply, ghost read: bool)
    requires Writing(d, job, supply, read) && Quiet(MemoryWrite(address, data), d.sdDiskInfo[d.sdCurrentDisk], Index(d), job)
    modifies d`session, d.sd`mem
    ensures |supply.buffer| == SECTOR_MAX_SIZE && ProperInfo(job.info)
    ensures Writing(d, job, Supplied(supply, MemoryWrite(address, data), job.info), read)
  {
    hide d.Valid, Addressed, TrackHeadBlock, Holds, SectorBuffer, InBlock, Stage, Supplied, ProperInfo, Blit;
    d.ValidIs();
    ghost var mem, disk, index := d.sd.mem, d.sdDiskInfo[d.sdCurrentDisk], Index(d);
    JobIsProper(mem, disk, index, job);
    d.HostWrite(address, data);
    d.ValidIs();
    StoredTables(mem, d.sd.mem, address, data, disk, index, job);
    StoredBuffer(mem, d.sd.mem, address, data, supply, job.info);
    StillAddressed(mem, d.sd.mem, disk, index, job);
    SuppliedNothing(supply, MemoryWrite(address, data), job.info);
    StageSame(d.ctl, job, supply, Supplied(supply, MemoryWrite(address, data), job.info));
  }

  lemma {:induction false} StageSame(c: Control, job: Job, supply: Supply, after: Supply)
    requires Stage(c, job, supply) && after.got == supply.got
    ensures Stage(c, job, after)
  {
  }

  lemma {:induction false} StoredTables(mem: seq<byte>, after: seq<byte>, address: nat, data: seq<byte>, disk: DiskInfo, index: nat, job: Job)
    requires |mem| == ADDRESSES && address + |data| <= ADDRESSES && after == Blit(mem, address, data, 0, |data|)
    requires forall j :: address <= j < address + |data| ==> !InTables(disk, index, job, j)
    ensures SameTables(mem, after, disk, index, job)
  {
    hide Blit, InTables;
  }

  lemma {:induction false} StoredBuffer(mem: seq<byte>, after: seq<byte>, address: nat, data: seq<byte>, supply: Supply, info: SectorInfo)
    requires |mem| == ADDRESSES && address + |data| <= ADDRESSES && after == Blit(mem, address, data, 0, |data|)
    requires SectorBuffer(mem) == supply.buffer && ProperInfo(info)
    ensures SectorBuffer(after) == Supplied(supply, MemoryWrite(address, data), info).buffer
  {
    hide Blit;
    var a, b := SectorBuffer(after), Supplied(supply, MemoryWrite(address, data), info).buffer;
    forall i | 0 <= i < SECTOR_MAX_SIZE
      ensures a[i] == b[i]
    {
    }
  }

  lemma {:induction false} SuppliedNothing(supply: Supply, e: Event, info: SectorInfo)
    requires |supply.buffer| == SECTOR_MAX_SIZE && ProperInfo(info) && !e.Poll?
    ensures Supplied(supply, e, info).got == supply.got && |Supplied(supply, e, info).buffer| == SECTOR_MAX_SIZE
  {
  }

  // ---------- the whole write ----------

  /** The sector buffer and its copies after all these events. */
  ghost function SuppliedAll(s: Supply, events: seq<Event>, info: SectorInfo): (r: Supply)
    requires |s.buffer| == SECTOR_MAX_SIZE && ProperInfo(info)
    ensures |r.buffer| == SECTOR_MAX_SIZE
  {
    if events == [] then s else Supplied(SuppliedAll(s, events[..|events| - 1], info), events[|events| - 1], info)
  }

  lemma {:induction false} SuppliedNext(s: Supply, events: seq<Event>, n: nat, info: SectorInfo)
    requires |s.buffer| == SECTOR_MAX_SIZE && ProperInfo(info) && n < |events|
    ensures SuppliedAll(s, events[..n + 1], info) == Supplied(SuppliedAll(s, events[..n], info), events[n], info)
    ensures SuppliedAll(s, events[..0], info) == s
  {
    assert events[..n + 1][..n] == events[..n];
  }

  ghost predicate AllQuiet(events: seq<Event>, disk: DiskInfo, index: nat, job: Job) {
    forall i :: 0 <= i < |events| ==> Quiet(events[i], disk, index, job)
  }

  /** No sector is pending or acknowledged before the first poll. */
  ghost predicate PendingLater(events: seq<Event>) {
    forall i :: 0 <= i < |events| && IsPending(events[i]) ==> exists j :: 0 <= j < i && events[j].Poll?
  }

  ghost predicate AllLocked(events: seq<Event>) {
    forall i :: 0 <= i < |events| && events[i].Poll? ==> events[i].inputs.locked
  }

  /** One event; true when the block has been written back. */
  method Step(d: Drive, e: Event, ghost job: Job, ghost supply: Supply, ghost read: bool) returns (ghost read1: bool, done: bool)
    requires Writing(d, job, supply, read) && Quiet(e, d.sdDiskInfo[d.sdCurrentDisk], Index(d), job)
    requires d.ctl.state == Start ==> !IsPending(e)
    modifies d, d.sd
    ensures |supply.buffer| == SECTOR_MAX_SIZE && ProperInfo(job.info)
    ensures done <==> e.Poll? && old(d.ctl.state) == BlockWrite
    ensures !done ==> Writing(d, job, Supplied(supply, e, job.info), read1) && d.sd.card == old(d.sd.card) && d.sd.faults >= old(d.sd.faults)
    ensures !done ==> (d.ctl.state == Start <==> old(d.ctl.state) == Start && !e.Poll?)
    ensures !done && old(d.ctl.state) != Start ==> read1 == read && d.sd.faults == old(d.sd.faults)
    ensures !done && old(d.ctl.state) == Start && !e.Poll? ==> d.sd.faults == old(d.sd.faults)
    ensures !done && old(d.ctl.state) == Start && e.Poll? ==> (read1 <==> Reported(job, e.inputs.locked, old(d.sd.faults), d.sd.faults))
    ensures !done ==> Index(d) == old(Index(d)) && SameDisk(d, old(d.sdDiskInfo), old(d.sdCurrentDisk))
    ensures done ==> d.Valid() && d.ctl.state == BlockWriteWait && |supply.got| == DataSectors(job.info) && Supplied(supply, e, job.info) == supply
    ensures done ==> OnlyListed(job.table, old(d.sd.card), d.sd.card) && d.sd.faults >= old(d.sd.faults)
    ensures done && read && Reported(job, e.inputs.locked, old(d.sd.faults), d.sd.faults) && DistinctSectors(job.table) ==>
      AllPaired(supply.got, Length(job.info)) &&
      BlockLaid(job, supply.got, old(d.sd.card), d.sd.card)
  {
    StageStates(d.ctl, job, supply);
    JobIsProper(d.sd.mem, d.sdDiskInfo[d.sdCurrentDisk], Index(d), job);
    hide Stage, d.Valid, Addressed, TrackHeadBlock, Holds, SectorBuffer, InBlock, ProperInfo, Reported, OnlyListed, BlockLaid, DistinctSectors,
      AllPaired, DataSectors;
    read1, done := read, false;
    match e {
      case Poll(scr, x) =>
        if d.ctl.state == Start {
          ReadPoll(d, scr, x, job, supply, read);
          read1 := d.blockValid;
        } else if d.ctl.state == BlockWrite {
          WriteBackPoll(d, scr, x, job, supply, read);
          done := true;
        } else if BmPending in scr {
          CopyPoll(d, scr, x, job, supply, read);
        } else {
          WaitPoll(d, scr, x, job, supply, read);
        }
      case MemoryWrite(address, data) =>
        StoreStep(d, address, data, job, supply, read);
      case BlockReady(valid) =>
        d.SetBlockReady(valid);
      case _ =>
    }
  }

  lemma {:induction false} StageStates(c: Control, job: Job, supply: Supply)
    requires Stage(c, job, supply)
    ensures c.state in {Start, BlockReadWait, Idle, BlockWrite}
    ensures c.state == Start ==> supply.got == []
    ensures c.state == BlockWrite ==> |supply.got| == DataSectors(job.info)
  {
  }

  /** The bit that starts a transfer, without the bits that make it a read or stop it again. */
  ghost predicate StartsWrite(scr: Scr, x: Inputs) {
    ProperInfo(x.info) && BmStart in scr && HardReset !in scr && BmStop !in scr && TransferMode !in scr &&
    (CmdPending in scr ==> x.cmd != SEEK_READ && x.cmd != SEEK_WRITE)
  }

  /** The poll that sees the start bit. */
  method Begin(d: Drive, scr: Scr, x: Inputs, ghost job: Job) returns (ghost supply: Supply)
    requires d.Valid() && d.sdMode && d.sd.cardInitialized && d.sd.InLimits(job.table) && StartsWrite(scr, x) && job.info == x.info
    requires Addressed(d.sd.mem, d.sdDiskInfo[d.sdCurrentDisk], TrackHeadBlock(d.spindle.headTrack, StartsAt(x.info)), job)
    modifies d, d.sd
    ensures supply == Supply(SectorBuffer(old(d.sd.mem)), []) && Writing(d, job, supply, false) && d.ctl.state == Start
    ensures d.sd.mem == old(d.sd.mem) && d.sd.card == old(d.sd.card) && d.sd.faults == old(d.sd.faults)
    ensures Index(d) == TrackHeadBlock(old(d.spindle.headTrack), StartsAt(x.info)) && SameDisk(d, old(d.sdDiskInfo), old(d.sdCurrentDisk))
  {
    hide d.Valid, Addressed, TrackHeadBlock, SectorBuffer, ProperInfo, InBlock;
    d.ValidIs();
    supply := Supply(SectorBuffer(d.sd.mem), []);
    JobIsProper(d.sd.mem, d.sdDiskInfo[d.sdCurrentDisk], TrackHeadBlock(d.spindle.headTrack, StartsAt(x.info)), job);
    QuietSpindle(d.spindle, scr, x);
    StartPoll(d.ctl, d.spindle, scr, x, Request(d.sdMode || x.queued, d.blockReady, d.blockValid));
    hide Polled, PolledScr, PolledSpindle;
    var after := d.Process(scr, x);
    d.ValidIs();
  }

  predicate StartsAt(info: SectorInfo) {
    info.sectorNum == info.sectorsInBlock + 1
  }

  lemma {:induction false} StartPoll(c: Control, p: Spindle, scr: Scr, x: Inputs, r: Request)
    requires StartsWrite(scr, x)
    ensures var now := Polled(c, p, scr, x, r);
      now.state == Start && now.bmRunning && !now.transferMode && now.info == x.info && now.startingBlock == StartsAt(x.info)
  {
    PreparedBits(p, scr, x, BmStop);
    PreparedBits(p, scr, x, BmStart);
    PreparedBits(p, scr, x, TransferMode);
    hide PreparedScr;
  }

  /** From the start of a block on: its SD sectors change only at the write-back, and only to what was supplied. */
  method Transfer(d: Drive, events: seq<Event>, ghost job: Job, ghost supply: Supply) returns (n: nat, done: bool)
    requires Writing(d, job, supply, false) && d.ctl.state == Start
    requires AllQuiet(events, d.sdDiskInfo[d.sdCurrentDisk], Index(d), job) && PendingLater(events)
    modifies d, d.sd
    ensures n <= |events| && (done ==> n > 0) && (!done ==> n == |events|)
    ensures |supply.buffer| == SECTOR_MAX_SIZE && ProperInfo(job.info)
    ensures !done ==> d.sd.card == old(d.sd.card) && exists read :: Writing(d, job, SuppliedAll(supply, events, job.info), read)
    ensures done ==> var got := SuppliedAll(supply, events[..n], job.info).got;
      d.Valid() && d.ctl.state == BlockWriteWait && |got| == DataSectors(job.info) && OnlyListed(job.table, old(d.sd.card), d.sd.card) &&
      (AllLocked(events) && GoodTable(job.table) && d.sd.faults == old(d.sd.faults) ==>
        AllPaired(got, Length(job.info)) &&
        BlockLaid(job, got, old(d.sd.card), d.sd.card))
  {
    hide Writing, Quiet, Addressed, TrackHeadBlock, OnlyListed, BlockLaid, AllPaired, DataSectors, Supplied, SuppliedAll, ProperInfo,
      FirstZero, DistinctSectors, d.Valid, IsPending;
    BufferLength(d, job, supply, false);
    ghost var now, read := supply, false;
    ghost var disk, index := d.sdDiskInfo[d.sdCurrentDisk], Index(d);
    n, done := 0, false;
    SuppliedStart(supply, events, job.info);
    while n < |events| && !done
      invariant n <= |events| && |now.buffer| == SECTOR_MAX_SIZE && ProperInfo(job.info)
      invariant !done ==> Writing(d, job, now, read) && d.sd.card == old(d.sd.card)
      invariant !done ==> d.spindle.headTrack < 0x2000 && d.sdCurrentDisk < |d.sdDiskInfo|
      invariant !done ==> d.sdDiskInfo[d.sdCurrentDisk] == disk && Index(d) == index
      invariant now == SuppliedAll(supply, events[..n], job.info) && d.sd.faults >= old(d.sd.faults)
      invariant !done && d.ctl.state == Start ==> d.sd.faults == old(d.sd.faults) && forall j :: 0 <= j < n ==> !events[j].Poll?
      invariant !done && d.ctl.state != Start && AllLocked(events) && GoodTable(job.table) && d.sd.faults == old(d.sd.faults) ==> read
      invariant done ==> n > 0 && d.Valid() && d.ctl.state == BlockWriteWait && |now.got| == DataSectors(job.info)
      invariant done ==> OnlyListed(job.table, old(d.sd.card), d.sd.card)
      invariant done && AllLocked(events) && GoodTable(job.table) && d.sd.faults == old(d.sd.faults) ==>
        AllPaired(now.got, Length(job.info)) &&
        BlockLaid(job, now.got, old(d.sd.card), d.sd.card)
      decreases |events| - n, if done then 0 else 1
    {
      SuppliedNext(supply, events, n, job.info);
      read, done := Step(d, events[n], job, now, read);
      if !done { BufferLength(d, job, Supplied(now, events[n], job.info), read); }
      now := Supplied(now, events[n], job.info);
      n := n + 1;
    }
    assert events[..|events|] == events;
  }

  /** Every SD sector of the block is there, and none is listed twice. */
  ghost predicate GoodTable(table: seq<word>) {
    table != [] && FirstZero(table) == |table| && DistinctSectors(table)
  }

  lemma {:induction false} BufferLength(d: Drive, job: Job, supply: Supply, read: bool)
    requires Writing(d, job, supply, read)
    ensures |supply.buffer| == SECTOR_MAX_SIZE && ProperInfo(job.info) && d.spindle.headTrack < 0x2000 && d.sdCurrentDisk < |d.sdDiskInfo|
  {
    hide d.Valid, Stage, Holds, SectorBuffer, TrackHeadBlock;
    d.ValidIs();
    JobIsProper(d.sd.mem, d.sdDiskInfo[d.sdCurrentDisk], Index(d), job);
  }

  lemma {:induction false} SuppliedStart(s: Supply, events: seq<Event>, info: SectorInfo)
    requires |s.buffer| == SECTOR_MAX_SIZE && ProperInfo(info)
    ensures SuppliedAll(s, events[..0], info) == s
  {
  }

  // ---------- what that means for the disk image ----------

  /** The block is a stretch of an image kept in these SD sectors, all of them there and none twice. */
  ghost predicate OnDisk(job: Job, disk: seq<word>) {
    DistinctSectors(disk) && 0 !in disk && job.start / SECTOR_SIZE + |job.table| <= |disk| &&
    job.table == disk[job.start / SECTOR_SIZE..job.start / SECTOR_SIZE + |job.table|]
  }

  /**
   The image has changed by the supplied sectors, each laid where the engine puts it; with an even start and an even
   length that is exactly the supplied sectors, end to end where the block starts.
   */
  ghost predicate ImageChanged(disk: seq<word>, job: Job, got: seq<seq<byte>>, before: seq<byte>, after: seq<byte>) {
    OnCard(before, disk, |disk|) && OnCard(after, disk, |disk|) && AllPaired(got, Length(job.info)) &&
    ImageOf(after, disk) == Laid(ImageOf(before, disk), job.start, Length(job.info), got) &&
    (job.start % 2 == 0 && Length(job.info) % 2 == 0 ==>
      ImageOf(after, disk) == LaidOver(ImageOf(before, disk), job.start, Gathered(got, Length(job.info))))
  }

  lemma {:induction false} OnDiskIsGood(job: Job, disk: seq<word>)
    requires OnDisk(job, disk) && job.table != []
    ensures GoodTable(job.table)
  {
    FirstZeroIs(job.table, |job.table|);
  }

  lemma {:induction false} ImageWritten(job: Job, disk: seq<word>, got: seq<seq<byte>>, before: seq<byte>, after: seq<byte>)
    requires OnDisk(job, disk) && OnCard(before, disk, |disk|) && AllPaired(got, Length(job.info)) && |got| <= DATA_SECTORS
    requires job.start % SECTOR_SIZE + Length(job.info) * DATA_SECTORS <= |job.table| * SECTOR_SIZE
    requires BlockLaid(job, got, before, after)
    ensures ImageChanged(disk, job, got, before, after)
  {
    hide Laid, LaidOver, Gathered, DistinctSectors, ImageOf, HasImage, OnlyListed, AllPaired, OnCard;
    ImageUpdate(disk, job.start, job.table, Length(job.info), got, before, after);
    if job.start % 2 == 0 && Length(job.info) % 2 == 0 {
      LaidEven(ImageOf(before, disk), job.start, Length(job.info), got);
    }
  }

  lemma {:induction false} BlockFits(mem: seq<byte>, disk: DiskInfo, index: nat, job: Job)
    requires Addressed(mem, disk, index, job)
    ensures job.start % SECTOR_SIZE + Length(job.info) * DATA_SECTORS <= |job.table| * SECTOR_SIZE && job.table != []
  {
    SpanHolds(job.start, BlockLength(job.info));
    LengthIs(job.info);
    hide BlockStart, InTables, InBuffers, BlockLength;
  }

  /**
   Whatever the console, the host and the drive do between the start bit and the write-back: the disk image
   changes by what the sector buffer held each time a sector was pending, laid where the copy engine puts it.
   */
  method WriteBlock(d: Drive, scr: Scr, x: Inputs, events: seq<Event>, ghost job: Job, ghost disk: seq<word>) returns (n: nat, done: bool)
    requires d.Valid() && d.sdMode && d.sd.cardInitialized && d.sd.InLimits(job.table) && StartsWrite(scr, x) && job.info == x.info
    requires Addressed(d.sd.mem, d.sdDiskInfo[d.sdCurrentDisk], TrackHeadBlock(d.spindle.headTrack, StartsAt(x.info)), job)
    requires AllQuiet(events, d.sdDiskInfo[d.sdCurrentDisk], TrackHeadBlock(d.spindle.headTrack, StartsAt(x.info)), job) && PendingLater(events)
    requires OnDisk(job, disk) && OnCard(d.sd.card, disk, |disk|)
    modifies d, d.sd
    ensures n <= |events| && (!done ==> n == |events| && d.sd.card == old(d.sd.card)) && |old(d.sd.mem)| == ADDRESSES
    ensures done ==> d.Valid() && d.ctl.state == BlockWriteWait && OnlyListed(job.table, old(d.sd.card), d.sd.card)
    ensures done && AllLocked(events) && d.sd.faults == old(d.sd.faults) ==>
      var got := SuppliedAll(Supply(SectorBuffer(old(d.sd.mem)), []), events[..n], job.info).got;
      |got| == DataSectors(job.info) && ImageChanged(disk, job, got, old(d.sd.card), d.sd.card)
  {
    hide Addressed, TrackHeadBlock, d.Valid, OnlyListed, BlockLaid, AllPaired, DataSectors, SuppliedAll, Supplied, ProperInfo, Quiet,
      OnDisk, ImageChanged, GoodTable, SectorBuffer, Writing, IsPending, StartsWrite;
    d.ValidIs();
    ghost var mem, card, info, index := d.sd.mem, d.sd.card, d.sdDiskInfo[d.sdCurrentDisk], TrackHeadBlock(d.spindle.headTrack, StartsAt(x.info));
    JobIsProper(mem, info, index, job);
    ghost var supply := Begin(d, scr, x, job);
    n, done := Transfer(d, events, job, supply);
    ghost var got := SuppliedAll(supply, events[..n], job.info).got;
    BlockFits(mem, info, index, job);
    OnDiskIsGood(job, disk);
    if done && AllLocked(events) && d.sd.faults == old(d.sd.faults) {
      ImageWritten(job, disk, got, card, d.sd.card);
    }
  }
}
