/**
 A whole block read through the 64DD emulation of sw/controller/src/dd.c: whatever happens between the start bit
 and the end of the block, the console gets the sectors of the disk image, in order, and is told the truth about them.
 */
module DriveReading {
  import opened Bytes
  import opened SdBlocks
  import opened DriveControl
  import opened DriveProtocol
  import opened DriveBuffer
  import opened DiskDrive
  import opened DriveTransfer

  // ---------- where the block lies ----------

  /** The block is mapped there, and need not be writable. */
  ghost predicate Located(mem: seq<byte>, disk: DiskInfo, index: nat, job: Job) {
    |mem| == ADDRESSES && ProperDisk(disk) && index < 0x4000 && job.start < WRITABLE_FLAG && ProperInfo(job.info) &&
    BlockStart(mem, disk, index, false) == Some(job.start) && disk.sectorTable < 0x2000_0000 &&
    job.table == BlockSectors(mem, disk, job.start, BlockLength(job.info))
  }

  /** As long as its tables stay, the block is where it was. */
  lemma {:induction false} StillLocated(mem: seq<byte>, after: seq<byte>, disk: DiskInfo, index: nat, job: Job)
    requires Located(mem, disk, index, job) && SameTables(mem, after, disk, index, job)
    ensures Located(after, disk, index, job)
  {
    hide BlockLength, SectorSpan;
    SpanHolds(job.start, BlockLength(job.info));
    SameEntry(mem, after, disk.thbTable + 4 * index);
    hide Entry;
    var now := BlockSectors(after, disk, job.start, BlockLength(job.info));
    forall i | 0 <= i < |job.table|
      ensures now[i] == job.table[i]
    {
      var at := disk.sectorTable + 4 * (job.start / SECTOR_SIZE + i);
      assert forall j :: at <= j < at + 4 ==> InTables(disk, index, job, j);
      SameEntry(mem, after, at);
    }
    assert now == job.table;
  }

  lemma {:induction false} LocatedPlace(d: Drive, x: Inputs, index: nat, job: Job)
    requires d.Tables() && d.sdMode && d.sd.cardInitialized && d.sd.InLimits(job.table)
    requires Located(d.sd.mem, d.sdDiskInfo[d.sdCurrentDisk], index, job)
    ensures d.PlaceFor(x, index, job.info, false) == PlaceOf(job, x.locked)
  {
    hide BlockStart, BlockSectors, BlockLength;
  }

  // ---------- what the console gets ----------

  /** What the engine finds for sector k of the block in the image its SD sectors hold. */
  ghost predicate IsSector(card: seq<byte>, job: Job, k: nat, data: seq<byte>) {
    OnCard(card, job.table, |job.table|) &&
    var at := SectorPlace(job.start % SECTOR_SIZE, Length(job.info), k);
    at + Length(job.info) <= |job.table| * SECTOR_SIZE && data == ImageOf(card, job.table)[at..at + Length(job.info)]
  }

  ghost predicate AreSectors(card: seq<byte>, job: Job, got: seq<seq<byte>>) {
    OnCard(card, job.table, |job.table|) && forall k :: 0 <= k < |got| ==> IsSector(card, job, k, got[k])
  }

  lemma {:induction false} OneMoreSector(card: seq<byte>, job: Job, got: seq<seq<byte>>, data: seq<byte>)
    requires AreSectors(card, job, got) && IsSector(card, job, |got|, data)
    ensures AreSectors(card, job, got + [data])
  {
    hide IsSector;
  }

  /** How far the read of a block is, with n sectors handed out. */
  ghost predicate ReadStage(c: Control, job: Job, n: nat) {
    c.bmRunning && c.transferMode && c.info == job.info && ProperInfo(job.info) && InBlock(c) &&
    if c.state == Start then n == 0
    else ReadState(c.state) && n == if c.currentSector < DataSectors(c.info) then c.currentSector else DataSectors(c.info)
  }

  /** The read is under way; `whole` says that all SD sectors of the block were read. */
  ghost predicate Reading(d: Drive, job: Job, got: seq<seq<byte>>, whole: bool)
    reads d, d.sd
  {
    d.Valid() && d.sdMode && ReadStage(d.ctl, job, |got|) &&
    if d.ctl.state == Start then
      d.sd.cardInitialized && d.sd.InLimits(job.table) && Located(d.sd.mem, d.sdDiskInfo[d.sdCurrentDisk], Index(d), job)
    else
      d.blockReady && (d.blockValid <==> whole) && (whole ==> Holds(d.session, job, []) && AreSectors(d.sd.card, job, got))
  }

  /** Anything but a reset, a start or stop, a seek, a store into the block buffer or the tables of the block, a change of disk or
      mode, a foreign write to the card, or a host that answers for the card. */
  ghost predicate Calm(e: Event, disk: DiskInfo, index: nat, job: Job) {
    Quiet(e, disk, index, job) && !e.BlockReady?
  }

  /** The sector at hand is now in the sector buffer. */
  lemma {:induction false} HandedOut(c: Control, a: Store, b: Store, job: Job, got: seq<seq<byte>>)
    requires CopiedOut(c, a, b) && AllCorrect(b.log) && Holds(a.session, job, []) && AreSectors(a.card, job, got)
    requires c.info == job.info && ProperInfo(job.info) && c.currentSector == |got|
    ensures |b.mem| == ADDRESSES && Length(job.info) <= SECTOR_MAX_SIZE
    ensures AreSectors(a.card, job, got + [SectorBuffer(b.mem)[..Length(job.info)]])
  {
    hide HasImage, Blit, BufferAt, AreSectors, AllPaired, SectorPlace, Overlaid;
    var n, at, s := Length(job.info), BufferAt(c, a.blockOffset), a.session.value;
    var data := a.mem[at..at + n];
    assert Delivered(s, c.currentSector, data, a.card) in b.log;
    assert Correct(Delivered(s, c.currentSector, data, a.card));
    ImageIs(a.card, s.table, s.image);
    Copied(a.mem, b.mem, at, n);
    OneMoreSector(a.card, job, got, data);
  }

  lemma {:induction false} Copied(mem: seq<byte>, after: seq<byte>, at: nat, n: nat)
    requires |mem| == ADDRESSES && 0 < n <= SECTOR_MAX_SIZE && at + Paired(n) <= ADDRESSES && SECTOR_BUFFER_ADDRESS + Paired(n) <= ADDRESSES
    requires after == Blit(mem, SECTOR_BUFFER_ADDRESS, mem, at, Paired(n))
    ensures SectorBuffer(after)[..n] == mem[at..at + n]
  {
    hide Blit;
    var a, b := SectorBuffer(after)[..n], mem[at..at + n];
    forall i | 0 <= i < n
      ensures a[i] == b[i]
    {
      assert a[i] == after[SECTOR_BUFFER_ADDRESS + i];
    }
  }

  // ---------- what the console is told ----------

  /** A poll as the console sees it: in which state it found the drive, and the status register before and after. */
  datatype PollNote = PollNote(state: State, scr: Scr, after: Scr)

  predicate Raises(note: PollNote, b: Bit) {
    b in note.after && b !in note.scr
  }

  /** Some poll has raised this bit. */
  ghost predicate Says(notes: seq<PollNote>, b: Bit) {
    exists i :: 0 <= i < |notes| && Raises(notes[i], b)
  }

  /** The console asks for nothing before it is told about the block, and nothing was said before. */
  ghost predicate Patient(notes: seq<PollNote>) {
    forall i :: 0 <= i < |notes| && notes[i].state == BlockReadWait ==> notes[i].scr !! {BmPending, TransferData, MicroError}
  }

  /** What has been said is true, and when the console has waited for it, the verdict on the block has been said. */
  ghost predicate Truthful(notes: seq<PollNote>, whole: bool, complete: bool, left: bool) {
    (Says(notes, TransferData) ==> whole) && (Says(notes, MicroError) ==> !whole) && (Says(notes, TransferC2) ==> complete) &&
    (Patient(notes) && left ==> Says(notes, if whole then TransferData else MicroError))
  }

  lemma {:induction false} OneMoreNote(notes: seq<PollNote>, note: PollNote, b: Bit)
    ensures Says(notes + [note], b) <==> Says(notes, b) || Raises(note, b)
    ensures Patient(notes + [note]) ==> Patient(notes)
    ensures Patient(notes + [note]) && note.state == BlockReadWait ==> note.scr !! {BmPending, TransferData, MicroError}
  {
    hide Raises;
    var all := notes + [note];
    assert all[|notes|] == note && forall i :: 0 <= i < |notes| ==> all[i] == notes[i];
  }

  /** What one poll of a read says. */
  lemma {:induction false} ReadSays(c: Control, p: Spindle, scr: Scr, x: Inputs, r: Request)
    requires GoesOn(c, scr) && InBlock(c) && c.transferMode && (ReadState(c.state) || (c.state == Start && BmPending !in scr && BmAck !in scr))
    ensures var note := PollNote(c.state, scr, PolledScr(c, p, scr, x, r));
      (Raises(note, TransferData) ==> c.state == BlockReadWait && r.valid) && (Raises(note, MicroError) ==> c.state == BlockReadWait && !r.valid) &&
      (Raises(note, TransferC2) ==> c.state != Start && c.currentSector == c.info.sectorsInBlock) &&
      (c.state == BlockReadWait && r.ready && scr !! {BmPending, TransferData, MicroError} ==> Raises(note, if r.valid then TransferData else MicroError))
  {
    BlockAnnounced(c, p, scr, x, r);
    C2Announced(c, p, scr, x, r);
    hide PolledScr;
  }

  // ---------- the polls of a read ----------

  lemma {:induction false} StagePolls(c: Control, job: Job, n: nat, scr: Scr, x: Inputs)
    requires ReadStage(c, job, n) && HardReset !in scr && BmStop !in scr && BmStart !in scr
    ensures GoesOn(c, scr) && c.transferMode && c.info == job.info && ProperInfo(job.info) && InBlock(c)
    ensures c.state == Start ==> n == 0 && ((BmPending !in scr && BmAck !in scr) ==> Requested(c, scr) == c)
    ensures c.state == Start || ReadState(c.state)
  {
    hide ProperInfo;
  }

  /** One poll, with what it does to the state, and to memory and the card. */
  method CalmProcess(d: Drive, scr: Scr, x: Inputs, ghost job: Job, ghost got: seq<seq<byte>>, ghost whole: bool)
    returns (after: Scr, ghost p: Place)
    requires Reading(d, job, got, whole) && Calm(Poll(scr, x), d.sdDiskInfo[d.sdCurrentDisk], Index(d), job)
    requires d.ctl.state == Start ==> BmPending !in scr && BmAck !in scr
    modifies d, d.sd
    ensures d.Valid() && d.Mapped() && AllCorrect(d.log) && InBlock(d.ctl) && d.sdMode && old(d.log) <= d.log
    ensures d.sdDiskInfo == old(d.sdDiskInfo) && d.sdCurrentDisk == old(d.sdCurrentDisk) && d.spindle.headTrack == old(d.spindle.headTrack)
    ensures var r := Request(true, old(d.blockReady), old(d.blockValid));
      d.ctl == StepControl(Requested(old(d.ctl), scr), r) && d.ctl == Polled(old(d.ctl), old(d.spindle), scr, x, r) &&
      after == PolledScr(old(d.ctl), old(d.spindle), scr, x, r)
    ensures Stepped(Requested(old(d.ctl), scr), p, old(d.Snap()), d.Snap())
    ensures old(d.ctl.state) == Start ==> Requested(old(d.ctl), scr) == old(d.ctl) && p == PlaceOf(job, x.locked)
  {
    hide d.Valid, Located, TrackHeadBlock, Requested, StepControl, Polled, PolledScr, PolledSpindle, InTables,
      AllCorrect, Holds, AreSectors, InBlock, ProperInfo, Stepped, ReadStage;
    d.ValidIs();
    ghost var index := Index(d);
    StagePolls(d.ctl, job, |got|, scr, x);
    QuietSpindle(d.spindle, scr, x);
    QuietPoll(d.ctl, d.spindle, scr, x, Request(true, d.blockReady, d.blockValid));
    if d.ctl.state == Start { LocatedPlace(d, x, index, job); }
    p := d.PlaceFor(x, index, d.ctl.info, Requested(d.ctl, scr).state == BlockWrite);
    hide d.Tables;
    after := d.Process(scr, x);
    d.ValidIs();
  }

  /** The drive goes on with the other block of the track, or stops. */
  predicate BlockEnded(before: Control, c: Control) {
    if before.fullTrackTransfer then c.state == Start && c.bmRunning && c.startingBlock == !before.startingBlock else !c.bmRunning
  }

  /** How a poll moves a read on. */
  lemma {:induction false} StageMoves(c: Control, job: Job, n: nat, p: Spindle, scr: Scr, x: Inputs, r: Request)
    requires ReadStage(c, job, n) && ReadState(c.state) && HardReset !in scr && BmStop !in scr && BmStart !in scr
    requires InBlock(Polled(c, p, scr, x, r))
    ensures var d, c1 := Polled(c, p, scr, x, r), Requested(c, scr);
      if EndsRead(c, scr) then
        n == DataSectors(job.info) && c1.state == NextBlock && BlockEnded(c, d)
      else if CopiesOut(c, scr) then
        ReadStage(d, job, n + 1) && d.state == Idle && d.startingBlock == c.startingBlock && c1.state == SectorRead && c1.currentSector == n < DATA_SECTORS && c1.info == job.info
      else
        ReadStage(d, job, n) && ReadState(d.state) && d.startingBlock == c.startingBlock && (c1.state == BlockReadWait || c1.state == Idle) &&
        (d.state == BlockReadWait ==> c.state == BlockReadWait) && (c.state == BlockReadWait && r.ready ==> d.state != BlockReadWait)
  {
    ReadMoves(c, p, scr, x, r);
    ReadRequests(c, scr);
    hide Polled, Requested;
  }

  /** The poll that reads the block. */
  method FirstPoll(d: Drive, scr: Scr, x: Inputs, ghost job: Job, ghost whole: bool) returns (ghost note: PollNote)
    requires Reading(d, job, [], whole) && Calm(Poll(scr, x), d.sdDiskInfo[d.sdCurrentDisk], Index(d), job)
    requires d.ctl.state == Start && BmPending !in scr && BmAck !in scr
    modifies d, d.sd
    ensures Reading(d, job, [], d.blockValid) && d.ctl.state == BlockReadWait && d.sd.card == old(d.sd.card)
    ensures d.sd.faults >= old(d.sd.faults) && (d.blockValid <==> Reported(job, x.locked, old(d.sd.faults), d.sd.faults))
    ensures Index(d) == old(Index(d)) && SameDisk(d, old(d.sdDiskInfo), old(d.sdCurrentDisk))
    ensures note.state == Start && note.scr == scr && !Raises(note, TransferData) && !Raises(note, MicroError) && !Raises(note, TransferC2)
  {
    hide d.Valid, Located, TrackHeadBlock, Requested, StepControl, Polled, PolledScr, InTables, AllCorrect, Holds,
      ReadRequested, InBlock, ProperInfo, Raises;
    d.ValidIs();
    ghost var c, a, r := d.ctl, d.Snap(), Request(true, d.blockReady, d.blockValid);
    StagePolls(c, job, 0, scr, x);
    StartStep(c, r);
    ReadSays(c, d.spindle, scr, x, r);
    ghost var p;
    var after;
    after, p := CalmProcess(d, scr, x, job, [], whole);
    note := PollNote(c.state, scr, after);
    ReadStarts(a, d.Snap(), job, x.locked);
    ReadyAfter(PlaceOf(job, x.locked), a, d.Snap());
    if d.blockValid { CardHolds(d, job); }
  }

  lemma {:induction false} ReadyAfter(p: Place, a: Store, b: Store)
    requires ReadRequested(p, a, b) && p.sdMode
    ensures b.blockReady
  {
  }

  /** A block that was read is on the card. */
  lemma {:induction false} CardHolds(d: Drive, job: Job)
    requires d.Valid() && Holds(d.session, job, [])
    ensures AreSectors(d.sd.card, job, [])
  {
    hide HasImage, Buffered, Overlaid, Proper, InBlock, AllCorrect, d.Mapped;
    ImageIs(d.sd.card, job.table, d.session.value.image);
  }

  /** A poll that hands out a sector. */
  method CopyOutPoll(d: Drive, scr: Scr, x: Inputs, ghost job: Job, ghost got: seq<seq<byte>>, ghost whole: bool)
    returns (ghost data: seq<byte>, ghost note: PollNote)
    requires Reading(d, job, got, whole) && Calm(Poll(scr, x), d.sdDiskInfo[d.sdCurrentDisk], Index(d), job)
    requires ReadState(d.ctl.state) && CopiesOut(d.ctl, scr) && !EndsRead(d.ctl, scr)
    modifies d, d.sd
    ensures |d.sd.mem| == ADDRESSES && Length(job.info) <= SECTOR_MAX_SIZE && data == SectorBuffer(d.sd.mem)[..Length(job.info)]
    ensures Reading(d, job, got + [data], whole) && d.ctl.state == Idle && d.sd.card == old(d.sd.card) && d.sd.faults == old(d.sd.faults)
    ensures Index(d) == old(Index(d)) && SameDisk(d, old(d.sdDiskInfo), old(d.sdCurrentDisk))
    ensures NoteOf(note, old(d.ctl.state), scr, whole, |got| == DataSectors(job.info))
  {
    hide d.Valid, Located, TrackHeadBlock, Requested, StepControl, Polled, PolledScr, InTables, AllCorrect, Holds,
      InBlock, ProperInfo, CopiedOut, AreSectors, SectorBuffer, Raises, EndsRead, CopiesOut;
    d.ValidIs();
    ghost var c, a, r := d.ctl, d.Snap(), Request(true, d.blockReady, d.blockValid);
    StagePolls(c, job, |got|, scr, x);
    ReadSays(c, d.spindle, scr, x, r);
    ghost var p;
    var after;
    after, p := CalmProcess(d, scr, x, job, got, whole);
    note := PollNote(c.state, scr, after);
    StageMoves(c, job, |got|, old(d.spindle), scr, x, r);
    OutOfBuffer(Requested(c, scr), a, d.Snap(), job);
    data := SectorBuffer(d.sd.mem)[..Length(job.info)];
    if whole { HandedOut(Requested(c, scr), a, d.Snap(), job, got); }
  }

  lemma {:induction false} OutOfBuffer(c: Control, a: Store, b: Store, job: Job)
    requires CopiedOut(c, a, b) && c.info == job.info && ProperInfo(job.info)
    ensures |b.mem| == ADDRESSES && Length(job.info) <= SECTOR_MAX_SIZE
    ensures b.card == a.card && b.session == a.session && b.faults == a.faults && b.blockReady == a.blockReady && b.blockValid == a.blockValid
  {
    hide BufferAt, Blit;
  }

  /** What a poll of a read may say. */
  ghost predicate NoteOf(note: PollNote, state: State, scr: Scr, whole: bool, complete: bool) {
    note.state == state && note.scr == scr &&
    (Raises(note, TransferData) ==> whole) && (Raises(note, MicroError) ==> !whole) && (Raises(note, TransferC2) ==> complete) &&
    (state == BlockReadWait && scr !! {BmPending, TransferData, MicroError} ==> Raises(note, if whole then TransferData else MicroError))
  }

  /** A poll that neither hands out a sector nor ends the block. */
  method WaitPoll(d: Drive, scr: Scr, x: Inputs, ghost job: Job, ghost got: seq<seq<byte>>, ghost whole: bool) returns (ghost note: PollNote)
    requires Reading(d, job, got, whole) && Calm(Poll(scr, x), d.sdDiskInfo[d.sdCurrentDisk], Index(d), job)
    requires ReadState(d.ctl.state) && !CopiesOut(d.ctl, scr) && !EndsRead(d.ctl, scr)
    modifies d, d.sd
    ensures Reading(d, job, got, whole) && d.ctl.state != Start && d.ctl.state != BlockReadWait
    ensures d.sd.card == old(d.sd.card) && d.sd.faults == old(d.sd.faults) && d.sd.mem == old(d.sd.mem)
    ensures Index(d) == old(Index(d)) && SameDisk(d, old(d.sdDiskInfo), old(d.sdCurrentDisk))
    ensures NoteOf(note, old(d.ctl.state), scr, whole, |got| == DataSectors(job.info))
  {
    hide d.Valid, Located, TrackHeadBlock, Requested, StepControl, Polled, PolledScr, InTables, AllCorrect, Holds,
      InBlock, ProperInfo, AreSectors, Raises, EndsRead, CopiesOut;
    d.ValidIs();
    ghost var c, r := d.ctl, Request(true, d.blockReady, d.blockValid);
    StagePolls(c, job, |got|, scr, x);
    ReadSays(c, d.spindle, scr, x, r);
    ghost var p;
    var after;
    after, p := CalmProcess(d, scr, x, job, got, whole);
    note := PollNote(c.state, scr, after);
    StageMoves(c, job, |got|, old(d.spindle), scr, x, r);
  }

  /** The poll with which the block ends: all its sectors have been handed out. */
  method LastPoll(d: Drive, scr: Scr, x: Inputs, ghost job: Job, ghost got: seq<seq<byte>>, ghost whole: bool) returns (ghost note: PollNote)
    requires Reading(d, job, got, whole) && Calm(Poll(scr, x), d.sdDiskInfo[d.sdCurrentDisk], Index(d), job)
    requires ReadState(d.ctl.state) && EndsRead(d.ctl, scr)
    modifies d, d.sd
    ensures d.Valid() && |got| == DataSectors(job.info) && d.sd.card == old(d.sd.card) && d.sd.faults == old(d.sd.faults)
    ensures BlockEnded(old(d.ctl), d.ctl)
    ensures NoteOf(note, old(d.ctl.state), scr, whole, true)
  {
    hide d.Valid, Located, TrackHeadBlock, Requested, StepControl, Polled, PolledScr, InTables, AllCorrect, Holds,
      InBlock, ProperInfo, AreSectors, Raises, EndsRead, CopiesOut;
    d.ValidIs();
    ghost var c, r := d.ctl, Request(true, d.blockReady, d.blockValid);
    StagePolls(c, job, |got|, scr, x);
    ReadSays(c, d.spindle, scr, x, r);
    ghost var p;
    var after;
    after, p := CalmProcess(d, scr, x, job, got, whole);
    note := PollNote(c.state, scr, after);
    StageMoves(c, job, |got|, old(d.spindle), scr, x, r);
  }

  /** A store into memory. */
  method CalmStore(d: Drive, address: nat, data: seq<byte>, ghost job: Job, ghost got: seq<seq<byte>>, ghost whole: bool)
    requires Reading(d, job, got, whole) && Calm(MemoryWrite(address, data), d.sdDiskInfo[d.sdCurrentDisk], Index(d), job)
    modifies d`session, d.sd`mem
    ensures Reading(d, job, got, whole)
  {
    hide d.Valid, Located, TrackHeadBlock, Holds, InBlock, ReadStage, AreSectors, Blit, InTables;
    d.ValidIs();
    ghost var mem, disk, index := d.sd.mem, d.sdDiskInfo[d.sdCurrentDisk], Index(d);
    d.HostWrite(address, data);
    d.ValidIs();
    if d.ctl.state == Start {
      assert |mem| == ADDRESSES by { LocatedMemory(mem, disk, index, job); }
      StoredTables(mem, d.sd.mem, address, data, disk, index, job);
      StillLocated(mem, d.sd.mem, disk, index, job);
    }
  }

  lemma {:induction false} LocatedMemory(mem: seq<byte>, disk: DiskInfo, index: nat, job: Job)
    requires Located(mem, disk, index, job)
    ensures |mem| == ADDRESSES && ProperInfo(job.info)
  {
  }

  // ---------- the whole read ----------

  /** One more poll of which the note is true. */
  lemma {:induction false} StillTruthful(notes: seq<PollNote>, note: PollNote, state: State, scr: Scr, whole: bool, was: bool, complete: bool, left: bool)
    requires Truthful(notes, whole, was, left) && NoteOf(note, state, scr, whole, complete) && (was ==> complete) && (left <==> state != BlockReadWait)
    ensures Truthful(notes + [note], whole, complete, true)
  {
    hide Says, Raises, Patient;
    OneMoreNote(notes, note, TransferData);
    OneMoreNote(notes, note, MicroError);
    OneMoreNote(notes, note, TransferC2);
  }

  /** Before the block was asked for nothing is said. */
  lemma {:induction false} FirstNote(note: PollNote, whole: bool)
    requires !Raises(note, TransferData) && !Raises(note, MicroError) && !Raises(note, TransferC2)
    ensures Truthful([note], whole, false, false) && Truthful([], whole, false, false)
  {
    hide Raises, Patient;
    OneMoreNote([], note, TransferData);
    OneMoreNote([], note, MicroError);
    OneMoreNote([], note, TransferC2);
    assert [] + [note] == [note];
  }

  /** The registers of the polls among events. */
  ghost function Polls(events: seq<Event>): seq<Scr> {
    if events == [] then [] else Polls(events[..|events| - 1]) + if events[|events| - 1].Poll? then [events[|events| - 1].scr] else []
  }

  /** One note for each poll. */
  ghost predicate NotesOf(notes: seq<PollNote>, events: seq<Event>) {
    |notes| == |Polls(events)| && forall i :: 0 <= i < |notes| ==> notes[i].scr == Polls(events)[i]
  }

  lemma {:induction false} NotesNext(notes: seq<PollNote>, events: seq<Event>, n: nat, note: PollNote)
    requires n < |events| && NotesOf(notes, events[..n])
    ensures !events[n].Poll? ==> NotesOf(notes, events[..n + 1])
    ensures events[n].Poll? && note.scr == events[n].scr ==> NotesOf(notes + [note], events[..n + 1])
  {
    assert events[..n + 1][..n] == events[..n];
  }

  ghost predicate AllCalm(events: seq<Event>, disk: DiskInfo, index: nat, job: Job) {
    forall i :: 0 <= i < |events| ==> Calm(events[i], disk, index, job)
  }

  /** The console has been told about the block. */
  predicate Past(s: State) {
    s != Start && s != BlockReadWait
  }

  /** One poll of a read that was begun; true when the block is at its end. */
  method ReadOn(d: Drive, scr: Scr, x: Inputs, ghost job: Job, ghost got: seq<seq<byte>>, ghost whole: bool)
    returns (ghost more: seq<seq<byte>>, ghost note: PollNote, done: bool)
    requires Reading(d, job, got, whole) && Calm(Poll(scr, x), d.sdDiskInfo[d.sdCurrentDisk], Index(d), job) && d.ctl.state != Start
    modifies d, d.sd
    ensures d.Valid() && d.sd.card == old(d.sd.card) && d.sd.faults == old(d.sd.faults)
    ensures whole ==> AreSectors(d.sd.card, job, more)
    ensures NoteOf(note, old(d.ctl.state), scr, whole, |more| == DataSectors(job.info)) && (|got| == DataSectors(job.info) ==> more == got)
    ensures !done ==> Reading(d, job, more, whole) && Past(d.ctl.state)
    ensures !done ==> d.spindle.headTrack < 0x2000 && Index(d) == old(Index(d)) && SameDisk(d, old(d.sdDiskInfo), old(d.sdCurrentDisk))
    ensures done ==> more == got && |got| == DataSectors(job.info) && BlockEnded(old(d.ctl), d.ctl)
  {
    hide d.Valid, Located, TrackHeadBlock, Holds, InBlock, AreSectors, Raises, EndsRead, CopiesOut, ProperInfo;
    StagePolls(d.ctl, job, |got|, scr, x);
    EndedStage(d.ctl, job, |got|, scr);
    more, done := got, EndsRead(d.ctl, scr);
    if done {
      note := LastPoll(d, scr, x, job, got, whole);
    } else if CopiesOut(d.ctl, scr) {
      ghost var data;
      data, note := CopyOutPoll(d, scr, x, job, got, whole);
      more := got + [data];
    } else {
      note := WaitPoll(d, scr, x, job, got, whole);
    }
    if !done { ReadingIs(d, job, more, whole); }
  }

  lemma {:induction false} EndedStage(c: Control, job: Job, n: nat, scr: Scr)
    requires ReadStage(c, job, n) && ReadState(c.state)
    ensures CopiesOut(c, scr) && !EndsRead(c, scr) ==> n < DataSectors(job.info)
    ensures c.state == BlockReadWait ==> n == 0
  {
  }

  /** What is known after some events of a read: what was handed out and said, and whether the block was read. */
  ghost predicate ReadSoFar(d: Drive, job: Job, got: seq<seq<byte>>, notes: seq<PollNote>, whole: bool)
    reads d, d.sd
  {
    Reading(d, job, got, whole) && Truthful(notes, whole, |got| == DataSectors(job.info), Past(d.ctl.state)) &&
    (d.ctl.state == Start <==> notes == []) && (notes == [] ==> got == [] && !whole)
  }

  /** Every SD sector of the block is there. */
  ghost predicate AllThere(table: seq<word>) {
    table != [] && FirstZero(table) == |table|
  }

  lemma {:induction false} NothingRead(d: Drive, events: seq<Event>, job: Job)
    requires Reading(d, job, [], false) && d.ctl.state == Start
    ensures NotesOf([], events[..0]) && ReadSoFar(d, job, [], [], false)
  {
    ReadingIs(d, job, [], false);
    hide Reading, Raises;
  }

  lemma {:induction false} NotPending(events: seq<Event>, n: nat)
    requires PendingLater(events) && n < |events| && forall j :: 0 <= j < n ==> !events[j].Poll?
    ensures !IsPending(events[n])
  {
  }

  lemma {:induction false} ReadingIs(d: Drive, job: Job, got: seq<seq<byte>>, whole: bool)
    requires Reading(d, job, got, whole)
    ensures d.Valid() && d.spindle.headTrack < 0x2000 && d.sdCurrentDisk < |d.sdDiskInfo| && ProperInfo(job.info) && DataSectors(job.info) > 0
    ensures d.ctl.state == Start ==> got == []
    ensures d.ctl.state != Start && whole ==> AreSectors(d.sd.card, job, got)
    ensures d.ctl.state == BlockReadWait <==> d.ctl.state != Start && !Past(d.ctl.state)
  {
    hide d.Valid, Located, AreSectors, TrackHeadBlock;
    d.ValidIs();
  }

  lemma {:induction false} SoFarIs(d: Drive, job: Job, got: seq<seq<byte>>, notes: seq<PollNote>, whole: bool)
    requires ReadSoFar(d, job, got, notes, whole)
    ensures d.Valid() && d.spindle.headTrack < 0x2000 && d.sdCurrentDisk < |d.sdDiskInfo| && DataSectors(job.info) > 0
    ensures whole ==> AreSectors(d.sd.card, job, got)
    ensures Truthful(notes, whole, |got| == DataSectors(job.info), Past(d.ctl.state)) && (d.ctl.state == Start <==> notes == [])
  {
    ReadingIs(d, job, got, whole);
    hide d.Valid, Reading, AreSectors, Truthful;
  }

  /** The first poll of a read. */
  method FirstRead(d: Drive, scr: Scr, x: Inputs, ghost job: Job, ghost got: seq<seq<byte>>, ghost whole: bool)
    returns (ghost note: PollNote, ghost whole1: bool)
    requires ReadSoFar(d, job, got, [], whole) && d.spindle.headTrack < 0x2000 && d.sdCurrentDisk < |d.sdDiskInfo|
    requires Calm(Poll(scr, x), d.sdDiskInfo[d.sdCurrentDisk], Index(d), job) && BmPending !in scr && BmAck !in scr
    modifies d, d.sd
    ensures ReadSoFar(d, job, [], [note], whole1) && d.sd.card == old(d.sd.card) && d.sd.faults >= old(d.sd.faults) && note.scr == scr
    ensures whole1 <==> Reported(job, x.locked, old(d.sd.faults), d.sd.faults)
    ensures d.spindle.headTrack < 0x2000 && Index(d) == old(Index(d)) && SameDisk(d, old(d.sdDiskInfo), old(d.sdCurrentDisk))
  {
    hide Reading, Calm, Located, AreSectors, Truthful, d.Valid, TrackHeadBlock, Reported, DataSectors, Raises;
    ReadingIs(d, job, [], whole);
    note := FirstPoll(d, scr, x, job, whole);
    whole1 := d.blockValid;
    ReadingIs(d, job, [], whole1);
    FirstNote(note, whole1);
  }

  /** Any later poll. */
  method NextRead(d: Drive, scr: Scr, x: Inputs, ghost job: Job, ghost got: seq<seq<byte>>, ghost notes: seq<PollNote>, ghost whole: bool)
    returns (done: bool, ghost more: seq<seq<byte>>, ghost note: PollNote)
    requires ReadSoFar(d, job, got, notes, whole) && notes != [] && d.spindle.headTrack < 0x2000 && d.sdCurrentDisk < |d.sdDiskInfo|
    requires Calm(Poll(scr, x), d.sdDiskInfo[d.sdCurrentDisk], Index(d), job)
    modifies d, d.sd
    ensures d.Valid() && d.sd.card == old(d.sd.card) && d.sd.faults == old(d.sd.faults) && note.scr == scr
    ensures !done ==> ReadSoFar(d, job, more, notes + [note], whole)
    ensures !done ==> d.spindle.headTrack < 0x2000 && Index(d) == old(Index(d)) && SameDisk(d, old(d.sdDiskInfo), old(d.sdCurrentDisk))
    ensures done ==> |more| == DataSectors(job.info) && (!d.ctl.bmRunning || d.ctl.state == Start)
    ensures done ==> Truthful(notes + [note], whole, true, true) && (whole ==> AreSectors(d.sd.card, job, more))
  {
    hide Reading, Calm, Located, AreSectors, Truthful, d.Valid, TrackHeadBlock, DataSectors, Raises;
    ReadingIs(d, job, got, whole);
    ghost var state := d.ctl.state;
    more, note, done := ReadOn(d, scr, x, job, got, whole);
    StillTruthful(notes, note, state, scr, whole, |got| == DataSectors(job.info), |more| == DataSectors(job.info), Past(state));
  }

  method StoreRead(d: Drive, address: nat, data: seq<byte>, ghost job: Job, ghost got: seq<seq<byte>>, ghost notes: seq<PollNote>, ghost whole: bool)
    requires ReadSoFar(d, job, got, notes, whole) && d.spindle.headTrack < 0x2000 && d.sdCurrentDisk < |d.sdDiskInfo|
    requires Calm(MemoryWrite(address, data), d.sdDiskInfo[d.sdCurrentDisk], Index(d), job)
    modifies d`session, d.sd`mem
    ensures ReadSoFar(d, job, got, notes, whole)
  {
    hide Reading, Calm, Truthful, DataSectors, TrackHeadBlock;
    CalmStore(d, address, data, job, got, whole);
  }

  /** From the start of a block on, until it ends or the events do. */
  method Read(d: Drive, events: seq<Event>, ghost job: Job)
    returns (n: nat, done: bool, ghost got: seq<seq<byte>>, ghost notes: seq<PollNote>, ghost whole: bool)
    requires Reading(d, job, [], false) && d.ctl.state == Start
    requires AllCalm(events, d.sdDiskInfo[d.sdCurrentDisk], Index(d), job) && PendingLater(events)
    modifies d, d.sd
    ensures n <= |events| && (!done ==> n == |events|) && d.Valid() && d.sd.card == old(d.sd.card)
    ensures NotesOf(notes, events[..n]) && Truthful(notes, whole, |got| == DataSectors(job.info), done || Past(d.ctl.state))
    ensures whole ==> AreSectors(d.sd.card, job, got) && AllThere(job.table) && d.sd.faults == old(d.sd.faults)
    ensures notes != [] && AllLocked(events) && AllThere(job.table) && d.sd.faults == old(d.sd.faults) ==> whole
    ensures done ==> |got| == DataSectors(job.info) && (!d.ctl.bmRunning || d.ctl.state == Start)
  {
    hide Reading, ReadSoFar, Calm, Located, AreSectors, NotesOf, Truthful, FirstZero, d.Valid, Polls, TrackHeadBlock, DataSectors;
    got, notes, whole := [], [], false;
    NothingRead(d, events, job);
    SoFarIs(d, job, got, notes, whole);
    ghost var disk, index := d.sdDiskInfo[d.sdCurrentDisk], Index(d);
    n, done := 0, false;
    while n < |events| && !done
      invariant n <= |events| && d.Valid() && d.sd.card == old(d.sd.card) && d.sd.faults >= old(d.sd.faults)
      invariant NotesOf(notes, events[..n]) && (!done ==> ReadSoFar(d, job, got, notes, whole))
      invariant done ==> notes != [] && Truthful(notes, whole, true, true) && |got| == DataSectors(job.info)
      invariant done ==> !d.ctl.bmRunning || d.ctl.state == Start
      invariant !done ==> d.spindle.headTrack < 0x2000 && d.sdCurrentDisk < |d.sdDiskInfo| && (d.ctl.state == Start <==> notes == [])
      invariant !done ==> d.sdDiskInfo[d.sdCurrentDisk] == disk && Index(d) == index
      invariant notes == [] ==> !whole && d.sd.faults == old(d.sd.faults) && forall j :: 0 <= j < n ==> !events[j].Poll?
      invariant whole ==> AreSectors(d.sd.card, job, got) && AllThere(job.table) && d.sd.faults == old(d.sd.faults)
      invariant notes != [] && AllLocked(events) && AllThere(job.table) && d.sd.faults == old(d.sd.faults) ==> whole
      decreases |events| - n, if done then 0 else 1
    {
      NotesNext(notes, events, n, PollNote(Start, {}, {}));
      match events[n] {
        case Poll(scr, x) =>
          ghost var note;
          if d.ctl.state == Start {
            NotPending(events, n);
            note, whole := FirstRead(d, scr, x, job, got, whole);
            got := [];
            assert notes + [note] == [note];
          } else {
            done, got, note := NextRead(d, scr, x, job, got, notes, whole);
          }
          NotesNext(notes, events, n, note);
          notes := notes + [note];
        case MemoryWrite(address, data) =>
          StoreRead(d, address, data, job, got, notes, whole);
        case _ =>
      }
      if !done { SoFarIs(d, job, got, notes, whole); }
      n := n + 1;
    }
    if !done { SoFarIs(d, job, got, notes, whole); }
  }

  // ---------- what that means for the disk image ----------

  /**
   Each sector was handed out as the image has it where the engine looks for it; with an even start and an even length
   that is the sectors of the block, end to end from where it starts.
   */
  ghost predicate ImageRead(disk: seq<word>, job: Job, got: seq<seq<byte>>, card: seq<byte>) {
    OnCard(card, disk, |disk|) && forall k :: 0 <= k < |got| ==> SectorIsRead(disk, job, k, got[k], card)
  }

  ghost predicate SectorIsRead(disk: seq<word>, job: Job, k: nat, data: seq<byte>, card: seq<byte>)
    requires OnCard(card, disk, |disk|)
  {
    var at, n := SectorPlace(job.start, Length(job.info), k), Length(job.info);
    at + n <= |disk| * SECTOR_SIZE && data == ImageOf(card, disk)[at..at + n] &&
    (job.start % 2 == 0 && n % 2 == 0 ==> at == job.start + SectorsLength(k, n))
  }

  lemma {:induction false} PlaceInImage(job: Job, k: nat)
    ensures var n, base := Length(job.info), job.start / SECTOR_SIZE * SECTOR_SIZE;
      SectorPlace(job.start, n, k) == base + SectorPlace(job.start % SECTOR_SIZE, n, k) &&
      (job.start % 2 == 0 && n % 2 == 0 ==> SectorPlace(job.start, n, k) == job.start + SectorsLength(k, n))
  {
    BaseOf(job.start);
    EvenSectors(job.start / SECTOR_SIZE);
    if Length(job.info) % 2 == 0 { EvenProduct(k, Length(job.info)); }
    EvenShift(job.start / SECTOR_SIZE * SECTOR_SIZE, job.start % SECTOR_SIZE + SectorsLength(k, Length(job.info)));
    hide SectorsLength, Length;
  }

  lemma {:induction false} EvenShift(base: nat, n: nat)
    requires base % 2 == 0
    ensures Even(base + n) == base + Even(n)
  {
  }

  lemma {:induction false} EvenProduct(k: nat, n: nat)
    requires n % 2 == 0
    ensures SectorsLength(k, n) % 2 == 0
  {
    var half := n / 2;
    assert k * n == 2 * (k * half);
  }

  lemma {:induction false} OneSectorRead(disk: seq<word>, job: Job, k: nat, data: seq<byte>, card: seq<byte>)
    requires OnDisk(job, disk) && OnCard(card, disk, |disk|) && IsSector(card, job, k, data)
    ensures SectorIsRead(disk, job, k, data, card)
  {
    PlaceInImage(job, k);
    hide SectorPlace, SectorsLength, DistinctSectors, ImageOf, OnCard, Length;
    var first, n := job.start / SECTOR_SIZE, Length(job.info);
    var base, at := first * SECTOR_SIZE, SectorPlace(job.start % SECTOR_SIZE, n, k);
    var a, b := ImageOf(card, job.table)[at..at + n], ImageOf(card, disk)[base + at..base + at + n];
    forall i | 0 <= i < n
      ensures a[i] == b[i]
    {
      Stretch(card, disk, first, job.table, base + at + i);
    }
    assert a == b;
  }

  lemma {:induction false} SectorsRead(disk: seq<word>, job: Job, got: seq<seq<byte>>, card: seq<byte>)
    requires OnDisk(job, disk) && OnCard(card, disk, |disk|) && AreSectors(card, job, got)
    ensures ImageRead(disk, job, got, card)
  {
    hide OnDisk, OnCard, IsSector, SectorIsRead;
    forall k | 0 <= k < |got|
      ensures SectorIsRead(disk, job, k, got[k], card)
    {
      OneSectorRead(disk, job, k, got[k], card);
    }
  }

  /** The bit that starts a read, without the bits that stop it again. */
  ghost predicate StartsRead(scr: Scr, x: Inputs) {
    ProperInfo(x.info) && BmStart in scr && HardReset !in scr && BmStop !in scr && TransferMode in scr &&
    (CmdPending in scr ==> x.cmd != SEEK_READ && x.cmd != SEEK_WRITE)
  }

  /** The poll that sees the start bit. */
  method BeginRead(d: Drive, scr: Scr, x: Inputs, ghost job: Job)
    requires d.Valid() && d.sdMode && d.sd.cardInitialized && d.sd.InLimits(job.table) && StartsRead(scr, x) && job.info == x.info
    requires Located(d.sd.mem, d.sdDiskInfo[d.sdCurrentDisk], TrackHeadBlock(d.spindle.headTrack, StartsAt(x.info)), job)
    modifies d, d.sd
    ensures Reading(d, job, [], false) && d.ctl.state == Start && d.sd.card == old(d.sd.card) && d.sd.faults == old(d.sd.faults)
    ensures d.spindle.headTrack < 0x2000 && d.sdCurrentDisk < |d.sdDiskInfo|
    ensures Index(d) == TrackHeadBlock(old(d.spindle.headTrack), StartsAt(x.info)) && SameDisk(d, old(d.sdDiskInfo), old(d.sdCurrentDisk))
  {
    hide d.Valid, Located, TrackHeadBlock, ProperInfo, InBlock, Requested, Stepped, Told, AllCorrect, GoesOn;
    d.ValidIs();
    QuietSpindle(d.spindle, scr, x);
    StartAndStop(d.ctl, d.spindle, scr, x, Request(d.sdMode || x.queued, d.blockReady, d.blockValid));
    hide Polled, PolledScr, PolledSpindle;
    var after := d.Process(scr, x);
    d.ValidIs();
  }

  /**
   Whatever the console, the host and the drive do between the start bit and the end of the block: if the lock was had and
   the card did not fail, the console gets the sectors of the disk image in order, all of them before the block ends, and is
   told that the data is valid; otherwise it is told of an error, and never that the data is valid.
   */
  method ReadBlock(d: Drive, scr: Scr, x: Inputs, events: seq<Event>, ghost job: Job, ghost disk: seq<word>)
    returns (n: nat, done: bool, ghost got: seq<seq<byte>>, ghost notes: seq<PollNote>, ghost whole: bool)
    requires d.Valid() && d.sdMode && d.sd.cardInitialized && d.sd.InLimits(job.table) && StartsRead(scr, x) && job.info == x.info
    requires Located(d.sd.mem, d.sdDiskInfo[d.sdCurrentDisk], TrackHeadBlock(d.spindle.headTrack, StartsAt(x.info)), job)
    requires AllCalm(events, d.sdDiskInfo[d.sdCurrentDisk], TrackHeadBlock(d.spindle.headTrack, StartsAt(x.info)), job) && PendingLater(events)
    requires OnDisk(job, disk) && OnCard(d.sd.card, disk, |disk|)
    modifies d, d.sd
    ensures n <= |events| && (!done ==> n == |events|) && d.Valid() && d.sd.card == old(d.sd.card) && NotesOf(notes, events[..n])
    ensures done ==> |got| == DataSectors(job.info) && (!d.ctl.bmRunning || d.ctl.state == Start)
    ensures whole ==> ImageRead(disk, job, got, d.sd.card)
    ensures whole ==> d.sd.faults == old(d.sd.faults)
    ensures notes != [] && AllLocked(events) && d.sd.faults == old(d.sd.faults) ==> whole
    ensures Says(notes, TransferData) ==> whole
    ensures Says(notes, MicroError) ==> !whole
    ensures Says(notes, TransferC2) ==> |got| == DataSectors(job.info)
    ensures Patient(notes) && (done || Past(d.ctl.state)) ==> Says(notes, if whole then TransferData else MicroError)
  {
    hide Reading, Located, d.Valid, AreSectors, NotesOf, Calm, IsPending, TrackHeadBlock, DataSectors, OnDisk, OnCard, Says, Patient, ImageRead,
      StartsRead, ProperInfo, AllLocked;
    d.ValidIs();
    BlockIsThere(d.sd.mem, d.sdDiskInfo[d.sdCurrentDisk], TrackHeadBlock(d.spindle.headTrack, StartsAt(x.info)), job, disk);
    BeginRead(d, scr, x, job);
    n, done, got, notes, whole := Read(d, events, job);
    if whole { SectorsRead(disk, job, got, d.sd.card); }
  }

  lemma {:induction false} BlockIsThere(mem: seq<byte>, info: DiskInfo, index: nat, job: Job, disk: seq<word>)
    requires Located(mem, info, index, job) && OnDisk(job, disk)
    ensures AllThere(job.table)
  {
    SpanHolds(job.start, BlockLength(job.info));
    LengthIs(job.info);
    hide BlockStart, BlockLength, SectorSpan, OnDisk;
    OnDiskIsGood(job, disk);
  }
}
