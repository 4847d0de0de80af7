/**
 The control part of the 64DD emulation in sw/controller/src/dd.c: what one poll of dd_process does to
 the drive's state, apart from memory and the SD card.
 */
module DriveControl {
  import opened Bytes

  const SECTOR_MAX_SIZE := 232
  const DATA_SECTORS := 85

  datatype State = Idle | Start | BlockReadWait | SectorRead | SectorWrite | BlockWrite | BlockWriteWait | NextBlock

  datatype SectorInfo = SectorInfo(sectorNum: byte, sectorSize: byte, sectorsInBlock: byte)

  /** What the drive hardware asks for: disk sectors of at most 232 bytes, at most 85 of them with data. */
  predicate ProperInfo(info: SectorInfo) {
    info.sectorSize < SECTOR_MAX_SIZE && 5 <= info.sectorsInBlock <= DATA_SECTORS + 4
  }

  function Length(info: SectorInfo): (n: nat)
    ensures 0 < n
  {
    info.sectorSize + 1
  }

  function DataSectors(info: SectorInfo): int { info.sectorsInBlock - 4 }

  // ---------- the control part of a poll ----------

  /** The bits of the status and control register that dd_process reads or writes. */
  datatype Bit =
    HardReset | HardResetClear | DiskChanged | CmdPending | CmdReady | BmStart | BmStartClear | BmStop | BmStopClear |
    BmPending | BmClear | BmAck | BmAckClear | BmReady | TransferMode | TransferBlocks | TransferData | TransferC2 | MicroError

  /** The bits that are set. */
  type Scr = set<Bit>

  /** What else a poll sees: the command registers, the timer, the sector registers, the SD lock and the USB queue. */
  datatype Inputs = Inputs(cmd: byte, data: nat, elapsed: bool, info: SectorInfo, locked: bool, queued: bool)

  /** How a block request went: whether it was taken, and the block flags it left. */
  datatype Request = Request(accepted: bool, ready: bool, valid: bool)

  datatype Control = Control(state: State, currentSector: nat, bmRunning: bool, transferMode: bool, fullTrackTransfer: bool,
                             startingBlock: bool, info: SectorInfo)

  /** The head, and the seek command that is waiting for its answer. */
  datatype Spindle = Spindle(headTrack: nat, cmdResponseDelayed: bool, diskSpinning: bool)

  const SEEK_READ := 0x01
  const SEEK_WRITE := 0x02
  const CLEAR_DISK_CHANGE := 0x08
  const CLEAR_RESET_STATE := 0x09

  function CommandSpindle(p: Spindle, x: Inputs): Spindle {
    if p.cmdResponseDelayed then p.(cmdResponseDelayed := !x.elapsed)
    else if x.cmd == SEEK_READ || x.cmd == SEEK_WRITE then Spindle(x.data % 0x2000, true, true)
    else p
  }

  function CommandScr(p: Spindle, scr: Scr, x: Inputs): Scr {
    if p.cmdResponseDelayed then if x.elapsed then scr + {CmdReady} else scr
    else if x.cmd == SEEK_READ || x.cmd == SEEK_WRITE then scr
    else if x.cmd == CLEAR_DISK_CHANGE then scr - {DiskChanged} + {CmdReady}
    else if x.cmd == CLEAR_RESET_STATE then scr - {DiskChanged} + {HardResetClear, CmdReady}
    else scr + {CmdReady}
  }

  /** The head after as many polls as there are inputs, all with the command still pending. */
  function Seeking(p: Spindle, polls: seq<Inputs>): Spindle {
    if polls == [] then p else CommandSpindle(Seeking(p, polls[..|polls| - 1]), polls[|polls| - 1])
  }

  /** A seek moves the head at once, and is answered by the first later poll that finds the time is up, by no other. */
  lemma {:induction false} SeekAnswered(p: Spindle, polls: seq<Inputs>, k: nat, scr: Scr)
    requires !p.cmdResponseDelayed && k < |polls| && (polls[0].cmd == SEEK_READ || polls[0].cmd == SEEK_WRITE) && CmdReady !in scr
    requires forall i :: 0 < i < k ==> !polls[i].elapsed
    ensures k > 0 ==> Seeking(p, polls[..k]) == Spindle(polls[0].data % 0x2000, true, true)
    ensures CmdReady in CommandScr(Seeking(p, polls[..k]), scr, polls[k]) <==> k > 0 && polls[k].elapsed
  {
    if k > 0 {
      SeekAnswered(p, polls, k - 1, scr);
      assert polls[..k][..k - 1] == polls[..k - 1];
    }
  }

  function StartControl(c: Control, scr: Scr, x: Inputs): Control {
    c.(state := Start, bmRunning := true, transferMode := TransferMode in scr, fullTrackTransfer := TransferBlocks in scr,
       info := x.info, startingBlock := x.info.sectorNum == x.info.sectorsInBlock + 1)
  }

  function PendingControl(c: Control): Control {
    if c.currentSector < DataSectors(c.info) then c.(state := if c.transferMode then SectorRead else SectorWrite)
    else if !c.transferMode then c
    else if c.currentSector == DataSectors(c.info) then c.(currentSector := c.currentSector + 1)
    else if c.currentSector >= c.info.sectorsInBlock then c.(state := NextBlock)
    else c
  }

  function PendingScr(c: Control, scr: Scr): Scr {
    if c.transferMode && c.currentSector == DataSectors(c.info) then scr + {BmClear, BmReady} - {TransferData} else scr + {BmClear}
  }

  function AckControl(c: Control): Control {
    if !c.transferMode then if c.currentSector == DataSectors(c.info) then c.(bmRunning := false) else c
    else if DataSectors(c.info) < c.currentSector <= c.info.sectorsInBlock then c.(currentSector := c.currentSector + 1)
    else c
  }

  function AckScr(c: Control, scr: Scr): Scr {
    if !c.transferMode || c.currentSector <= DataSectors(c.info) || c.info.sectorsInBlock < c.currentSector then scr + {BmAckClear}
    else if c.currentSector < c.info.sectorsInBlock then scr + {BmAckClear, BmReady}
    else scr + {BmAckClear, TransferC2, BmReady}
  }

  /** The switch over the states. */
  function StepControl(c: Control, r: Request): Control {
    match c.state
    case Idle => c
    case Start => c.(currentSector := 0, state := if r.accepted then BlockReadWait else Start)
    case BlockReadWait => if r.ready then c.(state := if c.transferMode then SectorRead else Idle) else c
    case SectorRead => c.(state := Idle, currentSector := c.currentSector + 1)
    case SectorWrite =>
      c.(currentSector := c.currentSector + 1, state := if c.currentSector + 1 < DataSectors(c.info) then Idle else BlockWrite)
    case BlockWrite => if r.accepted then c.(state := BlockWriteWait) else c
    case BlockWriteWait => if r.ready then c.(state := NextBlock) else c
    case NextBlock =>
      if c.fullTrackTransfer then c.(state := Start, fullTrackTransfer := false, startingBlock := !c.startingBlock)
      else if c.transferMode then c.(bmRunning := false)
      else c.(state := Idle)
  }

  function StepScr(c: Control, scr: Scr, r: Request): Scr {
    match c.state
    case BlockReadWait =>
      var done := scr + {if r.valid then TransferData else MicroError};
      if !r.ready then scr else if c.transferMode then done else done + {BmReady}
    case SectorRead => scr + {BmReady}
    case SectorWrite => if c.currentSector + 1 < DataSectors(c.info) then scr + {BmReady} else scr
    case NextBlock =>
      if c.fullTrackTransfer then scr - {TransferC2}
      else if c.transferMode then scr
      else scr - {TransferC2, TransferData} + {BmReady}
    case _ => scr
  }

  lemma {:induction false} StepScrCases(c: Control, scr: Scr, r: Request)
    ensures c.state == Idle ==> StepControl(c, r) == c
    ensures c.state in {Idle, Start, BlockWrite, BlockWriteWait} ==> StepScr(c, scr, r) == scr
    ensures c.state == SectorRead ==> StepScr(c, scr, r) == scr + {BmReady}
    ensures c.state == SectorWrite ==> StepScr(c, scr, r) == if StepControl(c, r).state == Idle then scr + {BmReady} else scr
  {
  }

  /** The state the switch sees, and the one it leaves. */
  function Requested(c: Control, scr: Scr): Control {
    var c1 := if BmPending in scr then PendingControl(c) else c;
    if BmAck in scr then AckControl(c1) else c1
  }

  function Prepared(c: Control, scr: Scr): Control {
    if HardReset in scr then c.(state := Idle, bmRunning := false) else c
  }

  function Polled(c: Control, p: Spindle, scr: Scr, x: Inputs, r: Request): Control {
    var c1, scr1 := Prepared(c, scr), PreparedScr(p, scr, x);
    if BmStop in scr1 then c1.(bmRunning := false)
    else if BmStart in scr1 then StartControl(c1, scr1, x)
    else if c1.bmRunning then StepControl(Requested(c1, scr1), r)
    else c1
  }

  function RequestedScr(c: Control, scr: Scr): Scr {
    var c1, scr1 := if BmPending in scr then PendingControl(c) else c, if BmPending in scr then PendingScr(c, scr) else scr;
    if BmAck in scr then AckScr(c1, scr1) else scr1
  }

  /** The registers after the hard reset and command parts of a poll. */
  function PreparedScr(p: Spindle, scr: Scr, x: Inputs): Scr {
    var scr1 := if HardReset in scr then scr - {DiskChanged} else scr;
    if CmdPending in scr then CommandScr(PreparedSpindle(p, scr), scr1, x) else scr1
  }

  /** The bits that only hardware sets are still what the poll began with. */
  lemma {:induction false} PreparedBits(p: Spindle, scr: Scr, x: Inputs, b: Bit)
    requires b in {BmStart, BmStop, BmPending, BmAck, TransferMode, TransferBlocks}
    ensures b in PreparedScr(p, scr, x) <==> b in scr
  {
  }

  lemma {:induction false} PreparedRequested(c: Control, p: Spindle, scr: Scr, x: Inputs)
    ensures HardReset in scr ==> !Prepared(c, scr).bmRunning
    ensures HardReset !in scr ==> Prepared(c, scr) == c && Requested(c, PreparedScr(p, scr, x)) == Requested(c, scr)
  {
    hide PendingControl, AckControl;
    PreparedBits(p, scr, x, BmPending);
    PreparedBits(p, scr, x, BmAck);
  }

  /** What the register holds at the end of a poll. */
  function PolledScr(c: Control, p: Spindle, scr: Scr, x: Inputs, r: Request): Scr {
    var c1, scr1 := Prepared(c, scr), PreparedScr(p, scr, x);
    if BmStop in scr1 then scr1 + {BmStopClear} - {MicroError, TransferC2, TransferData}
    else if BmStart in scr1 then scr1 + {BmClear, BmAckClear, BmStartClear} - {MicroError, TransferC2, TransferData}
    else if c1.bmRunning then StepScr(Requested(c1, scr1), RequestedScr(c1, scr1), r)
    else scr1
  }

  function PreparedSpindle(p: Spindle, scr: Scr): Spindle {
    if HardReset in scr then Spindle(0, false, false) else p
  }

  function PolledSpindle(p: Spindle, scr: Scr, x: Inputs): Spindle {
    var p1 := PreparedSpindle(p, scr);
    if CmdPending in scr then CommandSpindle(p1, x) else p1
  }

  /** Sectors are only copied while the block has data sectors left. */
  ghost predicate InBlock(c: Control) {
    c.currentSector <= DATA_SECTORS + 5 &&
    (ProperInfo(c.info) || (c.state == Idle && !c.bmRunning)) &&
    (c.state == BlockReadWait ==> c.currentSector == 0) &&
    (c.state == SectorRead ==> c.transferMode) && (c.state == SectorWrite ==> !c.transferMode) &&
    (c.state == SectorRead || c.state == SectorWrite ==> c.currentSector < DataSectors(c.info)) &&
    (c.state == BlockWrite ==> !c.transferMode && c.currentSector >= DataSectors(c.info))
  }

  lemma {:induction false} PreparedStays(c: Control, scr: Scr)
    requires InBlock(c)
    ensures InBlock(Prepared(c, scr))
  {
  }

  lemma {:induction false} PendingStays(c: Control)
    requires InBlock(c) && ProperInfo(c.info)
    ensures InBlock(PendingControl(c)) && PendingControl(c).info == c.info
  {
  }

  lemma {:induction false} AckStays(c: Control)
    requires InBlock(c) && ProperInfo(c.info)
    ensures InBlock(AckControl(c)) && AckControl(c).info == c.info
  {
  }

  lemma {:induction false} RequestedStays(c: Control, scr: Scr)
    requires InBlock(c) && ProperInfo(c.info)
    ensures InBlock(Requested(c, scr)) && ProperInfo(Requested(c, scr).info)
  {
    hide InBlock, PendingControl, AckControl, ProperInfo;
    PendingStays(c);
    AckStays(c);
    AckStays(PendingControl(c));
  }

  lemma {:induction false} RequestedKeeps(c: Control, scr: Scr)
    ensures Requested(c, scr).info == c.info && Requested(c, scr).startingBlock == c.startingBlock &&
      Requested(c, scr).transferMode == c.transferMode && Requested(c, scr).fullTrackTransfer == c.fullTrackTransfer
  {
  }

  lemma {:induction false} StepStays(c: Control, r: Request)
    requires InBlock(c) && ProperInfo(c.info)
    ensures InBlock(StepControl(c, r))
  {
  }

  lemma {:induction false} StartStep(c: Control, r: Request)
    requires InBlock(c) && c.state == Start
    ensures ProperInfo(c.info)
    ensures StepControl(c, r) == c.(currentSector := 0, state := if r.accepted then BlockReadWait else Start)
    ensures InBlock(StepControl(c, r))
  {
    StepStays(c, r);
  }

  lemma {:induction false} ReadStep(c: Control, r: Request)
    requires InBlock(c) && c.state == SectorRead
    ensures ProperInfo(c.info) && c.transferMode && c.currentSector < DataSectors(c.info) <= DATA_SECTORS
    ensures StepControl(c, r) == c.(state := Idle, currentSector := c.currentSector + 1)
    ensures InBlock(StepControl(c, r))
  {
    StepStays(c, r);
  }

  lemma {:induction false} WriteStep(c: Control, r: Request)
    requires InBlock(c) && c.state == SectorWrite
    ensures ProperInfo(c.info) && !c.transferMode && c.currentSector < DataSectors(c.info) <= DATA_SECTORS
    ensures StepControl(c, r) ==
      c.(state := if c.currentSector + 1 < DataSectors(c.info) then Idle else BlockWrite, currentSector := c.currentSector + 1)
    ensures InBlock(StepControl(c, r))
  {
    StepStays(c, r);
  }

  lemma {:induction false} RunningIsProper(c: Control)
    requires InBlock(c) && c.bmRunning
    ensures ProperInfo(c.info)
  {
  }

  lemma {:induction false} BlockWriteStep(c: Control, r: Request)
    requires InBlock(c) && c.state == BlockWrite && ProperInfo(c.info)
    ensures StepControl(c, r) == if r.accepted then c.(state := BlockWriteWait) else c
    ensures InBlock(StepControl(c, r))
  {
    StepStays(c, r);
  }

  lemma {:induction false} NextBlockStep(c: Control, scr: Scr, r: Request)
    requires InBlock(c) && c.state == NextBlock && ProperInfo(c.info)
    ensures c.fullTrackTransfer ==> StepScr(c, scr, r) == scr - {TransferC2}
    ensures c.fullTrackTransfer ==> StepControl(c, r) == c.(state := Start, fullTrackTransfer := false, startingBlock := !c.startingBlock)
    ensures !c.fullTrackTransfer && c.transferMode ==> StepScr(c, scr, r) == scr && StepControl(c, r) == c.(bmRunning := false)
    ensures !c.fullTrackTransfer && !c.transferMode ==> StepScr(c, scr, r) == scr - {TransferC2, TransferData} + {BmReady}
    ensures !c.fullTrackTransfer && !c.transferMode ==> StepControl(c, r) == c.(state := Idle)
    ensures InBlock(StepControl(c, r))
  {
    StepStays(c, r);
  }

  /** No poll leaves the drive about to copy a sector the block does not have. */
  lemma {:induction false} PollStaysInBlock(c: Control, p: Spindle, scr: Scr, x: Inputs, r: Request)
    requires InBlock(c) && ProperInfo(x.info)
    ensures InBlock(Polled(c, p, scr, x, r))
  {
    PreparedStays(c, scr);
    var c1 := Prepared(c, scr);
    hide Prepared, Requested, StepControl, PreparedScr;
    if c1.bmRunning {
      RequestedStays(c1, PreparedScr(p, scr, x));
      StepStays(Requested(c1, PreparedScr(p, scr, x)), r);
    }
  }

  lemma {:induction false} StartStays(c: Control, scr: Scr, x: Inputs)
    requires InBlock(c) && ProperInfo(x.info)
    ensures InBlock(StartControl(c, scr, x))
  {
  }
}
