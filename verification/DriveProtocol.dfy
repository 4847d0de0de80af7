/**
 What the console is told by the 64DD emulation of sw/controller/src/dd.c: when a poll raises or clears each bit
 of the status register, and how it moves a block transfer on.
 */
module DriveProtocol {
  import opened Bytes
  import opened DriveControl

  /** A poll that goes on with a block transfer. */
  predicate GoesOn(c: Control, scr: Scr) {
    c.bmRunning && HardReset !in scr && BmStop !in scr && BmStart !in scr
  }

  // ---------- the parts of a poll ----------

  lemma {:induction false} PreparedOther(p: Spindle, scr: Scr, x: Inputs, b: Bit)
    requires b != CmdReady && b != HardResetClear && b != DiskChanged
    ensures b in PreparedScr(p, scr, x) <==> b in scr
  {
  }

  lemma {:induction false} GoingOn(c: Control, p: Spindle, scr: Scr, x: Inputs, r: Request)
    requires GoesOn(c, scr)
    ensures var scr1 := PreparedScr(p, scr, x);
      PolledScr(c, p, scr, x, r) == StepScr(Requested(c, scr), RequestedScr(c, scr1), r) &&
      Polled(c, p, scr, x, r) == StepControl(Requested(c, scr), r)
  {
    PreparedRequested(c, p, scr, x);
    PreparedOther(p, scr, x, BmStop);
    PreparedOther(p, scr, x, BmStart);
    hide PreparedScr, Prepared, Requested, RequestedScr, StepScr, StepControl;
  }

  lemma {:induction false} NotGoingOn(c: Control, p: Spindle, scr: Scr, x: Inputs, r: Request)
    requires !GoesOn(c, scr)
    ensures var scr1 := PreparedScr(p, scr, x);
      PolledScr(c, p, scr, x, r) ==
        if BmStop in scr then scr1 + {BmStopClear} - {MicroError, TransferC2, TransferData}
        else if BmStart in scr then scr1 + {BmClear, BmAckClear, BmStartClear} - {MicroError, TransferC2, TransferData}
        else scr1
  {
    PreparedOther(p, scr, x, BmStop);
    PreparedOther(p, scr, x, BmStart);
    hide PreparedScr, RequestedScr, Requested, StepScr;
  }

  /** A pending sector in read mode, when all data sectors have been handed out. */
  predicate FirstC2(c: Control, scr: Scr) {
    c.transferMode && BmPending in scr && c.currentSector == c.info.sectorsInBlock - 4
  }

  /** A C2 sector that is acknowledged. */
  predicate C2Taken(c: Control, scr: Scr) {
    c.transferMode && BmAck in scr && c.currentSector <= c.info.sectorsInBlock &&
    (c.info.sectorsInBlock - 4 < c.currentSector || FirstC2(c, scr))
  }

  /** The part of a poll that looks at the requests of the hardware. */
  lemma {:induction false} RequestBits(c: Control, scr: Scr)
    ensures var after := RequestedScr(c, scr);
      (BmClear in after <==> BmClear in scr || BmPending in scr) && (BmAckClear in after <==> BmAckClear in scr || BmAck in scr) &&
      (BmReady in after <==> BmReady in scr || FirstC2(c, scr) || C2Taken(c, scr)) &&
      (TransferC2 in after <==> TransferC2 in scr || (C2Taken(c, scr) && c.currentSector == c.info.sectorsInBlock)) &&
      (TransferData in after <==> TransferData in scr && !FirstC2(c, scr))
  {
    if BmPending in scr {
      if BmAck in scr {} else {}
    } else {
      if BmAck in scr {} else {}
    }
  }

  lemma {:induction false} RequestOther(c: Control, scr: Scr, b: Bit)
    requires b !in {BmClear, BmAckClear, BmReady, TransferC2, TransferData}
    ensures b in RequestedScr(c, scr) <==> b in scr
  {
  }

  /** What the switch over the states adds and takes away, bit by bit. */
  lemma {:induction false} StepBits(c: Control, scr: Scr, r: Request)
    ensures var after, announced := StepScr(c, scr, r), c.state == BlockReadWait && r.ready;
      (MicroError in after <==> MicroError in scr || (announced && !r.valid)) &&
      (TransferData in after <==> if EndsWrite(c) then false else TransferData in scr || (announced && r.valid)) &&
      (TransferC2 in after <==> TransferC2 in scr && !EndsWrite(c) && !(c.state == NextBlock && c.fullTrackTransfer)) &&
      (BmReady in after <==> BmReady in scr || (announced && !c.transferMode) || c.state == SectorRead || CopiesAndAsks(c) || EndsWrite(c))
  {
  }

  /** A sector that is not the last one is copied in. */
  predicate CopiesAndAsks(c: Control) {
    c.state == SectorWrite && c.currentSector + 1 < c.info.sectorsInBlock - 4
  }

  /** The last block of a write is done. */
  predicate EndsWrite(c: Control) {
    c.state == NextBlock && !c.fullTrackTransfer && !c.transferMode
  }

  lemma {:induction false} StepOther(c: Control, scr: Scr, r: Request, b: Bit)
    requires b !in {MicroError, TransferData, TransferC2, BmReady}
    ensures b in StepScr(c, scr, r) <==> b in scr
  {
  }

  // ---------- start, stop and commands ----------

  /** A poll that does not go on with a transfer: only a stop or a start clears what was said about the block. */
  lemma {:induction false} OtherwiseQuiet(c: Control, p: Spindle, scr: Scr, x: Inputs, r: Request, b: Bit)
    requires !GoesOn(c, scr) && b in {BmReady, MicroError, TransferC2, TransferData}
    ensures b in PolledScr(c, p, scr, x, r) <==> b in scr && (b == BmReady || (BmStop !in scr && BmStart !in scr))
  {
    NotGoingOn(c, p, scr, x, r);
    PreparedOther(p, scr, x, b);
    hide PolledScr, PreparedScr;
  }

  /** Requests of the hardware are acknowledged by the poll that serves them. */
  lemma {:induction false} RequestsCleared(c: Control, p: Spindle, scr: Scr, x: Inputs, r: Request)
    ensures var after, started := PolledScr(c, p, scr, x, r), BmStart in scr && BmStop !in scr;
      (BmStopClear in after <==> BmStopClear in scr || BmStop in scr) &&
      (BmStartClear in after <==> BmStartClear in scr || started) &&
      (BmClear in after <==> BmClear in scr || started || (GoesOn(c, scr) && BmPending in scr)) &&
      (BmAckClear in after <==> BmAckClear in scr || started || (GoesOn(c, scr) && BmAck in scr))
  {
    var scr1 := PreparedScr(p, scr, x);
    PreparedOther(p, scr, x, BmStopClear);
    PreparedOther(p, scr, x, BmStartClear);
    PreparedOther(p, scr, x, BmClear);
    PreparedOther(p, scr, x, BmAckClear);
    PreparedOther(p, scr, x, BmPending);
    PreparedOther(p, scr, x, BmAck);
    hide PreparedScr;
    if GoesOn(c, scr) {
      GoingOn(c, p, scr, x, r);
      RequestBits(c, scr1);
      RequestOther(c, scr1, BmStopClear);
      RequestOther(c, scr1, BmStartClear);
      var c1, scr2 := Requested(c, scr), RequestedScr(c, scr1);
      StepOther(c1, scr2, r, BmStopClear);
      StepOther(c1, scr2, r, BmStartClear);
      StepOther(c1, scr2, r, BmClear);
      StepOther(c1, scr2, r, BmAckClear);
      hide PolledScr, StepScr, RequestedScr, Requested;
    } else {
      NotGoingOn(c, p, scr, x, r);
      hide PolledScr;
    }
  }

  /** A command is answered in the poll that finds it, but a seek only when its time is up. */
  lemma {:induction false} CommandBits(p: Spindle, scr: Scr, x: Inputs)
    ensures var after, waits := PreparedScr(p, scr, x), p.cmdResponseDelayed && HardReset !in scr;
      (CmdReady in after <==> CmdReady in scr || (CmdPending in scr && if waits then x.elapsed else x.cmd != 0x01 && x.cmd != 0x02)) &&
      (HardResetClear in after <==> HardResetClear in scr || (CmdPending in scr && !waits && x.cmd == 0x09)) &&
      (DiskChanged in after <==> DiskChanged in scr && HardReset !in scr && !(CmdPending in scr && !waits && (x.cmd == 0x08 || x.cmd == 0x09)))
  {
    if HardReset in scr {} else {}
  }

  lemma {:induction false} CommandsAnswered(c: Control, p: Spindle, scr: Scr, x: Inputs, r: Request)
    ensures var after, waits := PolledScr(c, p, scr, x, r), p.cmdResponseDelayed && HardReset !in scr;
      (CmdReady in after <==> CmdReady in scr || (CmdPending in scr && if waits then x.elapsed else x.cmd != 0x01 && x.cmd != 0x02)) &&
      (HardResetClear in after <==> HardResetClear in scr || (CmdPending in scr && !waits && x.cmd == 0x09)) &&
      (DiskChanged in after <==> DiskChanged in scr && HardReset !in scr && !(CmdPending in scr && !waits && (x.cmd == 0x08 || x.cmd == 0x09)))
  {
    CommandBits(p, scr, x);
    var scr1 := PreparedScr(p, scr, x);
    hide PreparedScr;
    if GoesOn(c, scr) {
      GoingOn(c, p, scr, x, r);
      var c1, scr2 := Requested(c, scr), RequestedScr(c, scr1);
      forall b | b == CmdReady || b == HardResetClear || b == DiskChanged
        ensures b in StepScr(c1, scr2, r) <==> b in scr1
      {
        RequestOther(c, scr1, b);
        StepOther(c1, scr2, r, b);
      }
      hide PolledScr, StepScr, RequestedScr, Requested;
    } else {
      NotGoingOn(c, p, scr, x, r);
      hide PolledScr;
    }
  }

  // ---------- reading a block ----------

  /** What the requests make of the state: data sectors as long as there are any, then four C2 sectors, then the next block. */
  lemma {:induction false} ReadRequests(c: Control, scr: Scr)
    requires InBlock(c) && ProperInfo(c.info) && c.transferMode
    ensures var d, data, all := Requested(c, scr), c.info.sectorsInBlock - 4, c.info.sectorsInBlock;
      d == c.(state := d.state, currentSector := d.currentSector) &&
      d.state == (if BmPending in scr && c.currentSector < data then SectorRead
                  else if BmPending in scr && c.currentSector >= all then NextBlock else c.state) &&
      d.currentSector == c.currentSector + (if FirstC2(c, scr) then 1 else 0) + (if C2Taken(c, scr) then 1 else 0)
  {
  }

  /** The states a block read goes through once the block was asked for. */
  predicate ReadState(s: State) {
    s == BlockReadWait || s == SectorRead || s == Idle
  }

  /** A poll in which a data sector is copied out. */
  predicate CopiesOut(c: Control, scr: Scr) {
    c.state == SectorRead || (BmPending in scr && c.currentSector < c.info.sectorsInBlock - 4)
  }

  /** A poll with which the block ends. */
  predicate EndsRead(c: Control, scr: Scr) {
    BmPending in scr && c.currentSector >= c.info.sectorsInBlock
  }

  /** A block read ends only after all of its sectors, and goes on with the other block of the track or stops. */
  lemma {:induction false} ReadMoves(c: Control, p: Spindle, scr: Scr, x: Inputs, r: Request)
    requires GoesOn(c, scr) && InBlock(c) && c.transferMode && ReadState(c.state)
    ensures var d := Polled(c, p, scr, x, r);
      if EndsRead(c, scr) then
        d.info == c.info && d.transferMode && !d.fullTrackTransfer &&
        if c.fullTrackTransfer then d.state == Start && d.bmRunning && d.startingBlock == !c.startingBlock else !d.bmRunning
      else
        d == c.(state := d.state, currentSector := d.currentSector) &&
        if CopiesOut(c, scr) then d.state == Idle && d.currentSector == c.currentSector + 1 <= c.info.sectorsInBlock - 4
        else if c.state == BlockReadWait then d.state == (if r.ready then SectorRead else BlockReadWait) && d.currentSector == 0
        else d.state == Idle && d.currentSector == c.currentSector + (if FirstC2(c, scr) then 1 else 0) + (if C2Taken(c, scr) then 1 else 0)
  {
    GoingOn(c, p, scr, x, r);
    ReadRequests(c, scr);
    hide Polled, Requested;
  }

  /** The console is told that a sector is ready exactly when the sector counter moves. */
  lemma {:induction false} ReadReady(c: Control, p: Spindle, scr: Scr, x: Inputs, r: Request)
    requires GoesOn(c, scr) && InBlock(c) && c.transferMode && ReadState(c.state)
    ensures BmReady in PolledScr(c, p, scr, x, r) <==> BmReady in scr || Polled(c, p, scr, x, r).currentSector > c.currentSector
  {
    var scr1 := PreparedScr(p, scr, x);
    PreparedOther(p, scr, x, BmReady);
    PreparedOther(p, scr, x, BmPending);
    PreparedOther(p, scr, x, BmAck);
    GoingOn(c, p, scr, x, r);
    ReadRequests(c, scr);
    RequestBits(c, scr1);
    StepBits(Requested(c, scr), RequestedScr(c, scr1), r);
    hide Polled, PolledScr, PreparedScr, Requested, RequestedScr, StepScr;
  }

  // ---------- writing a block ----------

  lemma {:induction false} WriteRequests(c: Control, scr: Scr)
    requires InBlock(c) && ProperInfo(c.info) && !c.transferMode
    ensures var d, data := Requested(c, scr), c.info.sectorsInBlock - 4;
      d == c.(state := d.state, bmRunning := d.bmRunning) &&
      d.state == (if BmPending in scr && c.currentSector < data then SectorWrite else c.state) &&
      d.bmRunning == (c.bmRunning && !(BmAck in scr && c.currentSector == data))
  {
  }

  /** A block write: sectors are copied in as they are requested, the last one leads to the write-back, and that to the next block. */
  lemma {:induction false} WriteMoves(c: Control, p: Spindle, scr: Scr, x: Inputs, r: Request)
    requires GoesOn(c, scr) && InBlock(c) && !c.transferMode
    ensures var d, data := Polled(c, p, scr, x, r), c.info.sectorsInBlock - 4;
      var copies := c.state == SectorWrite || (BmPending in scr && c.currentSector < data);
      d.info == c.info && !d.transferMode &&
      (copies ==> d.currentSector == c.currentSector + 1 && d.state == if d.currentSector < data then Idle else BlockWrite) &&
      (!copies && c.state == BlockReadWait ==> d.state == if r.ready then Idle else BlockReadWait) &&
      (!copies && c.state == BlockWrite ==> d.state == if r.accepted then BlockWriteWait else BlockWrite) &&
      (!copies && c.state == BlockWriteWait ==> d.state == if r.ready then NextBlock else BlockWriteWait) &&
      (!copies && c.state == NextBlock ==> d.state == if c.fullTrackTransfer then Start else Idle) &&
      (!copies && c.state == NextBlock && c.fullTrackTransfer ==> d.startingBlock == !c.startingBlock && !d.fullTrackTransfer) &&
      (!copies && c.state == Idle ==> d.state == Idle && d.currentSector == c.currentSector)
  {
    GoingOn(c, p, scr, x, r);
    WriteRequests(c, scr);
    hide Polled, Requested;
  }

  /** In write mode the console is told to go on exactly when the drive falls idle. */
  lemma {:induction false} WriteReady(c: Control, p: Spindle, scr: Scr, x: Inputs, r: Request)
    requires GoesOn(c, scr) && InBlock(c) && !c.transferMode
    ensures var d := Polled(c, p, scr, x, r);
      BmReady in PolledScr(c, p, scr, x, r) <==> BmReady in scr || (d.state == Idle && (c.state != Idle || d.currentSector > c.currentSector))
  {
    var scr1 := PreparedScr(p, scr, x);
    PreparedOther(p, scr, x, BmReady);
    PreparedOther(p, scr, x, BmPending);
    PreparedOther(p, scr, x, BmAck);
    GoingOn(c, p, scr, x, r);
    WriteRequests(c, scr);
    RequestBits(c, scr1);
    StepBits(Requested(c, scr), RequestedScr(c, scr1), r);
    hide Polled, PolledScr, PreparedScr, Requested, RequestedScr, StepScr;
  }

  // ---------- what is said about a block ----------

  /** The poll that finds the block ready. */
  predicate FindsReady(c: Control, scr: Scr, r: Request) {
    c.state == BlockReadWait && r.ready && BmPending !in scr
  }

  /** The state the switch works on is the last one of a block. */
  predicate AtNextBlock(c: Control, scr: Scr) {
    if c.transferMode then EndsRead(c, scr) || (c.state == NextBlock && !(BmPending in scr && c.currentSector < c.info.sectorsInBlock - 4))
    else c.state == NextBlock && !(BmPending in scr && c.currentSector < c.info.sectorsInBlock - 4)
  }

  /** The poll that finds the block ready says whether it is valid, and no other poll does; it is taken back when its data
      sectors are out, or the block was written. */
  lemma {:induction false} BlockAnnounced(c: Control, p: Spindle, scr: Scr, x: Inputs, r: Request)
    requires GoesOn(c, scr) && InBlock(c)
    ensures var after := PolledScr(c, p, scr, x, r);
      (MicroError in after <==> MicroError in scr || (FindsReady(c, scr, r) && !r.valid)) &&
      (TransferData in after <==>
        (FindsReady(c, scr, r) && r.valid) ||
        (TransferData in scr && !FirstC2(c, scr) && !(AtNextBlock(c, scr) && !c.transferMode && !c.fullTrackTransfer)))
  {
    var scr1 := PreparedScr(p, scr, x);
    PreparedOther(p, scr, x, MicroError);
    PreparedOther(p, scr, x, TransferData);
    PreparedOther(p, scr, x, BmPending);
    PreparedOther(p, scr, x, BmAck);
    GoingOn(c, p, scr, x, r);
    if c.transferMode { ReadRequests(c, scr); } else { WriteRequests(c, scr); }
    RequestBits(c, scr1);
    RequestOther(c, scr1, MicroError);
    StepBits(Requested(c, scr), RequestedScr(c, scr1), r);
    hide Polled, PolledScr, PreparedScr, Requested, RequestedScr, StepScr;
  }

  /** The end of the C2 sectors is announced with the last one of them. */
  lemma {:induction false} C2Announced(c: Control, p: Spindle, scr: Scr, x: Inputs, r: Request)
    requires GoesOn(c, scr) && InBlock(c)
    ensures TransferC2 in PolledScr(c, p, scr, x, r) <==>
      (TransferC2 in scr || (C2Taken(c, scr) && c.currentSector == c.info.sectorsInBlock)) &&
      !(AtNextBlock(c, scr) && (c.fullTrackTransfer || !c.transferMode))
  {
    var scr1 := PreparedScr(p, scr, x);
    PreparedOther(p, scr, x, TransferC2);
    PreparedOther(p, scr, x, BmPending);
    PreparedOther(p, scr, x, BmAck);
    GoingOn(c, p, scr, x, r);
    if c.transferMode { ReadRequests(c, scr); } else { WriteRequests(c, scr); }
    RequestBits(c, scr1);
    StepBits(Requested(c, scr), RequestedScr(c, scr1), r);
    hide Polled, PolledScr, PreparedScr, Requested, RequestedScr, StepScr;
  }

  /** The poll with which the wait for the block ends tells the console whether its data is valid, and no earlier one. */
  ghost predicate Told(c: Control, ready: bool, valid: bool, scr: Scr, d: Control, after: Scr) {
    GoesOn(c, scr) && c.state == BlockReadWait && BmPending !in scr && TransferData !in scr && MicroError !in scr ==>
      if d.state == BlockReadWait then !ready && TransferData !in after && MicroError !in after
      else ready && (TransferData in after <==> valid) && (MicroError in after <==> !valid)
  }

  lemma {:induction false} WaitTells(c: Control, p: Spindle, scr: Scr, x: Inputs, r: Request)
    requires InBlock(c)
    ensures Told(c, r.ready, r.valid, scr, Polled(c, p, scr, x, r), PolledScr(c, p, scr, x, r))
  {
    hide Polled, PolledScr, Requested, RequestedScr, StepScr;
    if GoesOn(c, scr) && c.state == BlockReadWait {
      BlockAnnounced(c, p, scr, x, r);
      GoingOn(c, p, scr, x, r);
      if c.transferMode { ReadRequests(c, scr); } else { WriteRequests(c, scr); }
    }
  }

  /** A start bit begins a transfer of the block the registers name; a stop bit ends any transfer and goes before a start. */
  lemma {:induction false} StartAndStop(c: Control, p: Spindle, scr: Scr, x: Inputs, r: Request)
    ensures var d := Polled(c, p, scr, x, r);
      (BmStop in scr ==> !d.bmRunning && d.currentSector == c.currentSector && d.info == c.info) &&
      (BmStart in scr && BmStop !in scr ==>
        d.state == Start && d.bmRunning && d.info == x.info && (d.transferMode <==> TransferMode in scr) &&
        (d.fullTrackTransfer <==> TransferBlocks in scr) && (d.startingBlock <==> x.info.sectorNum == x.info.sectorsInBlock + 1)) &&
      (HardReset in scr && BmStart !in scr ==> d.state == Idle && !d.bmRunning)
  {
    PreparedOther(p, scr, x, BmStop);
    PreparedOther(p, scr, x, BmStart);
    PreparedOther(p, scr, x, TransferMode);
    PreparedOther(p, scr, x, TransferBlocks);
    hide PreparedScr, Requested;
  }
}
