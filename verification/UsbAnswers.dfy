/**
 What the answers to the commands of a host are to be: which commands fail, and how long the answer is
 (the command table of docs/03_usb_interface.md, and what sw/deployer/src/sc64/mod.rs makes of the answers).
 */
module UsbAnswers {
  import opened Bytes
  import opened UsbProtocol
  import opened UsbState

  /** What a host finds out from an answer before it looks at the data. */
  datatype Verdict = Verdict(id: byte, failed: bool, length: nat)

  // ---------- what is promised ----------

  /** A transfer of the host stays in memory, and keeps clear of the bootloader where it must. */
  ghost predicate Allowed(address: nat, length: nat, excludeBootloader: bool) {
    0 < length && address + length <= 0x0500_2C80 && (excludeBootloader ==> forall i :: address <= i < address + length ==> !InBootArea(i))
  }

  predicate InBootArea(i: int) { 0x04E0_0000 <= i < 0x04FE_0000 }

  predicate Known(id: char) {
    id in {'v', 'V', 'R', 'B', 'c', 'C', 'a', 'A', 't', 'T', 'X', 'i', 'D', 'W', 'p', 'P', 'f', 'F', '?', '%'}
  }

  /** Nothing can go wrong with these. */
  predicate AlwaysSucceeds(id: char) {
    id in {'v', 'V', 'R', 'B', 't', 'T', 'X', 'D', 'W', 'p', '?', '%'}
  }

  /** The length of the answer the deployer insists on. */
  function PromisedLength(id: char): nat {
    if id in {'v', 'c', 'a', 'p', 'F'} then 4
    else if id in {'V', 't', 'i', 'f', '?'} then 8
    else if id == '%' then 16
    else 0
  }

  /** An answer is the right one to a command. */
  ghost predicate Right(c: Command, v: Verdict) {
    v.id == c.id &&
    if c.id == 0x4D then // M
      (v.failed <==> !Allowed(c.arg0, c.arg1, true)) && v.length == 0
    else if c.id == 0x6D then // m
      (v.failed <==> !Allowed(c.arg0, c.arg1, false)) && v.length == if v.failed then 0 else c.arg1
    else if c.id == 0x73 || c.id == 0x53 then // s and S
      (!v.failed ==> c.arg1 < 0x80_0000 && Allowed(c.arg0, 512 * c.arg1, true)) && v.length == 4
    else if Known(c.id as char) then
      (AlwaysSucceeds(c.id as char) ==> !v.failed) && v.length == PromisedLength(c.id as char)
    else
      v.failed && v.length == 4
  }

  // ---------- what has been answered ----------

  /** The commands that are answered at all. */
  ghost function Asked(commands: seq<Command>): seq<Command> {
    if commands == [] then [] else
      Asked(commands[..|commands| - 1]) + if commands[|commands| - 1].id == ID_USB_WRITE then [] else [commands[|commands| - 1]]
  }

  function VerdictOf(f: Frame): Verdict {
    Verdict(f.id, f.kind == Failed, |f.payload|)
  }

  ghost function Verdicts(frames: seq<Frame>): seq<Verdict> {
    if frames == [] then [] else
      Verdicts(frames[..|frames| - 1]) + if frames[|frames| - 1].kind == Packet then [] else [VerdictOf(frames[|frames| - 1])]
  }

  function InfoVerdict(error: bool, info: TxInfo): Verdict {
    Verdict(info.cmd, error, info.dataLength + info.dmaLength)
  }

  function SendingVerdict(tx: Tx): seq<Verdict> {
    if tx.state != TxIdle && tx.token != PKT_TOKEN then [InfoVerdict(tx.token == ERR_TOKEN, tx.info)] else []
  }

  function PendingVerdict(response: Response): seq<Verdict> {
    if response.pending then [InfoVerdict(response.error, response.info)] else []
  }

  /** A command is complete and its answer not yet worked out. */
  predicate Owes(rx: Rx) {
    Receiving(rx.state) && rx.cmd != ID_USB_WRITE
  }

  /** Every command that has come in is answered rightly, all but the one that is being worked on. */
  ghost predicate AllRight(commands: seq<Command>, verdicts: seq<Verdict>, owed: bool) {
    |Asked(commands)| == |verdicts| + (if owed then 1 else 0) &&
    forall i :: 0 <= i < |verdicts| ==> Right(Asked(commands)[i], verdicts[i])
  }

  /** The last complete command. */
  ghost function Latest(taken: seq<byte>): Command {
    var commands := Parse(taken).commands;
    if commands == [] then Command(0, 0, 0) else commands[|commands| - 1]
  }

  /** Memory is only written where that is allowed, and only what is not allowed is drained. */
  ghost predicate Guarded(rx: Rx, c: Command) {
    (rx.state == RxData && rx.cmd == ID_MEMORY_WRITE && rx.dmaRunning ==> Allowed(c.arg0, c.arg1, true)) &&
    (rx.state == RxFlush && rx.cmd == ID_MEMORY_WRITE ==> !Allowed(c.arg0, c.arg1, true))
  }

  ghost predicate AnswersOk(rx: Rx, tx: Tx, response: Response, seen: Seen, out: Out) {
    AllRight(Parse(seen.taken).commands, Verdicts(out.frames) + (SendingVerdict(tx) + PendingVerdict(response)), Owes(rx)) &&
    Guarded(rx, Latest(seen.taken))
  }

  // ---------- how that is kept ----------

  lemma {:induction false} AskedOne(commands: seq<Command>, c: Command)
    ensures Asked(commands + [c]) == Asked(commands) + if c.id == ID_USB_WRITE then [] else [c]
  {
    assert (commands + [c])[..|commands|] == commands;
  }

  lemma {:induction false} VerdictsOne(frames: seq<Frame>, f: Frame)
    ensures Verdicts(frames + [f]) == Verdicts(frames) + if f.kind == Packet then [] else [VerdictOf(f)]
  {
    assert (frames + [f])[..|frames|] == frames;
  }

  /** Nothing was answered, and no command came in. */
  lemma {:induction false} AnswersSame(rx: Rx, tx: Tx, response: Response, seen: Seen, out: Out,
          rx1: Rx, tx1: Tx, response1: Response, seen1: Seen, out1: Out)
    requires AnswersOk(rx, tx, response, seen, out)
    requires Parse(seen1.taken).commands == Parse(seen.taken).commands && out1.frames == out.frames && Owes(rx1) == Owes(rx)
    requires SendingVerdict(tx1) + PendingVerdict(response1) == SendingVerdict(tx) + PendingVerdict(response)
    requires rx1 == rx || Guarded(rx1, Latest(seen.taken))
    ensures AnswersOk(rx1, tx1, response1, seen1, out1)
  {
    hide AllRight, Guarded, Owes, Verdicts, SendingVerdict, PendingVerdict, Parse;
  }

  /** A command is complete. */
  lemma {:induction false} AnswersAsked(rx: Rx, tx: Tx, response: Response, seen: Seen, out: Out, rx1: Rx, seen1: Seen, c: Command)
    requires AnswersOk(rx, tx, response, seen, out) && rx.state == RxArgs && rx1.state == RxData && !rx1.dmaRunning
    requires Parse(seen1.taken).commands == Parse(seen.taken).commands + [c] && c.id == rx1.cmd
    ensures AnswersOk(rx1, tx, response, seen1, out)
  {
    hide Asked, Verdicts, SendingVerdict, PendingVerdict, Parse, Right;
    AskedOne(Parse(seen.taken).commands, c);
  }

  /** The answer to the last command is worked out. */
  lemma {:induction false} AnswersGiven(rx: Rx, tx: Tx, response: Response, seen: Seen, out: Out, rx1: Rx, response1: Response)
    requires AnswersOk(rx, tx, response, seen, out) && Owes(rx) && rx1.state == RxIdle && !response.pending && response1.pending
    requires Parse(seen.taken).commands != [] && Latest(seen.taken).id != ID_USB_WRITE
    requires Right(Latest(seen.taken), InfoVerdict(response1.error, response1.info))
    ensures AnswersOk(rx1, tx, response1, seen, out)
  {
    hide Verdicts, SendingVerdict, Parse, Right, InfoVerdict;
    var commands := Parse(seen.taken).commands;
    assert commands == commands[..|commands| - 1] + [Latest(seen.taken)];
    AskedOne(commands[..|commands| - 1], Latest(seen.taken));
    hide Asked;
    var before := Verdicts(out.frames) + (SendingVerdict(tx) + PendingVerdict(response));
    var after := Verdicts(out.frames) + (SendingVerdict(tx) + PendingVerdict(response1));
    assert after == before + [InfoVerdict(response1.error, response1.info)];
  }

  /** The answer being sent is out. */
  lemma {:induction false} AnswersDone(rx: Rx, tx: Tx, tx1: Tx, response: Response, seen: Seen, out: Out, out1: Out, f: Frame)
    requires AnswersOk(rx, tx, response, seen, out) && tx.state != TxIdle && tx1.state == TxIdle && IsToken(tx.token)
    requires out1.frames == out.frames + [f] && f.kind == TokenKind(tx.token) && f.id == tx.info.cmd &&
      |f.payload| == tx.info.dataLength + tx.info.dmaLength
    ensures AnswersOk(rx, tx1, response, seen, out1)
  {
    hide Verdicts, PendingVerdict, Parse, AllRight, Guarded;
    VerdictsOne(out.frames, f);
    assert Verdicts(out1.frames) + (SendingVerdict(tx1) + PendingVerdict(response)) ==
      Verdicts(out.frames) + (SendingVerdict(tx) + PendingVerdict(response));
  }

  lemma {:induction false} NothingAnswered(rx: Rx, tx: Tx, response: Response)
    requires rx.state == RxIdle && tx.state == TxIdle && !response.pending
    ensures AnswersOk(rx, tx, response, Seen([], 0, 0), Out([], [], [], [], [], None))
  {
  }
}
