/**
 What the USB state machines of sw/controller/src/usb.c keep true, as relations between their variables
 and the bytes that have crossed the wire.
 */
module UsbState {
  import opened Bytes
  import opened UsbProtocol

  datatype RxState = RxIdle | RxArgs | RxData | RxFlush
  datatype TxState = TxIdle | TxToken | TxData | TxDma | TxFlush

  /** A done_callback: none, that of the packet with this number, or the start of an update. */
  datatype Callback = NoCallback | PacketDone(ticket: nat) | UpdateStart

  datatype TxInfo = TxInfo(cmd: byte, dataLength: nat, data: seq<word>, dmaLength: nat, dmaAddress: nat, callback: Callback)

  /** rx_state, rx_counter, rx_cmd, rx_args, rx_dma_running, flush_response and flush_packet. */
  datatype Rx = Rx(state: RxState, counter: nat, cmd: byte, args: seq<word>, dmaRunning: bool, flushResponse: bool, flushPacket: bool)

  /** usb_rx_word_counter, usb_rx_word_buffer and usb_rx_cmd_counter. */
  datatype Assembly = Assembly(wordCounter: nat, wordBuffer: nat, cmdCounter: nat)

  /** tx_state, tx_counter, tx_info, tx_token, tx_dma_running and usb_tx_word_counter. */
  datatype Tx = Tx(state: TxState, counter: nat, info: TxInfo, token: word, dmaRunning: bool, wordCounter: nat)

  /** response_pending, response_error and response_info. */
  datatype Response = Response(pending: bool, error: bool, info: TxInfo)

  /** packet_pending and packet_info. */
  datatype Queue = Queue(pending: bool, info: TxInfo)

  /** read_ready, read_length and read_address. */
  datatype DebugRead = DebugRead(ready: bool, length: nat, address: nat)

  /** The registers of the DMA engine. */
  datatype Dma = Dma(busy: bool, toMemory: bool, address: nat, left: nat)

  /** What has come in since the last reset, and how much of it in the last DMA transfer of what length. */
  datatype Seen = Seen(taken: seq<byte>, got: nat, length: nat)

  /**
   What has gone out since the last reset: the wire, complete frames and the part of the next one, of which some by DMA.
   `image` is what the memory of the message being sent held when it was taken up, as long as nobody changes it.
   */
  datatype Out = Out(wire: seq<byte>, frames: seq<Frame>, messages: seq<Message>, part: seq<byte>, sent: seq<byte>, image: Option<seq<byte>>)

  /** Packets accepted with a callback, and how often each callback was run. */
  datatype Tickets = Tickets(issued: nat, ran: multiset<nat>)

  const CMP_TOKEN: word := 0x434D_5000
  const ERR_TOKEN: word := 0x4552_5200
  const PKT_TOKEN: word := 0x504B_5400

  const MEMORY_LENGTH := 0x0500_2C80
  const BOOTLOADER_ADDRESS := 0x04E0_0000
  const BOOTLOADER_LENGTH := 1920 * 1024
  const FLUSH_ADDRESS := 0x07F0_0000
  const FLUSH_LENGTH := 1024 * 1024

  // ---------- the receiving half ----------

  /** The value of up to four bytes, most significant first. */
  function Value(s: seq<byte>): (v: nat)
    requires |s| <= 4
    ensures v < (if |s| == 0 then 1 else if |s| == 1 then 0x100 else if |s| == 2 then 0x1_0000 else if |s| == 3 then 0x100_0000 else 0x1_0000_0000)
  {
    if s == [] then 0 else Value(s[..|s| - 1]) * 256 + s[|s| - 1]
  }

  lemma {:induction false} ValueOfWord(s: seq<byte>)
    requires |s| == 4
    ensures Value(s) == FromBigEndian(s)
  {
    assert s[..3][..2] == s[..2] && s[..2][..1] == s[..1] && s[..1][..0] == [];
    assert Value(s[..0]) == 0;
    assert Value(s[..1]) == s[0];
    assert Value(s[..2]) == Value(s[..1]) * 256 + s[1];
    assert Value(s[..3]) == Value(s[..2]) * 256 + s[2];
  }

  function Last<T>(s: seq<T>, n: nat): (r: seq<T>)
    requires n <= |s|
    ensures |r| == n
  {
    s[|s| - n..]
  }

  lemma {:induction false} LastMore<T>(s: seq<T>, more: seq<T>, n: nat)
    requires n <= |s|
    ensures Last(s + more, n + |more|) == Last(s, n) + more
  {
  }

  predicate IsSdCommand(cmd: byte) {
    cmd == ID_SD_READ || cmd == ID_SD_WRITE
  }

  predicate IsBulkCommand(cmd: byte) {
    cmd == ID_MEMORY_WRITE || cmd == ID_USB_WRITE
  }

  /** Bytes of the payload that are still to come. */
  function LeftOf(cmd: byte, arg1: nat, progress: nat, wordCounter: nat): int {
    if IsBulkCommand(cmd) then arg1 - progress
    else if IsSdCommand(cmd) then 4 - wordCounter
    else 0
  }

  /** The arguments are the ones of the last command, apart from what was counted down. */
  ghost predicate CommandIs(parser: Parser, rx: Rx) {
    |rx.args| == 2 && parser.commands != [] &&
    var c := parser.commands[|parser.commands| - 1];
    c.id == rx.cmd && c.arg0 == rx.args[0] && rx.args[1] <= c.arg1 && (rx.state == RxData && rx.cmd != ID_USB_WRITE ==> c.arg1 == rx.args[1])
  }

  function Progress(rx: Rx, seen: Seen): nat {
    if rx.dmaRunning then seen.got else 0
  }

  /** The word buffer holds the bytes that came in since the last complete word. */
  ghost predicate WordBuffered(a: Assembly, taken: seq<byte>) {
    a.wordCounter < 4 && a.wordCounter <= |taken| && a.wordBuffer == Value(Last(taken, a.wordCounter))
  }

  /** The receiving state machine is where the automaton is after everything taken. */
  ghost predicate InStep(rx: Rx, a: Assembly, progress: nat, taken: seq<byte>) {
    var parser := Parse(taken);
    |rx.args| == 2 &&
    if rx.state == RxIdle then parser.phase == Scan(a.cmdCounter) && a.wordCounter == 0
    else if rx.state == RxArgs then
      rx.counter < 2 && a.wordCounter < 4 && a.cmdCounter == 0 && 4 * rx.counter + a.wordCounter <= |taken| && !rx.dmaRunning &&
      parser.phase == Args(rx.cmd, Last(taken, 4 * rx.counter + a.wordCounter)) &&
      (rx.counter == 1 ==> rx.args[0] == FromBigEndian(Last(taken, 4 + a.wordCounter)[..4]))
    else
      a.cmdCounter == 0 && a.wordCounter < 4 && (IsSdCommand(rx.cmd) || a.wordCounter == 0) && (rx.state == RxFlush ==> IsBulkCommand(rx.cmd)) &&
      0 <= LeftOf(rx.cmd, rx.args[1], progress, a.wordCounter) &&
      parser.phase == After(LeftOf(rx.cmd, rx.args[1], progress, a.wordCounter)) &&
      CommandIs(parser, rx)
  }

  ghost predicate RxOk(rx: Rx, a: Assembly, seen: Seen) {
    InStep(rx, a, Progress(rx, seen), seen.taken) && WordBuffered(a, seen.taken)
  }

  // ---------- the DMA engine ----------

  /** The DMA length the receiving half programs, and works out again when the transfer is over. */
  function Chunk(state: RxState, cmd: byte, arg1: nat, readLength: nat): nat {
    if state == RxFlush then Min(arg1, FLUSH_LENGTH)
    else if cmd == ID_USB_WRITE then Min(readLength, arg1)
    else arg1
  }

  predicate Receiving(state: RxState) {
    state == RxData || state == RxFlush
  }

  /** A transfer that counts as running is either in the engine or complete, and the engine moves bytes in only for one. */
  ghost predicate RxTransfer(state: RxState, cmd: byte, running: bool, got: nat, length: nat, chunk: nat,
          incoming: bool, left: nat) {
    (Receiving(state) && running ==> IsBulkCommand(cmd) && 0 < length == chunk && got <= length && if incoming then left == length - got else got == length) &&
    (incoming ==> Receiving(state) && running)
  }

  ghost predicate TxTransfer(state: TxState, running: bool, sent: nat, length: nat, outgoing: bool, left: nat) {
    (state == TxDma && running ==> 0 < length && sent <= length && if outgoing then left == length - sent else sent == length) &&
    (state == TxDma && !running ==> sent == 0) &&
    (outgoing ==> state == TxDma && running)
  }

  /** Bytes that have arrived are in memory, from this address on. */
  ghost predicate Landed(mem: seq<byte>, address: nat, got: nat, taken: seq<byte>) {
    address + got <= |mem| && got <= |taken| && mem[address..address + got] == Last(taken, got)
  }

  ghost predicate RxEngineOk(rx: Rx, read: DebugRead, dma: Dma, seen: Seen) {
    |rx.args| == 2 &&
    RxTransfer(rx.state, rx.cmd, rx.dmaRunning, seen.got, seen.length, Chunk(rx.state, rx.cmd, rx.args[1], read.length), dma.busy && dma.toMemory, dma.left)
  }

  /** The engine sends the memory of the message, from its first byte on. */
  ghost predicate Sourced(mem: seq<byte>, idle: bool, address: nat, length: nat, sent: seq<byte>,
          image: Option<seq<byte>>, outgoing: bool, at: nat) {
    (outgoing ==> at == address + |sent|) &&
    (!idle && image.Some? ==> address + length <= |mem| && image.value == mem[address..address + length] && sent <= image.value)
  }

  ghost predicate TxEngineOk(mem: seq<byte>, tx: Tx, dma: Dma, out: Out) {
    TxTransfer(tx.state, tx.dmaRunning, |out.sent|, tx.info.dmaLength, dma.busy && !dma.toMemory, dma.left) &&
    Sourced(mem, tx.state == TxIdle, tx.info.dmaAddress, tx.info.dmaLength, out.sent, out.image, dma.busy && !dma.toMemory, dma.address)
  }

  /** The record after memory has changed. */
  function Kept(out: Out, mem: seq<byte>, info: TxInfo): Out {
    if info.dmaAddress + info.dmaLength <= |mem| && out.image == Some(mem[info.dmaAddress..info.dmaAddress + info.dmaLength]) then out
    else out.(image := None)
  }

  lemma {:induction false} KeptIsOk(mem: seq<byte>, after: seq<byte>, tx: Tx, dma: Dma, out: Out)
    requires TxEngineOk(mem, tx, dma, out) && TxOk(tx, out)
    ensures TxEngineOk(after, tx, dma, Kept(out, after, tx.info)) && TxOk(tx, Kept(out, after, tx.info))
    ensures Kept(out, after, tx.info) == out.(image := Kept(out, after, tx.info).image)
  {
    hide AllCarry, OnWire, TxTransfer;
  }

  /** n addresses from here on. */
  function Span(address: nat, n: nat): set<nat> {
    set j: nat | j < address + n && Above(address, j)
  }

  predicate Above(address: nat, j: nat) { address <= j }

  lemma {:induction false} NoSpan(address: nat)
    ensures Span(address, 0) == {}
  {
  }

  /** More may have come in from the host, and when nothing has, nothing was written. */
  ghost predicate Arrived(before: Seen, after: Seen, wrote: set<nat>) {
    |before.taken| <= |after.taken| && (|before.taken| == |after.taken| ==> wrote == {})
  }

  /** A command that is still worked on is one with a payload. */
  predicate Settled(rx: Rx) {
    rx.state == RxData ==> IsBulkCommand(rx.cmd) || IsSdCommand(rx.cmd)
  }

  /** The addresses at which two memories differ. */
  function Changed(mem: seq<byte>, after: seq<byte>): set<nat>
    requires |after| == |mem|
  {
    set j: nat | j < |mem| && after[j] != mem[j]
  }

  /** Nothing of the memory of the message was written. */
  ghost predicate Misses(info: TxInfo, wrote: set<nat>) {
    forall j: nat :: info.dmaAddress <= j < info.dmaAddress + info.dmaLength ==> j !in wrote
  }

  /** Only these addresses were written; a message being sent whose memory is not among them still has what it had. */
  ghost predicate Leaves(tx: Tx, wrote: set<nat>, mem: seq<byte>, image: Option<seq<byte>>, after: seq<byte>, kept: Option<seq<byte>>) {
    |after| == |mem| && (forall j: nat :: j < |mem| && j !in wrote ==> after[j] == mem[j]) &&
    (tx.state != TxIdle && image.Some? && Misses(tx.info, wrote) ==> kept == image)
  }

  lemma {:induction false} LeavesAll(tx: Tx, wrote: set<nat>, mem: seq<byte>, image: Option<seq<byte>>)
    ensures Leaves(tx, wrote, mem, image, mem, image)
  {
  }

  lemma {:induction false} LeavesBoth(tx: Tx, first: set<nat>, second: set<nat>, mem: seq<byte>, image: Option<seq<byte>>,
          mem1: seq<byte>, image1: Option<seq<byte>>, mem2: seq<byte>, image2: Option<seq<byte>>)
    requires Leaves(tx, first, mem, image, mem1, image1) && Leaves(tx, second, mem1, image1, mem2, image2)
    ensures Leaves(tx, first + second, mem, image, mem2, image2)
  {
  }

  lemma {:induction false} LeavesMore(tx: Tx, wrote: set<nat>, more: set<nat>, mem: seq<byte>, image: Option<seq<byte>>, after: seq<byte>, kept: Option<seq<byte>>)
    requires wrote <= more
    ensures Leaves(tx, wrote, mem, image, after, kept) ==> Leaves(tx, more, mem, image, after, kept)
  {
  }

  /** A change of memory leaves the message alone unless its memory is written. */
  lemma {:induction false} ChangeLeaves(tx: Tx, dma: Dma, out: Out, mem: seq<byte>, after: seq<byte>, wrote: set<nat>)
    requires TxEngineOk(mem, tx, dma, out) && |after| == |mem| && forall j: nat :: j < |mem| && j !in wrote ==> after[j] == mem[j]
    ensures Leaves(tx, wrote, mem, out.image, after, Kept(out, after, tx.info).image)
  {
    hide TxTransfer;
    var lo, hi := tx.info.dmaAddress, tx.info.dmaAddress + tx.info.dmaLength;
    if tx.state != TxIdle && out.image.Some? && Misses(tx.info, wrote) {
      assert after[lo..hi] == mem[lo..hi];
    }
  }

  /** The place and length of a debug read are fixed while its transfer runs. */
  ghost predicate ReadOk(rx: Rx, read: DebugRead) {
    (read.ready <==> !(rx.state == RxData && rx.cmd == ID_USB_WRITE && rx.dmaRunning)) && read.address + read.length <= ADDRESSES
  }

  predicate Arriving(rx: Rx) {
    Receiving(rx.state) && rx.dmaRunning
  }

  /** Where a payload goes: to the address of the command, to the place the console asked for, or to waste. */
  function Target(rx: Rx, read: DebugRead): nat
    requires |rx.args| == 2
  {
    if rx.state == RxFlush then FLUSH_ADDRESS else if rx.cmd == ID_USB_WRITE then read.address else rx.args[0]
  }

  /** A payload that is under way has its bytes so far in memory, and the engine at the next address. */
  ghost predicate InMemory(mem: seq<byte>, dma: Dma, writing: bool, address: nat, got: nat, taken: seq<byte>) {
    |mem| == ADDRESSES && (dma.busy ==> dma.address + dma.left <= ADDRESSES) &&
    (writing ==> Landed(mem, address, got, taken) && (dma.busy && dma.toMemory ==> dma.address == address + got))
  }

  ghost predicate MemoryOk(mem: seq<byte>, dma: Dma, rx: Rx, read: DebugRead, seen: Seen) {
    |rx.args| == 2 && InMemory(mem, dma, Arriving(rx), Target(rx, read), seen.got, seen.taken)
  }

  /** n more bytes have come in. */
  lemma {:induction false} BytesIn(state: RxState, cmd: byte, running: bool, got: nat, length: nat, chunk: nat,
          left: nat, n: nat, busy: bool)
    requires RxTransfer(state, cmd, running, got, length, chunk, true, left) && n <= left && (busy || n == left)
    ensures RxTransfer(state, cmd, running, got + n, length, chunk, busy, left - n)
    ensures Receiving(state) && running && IsBulkCommand(cmd) && got + n <= chunk
  {
  }

  lemma {:induction false} BytesInMemory(mem: seq<byte>, dma: Dma, writing: bool, address: nat, got: nat,
          taken: seq<byte>, bytes: seq<byte>, busy: bool)
    requires InMemory(mem, dma, writing, address, got, taken) && dma.busy && dma.toMemory && |bytes| <= dma.left
    ensures dma.address + |bytes| <= |mem|
    ensures InMemory(Blit(mem, dma.address, bytes, 0, |bytes|), Dma(busy, true, dma.address + |bytes|, dma.left - |bytes|), writing, address,
      got + |bytes|, taken + bytes)
  {
    if writing { LandMore(mem, address, got, taken, bytes); }
    hide Landed, Blit;
  }

  lemma {:induction false} NotOutgoing(mem: seq<byte>, tx: Tx, dma: Dma, after: Dma, out: Out)
    requires TxEngineOk(mem, tx, dma, out) && (dma.busy ==> dma.toMemory) && (after.busy ==> after.toMemory)
    ensures TxEngineOk(mem, tx, after, out)
  {
  }

  lemma {:induction false} NotIncoming(state: RxState, cmd: byte, running: bool, got: nat, length: nat, chunk: nat,
          left: nat, after: nat)
    requires RxTransfer(state, cmd, running, got, length, chunk, false, left)
    ensures RxTransfer(state, cmd, running, got, length, chunk, false, after)
  {
  }

  lemma {:induction false} LandMore(mem: seq<byte>, address: nat, got: nat, taken: seq<byte>, bytes: seq<byte>)
    requires Landed(mem, address, got, taken) && address + got + |bytes| <= |mem|
    ensures Landed(Blit(mem, address + got, bytes, 0, |bytes|), address, got + |bytes|, taken + bytes)
  {
    LastMore(taken, bytes, got);
    var after := Blit(mem, address + got, bytes, 0, |bytes|);
    hide Blit;
    assert after[address..address + got + |bytes|] == mem[address..address + got] + bytes;
  }

  // ---------- the sending half ----------

  predicate ProperInfo(info: TxInfo) {
    |info.data| == 4 && info.dataLength <= 16 && info.dataLength % 4 == 0 && info.dataLength + info.dmaLength < 0x1_0000_0000 &&
    info.dmaAddress + info.dmaLength <= ADDRESSES
  }

  predicate IsToken(token: word) {
    token == CMP_TOKEN || token == ERR_TOKEN || token == PKT_TOKEN
  }

  function TokenKind(token: word): Kind {
    if token == CMP_TOKEN then Completed else if token == ERR_TOKEN then Failed else Packet
  }

  /** What was handed over to be sent: the words, and what its memory held if that stayed as it was. */
  datatype Message = Message(kind: Kind, id: byte, data: seq<word>, dmaLength: nat, content: Option<seq<byte>>)

  function MessageOf(token: word, info: TxInfo, content: Option<seq<byte>>): Message
    requires ProperInfo(info)
  {
    Message(TokenKind(token), info.cmd, info.data[..info.dataLength / 4], info.dmaLength, content)
  }

  function Words(s: seq<word>): (r: seq<byte>)
    ensures |r| == 4 * |s|
  {
    if s == [] then [] else Words(s[..|s| - 1]) + BigEndian(s[|s| - 1])
  }

  /** The words a message starts with: token and id, length, data. */
  function Leader(token: word, info: TxInfo): (s: seq<word>)
    requires ProperInfo(info) && IsToken(token)
    ensures |s| == 2 + info.dataLength / 4
  {
    [token + info.cmd, info.dataLength + info.dmaLength] + info.data[..info.dataLength / 4]
  }

  /** Words of the leader that are out, in state DATA or before. */
  function WordsOut(tx: Tx): nat {
    if tx.state == TxToken then tx.counter else 2 + tx.counter
  }

  /** How far the leader is out, in state DATA or before. */
  predicate LeaderOut(tx: Tx) {
    tx.wordCounter < 4 && !tx.dmaRunning &&
    if tx.state == TxToken then tx.counter < 2
    else tx.counter < tx.info.dataLength / 4 || (tx.counter == 0 && tx.wordCounter == 0)
  }

  /** What of the current message is on the wire. */
  ghost predicate OnWire(tx: Tx, sent: seq<byte>, part: seq<byte>) {
    if tx.state == TxIdle then tx.wordCounter == 0 && part == []
    else
      ProperInfo(tx.info) && IsToken(tx.token) &&
      if tx.state == TxToken || tx.state == TxData then
        sent == [] && LeaderOut(tx) && part == Words(Leader(tx.token, tx.info))[..4 * WordsOut(tx) + tx.wordCounter]
      else
        tx.wordCounter == 0 && part == Words(Leader(tx.token, tx.info)) + sent && (tx.state == TxFlush ==> |sent| == tx.info.dmaLength)
  }

  /** A frame carries a message: its id, its kind, its data words and then its memory. */
  ghost predicate Carries(f: Frame, m: Message) {
    f.kind == m.kind && f.id == m.id && |f.payload| == 4 * |m.data| + m.dmaLength && f.payload[..4 * |m.data|] == Words(m.data) &&
    (m.content.Some? ==> f.payload[4 * |m.data|..] == m.content.value)
  }

  ghost predicate AllCarry(frames: seq<Frame>, messages: seq<Message>) {
    |frames| == |messages| && forall i :: 0 <= i < |frames| ==> Carries(frames[i], messages[i])
  }

  lemma {:induction false} WordsOne(s: seq<word>, w: word)
    ensures Words(s + [w]) == Words(s) + BigEndian(w)
  {
    assert (s + [w])[..|s|] == s;
  }

  lemma {:induction false} WordsAppend(a: seq<word>, b: seq<word>)
    ensures Words(a + b) == Words(a) + Words(b)
  {
    hide BigEndian;
    if b == [] {
      assert a + b == a;
    } else {
      WordsAppend(a, b[..|b| - 1]);
      assert (a + b)[..|a + b| - 1] == a + b[..|b| - 1];
    }
  }

  lemma {:induction false} WordsAt(s: seq<word>, k: nat)
    requires k < |s|
    ensures Words(s)[..4 * k] == Words(s[..k]) && Words(s)[4 * k..4 * k + 4] == BigEndian(s[k])
  {
    hide BigEndian;
    var a, b := s[..k], s[k..];
    assert s == a + b && b == [s[k]] + b[1..];
    WordsAppend(a, b);
    WordsAppend([s[k]], b[1..]);
    WordsOne([], s[k]);
    assert [] + [s[k]] == [s[k]];
  }

  lemma {:induction false} TokenWord(token: word, cmd: byte)
    requires IsToken(token)
    ensures token + cmd < 0x1_0000_0000 && BigEndian(token + cmd) == Token(TokenKind(token)) + [cmd]
  {
  }

  /** A complete message is the encoding of one frame. */
  lemma {:induction false} MessageIsFrame(token: word, info: TxInfo, sent: seq<byte>, content: Option<seq<byte>>)
    requires ProperInfo(info) && IsToken(token) && |sent| == info.dmaLength && (content.Some? ==> content.value == sent)
    ensures var f := Frame(TokenKind(token), info.cmd, Words(info.data[..info.dataLength / 4]) + sent);
      Sendable(f) && Words(Leader(token, info)) + sent == Encode(f) && Carries(f, MessageOf(token, info, content))
  {
    var data := info.data[..info.dataLength / 4];
    var n: word := info.dataLength + info.dmaLength;
    LeaderWords(token, info);
    TokenWord(token, info.cmd);
    hide Words, BigEndian, Token, IsToken, TokenKind, Leader;
    var f := Frame(TokenKind(token), info.cmd, Words(data) + sent);
    assert |f.payload| == n;
    assert Token(TokenKind(token)) + [info.cmd] + BigEndian(n) + Words(data) + sent == Token(TokenKind(token)) + [info.cmd] + BigEndian(n) + f.payload;
  }

  lemma {:induction false} LeaderWords(token: word, info: TxInfo)
    requires ProperInfo(info) && IsToken(token)
    ensures Words(Leader(token, info)) ==
      BigEndian(token + info.cmd) + BigEndian(info.dataLength + info.dmaLength) + Words(info.data[..info.dataLength / 4])
  {
    var first: word, second: word := token + info.cmd, info.dataLength + info.dmaLength;
    var data := info.data[..info.dataLength / 4];
    assert Leader(token, info) == [first, second] + data;
    hide BigEndian, IsToken, Leader;
    WordsAppend([first, second], data);
    WordsOne([first], second);
    WordsOne([], first);
    assert [] + [first] == [first] && [first] + [second] == [first, second];
  }

  ghost predicate TxOk(tx: Tx, out: Out) {
    AllSendable(out.frames) && out.wire == EncodeAll(out.frames) + out.part && AllCarry(out.frames, out.messages) &&
    OnWire(tx, out.sent, out.part)
  }

  // ---------- answers and callbacks ----------

  /** Ids of the commands that are answered. */
  ghost function Expected(ids: seq<byte>): seq<byte> {
    if ids == [] then [] else Expected(ids[..|ids| - 1]) + if ids[|ids| - 1] == ID_USB_WRITE then [] else [ids[|ids| - 1]]
  }

  ghost function ResponseIds(frames: seq<Frame>): seq<byte> {
    if frames == [] then [] else
      ResponseIds(frames[..|frames| - 1]) + if frames[|frames| - 1].kind == Packet then [] else [frames[|frames| - 1].id]
  }

  /** Answers being sent, waiting to be sent, and being worked out. */
  function Sending(tx: Tx): seq<byte> {
    if tx.state != TxIdle && tx.token != PKT_TOKEN then [tx.info.cmd] else []
  }

  function Answered(response: Response): seq<byte> {
    if response.pending then [response.info.cmd] else []
  }

  function Working(rx: Rx): seq<byte> {
    if rx.state != RxIdle && rx.cmd != ID_USB_WRITE then [rx.cmd] else []
  }

  /** Commands that ask for an answer are answered in order, one at a time. */
  ghost predicate OrderOk(rx: Rx, tx: Tx, response: Response, seen: Seen, out: Out) {
    (response.pending ==> rx.state == RxIdle) &&
    Expected(Parse(seen.taken).ids) == ResponseIds(out.frames) + Sending(tx) + Answered(response) + Working(rx)
  }

  ghost function Waiting(callback: Callback, ticket: nat): nat {
    if callback == PacketDone(ticket) then 1 else 0
  }

  /** Every accepted packet is still waiting for its callback or had it run, never both and never twice. */
  ghost predicate TicketsKept(tickets: Tickets, queued: Callback, sending: Callback) {
    forall t: nat :: tickets.ran[t] + Waiting(queued, t) + Waiting(sending, t) == if t < tickets.issued then 1 else 0
  }

  function Queued(packet: Queue): Callback {
    if packet.pending then packet.info.callback else NoCallback
  }

  function InTransit(tx: Tx): Callback {
    if tx.state != TxIdle then tx.info.callback else NoCallback
  }

  ghost predicate TicketsOk(packet: Queue, tx: Tx, response: Response, tickets: Tickets) {
    TicketsKept(tickets, Queued(packet), InTransit(tx)) && !response.info.callback.PacketDone?
  }

  // ---------- packets that were accepted ----------

  /** What a packet is to the host, apart from the memory it carries. */
  datatype Parcel = Parcel(id: byte, data: seq<word>, dmaLength: nat)

  function ParcelOf(info: TxInfo): Parcel {
    Parcel(info.cmd, if info.dataLength / 4 <= |info.data| then info.data[..info.dataLength / 4] else [], info.dmaLength)
  }

  ghost function Parcels(messages: seq<Message>): seq<Parcel> {
    if messages == [] then [] else
      var last := messages[|messages| - 1];
      Parcels(messages[..|messages| - 1]) + if last.kind == Packet then [Parcel(last.id, last.data, last.dmaLength)] else []
  }

  /** The packet being sent, and the one that waits. */
  function InHandParcel(tx: Tx): seq<Parcel> {
    if tx.state != TxIdle && tx.token == PKT_TOKEN then [ParcelOf(tx.info)] else []
  }

  function WaitingParcel(packet: Queue): seq<Parcel> {
    if packet.pending then [ParcelOf(packet.info)] else []
  }

  /** Every accepted packet has been sent, is being sent or waits, in the order in which they were accepted. */
  ghost predicate AcceptedOk(accepted: seq<Parcel>, messages: seq<Message>, sending: seq<Parcel>, waiting: seq<Parcel>) {
    accepted == Parcels(messages) + sending + waiting
  }

  lemma {:induction false} ParcelsOne(messages: seq<Message>, m: Message)
    ensures Parcels(messages + [m]) == Parcels(messages) + if m.kind == Packet then [Parcel(m.id, m.data, m.dmaLength)] else []
  {
    assert (messages + [m])[..|messages|] == messages;
  }

  /** A packet that waits is taken up, or dropped. */
  lemma {:induction false} ParcelMoves(accepted: seq<Parcel>, messages: seq<Message>, sending: seq<Parcel>, packet: Queue)
    requires AcceptedOk(accepted, messages, sending, WaitingParcel(packet)) && packet.pending
    ensures sending == [] ==> AcceptedOk(accepted, messages, [ParcelOf(packet.info)], [])
    ensures accepted != [] && AcceptedOk(accepted[..|accepted| - 1], messages, sending, [])
  {
    hide Parcels;
    var before := Parcels(messages) + sending;
    assert accepted == before + [ParcelOf(packet.info)];
    assert accepted[..|accepted| - 1] == before + [];
    assert sending == [] ==> before == Parcels(messages);
  }

  /** A complete packet is no longer being sent, but has been sent. */
  lemma {:induction false} ParcelDone(accepted: seq<Parcel>, messages: seq<Message>, tx: Tx, waiting: seq<Parcel>, content: Option<seq<byte>>)
    requires AcceptedOk(accepted, messages, InHandParcel(tx), waiting) && tx.state != TxIdle && IsToken(tx.token) && ProperInfo(tx.info)
    ensures AcceptedOk(accepted, messages + [MessageOf(tx.token, tx.info, content)], [], waiting)
  {
    ParcelsOne(messages, MessageOf(tx.token, tx.info, content));
    hide Parcels;
  }

  ghost predicate InfoOk(response: Response, packet: Queue) {
    ProperInfo(response.info) && (packet.pending ==> ProperInfo(packet.info))
  }

  /** While a command is being worked on its answer is empty; a payload that is only drained is owed an error or a packet. */
  ghost predicate AnswerOk(rx: Rx, response: Response) {
    (rx.state != RxIdle ==> !response.pending && !response.error) &&
    (rx.state != RxIdle ==> response.info == response.info.(cmd := rx.cmd, dataLength := 0, dmaLength := 0, callback := NoCallback)) &&
    (rx.state == RxArgs || rx.state == RxData ==> !rx.flushResponse && !rx.flushPacket) &&
    (rx.state == RxFlush ==> rx.flushResponse == (rx.cmd == ID_MEMORY_WRITE) && (rx.cmd == ID_USB_WRITE ==> rx.flushPacket))
  }

  // ---------- address checks ----------

  /** usb_validate_address_length */
  function Rejected(address: word, length: word, excludeBootloader: bool): bool {
    length == 0 || address >= MEMORY_LENGTH || length > MEMORY_LENGTH || (address + length) % 0x1_0000_0000 > MEMORY_LENGTH ||
    (excludeBootloader && (address + length) % 0x1_0000_0000 > BOOTLOADER_ADDRESS && address < BOOTLOADER_ADDRESS + BOOTLOADER_LENGTH)
  }

  predicate InBootloader(address: int) {
    BOOTLOADER_ADDRESS <= address < BOOTLOADER_ADDRESS + BOOTLOADER_LENGTH
  }

  /** A transfer is let through just when it is not empty, stays in memory and keeps clear of the bootloader where it must. */
  lemma {:induction false} RejectedExactly(address: word, length: word, excludeBootloader: bool)
    ensures !Rejected(address, length, excludeBootloader) <==>
      0 < length && address + length <= MEMORY_LENGTH &&
      (excludeBootloader ==> forall i :: address <= i < address + length ==> !InBootloader(i))
  {
    var low := if address < BOOTLOADER_ADDRESS then BOOTLOADER_ADDRESS as int else address;
    assert InBootloader(low) <==> address < BOOTLOADER_ADDRESS + BOOTLOADER_LENGTH;
  }
}
