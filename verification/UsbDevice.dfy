/**
 The USB process of sw/controller/src/usb.c: two resumable state machines over one FIFO pair and one DMA
 engine. The host, the FIFOs and the engine are nondeterministic.
 */
module UsbDevice {
  import opened Bytes
  import opened UsbProtocol
  import opened UsbState
  import opened UsbAnswers

  // ---------- how the automaton moves while the firmware reads ----------

  lemma {:induction false} ParseOne(taken: seq<byte>, b: byte)
    ensures Parse(taken + [b]) == Feed(Parse(taken), b)
  {
    hide Feed;
    FeedAllOne(START, taken, b);
  }

  lemma {:induction false} ArgsGrow(taken: seq<byte>, more: seq<byte>, cmd: byte, n: nat)
    requires n <= |taken| && Parse(taken).phase == Args(cmd, Last(taken, n)) && n + |more| <= 8
    ensures n + |more| < 8 ==> Parse(taken + more) == Parse(taken).(phase := Args(cmd, Last(taken + more, n + |more|)))
    ensures n + |more| == 8 ==>
      var all := Last(taken + more, 8);
      var c := Command(cmd, FromBigEndian(all[..4]), FromBigEndian(all[4..]));
      Parse(taken + more) == Parse(taken).(phase := After(PayloadLength(c)), commands := Parse(taken).commands + [c])
  {
    hide FromBigEndian, PayloadLength, Parse;
    if more == [] {
      assert taken + more == taken;
    } else {
      var init, b := more[..|more| - 1], more[|more| - 1];
      assert taken + init + [b] == taken + more;
      ArgsGrow(taken, init, cmd, n);
      ParseOne(taken + init, b);
      assert Last(taken + init, n + |init|) + [b] == Last(taken + more, n + |more|);
    }
  }

  lemma {:induction false} PayloadGrow(taken: seq<byte>, more: seq<byte>, left: nat)
    requires Parse(taken).phase == After(left) && |more| <= left
    ensures Parse(taken + more) == Parse(taken).(phase := After(left - |more|))
  {
    hide Feed, After;
    FeedAllAppend(START, taken, more);
    FeedPayload(Parse(taken), more, left);
  }

  /** usb_rx_word_buffer << 8 | data, in 32 bits */
  function ShiftIn(buffer: nat, b: byte): word {
    (buffer * 256 + b) % 0x1_0000_0000
  }

  lemma {:induction false} WordBufferedMore(a: Assembly, taken: seq<byte>, b: byte)
    requires WordBuffered(a, taken)
    ensures a.wordCounter < 3 ==> WordBuffered(a.(wordCounter := a.wordCounter + 1, wordBuffer := ShiftIn(a.wordBuffer, b)), taken + [b])
    ensures a.wordCounter == 3 ==> ShiftIn(a.wordBuffer, b) == FromBigEndian(Last(taken + [b], 4))
  {
    var before, after := Last(taken, a.wordCounter), Last(taken + [b], a.wordCounter + 1);
    LastMore(taken, [b], a.wordCounter);
    assert after == before + [b] && after[..a.wordCounter] == before;
    assert Value(after) == a.wordBuffer * 256 + b;
    if a.wordCounter == 3 { ValueOfWord(after); }
  }

  /** Payload bytes that arrive by DMA keep the receiving half in step. */
  lemma {:induction false} BulkGrow(rx: Rx, a: Assembly, progress: nat, taken: seq<byte>, bytes: seq<byte>)
    requires InStep(rx, a, progress, taken) && WordBuffered(a, taken)
    requires Receiving(rx.state) && IsBulkCommand(rx.cmd) && progress + |bytes| <= rx.args[1]
    ensures InStep(rx, a, progress + |bytes|, taken + bytes) && WordBuffered(a, taken + bytes)
    ensures Parse(taken + bytes).ids == Parse(taken).ids && Parse(taken + bytes).commands == Parse(taken).commands
  {
    hide Parse;
    assert Last(taken, 0) == [] && Last(taken + bytes, 0) == [];
    PayloadGrow(taken, bytes, rx.args[1] - progress);
  }

  lemma {:induction false} ChunkFits(state: RxState, cmd: byte, arg1: nat, readLength: nat)
    ensures Chunk(state, cmd, arg1, readLength) <= arg1
  {
  }

  /** What has gone out once these bytes of the current message followed. */
  ghost function Pushed(out: Out, bytes: seq<byte>): Out {
    out.(wire := out.wire + bytes, part := out.part + bytes)
  }

  /** What was on the wire stays there. */
  ghost predicate Grows(before: Out, after: Out) {
    before.wire <= after.wire
  }

  lemma {:induction false} GrowsOn(a: Out, b: Out, c: Out)
    requires Grows(a, b) && Grows(b, c)
    ensures Grows(a, c)
  {
    assert c.wire[..|b.wire|][..|a.wire|] == c.wire[..|a.wire|];
  }

  lemma {:induction false} PushedByte(out: Out, data: word, at: nat, k: nat)
    requires at <= k < 4
    ensures Pushed(Pushed(out, BigEndian(data)[at..k]), [ByteOf(data, 3 - k)]) == Pushed(out, BigEndian(data)[at..k + 1])
    ensures Pushed(out, BigEndian(data)[at..at]) == out
  {
    ByteOfWord(data, at, k);
    hide BigEndian, ByteOf;
    Associative(out.wire, BigEndian(data)[at..k], [ByteOf(data, 3 - k)]);
    Associative(out.part, BigEndian(data)[at..k], [ByteOf(data, 3 - k)]);
  }

  /** How a command without payload ends: never, possibly or always with an error. */
  datatype Outcome = Fine | Reported | Unknown

  datatype Reply = Reply(dataLength: nat, outcome: Outcome)

  const ID_MEMORY_READ: byte := 0x6D
  const ID_UPDATE: byte := 0x46
  const DATA_FLUSHED: byte := 0x47
  const DRAINED := Parcel(DATA_FLUSHED, [], 0)

  /** The answers to the commands without payload, apart from the memory read. */
  function ReplyTo(cmd: char): (r: Reply)
    ensures r.dataLength <= 16 && r.dataLength % 4 == 0
  {
    match cmd
    case 'v' => Reply(4, Fine)
    case 'V' => Reply(8, Fine)
    case 'R' => Reply(0, Fine)
    case 'B' => Reply(0, Fine)
    case 'c' => Reply(4, Reported)
    case 'C' => Reply(0, Reported)
    case 'a' => Reply(4, Reported)
    case 'A' => Reply(0, Reported)
    case 't' => Reply(8, Fine)
    case 'T' => Reply(0, Fine)
    case 'X' => Reply(0, Fine)
    case 'i' => Reply(8, Reported)
    case 'D' => Reply(0, Fine)
    case 'W' => Reply(0, Fine)
    case 'p' => Reply(4, Fine)
    case 'P' => Reply(0, Reported)
    case 'f' => Reply(8, Reported)
    case 'F' => Reply(4, Reported)
    case '?' => Reply(8, Fine)
    case '%' => Reply(16, Fine)
    case _ => Reply(4, Unknown)
  }

  class Usb {
    // ---------- the hardware ----------
    var mem: seq<byte>
    var dma: Dma
    ghost var seen: Seen
    var out: Out // what the host can read, and the record of what it stands for
    ghost var rxEmpty: bool // the host had no byte for the last read
    ghost var txFull: bool  // the FIFO took no byte at the last write

    // ---------- the process ----------
    var lastResetState: bool
    var rx: Rx
    var assembly: Assembly
    var tx: Tx
    var response: Response
    var packet: Queue
    var read: DebugRead
    ghost var accepted: seq<Parcel> // the packets that were accepted since the last reset and not dropped
    var tickets: Tickets // the record of callbacks: which were handed in and which were called

    ghost predicate Valid()
      reads `mem, `dma, `seen, `out, `rx, `assembly, `tx, `response, `packet, `read, `tickets, `accepted
    {
      RxOk(rx, assembly, seen) && RxEngineOk(rx, read, dma, seen) && TxEngineOk(mem, tx, dma, out) &&
      ReadOk(rx, read) && MemoryOk(mem, dma, rx, read, seen) &&
      TxOk(tx, out) && OrderOk(rx, tx, response, seen, out) && TicketsOk(packet, tx, response, tickets) &&
      InfoOk(response, packet) && AnswerOk(rx, response) && AcceptedOk(accepted, out.messages, InHandParcel(tx), WaitingParcel(packet)) &&
      AnswersOk(rx, tx, response, seen, out)
    }

    /** usb_rx_byte: a byte from the host, if one has arrived. */
    method UsbRxByte() returns (ok: bool, data: byte)
      modifies `seen, `rxEmpty
      ensures seen == if ok then old(seen).(taken := old(seen).taken + [data]) else old(seen)
      ensures rxEmpty == !ok
    {
      ok := *;
      data := *;
      rxEmpty := !ok;
      if ok { seen := seen.(taken := seen.taken + [data]); }
    }

    /** usb_tx_byte */
    method UsbTxByte(data: byte) returns (ok: bool)
      modifies `out, `txFull
      ensures out == (if ok then Pushed(old(out), [data]) else old(out)) && txFull == !ok
    {
      ok := *;
      txFull := !ok;
      if ok { out := out.(wire := out.wire + [data], part := out.part + [data]); }
    }

    /** usb_rx_word: a word is put together from bytes of any number of calls. */
    method UsbRxWord() returns (ok: bool, data: word)
      requires WordBuffered(assembly, seen.taken)
      modifies `assembly, `seen, `rxEmpty
      ensures WordBuffered(assembly, seen.taken) && old(seen).taken <= seen.taken && seen == old(seen).(taken := seen.taken)
      ensures assembly.cmdCounter == old(assembly).cmdCounter && assembly.wordCounter < 4 && old(assembly).wordCounter < 4
      ensures |seen.taken| == |old(seen).taken| + (if ok then 4 else assembly.wordCounter) - old(assembly).wordCounter
      ensures ok ==> assembly.wordCounter == 0 && |seen.taken| >= 4 && data == FromBigEndian(Last(seen.taken, 4))
      ensures !ok ==> rxEmpty
    {
      hide FromBigEndian, WordBuffered, ShiftIn;
      WordBufferedIs(assembly, seen.taken);
      data := 0;
      ghost var before := seen.taken;
      var got, tmp := UsbRxByte();
      while got
        invariant old(seen).taken <= before && old(assembly).wordCounter <= assembly.wordCounter < 4
        invariant assembly.cmdCounter == old(assembly).cmdCounter && seen == old(seen).(taken := seen.taken)
        invariant |before| == |old(seen).taken| + assembly.wordCounter - old(assembly).wordCounter
        invariant seen.taken == if got then before + [tmp] else before
        invariant WordBuffered(assembly, before) && rxEmpty == !got
        decreases 4 - assembly.wordCounter
      {
        WordBufferedMore(assembly, before, tmp);
        assembly := assembly.(wordBuffer := ShiftIn(assembly.wordBuffer, tmp), wordCounter := assembly.wordCounter + 1);
        if assembly.wordCounter == 4 {
          data := assembly.wordBuffer;
          assembly := assembly.(wordCounter := 0, wordBuffer := 0);
          NothingBuffered(assembly, seen.taken);
          return true, data;
        }
        before := seen.taken;
        got, tmp := UsbRxByte();
      }
      ok := false;
    }

    /** usb_tx_word */
    method UsbTxWord(data: word) returns (ok: bool)
      requires tx.wordCounter < 4
      modifies `tx, `out, `txFull
      ensures tx == old(tx).(wordCounter := tx.wordCounter) && tx.wordCounter < 4 && (ok ==> tx.wordCounter == 0) && (!ok ==> txFull)
      ensures var from, n := old(tx).wordCounter, if ok then 4 else tx.wordCounter;
        from <= n && out == Pushed(old(out), BigEndian(data)[from..n])
    {
      hide BigEndian, ByteOf, Pushed;
      ghost var before, at := out, tx.wordCounter;
      PushedByte(before, data, at, at);
      var done := UsbTxByte(ByteOf(data, 3 - tx.wordCounter));
      while done
        invariant at <= tx.wordCounter < 4 && tx == old(tx).(wordCounter := tx.wordCounter) && txFull == !done
        invariant out == Pushed(before, BigEndian(data)[at..if done then tx.wordCounter + 1 else tx.wordCounter])
        decreases 4 - tx.wordCounter
      {
        tx := tx.(wordCounter := tx.wordCounter + 1);
        if tx.wordCounter == 4 {
          tx := tx.(wordCounter := 0);
          return true;
        }
        PushedByte(before, data, at, tx.wordCounter);
        done := UsbTxByte(ByteOf(data, 3 - tx.wordCounter));
      }
      ok := false;
    }

    /** usb_rx_cmd: the token is matched byte by byte, over any number of calls. */
    method UsbRxCmd() returns (ok: bool, cmd: byte)
      requires Parse(seen.taken).phase == Scan(assembly.cmdCounter)
      modifies `assembly, `seen, `rxEmpty
      ensures assembly == old(assembly).(cmdCounter := assembly.cmdCounter) && seen == old(seen).(taken := seen.taken)
      ensures ok ==> assembly.cmdCounter == 0
      ensures ok ==> Parse(seen.taken) == Parse(old(seen).taken).(phase := Args(cmd, []), ids := Parse(old(seen).taken).ids + [cmd])
      ensures !ok ==> Parse(seen.taken) == Parse(old(seen).taken).(phase := Scan(assembly.cmdCounter))
      ensures Arrived(old(seen), seen, {})
    {
      hide Parse;
      ghost var start, before := Parse(seen.taken), seen.taken;
      var got, data := UsbRxByte();
      cmd := data;
      while got
        invariant assembly == old(assembly).(cmdCounter := assembly.cmdCounter) && seen == old(seen).(taken := seen.taken)
        invariant seen.taken == if got then before + [data] else before
        invariant Parse(before) == start.(phase := Scan(assembly.cmdCounter)) && |old(seen).taken| <= |before|
        decreases 3 - assembly.cmdCounter
      {
        assert ProperPhase(Parse(before).phase);
        ParseOne(before, data);
        if assembly.cmdCounter == 3 {
          assembly := assembly.(cmdCounter := 0);
          return true, data;
        }
        if data != CommandToken(assembly.cmdCounter) {
          assembly := assembly.(cmdCounter := 0);
          return false, data;
        }
        assembly := assembly.(cmdCounter := assembly.cmdCounter + 1);
        before := seen.taken;
        got, data := UsbRxByte();
      }
      ok := false;
    }

    // ---------- the DMA engine ----------

    /** The engine takes some bytes from the host and puts them into memory. */
    method DmaIn() returns (ghost wrote: set<nat>)
      requires RxOk(rx, assembly, seen) && RxEngineOk(rx, read, dma, seen) && TxEngineOk(mem, tx, dma, out) &&
        MemoryOk(mem, dma, rx, read, seen)
      requires dma.busy && dma.toMemory && TxOk(tx, out)
      modifies `mem, `dma, `seen, `rxEmpty, `out
      ensures RxOk(rx, assembly, seen) && RxEngineOk(rx, read, dma, seen) && TxEngineOk(mem, tx, dma, out) &&
        MemoryOk(mem, dma, rx, read, seen)
      ensures Parse(seen.taken).ids == Parse(old(seen).taken).ids && Parse(seen.taken).commands == Parse(old(seen).taken).commands
      ensures TxOk(tx, out) && out == old(out).(image := out.image)
      ensures old(dma).address <= dma.address <= old(dma).address + old(dma).left
      ensures wrote == Span(old(dma).address, dma.address - old(dma).address) && Leaves(tx, wrote, old(mem), old(out).image, mem, out.image)
      ensures Arrived(old(seen), seen, wrote)
    {
      hide InStep, RxTransfer, TxTransfer, Chunk, InMemory, Arriving, Parse, WordBuffered, Blit, TxOk, TxEngineOk, Kept, Leaves;
      wrote := Span(dma.address, 0);
      NoSpan(dma.address);
      LeavesAll(tx, wrote, mem, out.image);
      var bytes: seq<byte> := *;
      if |bytes| <= dma.left {
        var busy: bool := *;
        busy := busy || |bytes| < dma.left;
        ghost var chunk := Chunk(rx.state, rx.cmd, rx.args[1], read.length);
        BytesIn(rx.state, rx.cmd, rx.dmaRunning, seen.got, seen.length, chunk, dma.left, |bytes|, busy);
        ChunkFits(rx.state, rx.cmd, rx.args[1], read.length);
        BulkGrow(rx, assembly, seen.got, seen.taken, bytes);
        BytesInMemory(mem, dma, Arriving(rx), Target(rx, read), seen.got, seen.taken, bytes, busy);
        KeptIsOk(mem, Blit(mem, dma.address, bytes, 0, |bytes|), tx, dma, out);
        wrote := Span(dma.address, |bytes|);
        NoSpan(dma.address);
        ChangeLeaves(tx, dma, out, mem, Blit(mem, dma.address, bytes, 0, |bytes|), wrote);
        mem := Blit(mem, dma.address, bytes, 0, |bytes|);
        out := Kept(out, mem, tx.info);
        seen := seen.(taken := seen.taken + bytes, got := seen.got + |bytes|);
        NotOutgoing(mem, tx, dma, Dma(busy, true, dma.address + |bytes|, dma.left - |bytes|), out);
        dma := Dma(busy, true, dma.address + |bytes|, dma.left - |bytes|);
      }
    }

    /** The engine puts some bytes of memory on the wire. */
    method DmaOut()
      requires RxEngineOk(rx, read, dma, seen) && TxEngineOk(mem, tx, dma, out) && MemoryOk(mem, dma, rx, read, seen) &&
        TxOk(tx, out)
      requires dma.busy && !dma.toMemory
      modifies `dma, `out, `txFull
      ensures RxEngineOk(rx, read, dma, seen) && TxEngineOk(mem, tx, dma, out) && MemoryOk(mem, dma, rx, read, seen) &&
        TxOk(tx, out)
      ensures out.frames == old(out).frames && out.messages == old(out).messages && Grows(old(out), out) && out.image == old(out).image
    {
      hide RxTransfer, TxTransfer, Chunk, Landed, Arriving, OnWire, AllCarry, Sourced, Target;
      var k: int := *;
      if 0 <= k <= dma.left {
        var busy: bool := *;
        busy := busy || k < dma.left;
        MemoryIs(mem, dma, rx, read, seen);
        var bytes := mem[dma.address..dma.address + k];
        ghost var chunk := Chunk(rx.state, rx.cmd, rx.args[1], read.length);
        NotIncoming(rx.state, rx.cmd, rx.dmaRunning, seen.got, seen.length, chunk, dma.left, dma.left - k);
        BytesOut(tx.state, tx.dmaRunning, |out.sent|, tx.info.dmaLength, dma.left, k, busy);
        DmaOnWire(tx, out.sent, out.part, bytes);
        SourcedMore(mem, tx.state == TxIdle, tx.info.dmaAddress, tx.info.dmaLength, out.sent, out.image, dma.address, bytes, busy);
        Associative(EncodeAll(out.frames), out.part, bytes);
        out := out.(wire := out.wire + bytes, part := out.part + bytes, sent := out.sent + bytes);
        dma := Dma(busy, false, dma.address + k, dma.left - k);
      }
    }

    /** usb_dma_ready, after whatever the engine did since it was last looked at. */
    method UsbDmaReady() returns (ready: bool, ghost wrote: set<nat>)
      requires Valid()
      modifies `mem, `dma, `seen, `rxEmpty, `out, `txFull
      ensures Valid() && ready == !dma.busy && out.frames == old(out).frames && out.messages == old(out).messages &&
        Grows(old(out), out)
      ensures wrote <= Span(old(dma).address, old(dma).left) && Leaves(tx, wrote, old(mem), old(out).image, mem, out.image)
      ensures Arrived(old(seen), seen, wrote)
    {
      hide RxOk, RxEngineOk, TxEngineOk, MemoryOk, TxOk, OrderOk, AnswersOk, TicketsOk, InfoOk, ReadOk, AnswerOk, AcceptedOk, Leaves;
      wrote := {};
      LeavesAll(tx, wrote, mem, out.image);
      if dma.busy {
        ghost var seen0, out0 := seen, out;
        if dma.toMemory { wrote := DmaIn(); } else { DmaOut(); }
        OrderSame(rx, tx, response, seen0, out0, seen, out);
        AnswersSame(rx, tx, response, seen0, out0, rx, tx, response, seen, out);
      }
      ready := !dma.busy;
    }

    // ---------- receiving ----------

    /** RX_STATE_IDLE: a command is only looked for when the last answer is on its way. */
    method RxStart()
      requires Valid() && rx.state == RxIdle
      modifies `rx, `assembly, `seen, `rxEmpty, `response
      ensures Valid() && (rx.state == RxArgs ==> !rx.dmaRunning) && (rx.state == RxIdle || rx.state == RxArgs)
      ensures response.pending == old(response).pending
      ensures Arrived(old(seen), seen, {})
    {
      hide RxOk, RxEngineOk, ReadOk, MemoryOk, TxOk, TxEngineOk, TicketsKept, AcceptedOk, AnswersOk, Parse, Expected, ResponseIds, Latest, Allowed;
      if !response.pending {
        ghost var parser := Parse(seen.taken);
        IdleFacts(rx, assembly, seen);
        var ok, cmd := UsbRxCmd();
        if ok {
          ExpectedOne(parser.ids, cmd);
          rx := Rx(RxArgs, 0, cmd, rx.args, false, false, false);
          response := Response(false, false, response.info.(cmd := cmd, dataLength := 0, dmaLength := 0, callback := NoCallback));
        }
        CommandSeen(old(rx), rx, old(assembly), assembly, old(seen), seen, ok, cmd, mem, dma, read);
        AnswersSame(old(rx), tx, old(response), old(seen), out, rx, tx, response, seen, out);
      }
    }

    /** RX_STATE_ARGS: read until the command is complete or nothing is left to read. */
    method RxArguments()
      requires Valid() && rx.state == RxArgs
      modifies `rx, `assembly, `seen, `rxEmpty
      ensures Valid() && (rx.state == RxData || (rx.state == RxArgs && rxEmpty)) && rx.dmaRunning == old(rx).dmaRunning
      ensures Arrived(old(seen), seen, {}) && (rx.state == RxData ==> |seen.taken| > |old(seen).taken|)
    {
      hide Valid;
      var ok := RxArgument();
      while ok && rx.state == RxArgs
        invariant Arrived(old(seen), seen, {}) && (ok || rx.state == RxData ==> |seen.taken| > |old(seen).taken|)
        invariant Valid() && rx.dmaRunning == old(rx).dmaRunning && (rx.state == RxArgs ==> rx.counter < 2) && (rx.state == RxArgs || rx.state == RxData) && (!ok ==> rxEmpty)
        decreases if ok && rx.state == RxArgs then 2 - rx.counter else 0
      {
        ok := RxArgument();
      }
    }

    /** One more argument word; after the second the command is complete. */
    method RxArgument() returns (ok: bool)
      requires Valid() && rx.state == RxArgs
      modifies `rx, `assembly, `seen, `rxEmpty
      ensures Valid() && (rx.state == RxArgs || rx.state == RxData) && rx.dmaRunning == old(rx).dmaRunning
      ensures rx.state == RxArgs ==> rx.counter < 2 && (ok ==> rx.counter == old(rx).counter + 1)
      ensures !ok ==> rxEmpty
      ensures Arrived(old(seen), seen, {}) && (ok ==> |seen.taken| > |old(seen).taken|) && (rx.state == RxData ==> ok)
    {
      hide Parse, AnswersOk, Expected, ResponseIds, TicketsKept, AcceptedOk, TxOk, TxEngineOk, Landed, Chunk, InStep, WordBuffered, FromBigEndian;
      ghost var a, taken := assembly, seen.taken;
      StepFacts(rx, assembly, Progress(rx, seen), seen.taken);
      var word;
      ok, word := UsbRxWord();
      ArgumentRead(rx, a, assembly, taken, seen.taken, ok, word);
      ghost var next := WithArgument(rx, ok, word);
      if ok {
        assert rx.args[rx.counter := word] == if rx.counter == 0 then [word, rx.args[1]] else [rx.args[0], word];
        rx := rx.(args := rx.args[rx.counter := word], counter := rx.counter + 1);
        if rx.counter == 2 {
          rx := rx.(counter := 0, state := RxData);
        }
      }
      assert rx == next;
      if rx.state == RxData {
        AnswersAsked(old(rx), tx, response, old(seen), out, rx, seen, Latest(seen.taken));
      } else {
        AnswersSame(old(rx), tx, response, old(seen), out, rx, tx, response, seen, out);
      }
    }

    /** The end of a command: its answer waits to be sent. */
    method Answer(error: bool, dataLength: nat, data: seq<word>, dmaLength: nat, dmaAddress: nat, callback: Callback)
      requires Valid() && Receiving(rx.state) && rx.cmd != ID_USB_WRITE && !(dma.busy && dma.toMemory)
      requires LeftOf(rx.cmd, rx.args[1], Progress(rx, seen), assembly.wordCounter) == 0 && assembly.wordCounter == 0
      requires |data| == 4 && dataLength <= 16 && dataLength % 4 == 0 && dmaAddress + dmaLength <= MEMORY_LENGTH &&
        !callback.PacketDone?
      requires Parse(seen.taken).commands != [] && Latest(seen.taken).id == rx.cmd
      requires Right(Latest(seen.taken), Verdict(rx.cmd, error, dataLength + dmaLength))
      modifies `rx, `response
      ensures Valid() && rx == old(rx).(state := RxIdle)
      ensures response == Response(true, error, TxInfo(rx.cmd, dataLength, data, dmaLength, dmaAddress, callback))
      ensures Right(Latest(seen.taken), InfoVerdict(response.error, response.info))
    {
      hide Parse, AnswersOk, Expected, ResponseIds, TicketsKept, AcceptedOk, TxOk, TxEngineOk, Landed, Chunk, WordBuffered;
      rx := rx.(state := RxIdle);
      response := Response(true, error, TxInfo(rx.cmd, dataLength, data, dmaLength, dmaAddress, callback));
      AnswersGiven(old(rx), tx, old(response), seen, out, rx, response);
    }

    /** Somebody other than the engine writes memory; bytes that have just come in stay. */
    method MemoryChanges(m: seq<byte>)
      requires Valid() && |m| == |mem|
      requires |rx.args| == 2 && (Arriving(rx) ==> forall j :: 0 <= j < |m| && Target(rx, read) <= j < Target(rx, read) + seen.got ==> m[j] == mem[j])
      modifies `mem, `out
      ensures Valid() && mem == m && out == Kept(old(out), m, tx.info) == old(out).(image := out.image)
      ensures out.image == old(out).image || out.image == None
      ensures Leaves(tx, Changed(old(mem), mem), old(mem), old(out).image, mem, out.image)
    {
      hide RxOk, RxEngineOk, TxEngineOk, TxOk, TicketsOk, InfoOk, ReadOk, AnswerOk, Kept, Parse, AnswersOk, Expected, ResponseIds, AcceptedOk,
        Target, Arriving, Leaves;
      ChangeLeaves(tx, dma, out, mem, m, Changed(mem, m));
      KeptIsOk(mem, m, tx, dma, out);
      StillLanded(mem, m, dma, rx, read, seen);
      KeptImage(out, m, tx.info);
      mem := m;
      out := Kept(out, m, tx.info);
      AnswersSame(rx, tx, response, seen, old(out), rx, tx, response, seen, out);
    }

    /** The place in memory an arriving payload is written to. */
    predicate Reserved(address: nat, length: nat)
      requires |rx.args| == 2
      reads `rx, `read
    {
      Arriving(rx) && address < Target(rx, read) + Chunk(rx.state, rx.cmd, rx.args[1], read.length) &&
      Target(rx, read) < address + length
    }

    /** The console writes memory, but not where a payload is arriving. */
    method ConsoleWrites(address: nat, data: seq<byte>)
      requires Valid() && |rx.args| == 2 && |mem| == ADDRESSES && address + |data| <= ADDRESSES && !Reserved(address, |data|)
      modifies `mem, `out
      ensures Valid() && mem == Blit(old(mem), address, data, 0, |data|) && out == old(out).(image := out.image) &&
        Grows(old(out), out)
      ensures old(out).image.Some? && (address + |data| <= tx.info.dmaAddress || tx.info.dmaAddress + tx.info.dmaLength <= address) && tx.state != TxIdle ==>
        out.image == old(out).image
      ensures out.image == old(out).image || out.image == None
      ensures Leaves(tx, Span(address, |data|), old(mem), old(out).image, mem, out.image)
    {
      hide Valid, Kept, Target, Arriving, Blit, Reserved, ImageOf, Leaves;
      var m := Blit(mem, address, data, 0, |data|);
      Elsewhere(address, |data|, m);
      ImageStays(address, |data|, m);
      LeavesMore(tx, Changed(mem, m), Span(address, |data|), mem, out.image, m, Kept(out, m, tx.info).image);
      MemoryChanges(m);
    }

    lemma {:induction false} Elsewhere(address: nat, n: nat, m: seq<byte>)
      requires Valid() && |rx.args| == 2 && !Reserved(address, n) && |m| == |mem|
      requires forall j :: 0 <= j < |mem| && !(address <= j < address + n) ==> m[j] == mem[j]
      ensures Arriving(rx) ==> forall j :: 0 <= j < |m| && Target(rx, read) <= j < Target(rx, read) + seen.got ==> m[j] == mem[j]
    {
      hide RxOk, TxEngineOk, MemoryOk, TxOk, OrderOk, AnswersOk, TicketsOk, InfoOk, ReadOk, AnswerOk, AcceptedOk, Chunk, Target;
    }

    lemma {:induction false} ImageStays(address: nat, n: nat, m: seq<byte>)
      requires Valid() && |m| == |mem| && forall j :: 0 <= j < |mem| && !(address <= j < address + n) ==> m[j] == mem[j]
      ensures out.image.Some? && tx.state != TxIdle && (address + n <= tx.info.dmaAddress || tx.info.dmaAddress + tx.info.dmaLength <= address) ==>
        Kept(out, m, tx.info) == out
    {
      if tx.state != TxIdle && out.image.Some? {
        ImageFits();
        hide Valid, Kept, ImageOf;
        ImageKept(mem, m, out, tx.info, address, n);
      }
    }

    lemma {:induction false} ImageFits()
      requires Valid() && tx.state != TxIdle && out.image.Some?
      ensures out.image == ImageOf(mem, tx.info)
    {
      hide RxOk, RxEngineOk, MemoryOk, TxOk, OrderOk, AnswersOk, TicketsOk, InfoOk, ReadOk, AnswerOk, AcceptedOk, TxTransfer;
    }

    lemma {:induction false} RxFacts()
      requires Valid()
      ensures |rx.args| == 2 && |mem| == ADDRESSES
    {
      hide RxOk, TxEngineOk, TxOk, OrderOk, AnswersOk, TicketsOk, InfoOk, ReadOk, AnswerOk, AcceptedOk, Landed, Target;
    }

    /** What the rest of the firmware does for a command: it may write memory, fail, and give words for the answer. */
    method Execute() returns (error: bool, words: seq<word>, ghost wrote: set<nat>)
      requires Valid() && rx.state == RxData && !rx.dmaRunning && |rx.args| == 2
      modifies `mem, `out
      ensures Valid() && |words| == 4 && Grows(old(out), out) && out.messages == old(out).messages && out == old(out).(image := out.image)
      ensures |mem| == |old(mem)| && wrote == Changed(old(mem), mem) && Leaves(tx, wrote, old(mem), old(out).image, mem, out.image)
    {
      hide Valid, Kept, Leaves;
      LeavesAll(tx, Changed(mem, mem), mem, out.image);
      error := *;
      var w: seq<word> := *;
      words := if |w| == 4 then w else [0, 0, 0, 0];
      var m: seq<byte> := *;
      if |m| == |mem| { MemoryChanges(m); }
      wrote := Changed(old(mem), mem);
    }

    /** RX_STATE_DATA for the commands that need no payload. */
    method RxSimple() returns (ghost wrote: set<nat>)
      requires Valid() && rx.state == RxData && !IsBulkCommand(rx.cmd) && !IsSdCommand(rx.cmd)
      modifies `rx, `response, `mem, `out
      ensures Valid() && rx == old(rx).(state := RxIdle) && response.pending && response.info.cmd == rx.cmd &&
        Grows(old(out), out) && out.messages == old(out).messages
      ensures response.pending && !old(response).pending ==> Right(Latest(seen.taken), InfoVerdict(response.error, response.info))
      ensures |rx.args| == 2 && |response.info.data| == 4
      ensures rx.cmd == ID_MEMORY_READ ==> (response.error <==> Rejected(rx.args[0], rx.args[1], false))
      ensures rx.cmd == ID_MEMORY_READ && !response.error ==> response.info.dmaAddress == rx.args[0] && response.info.dmaLength == rx.args[1]
      ensures rx.cmd != ID_MEMORY_READ ==> response.info.dmaLength == 0 && response.info.dataLength == ReplyTo(rx.cmd as char).dataLength
      ensures rx.cmd != ID_MEMORY_READ && ReplyTo(rx.cmd as char).outcome == Fine ==> !response.error
      ensures rx.cmd != ID_MEMORY_READ && ReplyTo(rx.cmd as char).outcome == Unknown ==> response.error && response.info.data[0] == 0xFFFF_FFFF
      ensures |mem| == |old(mem)| && wrote == Changed(old(mem), mem) && Leaves(tx, wrote, old(mem), old(out).image, mem, out.image)
    {
      hide Valid, ReplyTo, LeftOf, IsBulkCommand, IsSdCommand, Leaves;
      SimpleFacts();
      var error, words;
      error, words, wrote := Execute();
      SimpleFacts();
      if rx.cmd == ID_MEMORY_READ {
        RxMemoryRead(words);
      } else {
        var reply := ReplyTo(rx.cmd as char);
        var failed := reply.outcome == Unknown || (reply.outcome == Reported && error);
        if reply.outcome == Unknown { words := words[0 := 0xFFFF_FFFF]; }
        ReplyRight(Latest(seen.taken), failed);
        Answer(failed, reply.dataLength, words, 0, 0, if rx.cmd == ID_UPDATE && !failed then UpdateStart else NoCallback);
      }
    }

    lemma {:induction false} SimpleFacts()
      requires Valid() && rx.state == RxData && !IsBulkCommand(rx.cmd) && !IsSdCommand(rx.cmd)
      ensures |rx.args| == 2 && !rx.dmaRunning && !(dma.busy && dma.toMemory) && rx.cmd != ID_USB_WRITE
      ensures LeftOf(rx.cmd, rx.args[1], Progress(rx, seen), assembly.wordCounter) == 0 && assembly.wordCounter == 0
      ensures Parse(seen.taken).commands != [] && Latest(seen.taken) == Command(rx.cmd, rx.args[0], rx.args[1])
    {
      hide Parse, TxOk, TxEngineOk, MemoryOk, OrderOk, AnswersOk, TicketsOk, InfoOk, WordBuffered;
    }

    /** 'm': the answer carries memory, if the range is allowed. */
    method RxMemoryRead(words: seq<word>)
      requires Valid() && rx.state == RxData && rx.cmd == ID_MEMORY_READ && |words| == 4
      modifies `rx, `response
      ensures Valid() && rx == old(rx).(state := RxIdle)
      ensures response.pending && response.info.cmd == rx.cmd && response.info.dataLength == 0 && |response.info.data| == 4
      ensures |rx.args| == 2 && (response.error <==> Rejected(rx.args[0], rx.args[1], false))
      ensures !response.error ==> response.info.dmaAddress == rx.args[0] && response.info.dmaLength == rx.args[1]
      ensures Right(Latest(seen.taken), InfoVerdict(response.error, response.info))
    {
      hide Valid;
      SimpleFacts();
      RejectedExactly(rx.args[0], rx.args[1], false);
      if Rejected(rx.args[0], rx.args[1], false) {
        Answer(true, 0, words, 0, 0, NoCallback);
      } else {
        Answer(false, 0, words, rx.args[1], rx.args[0], NoCallback);
      }
    }

    /** 's' and 'S': one payload word, the sector, and then the sectors are moved or an error is found. */
    method RxSectors() returns (ghost wrote: set<nat>)
      requires Valid() && rx.state == RxData && IsSdCommand(rx.cmd)
      modifies `rx, `assembly, `seen, `rxEmpty, `response, `mem, `out
      ensures Valid() && Grows(old(out), out) && out.messages == old(out).messages
      ensures (rx == old(rx) && rxEmpty) || (rx == old(rx).(state := RxIdle) && response.pending)
      ensures response.pending && !old(response).pending ==> Right(Latest(seen.taken), InfoVerdict(response.error, response.info))
      ensures rx.state == RxIdle ==> |rx.args| == 2 && response.info.dataLength == 4
      ensures rx.state == RxIdle && (rx.args[1] >= 0x80_0000 || Rejected(rx.args[0], rx.args[1] * 512, true)) ==> response.error
      ensures |mem| == |old(mem)| && wrote == Changed(old(mem), mem) && Leaves(tx, wrote, old(mem), old(out).image, mem, out.image)
      ensures Arrived(old(seen), seen, wrote)
    {
      hide Parse, AnswersOk, Expected, ResponseIds, TicketsKept, AcceptedOk, TxOk, TxEngineOk, Landed, Chunk, InStep, WordBuffered, FromBigEndian, Leaves;
      LeavesAll(tx, Changed(mem, mem), mem, out.image);
      SectorFacts();
      ghost var a, taken := assembly, seen.taken;
      var ok, sector := UsbRxWord();
      SectorRead(rx, a, assembly, taken, seen.taken, ok);
      ghost var c := Latest(seen.taken);
      if ok {
        var error: bool := *;
        var refused := rx.args[1] >= 0x80_0000 || Rejected(rx.args[0], rx.args[1] * 512, true);
        rx := rx.(state := RxIdle);
        response := Response(true, error || refused, response.info.(dataLength := 4));
        SectorsRight(c, error || refused);
        AnswersSame(old(rx), tx, old(response), old(seen), out, old(rx), tx, old(response), seen, out);
        AnswersGiven(old(rx), tx, old(response), seen, out, rx, response);
        if !refused { SectorsMoved(); }
      } else {
        AnswersSame(rx, tx, response, old(seen), out, rx, tx, response, seen, out);
      }
      wrote := Changed(old(mem), mem);
    }

    /** The sectors go to the card or come from it. */
    method SectorsMoved()
      requires Valid() && rx.state == RxIdle && |rx.args| == 2
      modifies `mem, `out
      ensures Valid() && Grows(old(out), out) && out.messages == old(out).messages
      ensures |mem| == |old(mem)| && Leaves(tx, Changed(old(mem), mem), old(mem), old(out).image, mem, out.image)
    {
      hide Valid, Kept, Leaves;
      LeavesAll(tx, Changed(mem, mem), mem, out.image);
      var m: seq<byte> := *;
      if |m| == |mem| { MemoryChanges(m); }
    }

    lemma {:induction false} SectorFacts()
      requires Valid() && rx.state == RxData && IsSdCommand(rx.cmd)
      ensures |rx.args| == 2 && !rx.dmaRunning && !(dma.busy && dma.toMemory) && rx.cmd != ID_USB_WRITE
      ensures Parse(seen.taken).commands != [] && Latest(seen.taken) == Command(rx.cmd, rx.args[0], rx.args[1])
      ensures response.info.dmaLength == 0 && response.info.cmd == rx.cmd && !response.pending
    {
      hide Parse, TxOk, TxEngineOk, MemoryOk, OrderOk, AnswersOk, TicketsOk, InfoOk, WordBuffered;
    }

    /** Programs the engine for a transfer to memory; it must be free. */
    method StartIn(address: nat, length: nat)
      requires Valid() && Receiving(rx.state) && IsBulkCommand(rx.cmd) && !rx.dmaRunning && !dma.busy
      requires 0 < length == Chunk(rx.state, rx.cmd, rx.args[1], read.length) && address + length <= ADDRESSES
      requires |rx.args| == 2 && address == Target(rx, read)
      requires rx.state == RxData && rx.cmd == ID_MEMORY_WRITE ==> Allowed(Latest(seen.taken).arg0, Latest(seen.taken).arg1, true)
      modifies `dma, `rx, `read, `seen, `rxEmpty
      ensures Valid() && rx == old(rx).(dmaRunning := true) && dma.busy && seen.taken == old(seen).taken
    {
      hide InStep, Parse, AnswersOk, Expected, ResponseIds, TicketsKept, AcceptedOk, TxOk, Chunk, WordBuffered;
      dma := Dma(true, true, address, length);
      seen := seen.(got := 0, length := length);
      rx := rx.(dmaRunning := true);
      if rx.state == RxData && rx.cmd == ID_USB_WRITE { read := read.(ready := false); }
      SameStep(old(rx), rx, assembly, 0, seen.taken);
      GuardedIs(old(rx), tx, response, old(seen), out);
      AnswersSame(old(rx), tx, response, old(seen), out, rx, tx, response, seen, out);
    }

    /** 'M': the payload goes to memory, or is drained when the range is not allowed. */
    method RxMemoryWrite() returns (ghost wrote: set<nat>)
      requires Valid() && rx.state == RxData && rx.cmd == ID_MEMORY_WRITE
      modifies `rx, `response, `mem, `dma, `seen, `rxEmpty, `out, `txFull, `read
      ensures Valid() && |rx.args| == 2 && rx.args == old(rx).args && Grows(old(out), out) && out.messages == old(out).messages
      ensures rx.state == RxFlush ==> !Allowed(rx.args[0], rx.args[1], true)
      ensures rx.state == RxIdle || rx.dmaRunning ==> Allowed(rx.args[0], rx.args[1], true)
      ensures rx.state == RxIdle ==> response == Response(true, false, response.info) && Landed(mem, rx.args[0], rx.args[1], seen.taken)
      ensures rx.state == RxIdle || (rx.state == RxFlush && !rx.dmaRunning) || (rx.state == RxData && dma.busy)
      ensures rx.cmd == old(rx).cmd
      ensures response.pending && !old(response).pending ==> Right(Latest(seen.taken), InfoVerdict(response.error, response.info))
      ensures wrote <= Span(old(dma).address, old(dma).left) && Leaves(tx, wrote, old(mem), old(out).image, mem, out.image)
      ensures Arrived(old(seen), seen, wrote)
    {
      hide Valid, Landed, Leaves;
      BulkFacts();
      var ready;
      ready, wrote := UsbDmaReady();
      BulkFacts();
      WriteFacts();
      if ready {
        if !rx.dmaRunning {
          AllowedExactly(rx.args[0], rx.args[1], true);
          if Rejected(rx.args[0], rx.args[1], true) {
            ToFlush(true, false);
          } else {
            hide Rejected;
            StartIn(rx.args[0], rx.args[1]);
          }
        } else {
          Answer(false, 0, response.info.data, 0, 0, NoCallback);
        }
      }
    }

    /** What the invariants say of a command with a long payload. */
    lemma {:induction false} BulkFacts()
      requires Valid() && Receiving(rx.state) && IsBulkCommand(rx.cmd)
      ensures |rx.args| == 2 && assembly.wordCounter == 0 && (dma.busy && dma.toMemory ==> rx.dmaRunning)
      ensures rx.dmaRunning && !dma.busy ==>
        0 < seen.got == seen.length == Chunk(rx.state, rx.cmd, rx.args[1], read.length) <= rx.args[1] &&
        LeftOf(rx.cmd, rx.args[1], Progress(rx, seen), assembly.wordCounter) == rx.args[1] - seen.got
      ensures rx.dmaRunning && !dma.busy ==> Landed(mem, Target(rx, read), seen.got, seen.taken)
      ensures rx.state == RxData && rx.cmd == ID_MEMORY_WRITE && rx.dmaRunning && !dma.busy ==> seen.got == rx.args[1]
      ensures read.address + read.length <= ADDRESSES && |response.info.data| == 4
      ensures read.ready <==> !(rx.state == RxData && rx.cmd == ID_USB_WRITE && rx.dmaRunning)
    {
      hide Parse, TxOk, TxEngineOk, OrderOk, AnswersOk, TicketsOk, WordBuffered, Landed;
    }

    /** What the invariants say of the command whose payload is under way. */
    lemma {:induction false} WriteFacts()
      requires Valid() && Receiving(rx.state) && rx.cmd == ID_MEMORY_WRITE
      ensures |rx.args| == 2 && Parse(seen.taken).commands != [] && Latest(seen.taken).id == rx.cmd
      ensures rx.state == RxData ==> Latest(seen.taken) == Command(rx.cmd, rx.args[0], rx.args[1])
      ensures rx.state == RxData && rx.dmaRunning ==> Allowed(rx.args[0], rx.args[1], true)
      ensures rx.state == RxFlush ==> !Allowed(Latest(seen.taken).arg0, Latest(seen.taken).arg1, true)
    {
      hide RxEngineOk, TxOk, TxEngineOk, ReadOk, MemoryOk, OrderOk, TicketsOk, InfoOk, AnswerOk, AcceptedOk, Parse, WordBuffered, AllRight, Allowed;
    }

    /** The rest of the payload is thrown away. */
    method ToFlush(forResponse: bool, forPacket: bool)
      requires Valid() && rx.state == RxData && IsBulkCommand(rx.cmd) && !rx.dmaRunning && !(dma.busy && dma.toMemory)
      requires forResponse == (rx.cmd == ID_MEMORY_WRITE) && forPacket == (rx.cmd == ID_USB_WRITE)
      requires rx.cmd == ID_MEMORY_WRITE ==> !Allowed(Latest(seen.taken).arg0, Latest(seen.taken).arg1, true)
      modifies `rx
      ensures Valid() && rx == old(rx).(state := RxFlush, flushResponse := forResponse, flushPacket := forPacket)
    {
      hide Parse, AnswersOk, Expected, ResponseIds, TicketsKept, AcceptedOk, TxOk, TxEngineOk, Chunk, WordBuffered, Landed;
      rx := rx.(state := RxFlush, flushResponse := forResponse, flushPacket := forPacket);
      AnswersSame(old(rx), tx, response, seen, out, rx, tx, response, seen, out);
    }

    /** A finished piece of a debug write; its length, worked out again, is the one that was programmed. */
    method FinishRead(length: nat)
      requires |rx.args| == 2 && length == (if read.length > rx.args[1] then rx.args[1] else read.length)
      requires Valid() && rx.state == RxData && rx.cmd == ID_USB_WRITE && rx.dmaRunning && !dma.busy
      modifies `rx, `read
      ensures rx == old(rx).(args := [old(rx).args[0], old(rx).args[1] - length], dmaRunning := false)
      ensures read == DebugRead(true, old(read).length - length, old(read).address + length)
      ensures Valid() && length == seen.length == seen.got && Landed(mem, old(read).address, length, seen.taken)
    {
      BulkFacts();
      Finished(rx, read, dma, seen, length);
      hide Parse, AnswersOk, Expected, ResponseIds, AcceptedOk, RxEngineOk, TicketsOk, TxOk, TxEngineOk, InMemory, WordBuffered, InStep, InfoOk, Min;
      CountedDown(rx, assembly, length, seen.taken);
      rx := rx.(args := [rx.args[0], rx.args[1] - length], dmaRunning := false);
      read := DebugRead(true, read.length - length, read.address + length);
      StillInMemory(mem, dma, seen);
      AnswersSame(old(rx), tx, response, seen, out, rx, tx, response, seen, out);
    }

    /** A finished piece of a payload that is thrown away. */
    method FinishDrain(length: nat)
      requires Valid() && rx.state == RxFlush && rx.dmaRunning && !dma.busy && |rx.args| == 2
      requires length == Min(rx.args[1], FLUSH_LENGTH)
      modifies `rx
      ensures Valid() && length == seen.length == seen.got
      ensures rx == old(rx).(args := [old(rx).args[0], old(rx).args[1] - length], dmaRunning := false)
    {
      hide RxOk, RxEngineOk, TxEngineOk, ReadOk, MemoryOk, TxOk, OrderOk, AnswersOk, TicketsOk, InfoOk, AnswerOk, AcceptedOk;
      ghost var next := rx.(args := [rx.args[0], rx.args[1] - length], dmaRunning := false);
      Drained(rx, next, assembly, seen, mem, dma, read, tx, response, out, length);
      GuardedIs(rx, tx, response, seen, out);
      AnswersSame(rx, tx, response, seen, out, next, tx, response, seen, out);
      rx := rx.(args := [rx.args[0], rx.args[1] - length], dmaRunning := false);
      assert rx == next;
    }

    /** 'U': the payload is fetched in the pieces the console asks for, and drained when it stops asking. */
    method RxUsbWrite() returns (ghost wrote: set<nat>)
      requires Valid() && rx.state == RxData && rx.cmd == ID_USB_WRITE
      modifies `rx, `mem, `dma, `seen, `rxEmpty, `out, `txFull, `read
      ensures Valid() && Grows(old(out), out) && out.messages == old(out).messages
      ensures rx.state == RxIdle || rx.state == RxData || (rx.state == RxFlush && !rx.dmaRunning)
      ensures rx.cmd == old(rx).cmd && (rx.state == RxIdle <==> |old(rx).args| == 2 && old(rx).args[1] == 0)
      ensures |rx.args| == 2 == |old(rx).args| && rx.args[1] <= old(rx).args[1]
      ensures rx.args[1] < old(rx).args[1] ==> read.address == old(read).address + (old(rx).args[1] - rx.args[1])
      ensures rx.args[1] < old(rx).args[1] ==> Landed(mem, old(read).address, old(rx).args[1] - rx.args[1], seen.taken)
      ensures rx.state == RxData ==> dma.busy || read.length == 0 || PieceDone(old(rx), rx)
      ensures wrote <= Span(old(dma).address, old(dma).left) && Leaves(tx, wrote, old(mem), old(out).image, mem, out.image)
      ensures Arrived(old(seen), seen, wrote)
    {
      hide Valid, Leaves, Landed, Span, LeftOf;
      wrote := {};
      LeavesAll(tx, wrote, mem, out.image);
      BulkFacts();
      if rx.args[1] == 0 {
        NothingLeft();
      } else {
        var ready;
        ready, wrote := UsbDmaReady();
        BulkFacts();
        if ready {
          if read.length > 0 {
            var length := if read.length > rx.args[1] then rx.args[1] else read.length;
            if !rx.dmaRunning {
              StartIn(read.address, length);
            } else {
              FinishRead(length);
            }
          } else {
            var elapsed: bool := *;
            if elapsed { ToFlush(false, true); }
          }
        }
      }
    }

    /** A debug write without payload needs no answer. */
    method NothingLeft()
      requires Valid() && Receiving(rx.state) && rx.cmd == ID_USB_WRITE && |rx.args| == 2 && rx.args[1] == 0
      modifies `rx
      ensures Valid() && rx == old(rx).(state := RxIdle)
    {
      hide Parse, AnswersOk, Expected, ResponseIds, TicketsKept, AcceptedOk, TxOk, TxEngineOk, WordBuffered, Landed;
      rx := rx.(state := RxIdle);
      AnswersSame(old(rx), tx, response, seen, out, rx, tx, response, seen, out);
    }

    /** usb_enqueue_packet: one packet can wait. */
    method UsbEnqueuePacket(info: TxInfo) returns (ok: bool)
      requires Valid() && UsbState.ProperInfo(info) &&
        (info.callback == NoCallback || info.callback == PacketDone(tickets.issued))
      modifies `packet, `tickets, `accepted
      ensures Valid() && ok == !old(packet).pending
      ensures packet == if ok then Queue(true, info) else old(packet)
      ensures accepted == if ok then old(accepted) + [ParcelOf(info)] else old(accepted)
      ensures tickets.ran == old(tickets).ran && tickets.issued == old(tickets).issued + if ok && info.callback != NoCallback then 1 else 0
    {
      hide RxOk, RxEngineOk, TxEngineOk, ReadOk, MemoryOk, TxOk, OrderOk, AnswersOk, AnswerOk;
      if packet.pending { return false; }
      accepted := accepted + [ParcelOf(info)];
      packet := Queue(true, info);
      if info.callback != NoCallback { tickets := tickets.(issued := tickets.issued + 1); }
      ok := true;
    }

    /** usb_prepare_read: refused while a transfer for the last request runs. */
    method UsbPrepareRead(address: nat, length: nat) returns (ok: bool)
      requires Valid() && address + length <= ADDRESSES
      modifies `read
      ensures Valid() && ok == old(read).ready && read == if ok then DebugRead(true, length, address) else old(read)
    {
      hide InStep, TxEngineOk, MemoryOk, TxOk, OrderOk, AnswersOk, AnswerOk, TicketsOk, InfoOk, Parse, WordBuffered, AcceptedOk;
      if !read.ready { return false; }
      OtherPlace(mem, dma, rx, read, DebugRead(true, length, address), seen);
      read := DebugRead(true, length, address);
      ok := true;
    }

    /** RX_STATE_FLUSH: a payload nobody wants is thrown away in pieces of 1 MiB. */
    method RxDrain() returns (ghost wrote: set<nat>)
      requires Valid() && rx.state == RxFlush
      modifies `rx, `response, `mem, `dma, `seen, `rxEmpty, `out, `txFull, `read, `packet, `tickets, `accepted
      ensures Valid() && (rx.state == RxIdle || rx.state == RxFlush) && Grows(old(out), out) && out.messages == old(out).messages
      ensures (old(packet).pending ==> packet == old(packet)) && tickets == old(tickets)
      ensures packet == old(packet) || packet.info.cmd == DATA_FLUSHED
      ensures rx.state == RxFlush ==> dma.busy || packet.pending || PieceDone(old(rx), rx)
      ensures response.pending && !old(response).pending ==> Right(Latest(seen.taken), InfoVerdict(response.error, response.info))
      ensures wrote <= Span(old(dma).address, old(dma).left) && Leaves(tx, wrote, old(mem), old(out).image, mem, out.image)
      ensures Arrived(old(seen), seen, wrote)
      ensures accepted == old(accepted) || accepted == old(accepted) + [DRAINED]
    {
      hide Valid, Leaves, Right, Allowed, Latest, LeftOf, Landed;
      wrote := {};
      LeavesAll(tx, wrote, mem, out.image);
      DrainFacts();
      if rx.args[1] > 0 {
        var ready;
        ready, wrote := UsbDmaReady();
        BulkFacts();
        if ready {
          var length := if rx.args[1] > FLUSH_LENGTH then FLUSH_LENGTH else rx.args[1];
          if !rx.dmaRunning {
            StartIn(FLUSH_ADDRESS, length);
          } else {
            FinishDrain(length);
          }
        }
      }
      DrainFacts();
      if rx.args[1] == 0 {
        if rx.flushResponse {
          WriteFacts();
          WriteRight(Latest(seen.taken), true);
          Answer(true, 0, response.info.data, 0, 0, NoCallback);
        } else if rx.flushPacket {
          var info := TxInfo(DATA_FLUSHED, 0, [0, 0, 0, 0], 0, 0, NoCallback);
          var ok := UsbEnqueuePacket(info);
          if ok { NothingLeft(); }
        }
      }
    }

    lemma {:induction false} DrainFacts()
      requires Valid() && rx.state == RxFlush
      ensures |rx.args| == 2 && IsBulkCommand(rx.cmd) && |response.info.data| == 4 &&
        rx.flushResponse == (rx.cmd == ID_MEMORY_WRITE)
      ensures rx.cmd == ID_USB_WRITE ==> rx.flushPacket
      ensures rx.args[1] == 0 ==> !rx.dmaRunning && !(dma.busy && dma.toMemory) && assembly.wordCounter == 0
      ensures rx.args[1] == 0 ==> LeftOf(rx.cmd, rx.args[1], Progress(rx, seen), assembly.wordCounter) == 0
    {
      hide Parse, TxOk, TxEngineOk, OrderOk, AnswersOk, TicketsOk, WordBuffered, Landed;
    }

    // ---------- sending ----------

    lemma {:induction false} ArgsFacts()
      requires Valid() && rx.state == RxArgs
      ensures !rx.dmaRunning
    {
      hide Parse, RxEngineOk, TxOk, TxEngineOk, MemoryOk, OrderOk, AnswersOk, TicketsOk, InfoOk, ReadOk, AnswerOk, AcceptedOk, WordBuffered;
    }

    /** TX_STATE_IDLE: an answer goes first, then the waiting packet. */
    method TxStart()
      requires Valid() && tx.state == TxIdle
      modifies `tx, `response, `packet, `out, `txFull
      ensures Valid() && out.frames == old(out).frames && out.messages == old(out).messages && Grows(old(out), out)
      ensures old(response).pending ==> MessageIs(tx, if old(response).error then ERR_TOKEN else CMP_TOKEN, old(response).info) && packet == old(packet)
      ensures !old(response).pending && old(packet).pending ==> MessageIs(tx, PKT_TOKEN, old(packet).info) && !packet.pending
      ensures !old(response).pending && !old(packet).pending ==> tx == old(tx)
      ensures packet == if old(response).pending then old(packet) else old(packet).(pending := false)
      ensures old(response).pending || old(packet).pending ==> out.image == ImageOf(mem, tx.info) && out.image.Some?
    {
      hide RxOk, RxEngineOk, ReadOk, MemoryOk, Parse, AnswersOk, Expected, ResponseIds, TicketsKept, AcceptedOk, TxOk, TxEngineOk;
      RxFacts();
      Latch(mem, tx, dma, response.info, if response.error then ERR_TOKEN else CMP_TOKEN, out);
      if packet.pending { Latch(mem, tx, dma, packet.info, PKT_TOKEN, out); }
      TicketMoves(tickets, Queued(packet), response.info.callback);
      if packet.pending { ParcelMoves(accepted, out.messages, [], packet); }
      if response.pending {
        response := response.(pending := false);
        tx := Tx(TxToken, 0, response.info, if response.error then ERR_TOKEN else CMP_TOKEN, false, tx.wordCounter);
        out := out.(sent := [], image := ImageOf(mem, tx.info));
      } else if packet.pending {
        packet := packet.(pending := false);
        tx := Tx(TxToken, 0, packet.info, PKT_TOKEN, false, tx.wordCounter);
        out := out.(sent := [], image := ImageOf(mem, tx.info));
      }
      AnswersSame(rx, old(tx), old(response), seen, old(out), rx, tx, response, seen, out);
    }

    /** Sends (the rest of) one word of the leader. */
    method TxLeader(word: word) returns (ok: bool)
      requires TxOk(tx, out) && (tx.state == TxToken || (tx.state == TxData && tx.counter < tx.info.dataLength / 4))
      requires LeaderWord(tx, word)
      modifies `tx, `out, `txFull
      ensures out.frames == old(out).frames && out.messages == old(out).messages && Grows(old(out), out) && out.sent == []
      ensures out.image == old(out).image
      ensures tx == old(tx).(wordCounter := tx.wordCounter)
      ensures !ok ==> TxOk(tx, out) && txFull
      ensures ok ==> tx.wordCounter == 0 && TxOk(NextWord(tx), out)
    {
      hide AllCarry, Words, Leader, BigEndian;
      ghost var tx0, out0 := tx, out;
      ok := UsbTxWord(word);
      LeaderMore(tx0, tx, out0.part, word, if ok then 4 else tx.wordCounter);
      Associative(EncodeAll(out0.frames), out0.part, BigEndian(word)[tx0.wordCounter..if ok then 4 else tx.wordCounter]);
    }

    /** A word of the leader, and the step to the next one when it is out. */
    method TxWord(word: word) returns (ok: bool)
      requires Valid() && (tx.state == TxToken || (tx.state == TxData && tx.counter < tx.info.dataLength / 4)) &&
        LeaderWord(tx, word)
      modifies `tx, `out, `txFull
      ensures Valid() && out.frames == old(out).frames && out.messages == old(out).messages && Grows(old(out), out) && out.image == old(out).image
      ensures ok ==> tx == NextWord(old(tx).(wordCounter := 0))
      ensures !ok ==> tx == old(tx).(wordCounter := tx.wordCounter) && txFull
    {
      hide RxOk, RxEngineOk, TxEngineOk, ReadOk, MemoryOk, OrderOk, AnswersOk, TicketsOk, TxOk, InfoOk, AnswerOk, AcceptedOk, LeaderWord;
      ghost var tx0, out0 := tx, out;
      TxFacts(tx, out);
      ok := TxLeader(word);
      if ok { tx := NextWord(tx); }
      TxMoved(mem, rx, tx0, tx, response, packet, tickets, dma, seen, out0, out);
      AnswersSame(rx, tx0, response, seen, out0, rx, tx, response, seen, out);
    }

    /** TX_STATE_TOKEN */
    method TxHeader()
      requires Valid() && tx.state == TxToken
      modifies `tx, `out, `txFull
      ensures Valid() && out.frames == old(out).frames && out.messages == old(out).messages && Grows(old(out), out) && out.image == old(out).image
      ensures tx.state == TxData || (tx.state == TxToken && txFull)
      ensures tx.info == old(tx).info && tx.token == old(tx).token
    {
      hide Valid;
      HeaderFacts();
      if tx.counter == 0 {
        var ok := TxWord(tx.token + tx.info.cmd);
      }
      HeaderFacts();
      if tx.counter == 1 {
        var ok := TxWord(tx.info.dataLength + tx.info.dmaLength);
      }
    }

    lemma {:induction false} HeaderFacts()
      requires Valid() && tx.state == TxToken
      ensures UsbState.ProperInfo(tx.info) && tx.token + tx.info.cmd < 0x1_0000_0000 && tx.counter < 2
      ensures tx.counter == 0 ==> LeaderWord(tx, tx.token + tx.info.cmd)
      ensures tx.counter == 1 ==> LeaderWord(tx, tx.info.dataLength + tx.info.dmaLength)
    {
      hide RxOk, RxEngineOk, TxEngineOk, ReadOk, MemoryOk, OrderOk, AnswersOk, TicketsOk, InfoOk, AnswerOk, AcceptedOk, AllCarry, Words;
      TxFacts(tx, out);
      TokenWord(tx.token, tx.info.cmd);
    }

    /** TX_STATE_DATA */
    method TxBody()
      requires Valid() && tx.state == TxData
      modifies `tx, `out, `txFull
      ensures Valid() && out.frames == old(out).frames && out.messages == old(out).messages && Grows(old(out), out) && out.image == old(out).image
      ensures tx.state == TxDma || (tx.state == TxData && txFull)
      ensures tx.info == old(tx).info && tx.token == old(tx).token
    {
      hide Valid, LeaderWord;
      BodyFacts();
      if tx.info.dataLength > 0 {
        var ok := TxWord(tx.info.data[tx.counter]);
        while ok && tx.state == TxData
          invariant Valid() && out.frames == old(out).frames && out.messages == old(out).messages &&
            Grows(old(out), out) && out.image == old(out).image && (tx.state == TxData || tx.state == TxDma)
          invariant (!ok ==> txFull) && tx.info == old(tx).info && tx.token == old(tx).token && tx.info.dataLength > 0 && (tx.state == TxData ==> tx.counter <= 4)
          decreases if ok && tx.state == TxData then 5 - tx.counter else 0
        {
          BodyFacts();
          ok := TxWord(tx.info.data[tx.counter]);
        }
      } else {
        NoData();
      }
    }

    lemma {:induction false} BodyFacts()
      requires Valid() && tx.state == TxData
      ensures UsbState.ProperInfo(tx.info) && tx.counter <= 3
      ensures tx.info.dataLength > 0 ==> tx.counter < tx.info.dataLength / 4 && LeaderWord(tx, tx.info.data[tx.counter])
    {
      hide RxOk, RxEngineOk, TxEngineOk, ReadOk, MemoryOk, OrderOk, AnswersOk, TicketsOk, InfoOk, AnswerOk, AcceptedOk, AllCarry, Words;
      TxFacts(tx, out);
    }

    /** No data words: on to the DMA part. */
    method NoData()
      requires Valid() && tx.state == TxData && tx.info.dataLength == 0
      modifies `tx
      ensures Valid() && tx == old(tx).(state := TxDma)
    {
      hide RxOk, RxEngineOk, TxEngineOk, ReadOk, MemoryOk, OrderOk, AnswersOk, TicketsOk, TxOk, InfoOk, AnswerOk, AcceptedOk;
      TxFacts(tx, out);
      TxMoved(mem, rx, tx, tx.(state := TxDma), response, packet, tickets, dma, seen, out, out);
      LeaderComplete(tx, out);
      tx := tx.(state := TxDma);
      AnswersSame(rx, old(tx), response, seen, out, rx, tx, response, seen, out);
    }

    /** TX_STATE_DMA */
    method TxTransferStep() returns (ghost wrote: set<nat>)
      requires Valid() && tx.state == TxDma
      modifies `tx, `mem, `dma, `seen, `rxEmpty, `out, `txFull
      ensures Valid() && out.frames == old(out).frames && out.messages == old(out).messages && Grows(old(out), out)
      ensures (tx.state == TxDma && dma.busy) || (tx.state == TxFlush && |out.sent| == tx.info.dmaLength && !(dma.busy && !dma.toMemory))
      ensures tx.info == old(tx).info && tx.token == old(tx).token
      ensures wrote <= Span(old(dma).address, old(dma).left) && Leaves(old(tx), wrote, old(mem), old(out).image, mem, out.image)
      ensures Arrived(old(seen), seen, wrote)
    {
      hide Valid, Leaves;
      wrote := {};
      LeavesAll(tx, wrote, mem, out.image);
      DmaFacts();
      if tx.info.dmaLength > 0 {
        var ready;
        ready, wrote := UsbDmaReady();
        if ready {
          DmaFacts();
          if !tx.dmaRunning {
            StartOut();
          } else {
            Finish();
          }
        }
      } else {
        Finish();
      }
    }

    lemma {:induction false} DmaFacts()
      requires Valid() && tx.state == TxDma
      ensures UsbState.ProperInfo(tx.info) && IsToken(tx.token)
      ensures tx.info.dmaLength == 0 ==> !(dma.busy && !dma.toMemory) && out.sent == []
      ensures !dma.busy && tx.dmaRunning ==> |out.sent| == tx.info.dmaLength
      ensures !tx.dmaRunning ==> out.sent == []
    {
      hide RxOk, RxEngineOk, ReadOk, MemoryOk, OrderOk, AnswersOk, TicketsOk, InfoOk, AnswerOk, AcceptedOk, AllCarry, Words, Leader;
    }

    /** Programs the engine for a transfer from memory; it must be free. */
    method StartOut()
      requires Valid() && tx.state == TxDma && !tx.dmaRunning && !dma.busy && out.sent == [] && tx.info.dmaLength > 0
      modifies `tx, `dma
      ensures Valid() && tx == old(tx).(dmaRunning := true) && dma.busy
    {
      hide RxOk, ReadOk, Parse, AnswersOk, Expected, ResponseIds, TicketsKept, AcceptedOk, InfoOk, AnswerOk, AllCarry, Words, Leader, Landed, Chunk;
      tx := tx.(dmaRunning := true);
      dma := Dma(true, false, tx.info.dmaAddress, tx.info.dmaLength);
      AnswersSame(rx, old(tx), response, seen, out, rx, tx, response, seen, out);
    }

    /** Everything of the message is out. */
    method Finish()
      requires Valid() && tx.state == TxDma && |out.sent| == tx.info.dmaLength && !(dma.busy && !dma.toMemory)
      modifies `tx
      ensures Valid() && tx == old(tx).(state := TxFlush)
    {
      hide RxOk, RxEngineOk, ReadOk, MemoryOk, Parse, AnswersOk, Expected, ResponseIds, TicketsKept, AcceptedOk, InfoOk, AnswerOk, AllCarry,
        Words, Leader;
      tx := tx.(state := TxFlush);
      AnswersSame(rx, old(tx), response, seen, out, rx, tx, response, seen, out);
    }

    /** TX_STATE_FLUSH: one more frame is out, and the callback of its message runs. */
    method TxDone()
      requires Valid() && tx.state == TxFlush
      modifies `tx, `out, `txFull, `tickets
      ensures Valid() && tx == old(tx).(state := TxIdle) && UsbState.ProperInfo(tx.info) && IsToken(tx.token)
      ensures out.messages == old(out).messages + [MessageOf(tx.token, tx.info, old(out).image)] && out.wire == old(out).wire
      ensures tickets == Called(old(tickets), old(tx).info.callback)
      ensures old(out).image.Some? ==> old(out).image == ImageOf(mem, tx.info)
    {
      hide RxOk, RxEngineOk, TxEngineOk, ReadOk, MemoryOk, OrderOk, AnswersOk, TicketsOk, TxOk, InfoOk, AnswerOk, AcceptedOk, Called, MessageOf;
      AllSent(mem, tx, dma, out);
      if out.image.Some? { ImageFits(); }
      FrameDone(tx, out);
      var f := Frame(TokenKind(tx.token), tx.info.cmd, Words(tx.info.data[..tx.info.dataLength / 4]) + out.sent);
      var after := Out(out.wire, out.frames + [f], out.messages + [MessageOf(tx.token, tx.info, out.image)], [], [], None);
      EngineDone(mem, tx, dma, out, after);
      OrderDone(rx, tx, response, seen, out, after, f);
      AnswersDone(rx, tx, tx.(state := TxIdle), response, seen, out, after, f);
      TicketsDone(packet, tx, response, tickets);
      ParcelDone(accepted, out.messages, tx, WaitingParcel(packet), out.image);
      RunCallback(tx.info.callback);
      out := after;
      tx := tx.(state := TxIdle);
    }

    /** A done_callback is called, if there is one. */
    method RunCallback(callback: Callback)
      modifies `tickets
      ensures tickets == Called(old(tickets), callback)
    {
      if callback.PacketDone? { tickets := tickets.(ran := tickets.ran + multiset{callback.ticket}); }
    }

    // ---------- the whole process ----------

    /** RX_STATE_DATA: the command that is being worked on. */
    method RxCommand() returns (ghost wrote: set<nat>)
      requires Valid() && rx.state == RxData
      modifies `rx, `assembly, `seen, `rxEmpty, `response, `mem, `dma, `out, `txFull, `read
      ensures Valid() && Grows(old(out), out) && out.messages == old(out).messages
      ensures rx.state == RxIdle || rx.state == RxData || (rx.state == RxFlush && !rx.dmaRunning)
      ensures rx.state == RxData ==> DataWaits(old(rx), rx, dma, read, rxEmpty)
      ensures response.pending && !old(response).pending ==> Right(Latest(seen.taken), InfoVerdict(response.error, response.info))
      ensures Leaves(tx, wrote, old(mem), old(out).image, mem, out.image)
      ensures Settled(old(rx)) ==> Arrived(old(seen), seen, wrote)
      ensures Settled(rx) && |old(seen).taken| <= |seen.taken|
    {
      hide Valid, Leaves;
      if rx.cmd == ID_MEMORY_WRITE {
        wrote := RxMemoryWrite();
      } else if rx.cmd == ID_USB_WRITE {
        wrote := RxUsbWrite();
      } else if IsSdCommand(rx.cmd) {
        wrote := RxSectors();
      } else {
        wrote := RxSimple();
      }
    }

    lemma {:induction false} PendingIdle()
      requires Valid()
      ensures response.pending ==> rx.state == RxIdle
    {
      hide RxOk, RxEngineOk, TxOk, TxEngineOk, ReadOk, MemoryOk, TicketsOk, InfoOk, AnswerOk, AcceptedOk, AnswersOk, Parse, Expected, ResponseIds;
    }

    /** usb_rx_process */
    method UsbRxProcess() returns (ghost wrote: set<nat>)
      requires Valid()
      modifies `rx, `assembly, `seen, `rxEmpty, `response, `mem, `dma, `out, `txFull, `read, `packet, `tickets, `accepted
      ensures Valid() && Grows(old(out), out) && out.messages == old(out).messages
      ensures rx.state == RxArgs ==> rxEmpty
      ensures rx.state == RxData ==> DataWaits(old(rx), rx, dma, read, rxEmpty)
      ensures rx.state == RxFlush ==> dma.busy || packet.pending || PieceDone(old(rx), rx)
      ensures response.pending && !old(response).pending ==> Right(Latest(seen.taken), InfoVerdict(response.error, response.info))
      ensures (old(packet).pending ==> packet == old(packet)) && tickets == old(tickets)
      ensures packet == old(packet) || packet.info.cmd == DATA_FLUSHED
      ensures Leaves(tx, wrote, old(mem), old(out).image, mem, out.image)
      ensures Settled(rx) && (Settled(old(rx)) ==> Arrived(old(seen), seen, wrote))
      ensures accepted == old(accepted) || accepted == old(accepted) + [DRAINED]
    {
      hide Valid, Leaves, Right, Latest;
      wrote := {};
      LeavesAll(tx, wrote, mem, out.image);
      if rx.state == RxArgs { ArgsFacts(); }
      if rx.state == RxIdle { RxStart(); }
      if rx.state == RxArgs { RxArguments(); }
      if rx.state == RxData { wrote := RxCommand(); }
      PendingIdle();
      ghost var out1, mem1 := out, mem;
      if rx.state == RxFlush {
        ghost var more := RxDrain();
        GrowsOn(old(out), out1, out);
        LeavesBoth(tx, wrote, more, old(mem), old(out).image, mem1, out1.image, mem, out.image);
        wrote := wrote + more;
      }
    }

    /** The states TOKEN, DATA and DMA one after the other, as far as FIFO and engine allow. */
    method TxAdvance() returns (ghost wrote: set<nat>)
      requires Valid()
      modifies `tx, `mem, `dma, `seen, `rxEmpty, `out, `txFull
      ensures Valid() && Grows(old(out), out) && out.messages == old(out).messages
      ensures tx.info == old(tx).info && tx.token == old(tx).token && (tx.state == TxIdle <==> old(tx).state == TxIdle)
      ensures tx.state == TxToken || tx.state == TxData ==> txFull
      ensures tx.state == TxDma ==> dma.busy
      ensures Leaves(old(tx), wrote, old(mem), old(out).image, mem, out.image)
      ensures Arrived(old(seen), seen, wrote)
    {
      hide Valid;
      wrote := {};
      ghost var out1 := out;
      if tx.state == TxToken { TxHeader(); }
      ghost var out2 := out;
      if tx.state == TxData {
        TxBody();
        GrowsOn(out1, out2, out);
      }
      ghost var out3 := out;
      if tx.state == TxDma {
        wrote := TxTransferStep();
        GrowsOn(out1, out3, out);
      }
    }

    /** usb_tx_process: a message is sent until it is out, the FIFO is full or the engine is busy. */
    method UsbTxProcess() returns (ghost wrote: set<nat>)
      requires Valid()
      modifies `tx, `response, `packet, `mem, `dma, `seen, `rxEmpty, `out, `txFull, `tickets
      ensures Valid() && Grows(old(out), out)
      ensures tx.state == TxToken || tx.state == TxData ==> txFull
      ensures tx.state == TxDma ==> dma.busy
      ensures tx.state != TxFlush
      ensures packet == if old(tx).state == TxIdle && !old(response).pending then old(packet).(pending := false) else old(packet)
      ensures var h := Taken(old(tx), old(response), old(packet));
        Handled(h, InHand(tx), old(out).messages, out.messages, old(tickets), tickets, mem) &&
        Faithful(h, wrote, old(tx).state == TxIdle || old(out).image.Some?, InHand(tx), out)
      ensures |mem| == |old(mem)| && forall j: nat :: j < |mem| && j !in wrote ==> mem[j] == old(mem)[j]
      ensures Arrived(old(seen), seen, wrote)
    {
      hide Valid, ImageOf, Called, UsbState.ProperInfo;
      if tx.state == TxIdle { TxStart(); }
      ghost var out1 := out;
      wrote := TxAdvance();
      GrowsOn(old(out), out1, out);
      if tx.state == TxFlush { TxDone(); }
    }

    /** usb_flush_packet: callbacks that would wait for a host that is gone run now. */
    method UsbFlushPacket()
      requires Valid()
      modifies `tx, `packet, `tickets, `accepted
      ensures Valid() && Queued(packet) == NoCallback && InTransit(tx) == NoCallback
      ensures tx == old(tx).(info := old(tx).info.(callback := tx.info.callback)) && packet == old(packet).(pending := packet.pending)
      ensures tickets == Called(Called(old(tickets), Queued(old(packet))), InTransit(old(tx)))
      ensures accepted == WithoutDropped(old(accepted), Queued(old(packet)))
    {
      hide Valid;
      if packet.pending && packet.info.callback != NoCallback { DropWaiting(); }
      if tx.state != TxIdle && tx.info.callback != NoCallback { DropCallback(); }
    }

    /** The packet that waits is dropped. */
    method DropWaiting()
      requires Valid() && packet.pending && packet.info.callback != NoCallback
      modifies `packet, `tickets, `accepted
      ensures Valid() && packet == old(packet).(pending := false) && tickets == Called(old(tickets), packet.info.callback)
      ensures accepted == WithoutDropped(old(accepted), packet.info.callback)
    {
      hide RxOk, RxEngineOk, ReadOk, MemoryOk, TxOk, OrderOk, AnswersOk, AnswerOk, TicketsKept, AcceptedOk, TxEngineOk;
      TicketRuns(tickets, Queued(packet), InTransit(tx));
      ParcelMoves(accepted, out.messages, InHandParcel(tx), packet);
      accepted := accepted[..|accepted| - 1];
      packet := packet.(pending := false);
      RunCallback(packet.info.callback);
    }

    /** The message being sent goes on without its callback, which runs now. */
    method DropCallback()
      requires Valid() && tx.state != TxIdle && tx.info.callback != NoCallback
      modifies `tx, `tickets
      ensures Valid() && tx == old(tx).(info := old(tx).info.(callback := NoCallback)) && tickets == Called(old(tickets), old(tx).info.callback)
    {
      hide RxOk, RxEngineOk, ReadOk, MemoryOk, TxOk, OrderOk, AnswersOk, AnswerOk, TicketsKept, AcceptedOk;
      TicketRuns(tickets, Queued(packet), InTransit(tx));
      RunCallback(tx.info.callback);
      CallbackApart(rx, tx, response, seen, out);
      tx := tx.(info := tx.info.(callback := NoCallback));
      AnswersSame(rx, old(tx), response, seen, out, rx, tx, response, seen, out);
    }

    /** usb_reset: both sides start over. */
    method UsbReset()
      requires Valid() && Queued(packet) == NoCallback && InTransit(tx) == NoCallback
      modifies `dma, `seen, `rxEmpty, `out, `txFull, `rx, `tx, `response, `packet, `read, `assembly, `accepted
      ensures Valid() && seen.taken == [] && out.wire == [] && out.frames == [] && accepted == []
      ensures rx.state == RxIdle && tx.state == TxIdle && !response.pending && !packet.pending && read == DebugRead(true, 0, 0)
    {
      hide RxOk, RxEngineOk, TxEngineOk, ReadOk, MemoryOk, TxOk, OrderOk, AnswersOk, TicketsOk, InfoOk, AnswerOk, AcceptedOk, Queued,
        InTransit, TicketsKept, UsbState.ProperInfo;
      ResetFacts();
      NoParcels();
      StartedOver(mem, rx.(state := RxIdle), tx.(state := TxIdle, wordCounter := 0), response.(pending := false), packet.(pending := false), tickets);
      dma := Dma(false, false, 0, 0);
      rx := rx.(state := RxIdle);
      tx := tx.(state := TxIdle, wordCounter := 0);
      response := response.(pending := false);
      packet := packet.(pending := false);
      read := DebugRead(true, 0, 0);
      assembly := Assembly(0, 0, 0);
      seen := Seen([], 0, 0);
      out := Out([], [], [], [], [], None);
      accepted := [];
    }

    lemma {:induction false} ResetFacts()
      requires Valid() && Queued(packet) == NoCallback && InTransit(tx) == NoCallback
      ensures |mem| == ADDRESSES && |rx.args| == 2 && UsbState.ProperInfo(response.info) && !response.info.callback.PacketDone?
      ensures TicketsKept(tickets, NoCallback, NoCallback)
    {
      hide RxOk, TxEngineOk, TxOk, OrderOk, AnswersOk, AnswerOk, TicketsKept, Landed;
    }

    /** usb_is_active: a change of the reset line is acknowledged, and resets the protocol when it goes on. */
    method UsbIsActive() returns (active: bool)
      requires Valid()
      modifies `lastResetState, `dma, `seen, `rxEmpty, `out, `txFull, `rx, `tx, `response, `packet, `read, `assembly, `tickets, `accepted
      ensures Valid() && (rx == old(rx) || rx.state == RxIdle)
      ensures active ==> !lastResetState && rx == old(rx) && tx == old(tx) && out == old(out) && seen == old(seen)
      ensures active ==> response == old(response) && packet == old(packet) && tickets == old(tickets) && accepted == old(accepted)
      ensures !active && !(lastResetState && !old(lastResetState)) ==> tx == old(tx) && packet == old(packet) && accepted == old(accepted)
      ensures lastResetState && !old(lastResetState) ==> out.wire == [] && seen.taken == []
      ensures lastResetState == old(lastResetState) || !lastResetState ==> out == old(out) && seen == old(seen)
    {
      hide Valid;
      var resetState: bool, powerSave: bool := *, *;
      if lastResetState != resetState {
        lastResetState := resetState;
        if resetState {
          UsbFlushPacket();
          UsbReset();
        }
        return false;
      }
      active := !(resetState || powerSave);
    }

    /** usb_process while the link is active. */
    method ActivePoll() returns (ghost h: Option<Handed>, ghost wrote: set<nat>)
      requires Valid()
      modifies `rx, `assembly, `seen, `rxEmpty, `response, `mem, `dma, `out, `txFull, `read, `packet, `tickets, `accepted, `tx
      ensures Valid() && Grows(old(out), out)
      ensures Handled(h, InHand(tx), old(out).messages, out.messages, old(tickets), tickets, mem) && GoesOn(h, old(tx), old(packet), packet)
      ensures Settled(rx) && (Settled(old(rx)) ==> Arrived(old(seen), seen, wrote))
      ensures accepted == old(accepted) || accepted == old(accepted) + [DRAINED]
      ensures Faithful(h, wrote, old(tx).state == TxIdle || old(out).image.Some?, InHand(tx), out)
      ensures |mem| == |old(mem)| && forall j: nat :: j < |mem| && j !in wrote ==> mem[j] == old(mem)[j]
    {
      hide Valid, Handled, Faithful, Leaves, AcceptedOk, Misses;
      wrote := UsbRxProcess();
      ghost var out1, mem1 := out, mem;
      h := Taken(tx, response, packet);
      ghost var more := UsbTxProcess();
      GrowsOn(old(out), out1, out);
      PollLeaves(old(tx), h, wrote, more, old(mem), old(out).image, mem1, out1.image, mem, InHand(tx), out);
      wrote := wrote + more;
    }

    /** usb_process; when the link is not active, every packet that was accepted with a callback has had it run exactly once. */
    method UsbProcess() returns (active: bool, ghost h: Option<Handed>, ghost wrote: set<nat>)
      requires Valid()
      modifies this
      ensures Valid()
      ensures active ==> Handled(h, InHand(tx), old(out).messages, out.messages, old(tickets), tickets, mem)
      ensures active ==> !lastResetState
      ensures active ==> GoesOn(h, old(tx), old(packet), packet)
      ensures active ==> Settled(rx) && (Settled(old(rx)) ==> Arrived(old(seen), seen, wrote))
      ensures Settled(old(rx)) ==> Settled(rx)
      ensures active ==> accepted == old(accepted) || accepted == old(accepted) + [DRAINED]
      ensures !active && !(lastResetState && !old(lastResetState)) ==> Down(old(tx), tx, old(out), out, old(mem), mem)
      ensures !active && !(lastResetState && !old(lastResetState)) ==> accepted == WithoutDropped(old(accepted), Queued(old(packet)))
      ensures active ==> Faithful(h, wrote, old(tx).state == TxIdle || old(out).image.Some?, InHand(tx), out)
      ensures |mem| == |old(mem)| && forall j: nat :: j < |mem| && j !in wrote ==> mem[j] == old(mem)[j]
      ensures !active ==> forall t: nat :: t < tickets.issued ==> tickets.ran[t] == 1
      ensures Grows(old(out), out) || (lastResetState && !old(lastResetState) && out.wire == [] && seen.taken == [])
    {
      hide Valid, Handled, GoesOn, Faithful, Arrived, WithoutDropped;
      h, wrote := None, {};
      active := UsbIsActive();
      if active {
        h, wrote := ActivePoll();
      } else {
        UsbFlushPacket();
        AllRan();
      }
    }

    lemma {:induction false} AllRan()
      requires Valid() && Queued(packet) == NoCallback && InTransit(tx) == NoCallback
      ensures forall t: nat :: t < tickets.issued ==> tickets.ran[t] == 1
    {
    }

    /** usb_init */
    constructor (memory: seq<byte>)
      requires |memory| == ADDRESSES
      ensures Valid()
    {
      mem := memory;
      lastResetState := false;
      dma := Dma(false, false, 0, 0);
      rx := Rx(RxIdle, 0, 0, [0, 0], false, false, false);
      tx := Tx(TxIdle, 0, TxInfo(0, 0, [0, 0, 0, 0], 0, 0, NoCallback), 0, false, 0);
      response := Response(false, false, TxInfo(0, 0, [0, 0, 0, 0], 0, 0, NoCallback));
      packet := Queue(false, TxInfo(0, 0, [0, 0, 0, 0], 0, 0, NoCallback));
      read := DebugRead(true, 0, 0);
      assembly := Assembly(0, 0, 0);
      seen := Seen([], 0, 0);
      out := Out([], [], [], [], [], None);
      tickets := Tickets(0, multiset{});
      accepted := [];
    }
  }

  /** A memory write is answered with an error just when it is not allowed. */
  lemma {:induction false} WriteRight(c: Command, failed: bool)
    requires c.id == ID_MEMORY_WRITE && (failed <==> !Allowed(c.arg0, c.arg1, true))
    ensures Right(c, Verdict(c.id, failed, 0))
  {
    hide Allowed;
  }

  /** The replies to the commands without payload are the promised ones. */
  lemma {:induction false} ReplyRight(c: Command, failed: bool)
    requires !IsBulkCommand(c.id) && !IsSdCommand(c.id) && c.id != ID_MEMORY_READ
    requires var outcome := ReplyTo(c.id as char).outcome;
      (outcome == Fine ==> !failed) && (outcome == Unknown ==> failed)
    ensures Right(c, Verdict(c.id, failed, ReplyTo(c.id as char).dataLength))
  {
  }

  /** An error for sectors that are refused. */
  lemma {:induction false} SectorsRight(c: Command, failed: bool)
    requires IsSdCommand(c.id) && (c.arg1 >= 0x80_0000 || Rejected(c.arg0, c.arg1 * 512, true) ==> failed)
    ensures Right(c, Verdict(c.id, failed, 4))
  {
    if c.arg1 < 0x80_0000 { AllowedExactly(c.arg0, c.arg1 * 512, true); }
    hide Rejected, Allowed;
  }

  lemma {:induction false} AllowedExactly(address: word, length: word, excludeBootloader: bool)
    ensures !Rejected(address, length, excludeBootloader) <==> Allowed(address, length, excludeBootloader)
  {
    RejectedExactly(address, length, excludeBootloader);
    assert forall i: int :: InBootArea(i) <==> InBootloader(i);
    hide Rejected, InBootloader, InBootArea;
  }

  lemma {:induction false} GuardedIs(rx: Rx, tx: Tx, response: Response, seen: Seen, out: Out)
    requires AnswersOk(rx, tx, response, seen, out)
    ensures Guarded(rx, Latest(seen.taken))
  {
    hide Guarded, AllRight;
  }

  lemma {:induction false} NoParcels()
    ensures AcceptedOk([], [], [], [])
  {
  }

  lemma {:induction false} IdleFacts(rx: Rx, a: Assembly, seen: Seen)
    requires RxOk(rx, a, seen) && rx.state == RxIdle
    ensures Parse(seen.taken).phase == Scan(a.cmdCounter) && |rx.args| == 2
  {
    hide Parse;
  }

  /** Some more of a token was read, and perhaps the id behind it. */
  lemma {:induction false} CommandSeen(rx: Rx, rx1: Rx, a: Assembly, a1: Assembly, seen: Seen, seen1: Seen, ok: bool, cmd: byte,
          mem: seq<byte>, dma: Dma, read: DebugRead)
    requires RxOk(rx, a, seen) && RxEngineOk(rx, read, dma, seen) && ReadOk(rx, read) && MemoryOk(mem, dma, rx, read, seen)
    requires rx.state == RxIdle && a1 == a.(cmdCounter := a1.cmdCounter) && seen1 == seen.(taken := seen1.taken)
    requires rx1 == if ok then Rx(RxArgs, 0, cmd, rx.args, false, false, false) else rx
    requires ok ==> a1.cmdCounter == 0 && Parse(seen1.taken).phase == Args(cmd, [])
    requires !ok ==> Parse(seen1.taken).phase == Scan(a1.cmdCounter)
    ensures RxOk(rx1, a1, seen1) && RxEngineOk(rx1, read, dma, seen1) && ReadOk(rx1, read) && MemoryOk(mem, dma, rx1, read, seen1)
  {
    hide Parse, Landed, Chunk;
    assert Last(seen1.taken, 0) == [] && Last(seen.taken, 0) == [];
  }

  lemma {:induction false} StepFacts(rx: Rx, a: Assembly, progress: nat, taken: seq<byte>)
    requires InStep(rx, a, progress, taken)
    ensures |rx.args| == 2 && a.wordCounter < 4
    ensures rx.state == RxArgs ==> rx.counter < 2 && !rx.dmaRunning
  {
  }

  /** What rx_args and the state are after one call for an argument word. */
  function WithArgument(rx: Rx, ok: bool, word: word): Rx
    requires |rx.args| == 2 && rx.counter < 2
  {
    if !ok then rx
    else if rx.counter == 0 then rx.(args := [word, rx.args[1]], counter := 1)
    else rx.(args := [rx.args[0], word], counter := 0, state := RxData)
  }

  lemma {:induction false} ArgumentRead(rx: Rx, a: Assembly, a1: Assembly, taken: seq<byte>, taken1: seq<byte>,
          ok: bool, word: word)
    requires rx.state == RxArgs && InStep(rx, a, 0, taken)
    requires taken <= taken1 && |taken1| == |taken| + (if ok then 4 else a1.wordCounter) - a.wordCounter &&
      a1.cmdCounter == a.cmdCounter
    requires a1.wordCounter < 4 && (ok ==> a1.wordCounter == 0 && |taken1| >= 4 && word == FromBigEndian(Last(taken1, 4)))
    ensures |rx.args| == 2 && rx.counter < 2
    ensures InStep(WithArgument(rx, ok, word), a1, 0, taken1) && Parse(taken1).ids == Parse(taken).ids
    ensures !(ok && rx.counter == 1) ==> Parse(taken1).commands == Parse(taken).commands
    ensures ok && rx.counter == 1 ==> Parse(taken1).commands == Parse(taken).commands + [Latest(taken1)] && Latest(taken1).id == rx.cmd
  {
    hide Parse, FromBigEndian, Last;
    var n, more := 4 * rx.counter + a.wordCounter, taken1[|taken|..];
    assert taken1 == taken + more;
    ArgsGrow(taken, more, rx.cmd, n);
    ArgumentBytes(rx, a, taken, more, n);
    if ok && rx.counter == 1 {
      var all := Last(taken1, 8);
      Complete(rx, a1, Parse(taken1), Parse(taken), all, word, taken1);
    }
  }

  lemma {:induction false} ArgumentBytes(rx: Rx, a: Assembly, taken: seq<byte>, more: seq<byte>, n: nat)
    requires n <= |taken| && n == 4 * rx.counter + a.wordCounter && rx.counter < 2 && a.wordCounter < 4 && n + |more| <= 8
    ensures rx.counter == 1 ==> Last(taken + more, n + |more|)[..4] == Last(taken, n)[..4]
    ensures n + |more| == 4 * rx.counter + 4 ==> Last(taken + more, n + |more|)[4 * rx.counter..] == Last(taken + more, 4)
    ensures n + |more| == 4 ==> Last(taken + more, 4)[..4] == Last(taken + more, 4)
  {
    LastMore(taken, more, n);
  }

  /** With the second argument the command is complete, and its payload is what is waited for. */
  lemma {:induction false} Complete(rx: Rx, a: Assembly, after: Parser, before: Parser, all: seq<byte>, word: word,
          taken: seq<byte>)
    requires rx.state == RxArgs && |rx.args| == 2 && rx.counter == 1 && !rx.dmaRunning && a.wordCounter == 0 && a.cmdCounter == 0
    requires |all| == 8 && rx.args[0] == FromBigEndian(all[..4]) && word == FromBigEndian(all[4..]) && after == Parse(taken)
    requires var c := Command(rx.cmd, FromBigEndian(all[..4]), FromBigEndian(all[4..]));
      after == before.(phase := After(PayloadLength(c)), commands := before.commands + [c])
    ensures InStep(WithArgument(rx, true, word), a, 0, taken)
  {
    hide Parse, FromBigEndian;
  }

  lemma {:induction false} SectorRead(rx: Rx, a: Assembly, a1: Assembly, taken: seq<byte>, taken1: seq<byte>, ok: bool)
    requires rx.state == RxData && IsSdCommand(rx.cmd) && InStep(rx, a, 0, taken) && taken <= taken1
    requires |taken1| == |taken| + (if ok then 4 else a1.wordCounter) - a.wordCounter
    requires a1.cmdCounter == a.cmdCounter && a1.wordCounter < 4 && (ok ==> a1.wordCounter == 0)
    ensures Parse(taken1).ids == Parse(taken).ids && Parse(taken1).commands == Parse(taken).commands
    ensures !ok ==> InStep(rx, a1, 0, taken1)
    ensures ok ==> InStep(rx.(state := RxIdle), a1, 0, taken1)
  {
    hide Parse;
    var more := taken1[|taken|..];
    assert taken1 == taken + more;
    PayloadGrow(taken, more, 4 - a.wordCounter);
  }

  /** Only whether DMA runs has changed, and it has moved nothing yet or nothing more. */
  lemma {:induction false} SameStep(rx: Rx, rx1: Rx, a: Assembly, progress: nat, taken: seq<byte>)
    requires InStep(rx, a, progress, taken) && Receiving(rx.state) && rx1 == rx.(dmaRunning := rx1.dmaRunning)
    ensures InStep(rx1, a, progress, taken)
  {
    hide Parse;
  }

  /** What a finished transfer leaves the engine and the debug read as. */
  lemma {:induction false} Finished(rx: Rx, read: DebugRead, dma: Dma, seen: Seen, length: nat)
    requires RxEngineOk(rx, read, dma, seen) && ReadOk(rx, read) && Receiving(rx.state) && rx.dmaRunning && !dma.busy
    requires length == Chunk(rx.state, rx.cmd, rx.args[1], read.length) && (rx.state == RxData ==> rx.cmd == ID_USB_WRITE)
    ensures length == seen.length == seen.got && length <= rx.args[1] && (rx.state == RxData ==> length <= read.length)
    ensures var rx1 := rx.(args := [rx.args[0], rx.args[1] - length], dmaRunning := false);
      var read1 := if rx.state == RxData then DebugRead(true, read.length - length, read.address + length) else read;
      RxEngineOk(rx1, read1, dma, seen) && ReadOk(rx1, read1)
  {
  }

  /** Nothing else depends on how much of a payload is still to be thrown away. */
  lemma {:induction false} Drained(rx: Rx, next: Rx, a: Assembly, seen: Seen, mem: seq<byte>, dma: Dma, read: DebugRead, tx: Tx, response: Response,
          out: Out, length: nat)
    requires RxOk(rx, a, seen) && MemoryOk(mem, dma, rx, read, seen) && OrderOk(rx, tx, response, seen, out) && AnswerOk(rx, response)
    requires RxEngineOk(rx, read, dma, seen) && ReadOk(rx, read) && rx.state == RxFlush && rx.dmaRunning && !dma.busy
    requires length == Min(rx.args[1], FLUSH_LENGTH) && next == rx.(args := [rx.args[0], rx.args[1] - length], dmaRunning := false)
    ensures RxOk(next, a, seen) && MemoryOk(mem, dma, next, read, seen) && OrderOk(next, tx, response, seen, out) && AnswerOk(next, response)
    ensures RxEngineOk(next, read, dma, seen) && ReadOk(next, read) && length == seen.length == seen.got
  {
    Finished(rx, read, dma, seen, length);
    hide Parse, AnswersOk, Expected, ResponseIds, WordBuffered, InStep, Landed, Sending, Chunk, Min;
    CountedDown(rx, a, length, seen.taken);
  }

  lemma {:induction false} StillInMemory(mem: seq<byte>, dma: Dma, seen: Seen)
    requires |mem| == ADDRESSES && !dma.busy
    ensures forall address: nat :: InMemory(mem, dma, false, address, seen.got, seen.taken)
  {
  }

  lemma {:induction false} CountedDown(rx: Rx, a: Assembly, length: nat, taken: seq<byte>)
    requires InStep(rx, a, length, taken) && Receiving(rx.state) && IsBulkCommand(rx.cmd) && length <= rx.args[1]
    requires rx.state == RxData ==> rx.cmd == ID_USB_WRITE
    ensures InStep(rx.(args := [rx.args[0], rx.args[1] - length], dmaRunning := false), a, 0, taken)
  {
    hide Parse;
  }

  /** What the memory of a message holds. */
  function ImageOf(mem: seq<byte>, info: TxInfo): Option<seq<byte>> {
    if info.dmaAddress + info.dmaLength <= |mem| then Some(mem[info.dmaAddress..info.dmaAddress + info.dmaLength]) else None
  }

  lemma {:induction false} Latch(mem: seq<byte>, tx: Tx, dma: Dma, info: TxInfo, token: word, out: Out)
    requires TxOk(tx, out) && TxEngineOk(mem, tx, dma, out) && tx.state == TxIdle && UsbState.ProperInfo(info) && IsToken(token)
    ensures TxOk(Tx(TxToken, 0, info, token, false, tx.wordCounter), out.(sent := [], image := ImageOf(mem, info)))
    ensures TxEngineOk(mem, Tx(TxToken, 0, info, token, false, tx.wordCounter), dma, out.(sent := [], image := ImageOf(mem, info)))
  {
    hide AllCarry, Words, Leader;
  }

  /** When a message is complete all of its memory is out. */
  lemma {:induction false} AllSent(mem: seq<byte>, tx: Tx, dma: Dma, out: Out)
    requires TxOk(tx, out) && TxEngineOk(mem, tx, dma, out) && tx.state == TxFlush
    ensures |out.sent| == tx.info.dmaLength && (out.image.Some? ==> out.image.value == out.sent)
    ensures !(dma.busy && !dma.toMemory)
  {
    hide AllCarry, Words, Leader;
  }

  lemma {:induction false} EngineDone(mem: seq<byte>, tx: Tx, dma: Dma, out: Out, after: Out)
    requires TxEngineOk(mem, tx, dma, out) && tx.state == TxFlush && !(dma.busy && !dma.toMemory) && after.sent == []
    ensures TxEngineOk(mem, tx.(state := TxIdle), dma, after)
  {
  }

  lemma {:induction false} OrderDone(rx: Rx, tx: Tx, response: Response, seen: Seen, out: Out, after: Out, f: Frame)
    requires OrderOk(rx, tx, response, seen, out) && tx.state == TxFlush && IsToken(tx.token) && after.frames == out.frames + [f]
    requires f.kind == TokenKind(tx.token) && f.id == tx.info.cmd
    ensures OrderOk(rx, tx.(state := TxIdle), response, seen, after)
  {
    hide Parse, AnswersOk, Expected, ResponseIds;
    ResponseOne(out.frames, f);
  }

  lemma {:induction false} TicketsDone(packet: Queue, tx: Tx, response: Response, tickets: Tickets)
    requires TicketsOk(packet, tx, response, tickets) && tx.state == TxFlush
    ensures TicketsOk(packet, tx.(state := TxIdle), response, Called(tickets, tx.info.callback))
  {
    hide TicketsKept;
    TicketRuns(tickets, Queued(packet), tx.info.callback);
  }

  lemma {:induction false} SourcedMore(mem: seq<byte>, idle: bool, address: nat, length: nat, sent: seq<byte>,
          image: Option<seq<byte>>,
                                       at: nat, bytes: seq<byte>, busy: bool)
    requires Sourced(mem, idle, address, length, sent, image, true, at) && at + |bytes| <= |mem| && bytes == mem[at..at + |bytes|]
    requires |sent| + |bytes| <= length
    ensures Sourced(mem, idle, address, length, sent + bytes, image, busy, at + |bytes|)
  {
    if !idle && image.Some? {
      assert image.value[|sent|..|sent| + |bytes|] == bytes by { SliceOfSlice(mem, address, length, |sent|, |sent| + |bytes|); }
      assert image.value[..|sent| + |bytes|] == image.value[..|sent|] + image.value[|sent|..|sent| + |bytes|];
    }
  }

  /** A new place for debug reads does not move a transfer that is under way. */
  lemma {:induction false} OtherPlace(mem: seq<byte>, dma: Dma, rx: Rx, read: DebugRead, after: DebugRead, seen: Seen)
    requires MemoryOk(mem, dma, rx, read, seen) && ReadOk(rx, read) && read.ready
    ensures MemoryOk(mem, dma, rx, after, seen)
  {
    hide Landed;
  }

  lemma {:induction false} KeptImage(out: Out, mem: seq<byte>, info: TxInfo)
    ensures Kept(out, mem, info).image == out.image || Kept(out, mem, info).image == None
  {
  }

  lemma {:induction false} ImageKept(mem: seq<byte>, after: seq<byte>, out: Out, info: TxInfo, address: nat, n: nat)
    requires |after| == |mem| && out.image.Some? && out.image == ImageOf(mem, info)
    requires forall j :: 0 <= j < |mem| && !(address <= j < address + n) ==> after[j] == mem[j]
    ensures address + n <= info.dmaAddress || info.dmaAddress + info.dmaLength <= address ==> Kept(out, after, info) == out
  {
    var lo, hi := info.dmaAddress, info.dmaAddress + info.dmaLength;
    if address + n <= lo || hi <= address { assert after[lo..hi] == mem[lo..hi]; }
  }

  /** What has come in by DMA is still where it landed. */
  lemma {:induction false} StillLanded(mem: seq<byte>, m: seq<byte>, dma: Dma, rx: Rx, read: DebugRead, seen: Seen)
    requires MemoryOk(mem, dma, rx, read, seen) && |m| == |mem|
    requires Arriving(rx) ==> forall j :: 0 <= j < |m| && Target(rx, read) <= j < Target(rx, read) + seen.got ==> m[j] == mem[j]
    ensures MemoryOk(m, dma, rx, read, seen)
  {
    hide Target, Arriving, Last;
    if Arriving(rx) {
      var at := Target(rx, read);
      assert m[at..at + seen.got] == mem[at..at + seen.got];
    }
  }

  /** A message with the token that says what it is. */
  datatype Handed = Handed(token: word, info: TxInfo)

  /** The message being sent. */
  function InHand(tx: Tx): Option<Handed> {
    if tx.state == TxIdle then None else Some(Handed(tx.token, tx.info))
  }

  /** The message a poll of the sending half goes on with. */
  function Taken(tx: Tx, response: Response, packet: Queue): Option<Handed> {
    if tx.state != TxIdle then InHand(tx)
    else if response.pending then Some(Handed(if response.error then ERR_TOKEN else CMP_TOKEN, response.info))
    else if packet.pending then Some(Handed(PKT_TOKEN, packet.info))
    else None
  }

  /** After a poll the message is still in hand, or it is complete and its callback has been called. */
  ghost predicate Handled(h: Option<Handed>, now: Option<Handed>, before: seq<Message>, after: seq<Message>,
                          tickets: Tickets, called: Tickets, mem: seq<byte>) {
    (now == h && after == before && called == tickets) ||
    (h.Some? && now.None? && |after| == |before| + 1 && after[..|before|] == before && called == Called(tickets, h.value.info.callback) &&
     IsMessage(after[|before|], h.value, mem))
  }

  /** Which message a poll goes on with: the one in hand; otherwise perhaps the packet that waits, or one that reports drained data. */
  ghost predicate GoesOn(h: Option<Handed>, tx: Tx, packet: Queue, after: Queue) {
    (tx.state != TxIdle ==> h == InHand(tx) && (packet.pending ==> after == packet)) &&
    (tx.state == TxIdle && packet.pending ==>
      (h == Some(Handed(PKT_TOKEN, packet.info)) && !after.pending) || (h.Some? && h.value.token != PKT_TOKEN && after == packet)) &&
    (tx.state == TxIdle && !packet.pending && h.Some? ==> h.value.token != PKT_TOKEN || h.value.info.cmd == DATA_FLUSHED) &&
    (!packet.pending && after.pending ==> after.info.cmd == DATA_FLUSHED)
  }

  /** A complete message, with its memory if that stayed as it was. */
  ghost predicate IsMessage(m: Message, h: Handed, mem: seq<byte>) {
    UsbState.ProperInfo(h.info) && IsToken(h.token) && m == MessageOf(h.token, h.info, m.content) && (m.content.Some? ==> m.content == ImageOf(mem, h.info))
  }

  /** A message whose memory was not written is still to be sent as it was, or has been. */
  ghost predicate Faithful(h: Option<Handed>, wrote: set<nat>, whole: bool, now: Option<Handed>, out: Out) {
    h.Some? && whole && Misses(h.value.info, wrote) ==>
      if now.Some? then out.image.Some? else out.messages != [] && out.messages[|out.messages| - 1].content.Some?
  }

  /** The two halves of a poll together. */
  lemma {:induction false} PollLeaves(tx: Tx, h: Option<Handed>, first: set<nat>, second: set<nat>, mem: seq<byte>, image: Option<seq<byte>>,
          mem1: seq<byte>, image1: Option<seq<byte>>, mem2: seq<byte>, now: Option<Handed>, out: Out)
    requires Leaves(tx, first, mem, image, mem1, image1) && (tx.state != TxIdle ==> h == InHand(tx))
    requires |mem2| == |mem1| && forall j: nat :: j < |mem1| && j !in second ==> mem2[j] == mem1[j]
    requires Faithful(h, second, tx.state == TxIdle || image1.Some?, now, out)
    ensures |mem2| == |mem| && forall j: nat :: j < |mem| && j !in first + second ==> mem2[j] == mem[j]
    ensures Faithful(h, first + second, tx.state == TxIdle || image.Some?, now, out)
  {
  }

  /** A piece of a payload was finished. */
  predicate PieceDone(before: Rx, rx: Rx) {
    before.dmaRunning && !rx.dmaRunning && |before.args| == 2 == |rx.args| && rx.args[1] < before.args[1]
  }

  /** Why a command that is being worked on waits: for the FIFO, for the engine, for the console, or for the next poll. */
  predicate DataWaits(before: Rx, rx: Rx, dma: Dma, read: DebugRead, rxEmpty: bool) {
    if IsSdCommand(rx.cmd) then rxEmpty
    else if rx.cmd == ID_MEMORY_WRITE then dma.busy
    else rx.cmd == ID_USB_WRITE && (dma.busy || read.length == 0 || PieceDone(before, rx))
  }

  /** While the link is down nothing is sent or received, and a message being sent loses its callback. */
  ghost predicate Down(tx: Tx, after: Tx, out: Out, out1: Out, mem: seq<byte>, mem1: seq<byte>) {
    out1 == out && mem1 == mem && after == tx.(info := tx.info.(callback := after.info.callback))
  }

  /** A packet that waits with a callback is dropped when the link goes down. */
  ghost function WithoutDropped(accepted: seq<Parcel>, queued: Callback): seq<Parcel> {
    if queued != NoCallback && accepted != [] then accepted[..|accepted| - 1] else accepted
  }

  /** The message being sent is this one. */
  ghost predicate MessageIs(tx: Tx, token: word, info: TxInfo) {
    tx.state != TxIdle && tx.token == token && tx.info == info
  }

  ghost predicate LeaderWord(tx: Tx, word: word) {
    UsbState.ProperInfo(tx.info) && IsToken(tx.token) && WordsOut(tx) < |Leader(tx.token, tx.info)| &&
    word == Leader(tx.token, tx.info)[WordsOut(tx)]
  }

  /** Where the sending half is when a word of the leader is out. */
  function NextWord(tx: Tx): Tx {
    if tx.state == TxToken then
      if tx.counter == 0 then tx.(counter := 1) else tx.(state := TxData, counter := 0)
    else if tx.counter + 1 == tx.info.dataLength / 4 then tx.(state := TxDma, counter := 0)
    else tx.(counter := tx.counter + 1)
  }

  /** Some more bytes of a word of the leader. */
  lemma {:induction false} LeaderMore(tx: Tx, tx1: Tx, part: seq<byte>, word: word, n: nat)
    requires OnWire(tx, [], part) && (tx.state == TxToken || tx.state == TxData) && LeaderWord(tx, word)
    requires tx.wordCounter <= n <= 4 && tx1 == tx.(wordCounter := n % 4)
    ensures n < 4 ==> OnWire(tx1, [], part + BigEndian(word)[tx.wordCounter..n])
    ensures n == 4 ==> OnWire(NextWord(tx1), [], part + BigEndian(word)[tx.wordCounter..n])
  {
    LeaderBytes(tx, part, word, n);
    hide Words, BigEndian, Leader, OnWire, LeaderOut;
    var after := part + BigEndian(word)[tx.wordCounter..n];
    if n == 4 {
      NextIsOnWire(tx1, after, WordsOut(tx));
    } else {
      PartIsOnWire(tx1, after, WordsOut(tx));
    }
  }

  lemma {:induction false} LeaderBytes(tx: Tx, part: seq<byte>, word: word, n: nat)
    requires OnWire(tx, [], part) && (tx.state == TxToken || tx.state == TxData) && LeaderWord(tx, word) &&
      tx.wordCounter <= n <= 4
    ensures 4 * WordsOut(tx) + 4 <= |Words(Leader(tx.token, tx.info))| && !tx.dmaRunning
    ensures part + BigEndian(word)[tx.wordCounter..n] == Words(Leader(tx.token, tx.info))[..4 * WordsOut(tx) + n]
    ensures tx.state == TxToken ==> tx.counter < 2
    ensures tx.state == TxData ==> tx.counter < tx.info.dataLength / 4
  {
    hide Words, BigEndian, Leader, IsToken;
    WordBytes(Leader(tx.token, tx.info), WordsOut(tx), word, tx.wordCounter, n);
  }

  lemma {:induction false} WordBytes(leader: seq<word>, k: nat, word: word, from: nat, to: nat)
    requires k < |leader| && word == leader[k] && from <= to <= 4
    ensures 4 * k + 4 <= |Words(leader)| &&
      Words(leader)[..4 * k + from] + BigEndian(word)[from..to] == Words(leader)[..4 * k + to]
  {
    WordsAt(leader, k);
    hide Words, BigEndian;
    SliceMore(Words(leader), BigEndian(word), 4 * k, from, to);
  }

  lemma {:induction false} PartIsOnWire(tx: Tx, part: seq<byte>, k: nat)
    requires UsbState.ProperInfo(tx.info) && IsToken(tx.token) && !tx.dmaRunning && tx.wordCounter < 4 && k == WordsOut(tx)
    requires (tx.state == TxToken && tx.counter < 2) || (tx.state == TxData && tx.counter < tx.info.dataLength / 4)
    requires 4 * k + 4 <= |Words(Leader(tx.token, tx.info))| && part == Words(Leader(tx.token, tx.info))[..4 * k + tx.wordCounter]
    ensures OnWire(tx, [], part)
  {
    hide Words, Leader, IsToken;
  }

  lemma {:induction false} NextIsOnWire(tx: Tx, part: seq<byte>, k: nat)
    requires UsbState.ProperInfo(tx.info) && IsToken(tx.token) && !tx.dmaRunning && tx.wordCounter == 0 && k == WordsOut(tx)
    requires (tx.state == TxToken && tx.counter < 2) || (tx.state == TxData && tx.counter < tx.info.dataLength / 4)
    requires 4 * k + 4 <= |Words(Leader(tx.token, tx.info))| && part == Words(Leader(tx.token, tx.info))[..4 * k + 4]
    ensures OnWire(NextWord(tx), [], part)
  {
    var leader, next := Leader(tx.token, tx.info), NextWord(tx);
    hide Words, Leader, IsToken;
    if next.state == TxDma {
      assert Words(leader)[..4 * |leader|] == Words(leader) + [];
    }
  }

  lemma {:induction false} SliceMore(s: seq<byte>, word: seq<byte>, at: nat, from: nat, to: nat)
    requires |word| == 4 && at + 4 <= |s| && s[at..at + 4] == word && from <= to <= 4
    ensures s[..at + from] + word[from..to] == s[..at + to]
  {
    SliceOfSlice(s, at, 4, from, to);
    assert s[..at + to] == s[..at + from] + s[at + from..at + to];
  }

  lemma {:induction false} TxFacts(tx: Tx, out: Out)
    requires TxOk(tx, out) && (tx.state == TxToken || tx.state == TxData)
    ensures UsbState.ProperInfo(tx.info) && IsToken(tx.token) && out.sent == [] && !tx.dmaRunning && tx.wordCounter < 4
    ensures tx.state == TxToken ==> tx.counter < 2
    ensures tx.state == TxData ==> tx.counter < tx.info.dataLength / 4 || (tx.counter == 0 && tx.wordCounter == 0)
  {
    hide AllCarry, Words, Leader;
  }

  /** Between the token and the DMA part nothing else depends on how far the message is out. */
  lemma {:induction false} TxMoved(mem: seq<byte>, rx: Rx, tx: Tx, tx1: Tx, response: Response, packet: Queue,
          tickets: Tickets, dma: Dma, seen: Seen, out: Out, out1: Out)
    requires TxEngineOk(mem, tx, dma, out) && OrderOk(rx, tx, response, seen, out) && TicketsOk(packet, tx, response, tickets)
    requires (tx.state == TxToken || tx.state == TxData) && (tx1.state == TxToken || tx1.state == TxData || tx1.state == TxDma)
    requires tx1.info == tx.info && tx1.token == tx.token && tx1.dmaRunning == tx.dmaRunning == false
    requires out.sent == out1.sent == [] && out1.frames == out.frames && out1.image == out.image
    ensures TxEngineOk(mem, tx1, dma, out1) && OrderOk(rx, tx1, response, seen, out1) && TicketsOk(packet, tx1, response, tickets)
  {
    hide Parse, AnswersOk, Expected, ResponseIds, TicketsKept;
  }

  lemma {:induction false} LeaderComplete(tx: Tx, out: Out)
    requires TxOk(tx, out) && tx.state == TxData && tx.info.dataLength == 0
    ensures TxOk(tx.(state := TxDma), out)
  {
    hide AllCarry, Words, Leader;
    var leader := Leader(tx.token, tx.info);
    assert Words(leader)[..4 * |leader|] == Words(leader) + [];
  }

  function Called(tickets: Tickets, callback: Callback): Tickets {
    if callback.PacketDone? then tickets.(ran := tickets.ran + multiset{callback.ticket}) else tickets
  }

  lemma {:induction false} TicketRuns(tickets: Tickets, queued: Callback, sending: Callback)
    requires TicketsKept(tickets, queued, sending)
    ensures TicketsKept(Called(tickets, sending), queued, NoCallback)
    ensures TicketsKept(Called(tickets, queued), NoCallback, sending)
  {
  }

  /** Nothing under way and nothing seen yet. */
  lemma {:induction false} StartedOver(mem: seq<byte>, rx: Rx, tx: Tx, response: Response, packet: Queue, tickets: Tickets)
    requires |mem| == ADDRESSES && rx.state == RxIdle && |rx.args| == 2 && tx.state == TxIdle && tx.wordCounter == 0
    requires !response.pending && !packet.pending && UsbState.ProperInfo(response.info) && !response.info.callback.PacketDone?
    requires TicketsKept(tickets, NoCallback, NoCallback)
    ensures var dma, read, assembly, seen, out := Dma(false, false, 0, 0), DebugRead(true, 0, 0), Assembly(0, 0, 0), Seen([], 0, 0), Out([], [], [], [], [], None);
      RxOk(rx, assembly, seen) && RxEngineOk(rx, read, dma, seen) && TxEngineOk(mem, tx, dma, out) &&
      ReadOk(rx, read) && MemoryOk(mem, dma, rx, read, seen) &&
      TxOk(tx, out) && OrderOk(rx, tx, response, seen, out) && TicketsOk(packet, tx, response, tickets) &&
      InfoOk(response, packet) && AnswerOk(rx, response) && AnswersOk(rx, tx, response, seen, out)
  {
    hide TicketsKept, Landed, Words, Leader, AnswersOk;
    NothingAnswered(rx, tx, response);
  }

  /** The callback of a message is not part of what is sent. */
  lemma {:induction false} CallbackApart(rx: Rx, tx: Tx, response: Response, seen: Seen, out: Out)
    requires TxOk(tx, out) && OrderOk(rx, tx, response, seen, out)
    ensures TxOk(tx.(info := tx.info.(callback := NoCallback)), out)
    ensures OrderOk(rx, tx.(info := tx.info.(callback := NoCallback)), response, seen, out)
  {
    hide AllCarry, Words, Parse, AnswersOk, Expected, ResponseIds;
  }

  lemma {:induction false} TicketMoves(tickets: Tickets, queued: Callback, other: Callback)
    requires TicketsKept(tickets, queued, NoCallback) && !other.PacketDone?
    ensures TicketsKept(tickets, NoCallback, queued) && TicketsKept(tickets, queued, other)
  {
  }

  /** A finished message is one more frame on the wire. */
  lemma {:induction false} FrameDone(tx: Tx, out: Out)
    requires TxOk(tx, out) && tx.state == TxFlush && (out.image.Some? ==> out.image.value == out.sent)
    ensures UsbState.ProperInfo(tx.info) && IsToken(tx.token)
    ensures var f := Frame(TokenKind(tx.token), tx.info.cmd, Words(tx.info.data[..tx.info.dataLength / 4]) + out.sent);
      TxOk(tx.(state := TxIdle), Out(out.wire, out.frames + [f], out.messages + [MessageOf(tx.token, tx.info, out.image)], [], [], None))
  {
    MessageIsFrame(tx.token, tx.info, out.sent, out.image);
    hide Words, Leader, Carries, Encode, TokenKind;
    var f := Frame(TokenKind(tx.token), tx.info.cmd, Words(tx.info.data[..tx.info.dataLength / 4]) + out.sent);
    EncodeAllOne(out.frames, f);
    CarryMore(out.frames, out.messages, f, MessageOf(tx.token, tx.info, out.image));
    hide AllCarry, EncodeAll, MessageOf;
    assert out.wire == EncodeAll(out.frames + [f]) + [];
  }

  lemma {:induction false} CarryMore(frames: seq<Frame>, messages: seq<Message>, f: Frame, m: Message)
    requires AllCarry(frames, messages) && Carries(f, m)
    ensures AllCarry(frames + [f], messages + [m])
  {
    hide Carries;
  }

  lemma {:induction false} ResponseOne(frames: seq<Frame>, f: Frame)
    ensures ResponseIds(frames + [f]) == ResponseIds(frames) + if f.kind == Packet then [] else [f.id]
  {
    assert (frames + [f])[..|frames|] == frames;
  }

  lemma {:induction false} BytesOut(state: TxState, running: bool, sent: nat, length: nat, left: nat, n: nat, busy: bool)
    requires TxTransfer(state, running, sent, length, true, left) && n <= left && (busy || n == left)
    ensures TxTransfer(state, running, sent + n, length, busy, left - n) && state == TxDma
  {
  }

  lemma {:induction false} MemoryIs(mem: seq<byte>, dma: Dma, rx: Rx, read: DebugRead, seen: Seen)
    requires MemoryOk(mem, dma, rx, read, seen) && dma.busy
    ensures dma.address + dma.left <= |mem|
  {
  }

  lemma {:induction false} DmaOnWire(tx: Tx, sent: seq<byte>, part: seq<byte>, bytes: seq<byte>)
    requires OnWire(tx, sent, part) && tx.state == TxDma
    ensures OnWire(tx, sent + bytes, part + bytes)
  {
    Associative(Words(Leader(tx.token, tx.info)), sent, bytes);
  }

  lemma {:induction false} OrderSame(rx: Rx, tx: Tx, response: Response, seen: Seen, out: Out, seen1: Seen, out1: Out)
    requires OrderOk(rx, tx, response, seen, out)
    requires Parse(seen1.taken).ids == Parse(seen.taken).ids && out1.frames == out.frames
    ensures OrderOk(rx, tx, response, seen1, out1)
  {
  }

  lemma {:induction false} ExpectedOne(ids: seq<byte>, id: byte)
    ensures Expected(ids + [id]) == Expected(ids) + if id == ID_USB_WRITE then [] else [id]
  {
    assert (ids + [id])[..|ids|] == ids;
  }

  lemma {:induction false} WordBufferedIs(a: Assembly, taken: seq<byte>)
    requires WordBuffered(a, taken)
    ensures a.wordCounter < 4 && a.wordCounter <= |taken|
  {
  }

  lemma {:induction false} ByteOfWord(data: word, at: nat, k: nat)
    requires at <= k < 4
    ensures BigEndian(data)[at..k + 1] == BigEndian(data)[at..k] + [ByteOf(data, 3 - k)]
  {
    var w := BigEndian(data);
    assert ByteOf(data, 3 - k) == w[k];
    hide BigEndian, ByteOf;
    assert w[at..k + 1] == w[at..k] + [w[k]];
  }

  lemma {:induction false} NothingBuffered(a: Assembly, taken: seq<byte>)
    requires a.wordCounter == 0 && a.wordBuffer == 0
    ensures WordBuffered(a, taken)
  {
  }

  /** data >> (8 * k), as the byte the FIFO takes. */
  function ByteOf(data: word, k: nat): byte
    requires k < 4
  {
    if k == 0 then data % 256 else if k == 1 then data / 256 % 256 else if k == 2 then data / 256 / 256 % 256 else data / 256 / 256 / 256
  }
}
