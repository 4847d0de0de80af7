/**
 Device and host together (sw/controller/src/usb.c and sw/deployer/src/sc64/link.rs): what the host cuts
 out of the wire is what the firmware sent, and its answers are the answers to its commands.
 */
module UsbSession {
  import opened Bytes
  import opened UsbProtocol
  import opened UsbState
  import opened UsbAnswers
  import opened UsbDevice
  import opened UsbHost

  // ---------- the wire is a sequence of frames, the last one perhaps not complete ----------

  /** A frame the message being sent may still become. */
  lemma {:induction false} Completion(mem: seq<byte>, tx: Tx, dma: Dma, out: Out) returns (f: Frame)
    requires TxOk(tx, out) && TxEngineOk(mem, tx, dma, out) && tx.state != TxIdle
    ensures UsbState.ProperInfo(tx.info) && Sendable(f) && out.part <= Encode(f) &&
      Carries(f, MessageOf(tx.token, tx.info, out.image))
  {
    var rest := Remaining(mem, tx, dma, out);
    PartStarts(tx, out, rest);
    hide TxOk, TxEngineOk, Words, Leader, Encode, Carries, TokenKind, IsToken;
    MessageIsFrame(tx.token, tx.info, out.sent + rest, out.image);
    f := Frame(TokenKind(tx.token), tx.info.cmd, Words(tx.info.data[..tx.info.dataLength / 4]) + (out.sent + rest));
  }

  /** What the engine has still to send of the memory of a message. */
  lemma {:induction false} Remaining(mem: seq<byte>, tx: Tx, dma: Dma, out: Out) returns (rest: seq<byte>)
    requires TxOk(tx, out) && TxEngineOk(mem, tx, dma, out) && tx.state != TxIdle
    ensures |out.sent + rest| == tx.info.dmaLength && (out.image.Some? ==> out.image.value == out.sent + rest)
  {
    hide AllCarry, Words, Leader, EncodeAll, IsToken;
    rest := if out.image.Some? then out.image.value[|out.sent|..] else Zeros(tx.info.dmaLength - |out.sent|);
  }

  lemma {:induction false} PartStarts(tx: Tx, out: Out, rest: seq<byte>)
    requires TxOk(tx, out) && tx.state != TxIdle
    ensures UsbState.ProperInfo(tx.info) && IsToken(tx.token) && out.part <= Words(Leader(tx.token, tx.info)) + (out.sent + rest)
  {
    hide AllCarry, Words, Leader, EncodeAll, IsToken;
    Associative(Words(Leader(tx.token, tx.info)), out.sent, rest);
  }

  /** The frames on the wire, with the current one completed. */
  ghost predicate OnTheWire(usb: Usb, frames: seq<Frame>)
    reads usb
  {
    AllSendable(frames) && usb.out.wire <= EncodeAll(frames) && usb.out.frames <= frames &&
    |frames| == |usb.out.frames| + (if usb.tx.state == TxIdle then 0 else 1) &&
    (usb.tx.state != TxIdle ==> UsbState.ProperInfo(usb.tx.info) && Carries(frames[|frames| - 1], MessageOf(usb.tx.token, usb.tx.info, usb.out.image)))
  }

  lemma {:induction false} WireIsFrames(usb: Usb) returns (frames: seq<Frame>)
    requires usb.Valid()
    ensures OnTheWire(usb, frames)
  {
    hide RxOk, RxEngineOk, ReadOk, MemoryOk, OrderOk, AnswersOk, TicketsOk, InfoOk, AnswerOk, TxEngineOk, AllCarry, Encode, Carries;
    if usb.tx.state == TxIdle {
      frames := usb.out.frames;
      assert usb.out.wire == EncodeAll(frames);
    } else {
      var f := Completion(usb.mem, usb.tx, usb.dma, usb.out);
      hide OnWire;
      EncodeAllOne(usb.out.frames, f);
      frames := usb.out.frames + [f];
      PrefixUnder(EncodeAll(usb.out.frames), usb.out.part, Encode(f));
    }
  }

  lemma {:induction false} PrefixUnder<T>(a: seq<T>, b: seq<T>, c: seq<T>)
    requires b <= c
    ensures a + b <= a + c
  {
    assert c == b + c[|b|..];
    Associative(a, b, c[|b|..]);
  }

  // ---------- answers ----------

  ghost function Ids(frames: seq<Frame>): seq<byte> {
    if frames == [] then [] else Ids(frames[..|frames| - 1]) + [frames[|frames| - 1].id]
  }

  lemma {:induction false} IdsOfResponses(frames: seq<Frame>)
    ensures Ids(Responses(frames)) == ResponseIds(frames)
  {
    if frames != [] {
      var init, last := frames[..|frames| - 1], frames[|frames| - 1];
      IdsOfResponses(init);
      var r := Responses(init);
      assert (r + [last])[..|r|] == r && r + [] == r;
    }
  }

  lemma {:induction false} ResponsePrefix(frames: seq<Frame>, n: nat)
    requires n <= |frames|
    ensures ResponseIds(frames[..n]) <= ResponseIds(frames)
    decreases |frames| - n
  {
    if n == |frames| {
      assert frames[..n] == frames;
    } else {
      ResponsePrefix(frames, n + 1);
      assert frames[..n + 1][..n] == frames[..n];
    }
  }

  lemma {:induction false} InOrderSoFar(rx: Rx, tx: Tx, response: Response, seen: Seen, out: Out)
    requires OrderOk(rx, tx, response, seen, out)
    ensures ResponseIds(out.frames) + Sending(tx) <= Expected(Parse(seen.taken).ids)
  {
    hide Parse, Expected, ResponseIds;
    var a, b := ResponseIds(out.frames) + Sending(tx), Answered(response) + Working(rx);
    Associative(a, Answered(response), Working(rx));
    assert Expected(Parse(seen.taken).ids) == a + b;
  }

  lemma {:induction false} SendingOne(tx: Tx, f: Frame)
    requires tx.state != TxIdle && IsToken(tx.token) && f.kind == TokenKind(tx.token) && f.id == tx.info.cmd
    ensures Sending(tx) == if f.kind == Packet then [] else [f.id]
  {
  }

  /** All responses that may be on the wire answer commands the device has taken, in their order. */
  lemma {:induction false} ResponsesInOrder(usb: Usb, frames: seq<Frame>)
    requires usb.Valid() && OnTheWire(usb, frames)
    ensures ResponseIds(frames) <= Expected(Parse(usb.seen.taken).ids)
  {
    hide RxOk, RxEngineOk, ReadOk, MemoryOk, TicketsOk, InfoOk, AnswerOk, AcceptedOk, TxEngineOk, Parse, Expected, AllCarry, EncodeAll, ResponseIds,
      OrderOk, AnswersOk, Sending, Words, Leader;
    InOrderSoFar(usb.rx, usb.tx, usb.response, usb.seen, usb.out);
    if usb.tx.state == TxIdle {
      assert frames == usb.out.frames;
      assert Sending(usb.tx) == [] by { NotSending(usb.tx); }
      assert ResponseIds(frames) + [] == ResponseIds(frames);
    } else {
      var f := frames[|frames| - 1];
      assert frames == usb.out.frames + [f];
      ResponseOne(usb.out.frames, f);
      SendingOne(usb.tx, f);
    }
  }

  lemma {:induction false} NotSending(tx: Tx)
    requires tx.state == TxIdle
    ensures Sending(tx) == []
  {
  }

  /** What the device has found for the commands it has answered, the answer being sent included. */
  ghost function Given(usb: Usb): seq<Verdict>
    reads usb
  {
    Verdicts(usb.out.frames) + SendingVerdict(usb.tx)
  }

  lemma {:induction false} VerdictsOfResponses(frames: seq<Frame>)
    ensures |Verdicts(frames)| == |Responses(frames)|
    ensures forall k :: 0 <= k < |Responses(frames)| ==> Verdicts(frames)[k] == VerdictOf(Responses(frames)[k])
  {
    if frames != [] { VerdictsOfResponses(frames[..|frames| - 1]); }
  }

  lemma {:induction false} VerdictsPrefix(frames: seq<Frame>, n: nat)
    requires n <= |frames|
    ensures Verdicts(frames[..n]) <= Verdicts(frames)
    decreases |frames| - n
  {
    if n == |frames| {
      assert frames[..n] == frames;
    } else {
      VerdictsPrefix(frames, n + 1);
      assert frames[..n + 1][..n] == frames[..n];
    }
  }

  /** The host is told exactly what the device has found. */
  lemma {:induction false} VerdictsOnTheWire(usb: Usb, frames: seq<Frame>)
    requires usb.Valid() && OnTheWire(usb, frames)
    ensures Verdicts(frames) == Given(usb)
  {
    hide RxOk, RxEngineOk, ReadOk, MemoryOk, OrderOk, AnswersOk, TicketsOk, InfoOk, AnswerOk, AcceptedOk, TxEngineOk, AllCarry, EncodeAll, Verdicts, Words, Leader;
    if usb.tx.state == TxIdle {
      assert frames == usb.out.frames;
    } else {
      var f := frames[|frames| - 1];
      assert frames == usb.out.frames + [f];
      VerdictsOne(usb.out.frames, f);
    }
  }

  lemma {:induction false} GivenRight(usb: Usb)
    requires usb.Valid()
    ensures RightSoFar(Parse(usb.seen.taken).commands, Verdicts(usb.out.frames) + SendingVerdict(usb.tx))
  {
    hide RxOk, RxEngineOk, TxOk, ReadOk, MemoryOk, OrderOk, TicketsOk, InfoOk, AnswerOk, AcceptedOk, TxEngineOk, AnswersOk, RightSoFar;
    RightSoFarIs(usb.rx, usb.tx, usb.response, usb.seen, usb.out);
  }

  lemma {:induction false} RightSoFarIs(rx: Rx, tx: Tx, response: Response, seen: Seen, out: Out)
    requires AnswersOk(rx, tx, response, seen, out)
    ensures RightSoFar(Parse(seen.taken).commands, Verdicts(out.frames) + SendingVerdict(tx))
  {
    hide Parse, Verdicts, SendingVerdict, Asked, Right, Guarded, Owes;
    Associative(Verdicts(out.frames), SendingVerdict(tx), PendingVerdict(response));
    var all, sent := Verdicts(out.frames) + (SendingVerdict(tx) + PendingVerdict(response)), Verdicts(out.frames) + SendingVerdict(tx);
    assert all[..|sent|] == sent;
    assert forall k :: 0 <= k < |sent| ==> sent[k] == all[k];
  }

  /** The first of these commands that are answered at all have been answered rightly. */
  ghost predicate RightSoFar(commands: seq<Command>, verdicts: seq<Verdict>) {
    |verdicts| <= |Asked(commands)| && forall k :: 0 <= k < |verdicts| ==> Right(Asked(commands)[k], verdicts[k])
  }

  lemma {:induction false} AskedPrefix(a: seq<Command>, b: seq<Command>)
    requires a <= b
    ensures Asked(a) <= Asked(b)
    decreases |b|
  {
    if a != b {
      AskedPrefix(a, b[..|b| - 1]);
    }
  }

  lemma {:induction false} RightPrefix(a: seq<Command>, b: seq<Command>, given: seq<Verdict>, heard: seq<Verdict>)
    requires a <= b && heard <= given && RightSoFar(a, given)
    ensures RightSoFar(b, heard)
  {
    hide Asked, Right;
    AskedPrefix(a, b);
  }

  // ---------- commands ----------

  datatype Sent = Sent(command: Command, data: seq<byte>)

  /** Every command is followed by the payload its arguments announce. */
  ghost predicate WellSent(commands: seq<Sent>) {
    forall i :: 0 <= i < |commands| ==> |commands[i].data| == PayloadLength(commands[i].command)
  }

  ghost function Stream(commands: seq<Sent>): seq<byte> {
    if commands == [] then [] else
      Stream(commands[..|commands| - 1]) + EncodeCommand(commands[|commands| - 1].command, commands[|commands| - 1].data)
  }

  ghost function SentIds(commands: seq<Sent>): seq<byte> {
    if commands == [] then [] else SentIds(commands[..|commands| - 1]) + [commands[|commands| - 1].command.id]
  }

  ghost function SentCommands(commands: seq<Sent>): seq<Command> {
    if commands == [] then [] else SentCommands(commands[..|commands| - 1]) + [commands[|commands| - 1].command]
  }

  /** A device that has taken everything the host sent has taken exactly its commands. */
  lemma {:induction false} AllTaken(commands: seq<Sent>)
    requires WellSent(commands)
    ensures Parse(Stream(commands)) == Parser(Scan(0), SentIds(commands), SentCommands(commands))
  {
    hide EncodeCommand, PayloadLength, FeedAll;
    if commands == [] {
      ParseNothing();
    } else {
      var init, last := commands[..|commands| - 1], commands[|commands| - 1];
      AllTaken(init);
      CommandRoundTrip(Parse(Stream(init)), last.command, last.data);
      FeedAllAppend(START, Stream(init), EncodeCommand(last.command, last.data));
    }
  }

  lemma {:induction false} ParseNothing()
    ensures Parse([]) == START
  {
  }

  /** The automaton never takes back what it has recognised. */
  lemma {:induction false} ParseGrows(taken: seq<byte>, more: seq<byte>)
    ensures Parse(taken).ids <= Parse(taken + more).ids && Parse(taken).commands <= Parse(taken + more).commands
  {
    if more == [] {
      assert taken + more == taken;
    } else {
      var init := more[..|more| - 1];
      ParseGrows(taken, init);
      assert taken + more == taken + init + [more[|more| - 1]];
      ParseOne(taken + init, more[|more| - 1]);
      hide Parse;
    }
  }

  /** However much of the stream has arrived, what the device has taken is the first of the host's commands. */
  lemma {:induction false} TakenInOrder(commands: seq<Sent>, taken: seq<byte>)
    requires WellSent(commands) && taken <= Stream(commands)
    ensures Parse(taken).ids <= SentIds(commands) && Parse(taken).commands <= SentCommands(commands)
  {
    hide Parse, Stream;
    AllTaken(commands);
    var more := Stream(commands)[|taken|..];
    assert Stream(commands) == taken + more;
    ParseGrows(taken, more);
  }

  lemma {:induction false} ExpectedPrefix(a: seq<byte>, b: seq<byte>)
    requires a <= b
    ensures Expected(a) <= Expected(b)
    decreases |b|
  {
    if a == b {
    } else {
      ExpectedPrefix(a, b[..|b| - 1]);
    }
  }

  // ---------- packets ----------

  /** A frame is this packet: its id, its data words and as many bytes of memory. */
  ghost predicate Fits(f: Frame, p: Parcel) {
    f.id == p.id && |f.payload| == 4 * |p.data| + p.dmaLength && f.payload[..4 * |p.data|] == Words(p.data)
  }

  /** These frames are the first of these packets. */
  ghost predicate FirstOf(frames: seq<Frame>, parcels: seq<Parcel>) {
    |frames| <= |parcels| && forall k :: 0 <= k < |frames| ==> Fits(frames[k], parcels[k])
  }

  lemma {:induction false} FirstOfMore(frames: seq<Frame>, parcels: seq<Parcel>, more: seq<Parcel>)
    requires FirstOf(frames, parcels) && parcels <= more
    ensures FirstOf(frames, more)
  {
    hide Fits;
  }

  lemma {:induction false} FirstOfOne(frames: seq<Frame>, parcels: seq<Parcel>, f: Frame, p: Parcel)
    requires FirstOf(frames, parcels) && |frames| == |parcels| && Fits(f, p)
    ensures FirstOf(frames + [f], parcels + [p])
  {
    hide Fits;
  }

  /** The packets among frames are the packets among the messages they carry. */
  lemma {:induction false} PacketsMatch(frames: seq<Frame>, messages: seq<Message>)
    requires AllCarry(frames, messages)
    ensures |Packets(frames)| == |Parcels(messages)| && FirstOf(Packets(frames), Parcels(messages))
  {
    if frames != [] {
      var n := |frames| - 1;
      var f, m := frames[n], messages[n];
      assert AllCarry(frames[..n], messages[..n]);
      PacketsMatch(frames[..n], messages[..n]);
      assert Carries(f, m);
      hide AllCarry, FirstOf, Words;
      FirstOfBoth(frames[..n], messages[..n], f, m);
    }
  }

  lemma {:induction false} FirstOfBoth(frames: seq<Frame>, messages: seq<Message>, f: Frame, m: Message)
    requires |Packets(frames)| == |Parcels(messages)| && FirstOf(Packets(frames), Parcels(messages)) && Carries(f, m)
    ensures m.kind == Packet ==> FirstOf(Packets(frames) + [f], Parcels(messages) + [Parcel(m.id, m.data, m.dmaLength)])
    ensures m.kind != Packet ==> FirstOf(Packets(frames) + [], Parcels(messages) + [])
  {
    if m.kind == Packet {
      FirstOfOne(Packets(frames), Parcels(messages), f, Parcel(m.id, m.data, m.dmaLength));
    } else {
      assert Packets(frames) + [] == Packets(frames) && Parcels(messages) + [] == Parcels(messages);
    }
  }

  lemma {:induction false} ParcelsPrefix(messages: seq<Message>, n: nat)
    requires n <= |messages|
    ensures Parcels(messages[..n]) <= Parcels(messages)
    decreases |messages| - n
  {
    if n == |messages| {
      assert messages[..n] == messages;
    } else {
      ParcelsPrefix(messages, n + 1);
      assert messages[..n + 1][..n] == messages[..n];
    }
  }

  /** The messages behind the frames on the wire, the one being sent included. */
  lemma {:induction false} WithSending(usb: Usb, frames: seq<Frame>) returns (messages: seq<Message>)
    requires usb.Valid() && OnTheWire(usb, frames)
    ensures AllCarry(frames, messages) && Parcels(messages) <= usb.accepted
  {
    hide RxOk, RxEngineOk, ReadOk, MemoryOk, OrderOk, AnswersOk, TicketsOk, InfoOk, AnswerOk, TxEngineOk, EncodeAll, Carries, Parcels, Words, Leader;
    messages := usb.out.messages;
    if usb.tx.state == TxIdle {
      assert frames == usb.out.frames;
    } else {
      var m := MessageOf(usb.tx.token, usb.tx.info, usb.out.image);
      assert frames == usb.out.frames + [frames[|frames| - 1]];
      CarryMore(usb.out.frames, messages, frames[|frames| - 1], m);
      ParcelsOne(messages, m);
      messages := messages + [m];
    }
  }

  /** The packets a host finds in the first frames are the packets that were accepted, in their order. */
  lemma {:induction false} PacketsAccepted(usb: Usb, frames: seq<Frame>, n: nat)
    requires usb.Valid() && OnTheWire(usb, frames) && n <= |frames|
    ensures FirstOf(Packets(frames[..n]), usb.accepted)
  {
    var messages := WithSending(usb, frames);
    assert AllCarry(frames[..n], messages[..n]);
    PacketsMatch(frames[..n], messages[..n]);
    ParcelsPrefix(messages, n);
    hide *;
    PrefixOn(Parcels(messages[..n]), Parcels(messages), usb.accepted);
    FirstOfMore(Packets(frames[..n]), Parcels(messages[..n]), usb.accepted);
  }

  // ---------- end to end ----------

  lemma {:induction false} PrefixOn<T>(a: seq<T>, b: seq<T>, c: seq<T>)
    requires a <= b && b <= c
    ensures a <= c
  {
    assert c[..|b|][..|a|] == c[..|a|];
  }

  /**
   However commands arrive and however frames are read: the frames the host has read are the ones the
   firmware sent, with their ids, kinds and data, the k-th packet is the k-th that was accepted, and the k-th
   response has the id of the k-th command that is answered at all.
   */
  lemma {:induction false} EndToEnd(usb: Usb, link: Link, frames: seq<Frame>, commands: seq<Sent>)
    requires usb.Valid() && link.Valid() && OnTheWire(usb, frames)
    requires link.backend.frames == frames && link.backend.stream <= usb.out.wire
    requires WellSent(commands) && usb.seen.taken <= Stream(commands)
    ensures Ids(link.answers) <= Expected(SentIds(commands))
    ensures link.given + link.packets == Packets(frames[..link.backend.n]) && link.answers == Responses(frames[..link.backend.n])
    ensures forall i :: 0 <= i < |usb.out.frames| ==> i < |usb.out.messages| && Carries(frames[i], usb.out.messages[i])
    ensures FirstOf(link.given + link.packets, usb.accepted)
  {
    var n := link.backend.n;
    PacketsAccepted(usb, frames, n);
    CarriedSoFar(usb, frames);
    IdsOfResponses(frames[..n]);
    ResponsePrefix(frames, n);
    ResponsesInOrder(usb, frames);
    TakenInOrder(commands, usb.seen.taken);
    ExpectedPrefix(Parse(usb.seen.taken).ids, SentIds(commands));
    hide Parse, Expected, ResponseIds, Responses, Packets, Ids, SentIds, Carries, FirstOf;
    PrefixOn(ResponseIds(frames[..n]), ResponseIds(frames), Expected(Parse(usb.seen.taken).ids));
    PrefixOn(ResponseIds(frames[..n]), Expected(Parse(usb.seen.taken).ids), Expected(SentIds(commands)));
  }

  /**
   The k-th response the host has read is the right answer to the k-th of its commands that is answered at all, and
   tells what the device has found: whether the command failed, and how much data there is.
   */
  lemma {:induction false} AnsweredRightly(usb: Usb, link: Link, frames: seq<Frame>, commands: seq<Sent>)
    requires usb.Valid() && link.Valid() && OnTheWire(usb, frames)
    requires link.backend.frames == frames && link.backend.stream <= usb.out.wire
    requires WellSent(commands) && usb.seen.taken <= Stream(commands)
    ensures |link.answers| <= |Given(usb)| && |link.answers| <= |Asked(SentCommands(commands))|
    ensures forall k :: 0 <= k < |link.answers| ==>
      Given(usb)[k] == VerdictOf(link.answers[k]) && Right(Asked(SentCommands(commands))[k], Given(usb)[k])
  {
    hide *;
    var n := link.backend.n;
    AnswersRead(link);
    TakenInOrder(commands, usb.seen.taken);
    VerdictsOnTheWire(usb, frames);
    GivenRight(usb);
    GivenIs(usb);
    VerdictsPrefix(frames, n);
    VerdictsOfResponses(frames[..n]);
    RightPrefix(Parse(usb.seen.taken).commands, SentCommands(commands), Verdicts(usb.out.frames) + SendingVerdict(usb.tx), Verdicts(frames[..n]));
    EachRight(SentCommands(commands), Verdicts(frames[..n]));
  }

  lemma {:induction false} AnswersRead(link: Link)
    requires link.Valid()
    ensures link.backend.n <= |link.backend.frames| && link.answers == Responses(link.backend.frames[..link.backend.n])
  {
  }

  /** The last command is the last one that is answered. */
  lemma {:induction false} LastAsked(commands: seq<Sent>, last: Sent)
    requires last.command.id != ID_USB_WRITE
    ensures Asked(SentCommands(commands + [last])) == Asked(SentCommands(commands)) + [last.command]
    ensures Expected(SentIds(commands + [last])) == Expected(SentIds(commands)) + [last.command.id]
  {
    assert (commands + [last])[..|commands|] == commands;
    ExpectedOne(SentIds(commands), last.command.id);
    AskedOne(SentCommands(commands), last.command);
  }

  lemma {:induction false} EachRight(commands: seq<Command>, verdicts: seq<Verdict>)
    requires RightSoFar(commands, verdicts)
    ensures |verdicts| <= |Asked(commands)| && forall k :: 0 <= k < |verdicts| ==> Right(Asked(commands)[k], verdicts[k])
  {
  }

  lemma {:induction false} GivenIs(usb: Usb)
    ensures Given(usb) == Verdicts(usb.out.frames) + SendingVerdict(usb.tx)
  {
  }

  lemma {:induction false} AskedCount(commands: seq<Sent>)
    ensures |Asked(SentCommands(commands))| == |Expected(SentIds(commands))|
  {
    if commands != [] {
      var init, last := commands[..|commands| - 1], commands[|commands| - 1].command;
      AskedCount(init);
      AskedOne(SentCommands(init), last);
      ExpectedOne(SentIds(init), last.id);
    }
  }

  lemma {:induction false} CarriedSoFar(usb: Usb, frames: seq<Frame>)
    requires usb.Valid() && OnTheWire(usb, frames)
    ensures forall i :: 0 <= i < |usb.out.frames| ==> i < |usb.out.messages| && Carries(frames[i], usb.out.messages[i])
  {
    hide RxOk, RxEngineOk, ReadOk, MemoryOk, OrderOk, AnswersOk, TicketsOk, InfoOk, AnswerOk, TxEngineOk, Carries, OnWire, EncodeAll;
  }

  /**
   A host that waits for the answer to each command before it sends the next one gets the answer to the command
   it has just sent: the identifiers never differ, it is an error just when the device has found one, and it is the right
   answer to that command.
   */
  lemma {:induction false} LockStep(usb: Usb, link: Link, frames: seq<Frame>, commands: seq<Sent>, last: Sent)
    requires usb.Valid() && link.Valid() && OnTheWire(usb, frames)
    requires link.backend.frames == frames && link.backend.stream <= usb.out.wire
    requires WellSent(commands + [last]) && usb.seen.taken <= Stream(commands + [last]) && last.command.id != ID_USB_WRITE
    requires |link.answers| == |Expected(SentIds(commands))| + 1
    ensures var n := |link.answers| - 1;
      link.answers[n].id == last.command.id && n < |Given(usb)| && (link.answers[n].kind == Kind.Failed <==> Given(usb)[n].failed) &&
      Right(last.command, VerdictOf(link.answers[n]))
  {
    hide *;
    var answers, n := link.answers, |link.answers| - 1;
    EndToEnd(usb, link, frames, commands + [last]);
    AnsweredRightly(usb, link, frames, commands + [last]);
    LastAsked(commands, last);
    AskedCount(commands);
    LastAnswer(answers, Expected(SentIds(commands)), last.command.id);
    assert Asked(SentCommands(commands + [last]))[n] == last.command;
    FailedIs(answers[n]);
  }

  lemma {:induction false} FailedIs(f: Frame)
    ensures VerdictOf(f).failed <==> f.kind == Kind.Failed
  {
  }

  lemma {:induction false} LastAnswer(answers: seq<Frame>, ids: seq<byte>, id: byte)
    requires Ids(answers) <= ids + [id] && |answers| == |ids| + 1
    ensures answers[|answers| - 1].id == id
  {
    IdsLength(answers);
    assert Ids(answers)[|answers| - 1] == answers[|answers| - 1].id;
  }

  lemma {:induction false} IdsLength(frames: seq<Frame>)
    ensures |Ids(frames)| == |frames|
  {
    if frames != [] { IdsLength(frames[..|frames| - 1]); }
  }

  /** A host that starts to read what is on the wire. */
  method Listen(usb: Usb, stream: seq<byte>) returns (link: Link)
    requires usb.Valid() && stream <= usb.out.wire
    ensures fresh(link) && fresh(link.backend) && link.Valid() && link.backend.stream == stream && link.written == [] && link.answers == []
    ensures OnTheWire(usb, link.backend.frames) && link.backend.n == 0
  {
    hide usb.Valid, EncodeAll;
    ghost var frames := WireIsFrames(usb);
    PrefixOn(stream, usb.out.wire, EncodeAll(frames));
    var backend := new Backend(stream, frames);
    link := new Link(backend);
  }

  // ---------- runs ----------

  datatype Event = Poll | Enqueue(info: TxInfo) | PrepareRead(address: nat, length: nat) | ConsoleStores(address: nat, data: seq<byte>)

  predicate ProperEvent(e: Event) {
    match e
    case Poll => true
    case Enqueue(info) => UsbState.ProperInfo(info) && info.callback == NoCallback
    case PrepareRead(address, length) => address + length <= ADDRESSES
    case ConsoleStores(address, data) => address + |data| <= ADDRESSES
  }

  /**
   What happened at an event: whether the link was up, the message that was being sent, the addresses that were
   written, and the packet that was accepted.
   */
  datatype Note = Note(active: bool, h: Option<Handed>, wrote: set<nat>, parcels: seq<Parcel>)

  /** Nothing but what the event says: a poll may queue one packet of its own, and only polls and stores write memory. */
  ghost predicate NoteOf(e: Event, note: Note) {
    match e
    case Poll => note.parcels == [] || note.parcels == [DRAINED]
    case Enqueue(info) => note.active && note.wrote == {} && (note.parcels == [] || note.parcels == [ParcelOf(info)])
    case PrepareRead(_, _) => note.active && note.wrote == {} && note.parcels == []
    case ConsoleStores(address, data) => note.active && note.wrote <= Span(address, |data|) && note.parcels == []
  }

  /** The memory of the message being sent was not written. */
  ghost predicate Clean(note: Note) {
    note.h.Some? ==> Misses(note.h.value.info, note.wrote)
  }

  ghost function AllParcels(notes: seq<Note>): seq<Parcel> {
    if notes == [] then [] else AllParcels(notes[..|notes| - 1]) + notes[|notes| - 1].parcels
  }

  lemma {:induction false} AllParcelsOne(notes: seq<Note>, note: Note)
    ensures AllParcels(notes + [note]) == AllParcels(notes) + note.parcels
  {
    assert (notes + [note])[..|notes|] == notes;
  }

  /** The link was up all the time. */
  ghost predicate AllActive(notes: seq<Note>) {
    forall i :: 0 <= i < |notes| ==> notes[i].active
  }

  ghost predicate AllClean(notes: seq<Note>) {
    forall i :: 0 <= i < |notes| ==> Clean(notes[i])
  }

  ghost predicate NotesOf(events: seq<Event>, notes: seq<Note>) {
    |notes| <= |events| && forall i :: 0 <= i < |notes| ==> NoteOf(events[i], notes[i])
  }

  lemma {:induction false} NotesOne(events: seq<Event>, notes: seq<Note>, note: Note)
    requires NotesOf(events, notes) && |notes| < |events| && NoteOf(events[|notes|], note)
    ensures NotesOf(events, notes + [note])
    ensures AllActive(notes + [note]) <==> AllActive(notes) && note.active
    ensures AllClean(notes + [note]) <==> AllClean(notes) && Clean(note)
  {
    hide NoteOf, Clean;
    var all := notes + [note];
    assert all[|notes|] == note && forall k :: 0 <= k < |notes| ==> all[k] == notes[k];
  }

  /** From message number n on, each went out with the memory it had when it was taken up, and so far the one being sent. */
  ghost predicate Whole(n: nat, tx: Tx, out: Out) {
    n <= |out.messages| && (forall i :: n <= i < |out.messages| ==> out.messages[i].content.Some?) && (tx.state == TxIdle || out.image.Some?)
  }

  lemma {:induction false} PollWhole(n: nat, tx: Tx, tx1: Tx, packet: Queue, packet1: Queue, h: Option<Handed>, wrote: set<nat>, out: Out, out1: Out,
                                     tickets: Tickets, called: Tickets, mem: seq<byte>)
    requires Whole(n, tx, out) && (h.Some? ==> Misses(h.value.info, wrote)) && GoesOn(h, tx, packet, packet1)
    requires Handled(h, InHand(tx1), out.messages, out1.messages, tickets, called, mem)
    requires Faithful(h, wrote, tx.state == TxIdle || out.image.Some?, InHand(tx1), out1)
    ensures Whole(n, tx1, out1)
  {
    hide IsMessage, Misses, Called;
    forall i | n <= i < |out1.messages|
      ensures out1.messages[i].content.Some?
    {
      if i < |out.messages| { assert out1.messages[i] == out1.messages[..|out.messages|][i] == out.messages[i]; }
    }
  }

  lemma {:induction false} StoreWhole(n: nat, tx: Tx, wrote: set<nat>, out: Out, out1: Out, mem: seq<byte>, mem1: seq<byte>)
    requires Whole(n, tx, out) && out1 == out.(image := out1.image) && Leaves(tx, wrote, mem, out.image, mem1, out1.image)
    ensures tx.state == TxIdle || Misses(tx.info, wrote) ==> Whole(n, tx, out1)
  {
  }

  /** One event. */
  method Step(usb: Usb, e: Event, notify: bool) returns (ghost note: Note)
    requires usb.Valid() && ProperEvent(e)
    modifies usb
    ensures usb.Valid() && NoteOf(e, note)
    ensures note.active ==> Grows(old(usb.out), usb.out) && usb.accepted == old(usb.accepted) + note.parcels
    ensures note.active && Clean(note) ==> forall n: nat :: Whole(n, old(usb.tx), old(usb.out)) ==> Whole(n, usb.tx, usb.out)
    ensures !note.active ==> e.Poll?
  {
    hide usb.Valid, Handled, GoesOn, Faithful, Leaves, Whole, Misses, Span, WithoutDropped;
    ghost var tx0, out0, packet0, tickets0, mem0 := usb.tx, usb.out, usb.packet, usb.tickets, usb.mem;
    assert usb.accepted + [] == usb.accepted;
    match e {
      case Poll =>
        var active;
        ghost var h, wrote;
        active, h, wrote := usb.UsbProcess();
        note := Note(active, h, wrote, if usb.accepted == old(usb.accepted) then [] else [DRAINED]);
        if active && Clean(note) {
          forall n: nat | Whole(n, tx0, out0)
            ensures Whole(n, usb.tx, usb.out)
          {
            PollWhole(n, tx0, usb.tx, packet0, usb.packet, h, wrote, out0, usb.out, tickets0, usb.tickets, usb.mem);
          }
        }
      case Enqueue(info) =>
        var callback := if notify then PacketDone(usb.tickets.issued) else NoCallback;
        var ok := usb.UsbEnqueuePacket(info.(callback := callback));
        note := Note(true, InHand(tx0), {}, if ok then [ParcelOf(info)] else []);
      case PrepareRead(address, length) =>
        var ok := usb.UsbPrepareRead(address, length);
        note := Note(true, InHand(tx0), {}, []);
      case ConsoleStores(address, data) =>
        usb.RxFacts();
        note := Note(true, InHand(tx0), {}, []);
        if !usb.Reserved(address, |data|) {
          usb.ConsoleWrites(address, data);
          note := Note(true, InHand(tx0), Span(address, |data|), []);
          if Clean(note) {
            forall n: nat | Whole(n, tx0, out0)
              ensures Whole(n, usb.tx, usb.out)
            {
              StoreWhole(n, tx0, Span(address, |data|), out0, usb.out, mem0, usb.mem);
            }
          }
        }
    }
  }

  /**
   Every run of polls, packets, debug reads and console stores keeps the device in order. While the link is up the wire
   only grows and every packet that is accepted is remembered; as long as nobody writes the memory of a message being
   sent, every message goes out with the memory it had.
   */
  method Run(usb: Usb, events: seq<Event>, notify: bool) returns (ghost notes: seq<Note>)
    requires usb.Valid() && forall i :: 0 <= i < |events| ==> ProperEvent(events[i])
    modifies usb
    ensures usb.Valid() && |notes| == |events| && NotesOf(events, notes)
    ensures AllActive(notes) ==> Grows(old(usb.out), usb.out) && usb.accepted == old(usb.accepted) + AllParcels(notes)
    ensures AllActive(notes) && AllClean(notes) && Whole(|old(usb.out).messages|, old(usb.tx), old(usb.out)) ==>
      Whole(|old(usb.out).messages|, usb.tx, usb.out)
  {
    hide usb.Valid, NoteOf, NotesOf, Clean, AllActive, AllClean, Whole, AllParcels, ProperEvent;
    notes := [];
    ghost var n: nat := |usb.out.messages|;
    NothingNoted(events, usb.accepted);
    for i := 0 to |events|
      invariant usb.Valid() && |notes| == i && NotesOf(events, notes)
      invariant AllActive(notes) ==> Grows(old(usb.out), usb.out) && usb.accepted == old(usb.accepted) + AllParcels(notes)
      invariant AllActive(notes) && AllClean(notes) && Whole(n, old(usb.tx), old(usb.out)) ==> Whole(n, usb.tx, usb.out)
    {
      ghost var before := usb.out;
      ghost var note := Step(usb, events[i], notify);
      NotesOne(events, notes, note);
      AllParcelsOne(notes, note);
      if AllActive(notes + [note]) {
        GrowsOn(old(usb.out), before, usb.out);
        Associative(old(usb.accepted), AllParcels(notes), note.parcels);
      }
      notes := notes + [note];
    }
  }

  lemma {:induction false} NothingNoted(events: seq<Event>, accepted: seq<Parcel>)
    ensures NotesOf(events, []) && AllActive([]) && accepted + AllParcels([]) == accepted
  {
  }

  // ---------- a conversation ----------

  /** A command of the host with its payload, what happens at the device until the host looks for the answer, and how long it looks. */
  datatype Round = Round(sent: Sent, ignoreError: bool, events: seq<Event>, patience: nat)

  ghost function SentIn(rounds: seq<Round>): (r: seq<Sent>)
    ensures |r| == |rounds| && forall i :: 0 <= i < |r| ==> r[i] == rounds[i].sent
  {
    seq(|rounds|, i requires 0 <= i < |rounds| => rounds[i].sent)
  }

  ghost predicate ProperRounds(rounds: seq<Round>) {
    forall i :: 0 <= i < |rounds| ==>
      |rounds[i].sent.data| == PayloadLength(rounds[i].sent.command) &&
      forall k :: 0 <= k < |rounds[i].events| ==> ProperEvent(rounds[i].events[k])
  }

  /** One more round: what has been sent, and how many answers are due. */
  lemma {:induction false} NextRound(rounds: seq<Round>, i: nat)
    requires ProperRounds(rounds) && i < |rounds|
    ensures SentIn(rounds[..i + 1]) == SentIn(rounds[..i]) + [rounds[i].sent] && WellSent(SentIn(rounds[..i + 1]))
    ensures Stream(SentIn(rounds[..i + 1])) == Stream(SentIn(rounds[..i])) + EncodeCommand(rounds[i].sent.command, rounds[i].sent.data)
    ensures |Expected(SentIds(SentIn(rounds[..i + 1])))| ==
      |Expected(SentIds(SentIn(rounds[..i])))| + if rounds[i].sent.command.id == ID_USB_WRITE then 0 else 1
  {
    var before, all, last := SentIn(rounds[..i]), SentIn(rounds[..i + 1]), rounds[i].sent;
    assert all == before + [last];
    assert all[..|before|] == before;
    ExpectedOne(SentIds(before), last.command.id);
    hide EncodeCommand, Expected, PayloadLength;
  }

  lemma {:induction false} FirstRound(rounds: seq<Round>)
    ensures Stream(SentIn(rounds[..0])) == [] && |Expected(SentIds(SentIn(rounds[..0])))| == 0
  {
  }

  /** Some of what the device has put on the wire since arrives at the host; more than that cannot. */
  method Deliver(usb: Usb, link: Link, more: seq<byte>) returns (ok: bool)
    requires usb.Valid() && link.Valid()
    modifies link.backend`stream, link.backend`frames
    ensures link.Valid()
    ensures ok ==> OnTheWire(usb, link.backend.frames) && link.backend.stream <= usb.out.wire
  {
    hide usb.Valid, EncodeAll, AtFrame, Responses, Packets;
    ok := link.backend.stream + more <= usb.out.wire;
    if ok {
      ghost var frames := WireIsFrames(usb);
      PrefixOn(link.backend.stream + more, usb.out.wire, EncodeAll(frames));
      link.backend.Arrive(more, frames);
    }
  }

  /** The host has been given this result on this response, which is the right answer to its command. */
  ghost predicate Judged(c: Command, ignoreError: bool, f: Frame, r: Result<seq<byte>>) {
    f.id == c.id && Right(c, VerdictOf(f)) &&
    if f.kind == Kind.Failed && !ignoreError then r == Failure(CommandFailed) else r == Success(f.payload)
  }

  /** A memory write succeeds exactly when it is allowed, whatever the data. */
  lemma {:induction false} WriteJudged(c: Command, f: Frame, r: Result<seq<byte>>)
    requires Judged(c, false, f, r) && c.id == ID_MEMORY_WRITE
    ensures r.Success? <==>
      0 < c.arg1 && c.arg0 + c.arg1 <= 0x0500_2C80 && forall i :: c.arg0 <= i < c.arg0 + c.arg1 ==> !InBootArea(i)
    ensures r.Failure? ==> r.error == CommandFailed
  {
    hide InBootArea;
  }

  /** A memory read succeeds exactly when it stays in memory, and gives as many bytes as were asked for. */
  lemma {:induction false} ReadJudged(c: Command, f: Frame, r: Result<seq<byte>>)
    requires Judged(c, false, f, r) && c.id == ID_MEMORY_READ
    ensures r.Success? <==> 0 < c.arg1 && c.arg0 + c.arg1 <= 0x0500_2C80
    ensures r.Success? ==> |r.value| == c.arg1
    ensures r.Failure? ==> r.error == CommandFailed
  {
  }

  /** The host looks for the answer to its last command; if it has heard the device, it is the right one to that command. */
  method HearAnswer(usb: Usb, link: Link, ghost before: seq<Sent>, round: Round, ghost heard: bool) returns (r: Result<seq<byte>>)
    requires usb.Valid() && link.Valid() && round.sent.command.id != ID_USB_WRITE
    requires WellSent(before + [round.sent]) && |link.answers| == |Expected(SentIds(before))|
    requires heard ==> OnTheWire(usb, link.backend.frames) && link.backend.stream <= usb.out.wire && usb.seen.taken <= Stream(before + [round.sent])
    modifies link, link.backend`position, link.backend`troubles, link.backend`n
    ensures link.written == old(link.written)
    ensures r.Success? || !r.error.Transport? ==> link.Valid() && |link.answers| == |old(link.answers)| + 1
    ensures heard && (r.Success? || !r.error.Transport?) ==> var n := |link.answers| - 1;
      n < |Given(usb)| && (link.answers[n].kind == Kind.Failed <==> Given(usb)[n].failed) &&
      Judged(round.sent.command, round.ignoreError, link.answers[n], r)
  {
    hide usb.Valid, link.Valid, OnTheWire, WellSent, Stream, Expected, SentIds, Given, Right;
    r := link.ReceiveAnswer(round.sent.command, round.ignoreError, round.patience);
    if heard && (r.Success? || !r.error.Transport?) {
      LockStep(usb, link, link.backend.frames, before, round.sent);
    }
  }

  /** The host has heard an answer in this round. */
  ghost predicate HasAnswer(round: Round, heard: bool, r: Result<seq<byte>>) {
    heard && round.sent.command.id != ID_USB_WRITE && (r.Success? || !r.error.Transport?)
  }

  /**
   The closed loop: the host sends a command, the device runs, some of its bytes arrive, the host looks for the
   answer, and so on. In every round in which the host reads what the device has sent and the device has taken
   what the host has sent, the answer is the right one to the command of that round: the result is an error just when
   the device has found one and errors are not ignored.
   */
  method Converse(usb: Usb, link: Link, rounds: seq<Round>, notify: bool)
    returns (results: seq<Result<seq<byte>>>, ghost heard: seq<bool>, ghost replies: seq<Frame>, ghost found: seq<bool>)
    requires usb.Valid() && link.Valid() && link.answers == [] && link.written == [] && ProperRounds(rounds)
    modifies usb, link, link.backend
    ensures usb.Valid() && |results| == |heard| == |replies| == |found| <= |rounds|
    ensures |results| < |rounds| ==> results != [] && results[|results| - 1].Failure? && results[|results| - 1].error.Transport?
    ensures forall i :: 0 <= i < |results| && HasAnswer(rounds[i], heard[i], results[i]) ==>
      (replies[i].kind == Kind.Failed <==> found[i]) && Judged(rounds[i].sent.command, rounds[i].ignoreError, replies[i], results[i])
    ensures link.written == Stream(SentIn(rounds[..|results|]))
  {
    hide usb.Valid, link.Valid, ProperRounds, Stream, SentIn, Expected, SentIds, WellSent, OnTheWire, EncodeCommand, Judged, Given;
    results, heard, replies, found := [], [], [], [];
    FirstRound(rounds);
    for i := 0 to |rounds|
      invariant usb.Valid() && link.Valid() && |results| == |heard| == |replies| == |found| == i && link.written == Stream(SentIn(rounds[..i]))
      invariant |link.answers| == |Expected(SentIds(SentIn(rounds[..i])))|
      invariant forall k :: 0 <= k < i && HasAnswer(rounds[k], heard[k], results[k]) ==>
        (replies[k].kind == Kind.Failed <==> found[k]) && Judged(rounds[k].sent.command, rounds[k].ignoreError, replies[k], results[k])
    {
      NextRound(rounds, i);
      var round := rounds[i];
      link.SendCommand(round.sent.command, round.sent.data);
      EventsProper(rounds, i);
      ghost var notes := Run(usb, round.events, notify);
      var more: seq<byte> := *;
      var ok := Deliver(usb, link, more);
      ghost var heardNow := ok && usb.seen.taken <= link.written;
      heard := heard + [heardNow];
      if round.sent.command.id == ID_USB_WRITE {
        results, replies, found := results + [Success([])], replies + [Frame(Completed, 0, [])], found + [false];
      } else {
        var r := HearAnswer(usb, link, SentIn(rounds[..i]), round, heardNow);
        ghost var n := |link.answers| - 1;
        results := results + [r];
        replies := replies + [if 0 <= n then link.answers[n] else Frame(Completed, 0, [])];
        found := found + [0 <= n < |Given(usb)| && Given(usb)[n].failed];
        if r.Failure? && r.error.Transport? { return; }
      }
    }
  }

  lemma {:induction false} EventsProper(rounds: seq<Round>, i: nat)
    requires ProperRounds(rounds) && i < |rounds|
    ensures forall k :: 0 <= k < |rounds[i].events| ==> ProperEvent(rounds[i].events[k])
  {
    hide ProperEvent, PayloadLength;
  }
}
