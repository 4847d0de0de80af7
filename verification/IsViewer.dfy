/**
 The IS-Viewer output of sw/controller/src/isv.c: a ring buffer in device memory that the console fills
 and that packets of the USB process empty, one at a time, while everything else goes on.
 */
module IsViewer {
  import opened Bytes
  import opened UsbProtocol
  import opened UsbState
  import opened UsbAnswers
  import opened UsbDevice

  const BUFFER_OFFSET := 0x20
  const BUFFER_SIZE := 64 * 1024 - BUFFER_OFFSET

  /** Where byte i of everything the console wrote lies in the ring. */
  function Slot(i: nat): (s: nat)
    ensures s < BUFFER_SIZE
  {
    i % BUFFER_SIZE
  }

  lemma {:induction false} SlotNext(i: nat)
    ensures Slot(i + 1) == if Slot(i) + 1 == BUFFER_SIZE then 0 else Slot(i) + 1
    ensures Slot(0) == 0
  {
  }

  /** Bytes less than a whole ring apart are in different slots. */
  lemma {:induction false} SlotsDiffer(i: nat, j: nat)
    requires i < j < i + BUFFER_SIZE
    ensures Slot(i) != Slot(j)
  {
  }

  lemma {:induction false} SlotAhead(i: nat, k: nat)
    requires Slot(i) + k <= BUFFER_SIZE
    ensures Slot(i + k) == if Slot(i) + k == BUFFER_SIZE then 0 else Slot(i) + k
    decreases k
  {
    if k > 0 {
      SlotAhead(i, k - 1);
      SlotNext(i + (k - 1));
      hide Slot;
    }
  }

  /** The part of the unread bytes that lies in one piece. */
  lemma {:induction false} SlotRun(i: nat, n: nat)
    requires Slot(i) + n <= BUFFER_SIZE
    ensures forall j :: i <= j < i + n ==> Slot(j) == Slot(i) + (j - i)
    ensures Slot(i + n) == if Slot(i) + n == BUFFER_SIZE then 0 else Slot(i) + n
  {
    hide Slot;
    SlotAhead(i, n);
    forall j | i <= j < i + n
      ensures Slot(j) == Slot(i) + (j - i)
    {
      SlotAhead(i, j - i);
    }
  }

  /** From the two pointers alone: how many unread bytes lie in one piece. */
  lemma {:induction false} PieceFits(read: nat, written: nat)
    requires read <= written < read + BUFFER_SIZE
    ensures Slot(read) == Slot(written) <==> read == written
    ensures Slot(read) < Slot(written) ==> written == read + (Slot(written) - Slot(read))
    ensures Slot(written) < Slot(read) ==> read + (BUFFER_SIZE - Slot(read)) <= written
  {
    var q := read / BUFFER_SIZE;
    assert read == q * BUFFER_SIZE + Slot(read);
    assert written / BUFFER_SIZE == q || written / BUFFER_SIZE == q + 1;
  }

  // ---------- the ring in device memory ----------

  const ISV_TOKEN: word := 0x4953_3634
  const ISV_OUTPUT: byte := 0x49
  const READ_POINTER_OFFSET := 0x04
  const WRITE_POINTER_OFFSET := 0x14

  predicate ProperAddress(address: nat) {
    0 < address < 0x0400_0000
  }

  /** isv_get_value */
  function WordAt(mem: seq<byte>, at: nat): word
    requires at + 4 <= |mem|
  {
    FromBigEndian(mem[at..at + 4])
  }

  ghost predicate Ring(mem: seq<byte>, address: nat, stored: seq<byte>, read: nat) {
    |mem| == ADDRESSES && ProperAddress(address) &&
    forall i :: read <= i < |stored| ==> mem[address + BUFFER_OFFSET + Slot(i)] == stored[i]
  }

  /** The console has stored these bytes, published some of them, and the first `read` have been read. */
  ghost predicate Shared(mem: seq<byte>, address: nat, stored: seq<byte>, published: nat, read: nat) {
    Ring(mem, address, stored, read) && read <= published <= |stored| < read + BUFFER_SIZE &&
    WordAt(mem, address + READ_POINTER_OFFSET) == Slot(read) && WordAt(mem, address + WRITE_POINTER_OFFSET) == Slot(published)
  }

  /** Nothing between here and there has changed. */
  ghost predicate Same(mem: seq<byte>, after: seq<byte>, lo: nat, hi: nat) {
    lo <= hi <= |mem| && |after| == |mem| && after[lo..hi] == mem[lo..hi]
  }

  lemma {:induction false} SameByte(mem: seq<byte>, after: seq<byte>, lo: nat, hi: nat, j: nat)
    requires Same(mem, after, lo, hi) && lo <= j < hi
    ensures after[j] == mem[j]
  {
    assert after[j] == after[lo..hi][j - lo] == mem[lo..hi][j - lo] == mem[j];
  }

  lemma {:induction false} SameWord(mem: seq<byte>, after: seq<byte>, lo: nat, hi: nat, at: nat)
    requires Same(mem, after, lo, hi) && lo <= at && at + 4 <= hi
    ensures WordAt(after, at) == WordAt(mem, at)
  {
    hide FromBigEndian;
    SliceOfSlice(mem, lo, hi - lo, at - lo, at - lo + 4);
    SliceOfSlice(after, lo, hi - lo, at - lo, at - lo + 4);
  }

  lemma {:induction false} SharedStays(mem: seq<byte>, after: seq<byte>, address: nat, stored: seq<byte>, published: nat, read: nat)
    requires Shared(mem, address, stored, published, read) && Same(mem, after, address, address + BUFFER_OFFSET + BUFFER_SIZE)
    ensures Shared(after, address, stored, published, read)
  {
    var end := address + BUFFER_OFFSET + BUFFER_SIZE;
    SameWord(mem, after, address, end, address + READ_POINTER_OFFSET);
    SameWord(mem, after, address, end, address + WRITE_POINTER_OFFSET);
    hide Same, WordAt, Slot;
    forall i | read <= i < |stored|
      ensures after[address + BUFFER_OFFSET + Slot(i)] == stored[i]
    {
      SameByte(mem, after, address, end, address + BUFFER_OFFSET + Slot(i));
    }
  }

  lemma {:induction false} BlitSame(mem: seq<byte>, at: nat, data: seq<byte>, lo: nat, hi: nat)
    requires at + |data| <= |mem| && lo <= hi <= |mem| && (at + |data| <= lo || hi <= at)
    ensures Same(mem, Blit(mem, at, data, 0, |data|), lo, hi)
  {
    hide Blit;
  }

  lemma {:induction false} BlitWord(mem: seq<byte>, at: nat, w: word)
    requires at + 4 <= |mem|
    ensures WordAt(Blit(mem, at, BigEndian(w), 0, 4), at) == w
  {
    BigEndianRoundTrip(w);
    hide BigEndian, FromBigEndian, Blit;
    assert Blit(mem, at, BigEndian(w), 0, 4)[at..at + 4] == BigEndian(w);
  }

  /** The console stores a byte behind its last one. */
  lemma {:induction false} StoreKeeps(mem: seq<byte>, address: nat, stored: seq<byte>, published: nat, read: nat, b: byte)
    requires Shared(mem, address, stored, published, read) && |stored| + 1 < read + BUFFER_SIZE
    ensures Shared(Blit(mem, address + BUFFER_OFFSET + Slot(|stored|), [b], 0, 1), address, stored + [b], published, read)
  {
    var at := address + BUFFER_OFFSET + Slot(|stored|);
    var after := Blit(mem, at, [b], 0, 1);
    BlitSame(mem, at, [b], address, address + BUFFER_OFFSET);
    SameWord(mem, after, address, address + BUFFER_OFFSET, address + READ_POINTER_OFFSET);
    SameWord(mem, after, address, address + BUFFER_OFFSET, address + WRITE_POINTER_OFFSET);
    hide Blit, Same, WordAt, Slot, Ring;
    RingStore(mem, after, address, stored, read, b);
  }

  lemma {:induction false} RingStore(mem: seq<byte>, after: seq<byte>, address: nat, stored: seq<byte>, read: nat, b: byte)
    requires Ring(mem, address, stored, read) && |stored| < read + BUFFER_SIZE && read <= |stored|
    requires after == Blit(mem, address + BUFFER_OFFSET + Slot(|stored|), [b], 0, 1)
    ensures Ring(after, address, stored + [b], read)
  {
    hide Blit, Slot;
    forall i | read <= i < |stored| + 1
      ensures after[address + BUFFER_OFFSET + Slot(i)] == (stored + [b])[i]
    {
      if i < |stored| { SlotsDiffer(i, |stored|); }
    }
  }

  lemma {:induction false} PublishKeeps(mem: seq<byte>, address: nat, stored: seq<byte>, published: nat, read: nat)
    requires Shared(mem, address, stored, published, read)
    ensures Shared(Blit(mem, address + WRITE_POINTER_OFFSET, BigEndian(Slot(|stored|)), 0, 4), address, stored, |stored|, read)
  {
    var at, w := address + WRITE_POINTER_OFFSET, Slot(|stored|);
    var after := Blit(mem, at, BigEndian(w), 0, 4);
    BlitWord(mem, at, w);
    BlitSame(mem, at, BigEndian(w), address, at);
    SameWord(mem, after, address, at, address + READ_POINTER_OFFSET);
    RingElsewhere(mem, at, BigEndian(w), address, stored, read);
    hide Blit, Same, WordAt, Slot, BigEndian, Ring;
  }

  lemma {:induction false} RingElsewhere(mem: seq<byte>, at: nat, data: seq<byte>, address: nat, stored: seq<byte>, read: nat)
    requires Ring(mem, address, stored, read) && address <= at && at + |data| <= address + BUFFER_OFFSET
    ensures Ring(Blit(mem, at, data, 0, |data|), address, stored, read)
  {
    hide Blit, Slot;
  }

  /** The read pointer moves past some published bytes. */
  lemma {:induction false} ReadKeeps(mem: seq<byte>, address: nat, stored: seq<byte>, published: nat, read: nat, length: nat)
    requires Shared(mem, address, stored, published, read) && read + length <= published
    ensures Shared(Blit(mem, address + READ_POINTER_OFFSET, BigEndian(Slot(read + length)), 0, 4), address, stored, published, read + length)
  {
    var at, w := address + READ_POINTER_OFFSET, Slot(read + length);
    var after, end := Blit(mem, at, BigEndian(w), 0, 4), address + BUFFER_OFFSET;
    BlitWord(mem, at, w);
    BlitSame(mem, at, BigEndian(w), at + 4, end);
    SameWord(mem, after, at + 4, end, address + WRITE_POINTER_OFFSET);
    RingElsewhere(mem, at, BigEndian(w), address, stored, read);
    hide Blit, Same, WordAt, Slot, BigEndian;
  }

  /** A piece of the ring is the piece of the console's bytes that belongs there. */
  lemma {:induction false} RingSlice(mem: seq<byte>, address: nat, stored: seq<byte>, read: nat, length: nat)
    requires Ring(mem, address, stored, read) && Slot(read) + length <= BUFFER_SIZE && read + length <= |stored|
    ensures var at := address + BUFFER_OFFSET + Slot(read); mem[at..at + length] == stored[read..read + length]
  {
    SlotRun(read, length);
    hide Slot;
    var at := address + BUFFER_OFFSET + Slot(read);
    var a, b := mem[at..at + length], stored[read..read + length];
    forall k | 0 <= k < length
      ensures a[k] == b[k]
    {
      assert Slot(read + k) == Slot(read) + k;
    }
  }

  // ---------- what the host gets ----------

  ghost predicate IsOutput(m: Message) {
    m.kind == Packet && m.id == ISV_OUTPUT
  }

  /** Every IS-Viewer message went out with the memory it had when it was taken up. */
  ghost predicate AllKept(messages: seq<Message>) {
    forall i :: 0 <= i < |messages| && IsOutput(messages[i]) ==> messages[i].content.Some? && messages[i].data == []
  }

  /** The memory of the IS-Viewer messages, end to end. */
  ghost function Output(messages: seq<Message>): seq<byte> {
    if messages == [] then [] else
      var last := messages[|messages| - 1];
      Output(messages[..|messages| - 1]) + if IsOutput(last) && last.content.Some? then last.content.value else []
  }

  /** The payloads of the IS-Viewer packets on the wire, end to end. */
  ghost function Text(frames: seq<Frame>): seq<byte> {
    if frames == [] then [] else
      var last := frames[|frames| - 1];
      Text(frames[..|frames| - 1]) + if last.kind == Packet && last.id == ISV_OUTPUT then last.payload else []
  }

  lemma {:induction false} TextIsOutput(frames: seq<Frame>, messages: seq<Message>)
    requires AllCarry(frames, messages) && AllKept(messages)
    ensures Text(frames) == Output(messages)
  {
    if messages != [] {
      var n := |messages| - 1;
      assert forall i :: 0 <= i < n ==> frames[..n][i] == frames[i] && messages[..n][i] == messages[i];
      TextIsOutput(frames[..n], messages[..n]);
      hide Words;
    }
  }

  lemma {:induction false} OutputOne(messages: seq<Message>, m: Message)
    ensures Output(messages + [m]) == Output(messages) + if IsOutput(m) && m.content.Some? then m.content.value else []
    ensures AllKept(messages + [m]) <==> AllKept(messages) && (IsOutput(m) ==> m.content.Some? && m.data == [])
  {
    var all := messages + [m];
    assert all[..|messages|] == messages;
    assert all[|messages|] == m;
    assert forall i :: 0 <= i < |messages| ==> all[i] == messages[i];
  }

  // ---------- a packet on its way ----------

  /** The packet for `length` unread bytes. */
  function PacketFor(address: nat, read: nat, length: nat, ticket: nat): TxInfo {
    TxInfo(ISV_OUTPUT, 0, [0, 0, 0, 0], length, address + BUFFER_OFFSET + Slot(read), PacketDone(ticket))
  }

  ghost predicate Mine(h: Option<Handed>) {
    h.Some? && h.value.token == PKT_TOKEN && h.value.info.cmd == ISV_OUTPUT
  }

  ghost predicate Queues(packet: Queue) {
    packet.pending && packet.info.cmd == ISV_OUTPUT
  }

  /** The packet is in the queue, or it is being sent and its memory is as it was. */
  ghost predicate OnItsWay(info: TxInfo, packet: Queue, h: Option<Handed>, kept: bool) {
    (packet == Queue(true, info) && !Mine(h)) || (h == Some(Handed(PKT_TOKEN, info)) && kept && !Queues(packet))
  }

  /** The process either waits for nothing, or for the one IS-Viewer packet there is. */
  ghost predicate Stage(ready: bool, info: TxInfo, packet: Queue, h: Option<Handed>, kept: bool) {
    if ready then !Queues(packet) && !Mine(h) else OnItsWay(info, packet, h, kept)
  }

  lemma {:induction false} OtherMessage(m: Message, h: Handed, mem: seq<byte>)
    requires IsMessage(m, h, mem) && !Mine(Some(h))
    ensures !IsOutput(m)
  {
    hide ImageOf, UsbState.ProperInfo;
  }

  /** One poll of the USB process: the packet is still on its way, or complete. */
  lemma {:induction false} PollKeeps(ready: bool, info: TxInfo, packet: Queue, packet1: Queue, tx: Tx, tx1: Tx, h: Option<Handed>, kept: bool, kept1: bool,
                                     before: seq<Message>, after: seq<Message>, tickets: Tickets, called: Tickets, mem: seq<byte>)
    requires Stage(ready, info, packet, InHand(tx), kept) && info.cmd == ISV_OUTPUT
    requires Handled(h, InHand(tx1), before, after, tickets, called, mem) && GoesOn(h, tx, packet, packet1)
    requires InHand(tx1).Some? && InHand(tx1).value.token == PKT_TOKEN && InHand(tx1).value.info.cmd == ISV_OUTPUT ==> kept1
    ensures ready ==> Stage(true, info, packet1, InHand(tx1), kept1) && Output(after) == Output(before) && (AllKept(after) <==> AllKept(before))
    ensures !ready && h != Some(Handed(PKT_TOKEN, info)) ==>
      OnItsWay(info, packet1, InHand(tx1), kept1) && Output(after) == Output(before) && (AllKept(after) <==> AllKept(before))
    ensures !ready && h == Some(Handed(PKT_TOKEN, info)) ==> !Queues(packet1)
    ensures !ready && h == Some(Handed(PKT_TOKEN, info)) && InHand(tx1) == h ==> OnItsWay(info, packet1, InHand(tx1), kept1) && after == before
    ensures !ready && h == Some(Handed(PKT_TOKEN, info)) && InHand(tx1) != h ==>
      !Mine(InHand(tx1)) && called == Called(tickets, info.callback) && |after| == |before| + 1 &&
      after == before + [after[|before|]] && IsMessage(after[|before|], h.value, mem)
  {
    if |after| == |before| + 1 && after[..|before|] == before {
      var m := after[|before|];
      assert after == before + [m];
      OutputOne(before, m);
      if h.Some? && !Mine(h) && IsMessage(m, h.value, mem) { OtherMessage(m, h.value, mem); }
    }
    hide Output, AllKept, ImageOf, Called, IsMessage, IsOutput;
  }

  // ---------- the process and the console ----------

  datatype Process = Process(ready: bool, nextReadPointer: nat, ticket: nat)

  /** Where the console puts its next byte, what it has stored and how much of it it has published. */
  datatype Console = Console(cursor: nat, stored: seq<byte>, published: nat)

  /** The packet under way is for unread bytes that lie in one piece. */
  ghost predicate Piece(p: Process, length: nat, read: nat, published: nat) {
    !p.ready ==> 0 < length && Slot(read) + length <= BUFFER_SIZE && read + length <= published && p.nextReadPointer == Slot(read + length)
  }

  /** None of these addresses is in the ring or its header. */
  ghost predicate MissesRing(address: nat, wrote: set<nat>) {
    forall j: nat :: address <= j < address + BUFFER_OFFSET + BUFFER_SIZE ==> j !in wrote
  }

  /**
   What an event may do to the ring: a poll of the USB process, with how many bytes came in from the host and which
   addresses were written, or a store that gave way to the host.
   */
  datatype Note = Polled(active: bool, arrived: nat, wrote: set<nat>) | Blocked

  /** The link is up and nobody else wrote the ring. */
  ghost predicate Quiet(note: Note, address: nat) {
    note.Polled? && note.active && MissesRing(address, note.wrote)
  }

  ghost predicate AllQuiet(notes: seq<Note>, address: nat) {
    forall i :: 0 <= i < |notes| ==> Quiet(notes[i], address)
  }

  lemma {:induction false} QuietNotes(note: Note, address: nat)
    ensures AllQuiet([], address) && (AllQuiet([note], address) <==> Quiet(note, address)) && !AllQuiet([note, Blocked], address)
  {
    assert [note][0] == note && [note, Blocked][1] == Blocked;
  }

  /** Each poll leaves its note; in one in which nothing came in from the host nothing was written. */
  ghost predicate NotesOf(e: Event, notes: seq<Note>) {
    (e.UsbPoll? ==> notes != [] && notes[0].Polled? && (notes[0].active && notes[0].arrived == 0 ==> notes[0].wrote == {})) &&
    forall i :: 0 <= i < |notes| && (i > 0 || !e.UsbPoll?) ==> notes[i] == Blocked
  }

  lemma {:induction false} SameRing(mem: seq<byte>, after: seq<byte>, address: nat, wrote: set<nat>)
    requires |mem| == |after| == ADDRESSES && ProperAddress(address) && MissesRing(address, wrote)
    requires forall j: nat :: j < |mem| && j !in wrote ==> after[j] == mem[j]
    ensures Same(mem, after, address, address + BUFFER_OFFSET + BUFFER_SIZE)
  {
  }

  /** A packet of the ring stays as it was when the ring is not written. */
  lemma {:induction false} PollFaithful(ready: bool, info: TxInfo, packet: Queue, packet1: Queue, tx: Tx, tx1: Tx, h: Option<Handed>, kept: bool,
                                        wrote: set<nat>, before: seq<Message>, out: Out, tickets: Tickets, called: Tickets, mem: seq<byte>)
    requires Stage(ready, info, packet, InHand(tx), kept) && info.cmd == ISV_OUTPUT && info.dataLength == 0 && AllKept(before)
    requires Handled(h, InHand(tx1), before, out.messages, tickets, called, mem) && GoesOn(h, tx, packet, packet1)
    requires Faithful(h, wrote, tx.state == TxIdle || kept, InHand(tx1), out) && (!ready ==> Misses(info, wrote))
    ensures (Mine(InHand(tx1)) ==> out.image.Some?) && AllKept(out.messages)
  {
    if Mine(h) { assert !ready && h.value.info == info && (tx.state == TxIdle || kept); }
    var after := out.messages;
    if |after| == |before| + 1 && after[..|before|] == before {
      var m := after[|before|];
      assert after == before + [m];
      OutputOne(before, m);
      if h.Some? && !Mine(h) && IsMessage(m, h.value, mem) { OtherMessage(m, h.value, mem); }
    }
    hide Output, ImageOf, Called, Misses, AllKept;
  }

  /** The memory of a packet for a piece of the ring is in the ring. */
  lemma {:induction false} PieceMissed(address: nat, p: Process, length: nat, read: nat, published: nat, wrote: set<nat>)
    requires MissesRing(address, wrote) && Piece(p, length, read, published) && !p.ready
    ensures Misses(PacketFor(address, read, length, p.ticket), wrote)
  {
    hide Slot;
  }

  ghost predicate InOrder(mem: seq<byte>, messages: seq<Message>, packet: Queue, h: Option<Handed>, kept: bool,
                          address: nat, p: Process, c: Console, length: nat) {
    var read := |Output(messages)|;
    Shared(mem, address, c.stored, c.published, read) && c.cursor == Slot(|c.stored|) && AllKept(messages) && Output(messages) <= c.stored &&
    Piece(p, length, read, c.published) && Stage(p.ready, PacketFor(address, read, length, p.ticket), packet, h, kept)
  }

  /** The next byte of the console does not touch a packet under way. */
  lemma {:induction false} StoreApart(read: nat, length: nat, n: nat)
    requires Slot(read) + length <= BUFFER_SIZE && read + length <= n < read + BUFFER_SIZE
    ensures Slot(n) < Slot(read) || Slot(read) + length <= Slot(n)
  {
    SlotRun(read, length);
    hide Slot;
    if Slot(read) <= Slot(n) < Slot(read) + length {
      var j := read + (Slot(n) - Slot(read));
      assert Slot(j) == Slot(read) + (j - read);
      SlotsDiffer(j, n);
    }
  }

  /** There is room exactly when the place behind the next byte is not the one to be read next. */
  lemma {:induction false} RoomLeft(read: nat, n: nat)
    requires read <= n < read + BUFFER_SIZE
    ensures Slot(n + 1) != Slot(read) <==> n + 1 < read + BUFFER_SIZE
  {
    if n + 1 < read + BUFFER_SIZE {
      SlotsDiffer(read, n + 1);
    } else {
      assert (read + BUFFER_SIZE) % BUFFER_SIZE == read % BUFFER_SIZE;
    }
  }

  datatype Event =
    | ConsoleStores(b: byte)
    | ConsolePublishes
    | OtherStores(at: nat, data: seq<byte>)
    | IsvPoll
    | UsbPoll
    | OtherPacket(info: TxInfo)
    | PrepareRead(at: nat, length: nat)

  predicate ProperEvent(e: Event, address: nat) {
    match e
    case OtherStores(at, data) => at + |data| <= address || (address + BUFFER_OFFSET + BUFFER_SIZE <= at && at + |data| <= ADDRESSES)
    case OtherPacket(info) => UsbState.ProperInfo(info) && info.cmd != ISV_OUTPUT && info.callback == NoCallback
    case PrepareRead(at, length) => at + length <= ADDRESSES
    case _ => true
  }

  class Isv {
    const usb: Usb
    const address: nat
    var process: Process
    var console: Console
    ghost var length: nat // of the packet under way
    ghost var alone: bool // the link is up, and only the console and this process have written the ring

    ghost predicate Valid()
      reads this, usb
    {
      usb.Valid() && Settled(usb.rx) && ProperAddress(address) && console.cursor < BUFFER_SIZE && process.nextReadPointer < BUFFER_SIZE &&
      (alone ==> InOrder(usb.mem, usb.out.messages, usb.packet, InHand(usb.tx), usb.out.image.Some?, address, process, console, length))
    }

    /** isv_init and isv_set_address, with the ring the console has set up */
    constructor (usb: Usb, address: nat)
      requires usb.Valid() && Settled(usb.rx) && ProperAddress(address) && |usb.mem| == ADDRESSES
      requires WordAt(usb.mem, address + READ_POINTER_OFFSET) == 0 && WordAt(usb.mem, address + WRITE_POINTER_OFFSET) == 0
      requires usb.out.messages == [] && !usb.packet.pending && usb.tx.state == TxIdle
      ensures Valid() && alone && console.stored == [] && this.usb == usb && this.address == address
    {
      this.usb, this.address := usb, address;
      process := Process(true, 0, 0);
      console := Console(0, [], 0);
      length, alone := 0, true;
      new;
      hide usb.Valid, WordAt;
    }

    /** A store by the console, unless the host is writing there. */
    method Put(at: nat, data: seq<byte>) returns (done: bool)
      requires usb.Valid() && at + |data| <= ADDRESSES
      modifies usb`mem, usb`out
      ensures usb.Valid() && |usb.mem| == |old(usb.mem)| == ADDRESSES && usb.out == old(usb.out).(image := usb.out.image)
      ensures done ==> usb.mem == Blit(old(usb.mem), at, data, 0, |data|)
      ensures usb.tx.state != TxIdle && (at + |data| <= usb.tx.info.dmaAddress || usb.tx.info.dmaAddress + usb.tx.info.dmaLength <= at) ==>
        old(usb.out).image.Some? ==> usb.out.image.Some?
      ensures !done ==> usb.mem == old(usb.mem) && usb.out == old(usb.out)
      ensures |usb.rx.args| == 2 && (done <==> !usb.Reserved(at, |data|)) && (usb.out.image == old(usb.out).image || usb.out.image == None)
    {
      hide usb.Valid, Blit;
      usb.RxFacts();
      if usb.Reserved(at, |data|) { return false; }
      usb.ConsoleWrites(at, data);
      done := true;
    }

    /** The console stores a byte, if the ring has room for it. */
    method Store(b: byte) returns (ok: bool, ghost notes: seq<Note>)
      requires Valid()
      modifies `console, `alone, usb`mem, usb`out
      ensures Valid() && console == if ok then Console(console.cursor, old(console).stored + [b], old(console).published) else old(console)
      ensures alone ==> (ok <==> |old(console).stored| + 1 < |Output(usb.out.messages)| + BUFFER_SIZE)
      ensures |usb.rx.args| == 2 && (notes == [] || (notes == [Blocked] && usb.Reserved(address + BUFFER_OFFSET + old(console).cursor, 1)))
      ensures alone <==> old(alone) && notes == []
      ensures usb.out == old(usb.out).(image := usb.out.image)
    {
      hide usb.Valid, Blit, Slot, WordAt, Shared, Stage, Output, AllKept, Piece;
      notes := [];
      usb.RxFacts();
      var next := if console.cursor + 1 == BUFFER_SIZE then 0 else console.cursor + 1;
      ghost var h, read, mem := InHand(usb.tx), |Output(usb.out.messages)|, usb.mem;
      if alone { Room(mem, address, console, read); }
      if next == WordAt(usb.mem, address + READ_POINTER_OFFSET) { return false, []; }
      var done := Put(address + BUFFER_OFFSET + console.cursor, [b]);
      if !done {
        alone := false;
        return false, [Blocked];
      }
      if alone { Stored(mem, address, process, console, length, read, usb.packet, h, old(usb.out.image).Some?, usb.out.image.Some?, b); }
      console := Console(next, console.stored + [b], console.published);
      ok := true;
    }

    /** The console moves its write pointer up to its last byte. */
    method Publish() returns (ghost notes: seq<Note>)
      requires Valid()
      modifies `console, `alone, usb`mem, usb`out
      ensures Valid() && console.stored == old(console).stored && console.cursor == old(console).cursor
      ensures notes == [] ==> console.published == |console.stored|
      ensures |usb.rx.args| == 2 && notes == if usb.Reserved(address + WRITE_POINTER_OFFSET, 4) then [Blocked] else []
      ensures alone <==> old(alone) && notes == []
      ensures usb.out == old(usb.out).(image := usb.out.image)
    {
      hide usb.Valid, Blit, Slot, WordAt, Shared, Output, AllKept, BigEndian;
      ghost var h, read, mem := InHand(usb.tx), |Output(usb.out.messages)|, usb.mem;
      if alone { PublishKeeps(mem, address, console.stored, console.published, read); }
      var done := Put(address + WRITE_POINTER_OFFSET, BigEndian(console.cursor));
      notes := if done then [] else [Blocked];
      if !done {
        alone := false;
        return;
      }
      if alone { PublishedMore(console, read, mem, address, process, length); }
      console := console.(published := |console.stored|);
    }

    /** Stores outside the ring do not matter. */
    method OtherStore(at: nat, data: seq<byte>)
      requires Valid() && ProperEvent(OtherStores(at, data), address)
      modifies usb`mem, usb`out
      ensures Valid() && usb.out == old(usb.out).(image := usb.out.image)
    {
      hide usb.Valid, Blit, Slot, WordAt, Shared, Output, AllKept;
      ghost var mem := usb.mem;
      usb.RxFacts();
      var done := Put(at, data);
      if done && alone {
        BlitSame(mem, at, data, address, address + BUFFER_OFFSET + BUFFER_SIZE);
        SharedStays(mem, usb.mem, address, console.stored, console.published, |Output(usb.out.messages)|);
      }
    }

    /** isv_process: a packet for all unread bytes, or those up to the end of the ring. */
    method Poll()
      requires Valid()
      modifies `process, `length, usb`packet, usb`tickets, usb`accepted
      ensures Valid()
      ensures alone ==> (!process.ready && old(process).ready <==> var read := |Output(usb.out.messages)|;
        old(process).ready && !old(usb.packet).pending && read < console.published && WordAt(usb.mem, address) == ISV_TOKEN)
      ensures alone && !process.ready && old(process).ready ==> var read := |Output(usb.out.messages)|;
        read + length == console.published || Slot(read) + length == BUFFER_SIZE
      ensures !old(process).ready ==> process == old(process)
    {
      hide usb.Valid, Slot, WordAt, Output, AllKept, Ring, UsbState.ProperInfo;
      usb.RxFacts();
      if !process.ready { return; }
      if WordAt(usb.mem, address) != ISV_TOKEN { return; }
      var readPointer := WordAt(usb.mem, address + READ_POINTER_OFFSET);
      if readPointer >= BUFFER_SIZE { return; }
      var writePointer := WordAt(usb.mem, address + WRITE_POINTER_OFFSET);
      if writePointer >= BUFFER_SIZE { return; }
      if alone { PieceFits(|Output(usb.out.messages)|, console.published); }
      if readPointer == writePointer { return; }
      var wrap := writePointer < readPointer;
      var n := (if wrap then BUFFER_SIZE else writePointer) - readPointer;
      if alone { SlotRun(|Output(usb.out.messages)|, n); }
      var ticket := usb.tickets.issued;
      var info := TxInfo(ISV_OUTPUT, 0, [0, 0, 0, 0], n, address + BUFFER_OFFSET + readPointer, PacketDone(ticket));
      InfoIsProper(info);
      var ok := usb.UsbEnqueuePacket(info);
      if ok {
        process := Process(false, if wrap then 0 else writePointer, ticket);
        length := n;
      }
    }

    /** isv_update_read_pointer: the process is ready again, and the bytes of the packet are read. */
    method UpdateReadPointer(ghost read: nat)
      requires usb.Valid() && Settled(usb.rx) && ProperAddress(address) && console.cursor < BUFFER_SIZE && process.nextReadPointer < BUFFER_SIZE
      requires alone ==> Shared(usb.mem, address, console.stored, console.published, read) && Piece(process, length, read, console.published)
      requires alone ==> !process.ready && |Output(usb.out.messages)| == read + length && Output(usb.out.messages) <= console.stored
      requires alone ==> console.cursor == Slot(|console.stored|) && AllKept(usb.out.messages)
      requires alone ==> !Queues(usb.packet) && !Mine(InHand(usb.tx))
      modifies `process, `alone, usb`mem, usb`out
      ensures Valid() && process == old(process).(ready := true)
      ensures |usb.rx.args| == 2 && (alone <==> old(alone) && !usb.Reserved(address + READ_POINTER_OFFSET, 4))
      ensures usb.out == old(usb.out).(image := usb.out.image) && (usb.out.image == old(usb.out).image || usb.out.image == None)
      ensures |old(usb.mem)| == ADDRESSES
      ensures usb.mem == if usb.Reserved(address + READ_POINTER_OFFSET, 4) then old(usb.mem)
        else Blit(old(usb.mem), address + READ_POINTER_OFFSET, BigEndian(process.nextReadPointer), 0, 4)
    {
      hide usb.Valid, Blit, Slot, WordAt, Shared, Output, AllKept, BigEndian, Queues, Mine;
      ghost var mem := usb.mem;
      process := process.(ready := true);
      var done := Put(address + READ_POINTER_OFFSET, BigEndian(process.nextReadPointer));
      if !done {
        alone := false;
        return;
      }
      if alone { ReadKeeps(mem, address, console.stored, console.published, read, length); }
    }

    /** usb_process, and isv_update_read_pointer when it calls it. */
    method UsbPoll() returns (active: bool, ghost after: seq<byte>, ghost wrote: set<nat>, ghost notes: seq<Note>)
      requires Valid()
      modifies this, usb
      ensures Valid() && console == old(console)
      ensures |usb.rx.args| == 2 && |usb.mem| == |after| == ADDRESSES
      ensures process == old(process) || process == old(process).(ready := true)
      ensures usb.mem == if process.ready && !old(process).ready && !usb.Reserved(address + READ_POINTER_OFFSET, 4)
        then Blit(after, address + READ_POINTER_OFFSET, BigEndian(process.nextReadPointer), 0, 4)
        else after
      ensures |old(usb.mem)| == |after| && forall j: nat :: j < |after| && j !in wrote ==> after[j] == old(usb.mem)[j]
      ensures var late := process.ready && !old(process).ready && usb.Reserved(address + READ_POINTER_OFFSET, 4);
        NotesOf(Event.UsbPoll, notes) && notes[0].active == active && notes[0].wrote == wrote && |notes| == if late then 2 else 1
      ensures alone <==> old(alone) && AllQuiet(notes, address)
      ensures alone ==> Output(old(usb.out).messages) <= Output(usb.out.messages)
      ensures alone && process.ready && !old(process).ready ==> |Output(usb.out.messages)| == |Output(old(usb.out).messages)| + old(length)
      ensures alone && !(process.ready && !old(process).ready) ==> Output(usb.out.messages) == Output(old(usb.out).messages)
    {
      hide usb.Valid, Slot, WordAt, Output, AllKept, Shared, Same, Handled, GoesOn, Piece, Queues, Mine, Blit, BigEndian, Faithful, Settled, Misses, MissesRing, AllQuiet;
      if alone && !process.ready { NotCalledYet(usb, PacketFor(address, |Output(usb.out.messages)|, length, process.ticket)); }
      ghost var tx0, packet0, kept0, messages0, tickets0, mem0 := usb.tx, usb.packet, usb.out.image.Some?, usb.out.messages, usb.tickets, usb.mem;
      ghost var info := PacketFor(address, |Output(messages0)|, length, process.ticket);
      ghost var h;
      ghost var came := |usb.seen.taken|;
      usb.RxFacts();
      active, h, wrote := usb.UsbProcess();
      after := usb.mem;
      usb.RxFacts();
      ghost var note := Polled(active, if came <= |usb.seen.taken| then |usb.seen.taken| - came else 0, wrote);
      notes := [note];
      QuietNotes(note, address);
      alone := alone && active && MissesRing(address, wrote);
      ghost var read := |Output(messages0)|;
      if alone {
        SameRing(mem0, after, address, wrote);
        if !process.ready { PieceMissed(address, process, length, read, console.published, wrote); }
        PollFaithful(process.ready, info, packet0, usb.packet, tx0, usb.tx, h, kept0, wrote, messages0, usb.out, tickets0, usb.tickets, usb.mem);
        InOrderPolled(mem0, usb.mem, process, info, packet0, usb.packet, tx0, usb.tx, h, kept0, usb.out.image.Some?,
                      messages0, usb.out.messages, tickets0, usb.tickets, address, console, length);
        if OnItsWay(info, usb.packet, InHand(usb.tx), usb.out.image.Some?) { NotCalledYet(usb, info); }
      }
      if !process.ready && usb.tickets.ran[process.ticket] == 1 {
        UpdateReadPointer(read);
        usb.RxFacts();
        if usb.Reserved(address + READ_POINTER_OFFSET, 4) { notes := [note, Blocked]; }
      }
    }

    /**
     Whatever the console, the host and the firmware do in turn: as long as the link is up and nobody else
     writes the ring, what the host gets in IS-Viewer packets is the start of what the console stored.
     */
    method Run(events: seq<Event>) returns (ghost notes: seq<seq<Note>>)
      requires Valid() && forall i :: 0 <= i < |events| ==> ProperEvent(events[i], address)
      modifies this, usb
      ensures Valid() && old(console).stored <= console.stored
      ensures |notes| == |events| && forall i :: 0 <= i < |events| ==> NotesOf(events[i], notes[i])
      ensures alone <==> old(alone) && forall i :: 0 <= i < |events| ==> AllQuiet(notes[i], address)
      ensures alone ==> Text(old(usb.out).frames) <= Text(usb.out.frames) <= console.stored
    {
      hide Valid, usb.Valid, Output, Text, ProperEvent, AllKept, NotesOf, AllQuiet;
      notes := [];
      ghost var start := usb.out;
      if alone { TextArrived(); }
      for i := 0 to |events|
        invariant Valid() && old(console).stored <= console.stored
        invariant |notes| == i && forall k :: 0 <= k < i ==> NotesOf(events[k], notes[k])
        invariant alone <==> old(alone) && forall k :: 0 <= k < i ==> AllQuiet(notes[k], address)
        invariant alone ==> Text(start.frames) <= Output(usb.out.messages)
      {
        ghost var more := Step(events[i]);
        notes := notes + [more];
      }
      if alone { TextArrived(); }
    }

    /** One event. */
    method Step(e: Event) returns (ghost notes: seq<Note>)
      requires Valid() && ProperEvent(e, address)
      modifies this, usb
      ensures Valid() && old(console).stored <= console.stored
      ensures NotesOf(e, notes) && (alone <==> old(alone) && AllQuiet(notes, address))
      ensures alone ==> Output(old(usb.out).messages) <= Output(usb.out.messages)
    {
      hide usb.Valid, InOrder, Output, MissesRing, AllQuiet;
      notes := [];
      QuietNotes(Blocked, address);
      match e {
        case ConsoleStores(b) =>
          var ok;
          ok, notes := Store(b);
        case ConsolePublishes =>
          notes := Publish();
        case OtherStores(at, data) =>
          OtherStore(at, data);
        case IsvPoll =>
          Poll();
        case UsbPoll =>
          var active;
          ghost var after, wrote;
          active, after, wrote, notes := UsbPoll();
        case OtherPacket(info) =>
          OtherClient(info);
        case PrepareRead(at, length) =>
          var ok := usb.UsbPrepareRead(at, length);
      }
    }

    /** Another part of the firmware queues a packet. */
    method OtherClient(info: TxInfo)
      requires Valid() && UsbState.ProperInfo(info) && info.cmd != ISV_OUTPUT && info.callback == NoCallback
      modifies usb`packet, usb`tickets, usb`accepted
      ensures Valid()
    {
      hide usb.Valid, Shared, Output, AllKept, Piece, UsbState.ProperInfo;
      var ok := usb.UsbEnqueuePacket(info);
    }

    lemma {:induction false} TextArrived()
      requires Valid() && alone
      ensures Text(usb.out.frames) == Output(usb.out.messages) <= console.stored
    {
      hide RxOk, RxEngineOk, TxEngineOk, OrderOk, AnswersOk, InfoOk, ReadOk, MemoryOk, AnswerOk, TicketsOk, OnWire, Shared, Output, Text, Stage, Piece, AllCarry, AllKept;
      TextIsOutput(usb.out.frames, usb.out.messages);
    }
  }

  /** As long as a packet is in the queue or being sent its callback has not been called. */
  lemma {:induction false} NotCalledYet(usb: Usb, info: TxInfo)
    requires usb.Valid() && info.callback.PacketDone?
    requires usb.packet == Queue(true, info) || InHand(usb.tx) == Some(Handed(PKT_TOKEN, info))
    ensures usb.tickets.ran[info.callback.ticket] == 0
  {
    hide RxOk, RxEngineOk, TxEngineOk, TxOk, OrderOk, AnswersOk, InfoOk, ReadOk, MemoryOk, AnswerOk;
  }

  /** After a poll the packet is still on its way, or its bytes are what the host gets next. */
  lemma {:induction false} InOrderPolled(mem: seq<byte>, mem1: seq<byte>, p: Process, info: TxInfo, packet: Queue, packet1: Queue, tx: Tx, tx1: Tx,
                                         h: Option<Handed>, kept: bool, kept1: bool, before: seq<Message>, after: seq<Message>,
                                         tickets: Tickets, called: Tickets, address: nat, c: Console, length: nat)
    requires InOrder(mem, before, packet, InHand(tx), kept, address, p, c, length)
    requires info == PacketFor(address, |Output(before)|, length, p.ticket)
    requires Same(mem, mem1, address, address + BUFFER_OFFSET + BUFFER_SIZE)
    requires Handled(h, InHand(tx1), before, after, tickets, called, mem1) && GoesOn(h, tx, packet, packet1)
    requires Mine(InHand(tx1)) ==> kept1
    requires AllKept(after) && (!p.ready ==> tickets.ran[p.ticket] == 0)
    ensures Shared(mem1, address, c.stored, c.published, |Output(before)|)
    ensures p.ready ==> Stage(true, info, packet1, InHand(tx1), kept1) && Output(after) == Output(before)
    ensures !p.ready && OnItsWay(info, packet1, InHand(tx1), kept1) ==> Output(after) == Output(before)
    ensures !p.ready && !OnItsWay(info, packet1, InHand(tx1), kept1) ==>
      !Queues(packet1) && !Mine(InHand(tx1)) && called.ran[p.ticket] == 1 &&
      Output(before) <= Output(after) <= c.stored && |Output(after)| == |Output(before)| + length
  {
    var read := |Output(before)|;
    SharedStays(mem, mem1, address, c.stored, c.published, read);
    PollKeeps(p.ready, info, packet, packet1, tx, tx1, h, kept, kept1, before, after, tickets, called, mem1);
    hide Handled, GoesOn, Same, Output, AllKept, OnItsWay, Stage, Slot, WordAt, IsMessage, Ring, Mine, Queues;
    if !p.ready && h == Some(Handed(PKT_TOKEN, info)) && InHand(tx1) != h {
      PieceDelivered(before, after[|before|], h.value, mem1, address, c.stored, length, p.ticket);
    }
  }

  /** A complete packet has the next bytes of the console. */
  lemma {:induction false} PieceDelivered(before: seq<Message>, m: Message, h: Handed, mem: seq<byte>, address: nat, stored: seq<byte>,
                                          length: nat, ticket: nat)
    requires IsMessage(m, h, mem) && h == Handed(PKT_TOKEN, PacketFor(address, |Output(before)|, length, ticket))
    requires Ring(mem, address, stored, |Output(before)|) && Output(before) <= stored && AllKept(before + [m])
    requires Slot(|Output(before)|) + length <= BUFFER_SIZE && |Output(before)| + length <= |stored|
    ensures Output(before) <= Output(before + [m]) <= stored && |Output(before + [m])| == |Output(before)| + length
  {
    var read := |Output(before)|;
    OutputOne(before, m);
    RingSlice(mem, address, stored, read, length);
    hide Output, AllKept, Ring, Slot;
    Delivered(m, h, mem, stored[read..read + length]);
    hide *;
    Prefixes(Output(before), stored, length);
  }

  lemma {:induction false} Prefixes(a: seq<byte>, all: seq<byte>, n: nat)
    requires a <= all && |a| + n <= |all|
    ensures a <= a + all[|a|..|a| + n] <= all && |a + all[|a|..|a| + n]| == |a| + n
  {
    assert all[..|a|] + all[|a|..|a| + n] == all[..|a| + n];
  }

  lemma {:induction false} Delivered(m: Message, h: Handed, mem: seq<byte>, bytes: seq<byte>)
    requires IsMessage(m, h, mem) && Mine(Some(h)) && h.info.dmaAddress + h.info.dmaLength <= |mem|
    requires mem[h.info.dmaAddress..h.info.dmaAddress + h.info.dmaLength] == bytes
    ensures IsOutput(m) && (m.content.Some? ==> m.content.value == bytes)
  {
  }

  lemma {:induction false} InfoIsProper(info: TxInfo)
    requires |info.data| == 4 && info.dataLength == 0 && info.dmaLength <= BUFFER_SIZE && info.dmaAddress <= 0x0401_0000
    ensures UsbState.ProperInfo(info)
  {
  }

  lemma {:induction false} Room(mem: seq<byte>, address: nat, c: Console, read: nat)
    requires Shared(mem, address, c.stored, c.published, read) && c.cursor == Slot(|c.stored|)
    ensures (if c.cursor + 1 == BUFFER_SIZE then 0 else c.cursor + 1) != WordAt(mem, address + READ_POINTER_OFFSET) <==>
      |c.stored| + 1 < read + BUFFER_SIZE
  {
    hide Slot, WordAt, Ring;
    SlotNext(|c.stored|);
    RoomLeft(read, |c.stored|);
  }

  lemma {:induction false} PublishedMore(c: Console, read: nat, mem: seq<byte>, address: nat, p: Process, length: nat)
    requires Shared(mem, address, c.stored, c.published, read) && Piece(p, length, read, c.published)
    ensures Piece(p, length, read, |c.stored|)
  {
  }

  lemma {:induction false} Stored(mem: seq<byte>, address: nat, p: Process, c: Console, length: nat, read: nat,
                                  packet: Queue, h: Option<Handed>, kept: bool, kept1: bool, b: byte)
    requires Shared(mem, address, c.stored, c.published, read) && c.cursor == Slot(|c.stored|) && Piece(p, length, read, c.published)
    requires Stage(p.ready, PacketFor(address, read, length, p.ticket), packet, h, kept)
    requires (if c.cursor + 1 == BUFFER_SIZE then 0 else c.cursor + 1) != WordAt(mem, address + READ_POINTER_OFFSET)
    requires var at := address + BUFFER_OFFSET + c.cursor;
      h.Some? && (at + 1 <= h.value.info.dmaAddress || h.value.info.dmaAddress + h.value.info.dmaLength <= at) ==> kept ==> kept1
    ensures Shared(Blit(mem, address + BUFFER_OFFSET + c.cursor, [b], 0, 1), address, c.stored + [b], c.published, read)
    ensures (if c.cursor + 1 == BUFFER_SIZE then 0 else c.cursor + 1) == Slot(|c.stored| + 1)
    ensures Stage(p.ready, PacketFor(address, read, length, p.ticket), packet, h, kept1)
  {
    hide Slot, WordAt, Ring, Blit;
    SlotNext(|c.stored|);
    RoomLeft(read, |c.stored|);
    StoreKeeps(mem, address, c.stored, c.published, read, b);
    if !p.ready { StoreApart(read, length, |c.stored|); }
  }
}
