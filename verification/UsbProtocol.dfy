/**
 The byte streams between the SC64 firmware and its host: frames from the device and commands to it
 (sw/controller/src/usb.c and sw/deployer/src/sc64/link.rs).
 */
module UsbProtocol {
  import opened Bytes

  // ---------- frames, from the device to the host ----------

  datatype Kind = Completed | Failed | Packet

  datatype Frame = Frame(kind: Kind, id: byte, payload: seq<byte>)

  predicate Sendable(f: Frame) {
    |f.payload| < 0x1_0000_0000
  }

  /** The first three bytes of a frame: CMP, ERR or PKT. */
  function Token(kind: Kind): (t: seq<byte>)
    ensures |t| == 3
  {
    match kind
    case Completed => [0x43, 0x4D, 0x50]
    case Failed => [0x45, 0x52, 0x52]
    case Packet => [0x50, 0x4B, 0x54]
  }

  function KindOf(token: seq<byte>): Option<Kind> {
    if token == Token(Completed) then Some(Completed)
    else if token == Token(Packet) then Some(Packet)
    else if token == Token(Failed) then Some(Failed)
    else None
  }

  function Encode(f: Frame): (s: seq<byte>)
    requires Sendable(f)
    ensures |s| == 8 + |f.payload|
  {
    Token(f.kind) + [f.id] + BigEndian(|f.payload|) + f.payload
  }

  ghost predicate AllSendable(frames: seq<Frame>) {
    forall i :: 0 <= i < |frames| ==> Sendable(frames[i])
  }

  ghost function EncodeAll(frames: seq<Frame>): seq<byte>
    requires AllSendable(frames)
  {
    if frames == [] then [] else EncodeAll(frames[..|frames| - 1]) + Encode(frames[|frames| - 1])
  }

  lemma {:induction false} TokenRoundTrip(kind: Kind)
    ensures KindOf(Token(kind)) == Some(kind)
  {
    assert Token(Completed)[0] == 0x43 && Token(Failed)[0] == 0x45 && Token(Packet)[0] == 0x50;
  }

  /** Where the parts of an encoded frame are. */
  lemma {:induction false} EncodedParts(f: Frame)
    requires Sendable(f)
    ensures var s := Encode(f);
      KindOf(s[..3]) == Some(f.kind) && s[3] == f.id && FromBigEndian(s[4..8]) == |f.payload| && s[8..] == f.payload
  {
    TokenRoundTrip(f.kind);
    BigEndianRoundTrip(|f.payload|);
    var s := Encode(f);
    hide Token, BigEndian, FromBigEndian, KindOf;
    assert s[..3] == Token(f.kind);
    assert s[4..8] == BigEndian(|f.payload|);
  }

  lemma {:induction false} EncodeAllOne(frames: seq<Frame>, f: Frame)
    requires AllSendable(frames) && Sendable(f)
    ensures AllSendable(frames + [f]) && EncodeAll(frames + [f]) == EncodeAll(frames) + Encode(f)
  {
    hide Encode;
    assert (frames + [f])[..|frames|] == frames;
  }

  lemma {:induction false} Associative<T>(a: seq<T>, b: seq<T>, c: seq<T>)
    ensures (a + b) + c == a + (b + c)
  {
  }

  lemma {:induction false} EncodeAllAppend(a: seq<Frame>, b: seq<Frame>)
    requires AllSendable(a) && AllSendable(b)
    ensures AllSendable(a + b) && EncodeAll(a + b) == EncodeAll(a) + EncodeAll(b)
  {
    if b == [] {
      assert a + b == a;
    } else {
      var init, last := b[..|b| - 1], b[|b| - 1];
      EncodeAllAppend(a, init);
      EncodeAllOne(a + init, last);
      assert EncodeAll(b) == EncodeAll(init) + Encode(last);
      hide Encode, EncodeAll;
      assert a + init + [last] == a + b;
      Associative(EncodeAll(a), EncodeAll(init), Encode(last));
    }
  }

  // ---------- commands, from the host to the device ----------

  datatype Command = Command(id: byte, arg0: word, arg1: word)

  const ID_MEMORY_WRITE: byte := 0x4D
  const ID_USB_WRITE: byte := 0x55
  const ID_SD_READ: byte := 0x73
  const ID_SD_WRITE: byte := 0x53

  /** Bytes that follow the arguments of a command. */
  function PayloadLength(c: Command): nat {
    if c.id == ID_MEMORY_WRITE || c.id == ID_USB_WRITE then c.arg1
    else if c.id == ID_SD_READ || c.id == ID_SD_WRITE then 4
    else 0
  }

  datatype Phase = Scan(matched: nat) | Args(id: byte, got: seq<byte>) | Payload(left: nat)

  /** What has been read so far: ids as soon as a command is recognised, commands once their arguments are there. */
  datatype Parser = Parser(phase: Phase, ids: seq<byte>, commands: seq<Command>)

  const START := Parser(Scan(0), [], [])

  function CommandToken(k: nat): byte
    requires k < 3
  {
    if k == 0 then 0x43 else if k == 1 then 0x4D else 0x44
  }

  function After(left: nat): Phase {
    if left == 0 then Scan(0) else Payload(left)
  }

  predicate ProperPhase(phase: Phase) {
    match phase
    case Scan(matched) => matched <= 3
    case Args(id, got) => |got| < 8
    case Payload(left) => left > 0
  }

  /** The firmware's automaton: a byte that does not match is swallowed, and not tried as the start of a token. */
  function Feed(p: Parser, b: byte): (r: Parser)
    requires ProperPhase(p.phase)
    ensures ProperPhase(r.phase)
  {
    match p.phase
    case Scan(matched) =>
      if matched == 3 then p.(phase := Args(b, []), ids := p.ids + [b])
      else if b == CommandToken(matched) then p.(phase := Scan(matched + 1))
      else p.(phase := Scan(0))
    case Args(id, got) =>
      var all := got + [b];
      if |all| < 8 then p.(phase := Args(id, all))
      else
        var c := Command(id, FromBigEndian(all[..4]), FromBigEndian(all[4..]));
        p.(phase := After(PayloadLength(c)), commands := p.commands + [c])
    case Payload(left) => p.(phase := After(left - 1))
  }

  ghost function FeedAll(p: Parser, s: seq<byte>): (r: Parser)
    requires ProperPhase(p.phase)
    ensures ProperPhase(r.phase)
  {
    if s == [] then p else Feed(FeedAll(p, s[..|s| - 1]), s[|s| - 1])
  }

  /** What the device makes of everything it has taken from the host. */
  ghost function Parse(s: seq<byte>): (r: Parser)
    ensures ProperPhase(r.phase)
  {
    FeedAll(START, s)
  }

  lemma {:induction false} FeedAllOne(p: Parser, s: seq<byte>, b: byte)
    requires ProperPhase(p.phase)
    ensures FeedAll(p, s + [b]) == Feed(FeedAll(p, s), b)
  {
    assert (s + [b])[..|s|] == s;
  }

  lemma {:induction false} FeedAllAppend(p: Parser, a: seq<byte>, b: seq<byte>)
    requires ProperPhase(p.phase)
    ensures FeedAll(p, a + b) == FeedAll(FeedAll(p, a), b)
  {
    hide Feed;
    if b == [] {
      assert a + b == a;
    } else {
      FeedAllAppend(p, a, b[..|b| - 1]);
      assert (a + b)[..|a + b| - 1] == a + b[..|b| - 1];
    }
  }

  /** send_command */
  function EncodeCommand(c: Command, data: seq<byte>): seq<byte> {
    [0x43, 0x4D, 0x44] + [c.id] + BigEndian(c.arg0) + BigEndian(c.arg1) + data
  }

  lemma {:induction false} FeedPayload(p: Parser, data: seq<byte>, left: nat)
    requires p.phase == After(left) && |data| <= left
    ensures FeedAll(p, data) == p.(phase := After(left - |data|))
  {
    if data != [] {
      FeedPayload(p, data[..|data| - 1], left);
    }
  }

  lemma {:induction false} FeedArgs(p: Parser, id: byte, all: seq<byte>, n: nat)
    requires p.phase == Args(id, []) && n <= |all| == 8
    ensures n < 8 ==> FeedAll(p, all[..n]) == p.(phase := Args(id, all[..n]))
    ensures n == 8 ==> var c := Command(id, FromBigEndian(all[..4]), FromBigEndian(all[4..]));
      FeedAll(p, all[..n]) == p.(phase := After(PayloadLength(c)), commands := p.commands + [c])
  {
    hide FromBigEndian, PayloadLength;
    if n > 0 {
      FeedArgs(p, id, all, n - 1);
      assert all[..n][..n - 1] == all[..n - 1];
      assert all[..n - 1] + [all[n - 1]] == all[..n];
      FeedAllOne(p, all[..n - 1], all[n - 1]);
      assert all[..8] == all;
    }
  }

  lemma {:induction false} FeedToken(p: Parser, id: byte)
    requires p.phase == Scan(0)
    ensures FeedAll(p, [0x43, 0x4D, 0x44] + [id]) == p.(phase := Args(id, []), ids := p.ids + [id])
  {
    var t: seq<byte> := [0x43, 0x4D, 0x44];
    FeedAllOne(p, t, id);
    FeedAllOne(p, t[..2], t[2]);
    FeedAllOne(p, t[..1], t[1]);
    FeedAllOne(p, [], t[0]);
    assert t[..2] + [t[2]] == t && t[..1] + [t[1]] == t[..2] && [] + [t[0]] == t[..1];
  }

  /** A command sent with the payload its arguments announce is taken as that command, and the device is in step again. */
  lemma {:induction false} CommandRoundTrip(p: Parser, c: Command, data: seq<byte>)
    requires p.phase == Scan(0) && |data| == PayloadLength(c)
    ensures FeedAll(p, EncodeCommand(c, data)) == Parser(Scan(0), p.ids + [c.id], p.commands + [c])
  {
    var t: seq<byte>, a := [0x43, 0x4D, 0x44] + [c.id], BigEndian(c.arg0) + BigEndian(c.arg1);
    assert EncodeCommand(c, data) == t + a + data;
    FeedToken(p, c.id);
    hide EncodeCommand, CommandToken;
    BigEndianRoundTrip(c.arg0);
    BigEndianRoundTrip(c.arg1);
    assert a[..4] == BigEndian(c.arg0) && a[4..] == BigEndian(c.arg1) && a[..8] == a;
    hide BigEndian, FromBigEndian, PayloadLength, Feed, FeedAll;
    var q := p.(phase := Args(c.id, []), ids := p.ids + [c.id]);
    FeedArgs(q, c.id, a, 8);
    var r := q.(phase := After(PayloadLength(c)), commands := q.commands + [c]);
    FeedAllAppend(p, t, a);
    FeedAllAppend(p, t + a, data);
    FeedPayload(r, data, PayloadLength(c));
  }
}
