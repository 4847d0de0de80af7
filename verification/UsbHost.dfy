/**
 The host side of the link (Backend and Link in sw/deployer/src/sc64/link.rs): frames are cut out of a
 byte stream that arrives in pieces of any size.
 */
module UsbHost {
  import opened Bytes
  import opened UsbProtocol

  datatype IoError = UnexpectedEof | TimedOut | InvalidData | OtherError

  /** One read call: some bytes, nothing yet, or an error. */
  datatype Chunk = Bytes(data: seq<byte>) | NotYet | Broken(error: IoError)

  datatype ReadResult = Complete(data: seq<byte>) | Nothing | Failed(error: IoError)

  datatype DataType = ForResponse | ForPacket

  datatype Incoming = Ok(response: Option<Frame>) | Error(error: IoError)

  ghost function Packets(frames: seq<Frame>): seq<Frame> {
    if frames == [] then [] else
      Packets(frames[..|frames| - 1]) + if frames[|frames| - 1].kind == Packet then [frames[|frames| - 1]] else []
  }

  ghost function Responses(frames: seq<Frame>): seq<Frame> {
    if frames == [] then [] else
      Responses(frames[..|frames| - 1]) + if frames[|frames| - 1].kind == Packet then [] else [frames[|frames| - 1]]
  }

  function OneOrNone<T>(o: Option<T>): seq<T> {
    if o.Some? then [o.value] else []
  }

  lemma {:induction false} OneMoreFrame(frames: seq<Frame>, n: nat)
    requires n < |frames|
    ensures Packets(frames[..n + 1]) == Packets(frames[..n]) + if frames[n].kind == Packet then [frames[n]] else []
    ensures Responses(frames[..n + 1]) == Responses(frames[..n]) + if frames[n].kind == Packet then [] else [frames[n]]
  {
    assert frames[..n + 1][..n] == frames[..n];
  }

  /** The stream is (the start of) these frames, and the first n of them have been read. */
  ghost predicate AtFrame(stream: seq<byte>, frames: seq<Frame>, position: nat, n: nat) {
    AllSendable(frames) && stream <= EncodeAll(frames) && n <= |frames| && position <= |stream| &&
    position == |EncodeAll(frames[..n])|
  }

  lemma {:induction false} FramesSplit(frames: seq<Frame>, n: nat)
    requires AllSendable(frames) && n < |frames|
    ensures AllSendable(frames[..n]) && AllSendable(frames[..n + 1]) && Sendable(frames[n])
    ensures EncodeAll(frames[..n + 1]) == EncodeAll(frames[..n]) + Encode(frames[n])
    ensures EncodeAll(frames[..n + 1]) <= EncodeAll(frames)
  {
    hide Encode;
    assert frames[..n + 1] == frames[..n] + [frames[n]];
    EncodeAllOne(frames[..n], frames[n]);
    assert frames == frames[..n + 1] + frames[n + 1..];
    EncodeAllAppend(frames[..n + 1], frames[n + 1..]);
  }

  /** What can be read at a frame boundary is the start of the next frame. */
  lemma {:induction false} NextFrame(stream: seq<byte>, frames: seq<Frame>, position: nat, n: nat, k: nat)
    requires AtFrame(stream, frames, position, n) && 0 < k && position + k <= |stream|
    ensures n < |frames| && Sendable(frames[n])
    ensures k <= |Encode(frames[n])| ==> stream[position..position + k] == Encode(frames[n])[..k]
    ensures k == |Encode(frames[n])| ==> AtFrame(stream, frames, position + k, n + 1)
  {
    hide Encode;
    assert frames[..|frames|] == frames;
    assert n < |frames|;
    FramesSplit(frames, n);
    var all, done, f := EncodeAll(frames), EncodeAll(frames[..n]), Encode(frames[n]);
    hide EncodeAll;
    if k <= |f| {
      assert all[..position + k] == (done + f)[..position + k];
      assert (done + f)[position..position + k] == f[..k];
      assert stream[position..position + k] == all[..position + k][position..];
    }
  }

  lemma {:induction false} AtFrameIs(stream: seq<byte>, frames: seq<Frame>, position: nat, n: nat)
    requires AtFrame(stream, frames, position, n)
    ensures position <= |stream| && n <= |frames|
  {
  }

  /** The parts of the next frame, as they are read one after the other. */
  lemma {:induction false} HeaderParts(stream: seq<byte>, frames: seq<Frame>, position: nat, n: nat)
    requires AtFrame(stream, frames, position, n) && position + 4 <= |stream|
    ensures n < |frames| && Sendable(frames[n])
    ensures KindOf(stream[position..position + 4][..3]) == Some(frames[n].kind) && stream[position + 3] == frames[n].id
  {
    hide AtFrame, Encode, KindOf;
    NextFrame(stream, frames, position, n, 4);
    EncodedParts(frames[n]);
    var s := Encode(frames[n]);
    assert stream[position..position + 4][..3] == s[..4][..3] == s[..3];
    assert stream[position + 3] == stream[position..position + 4][3] == s[..4][3] == s[3];
  }

  lemma {:induction false} LengthPart(stream: seq<byte>, frames: seq<Frame>, position: nat, n: nat)
    requires AtFrame(stream, frames, position, n) && position + 8 <= |stream|
    ensures n < |frames| && FromBigEndian(stream[position + 4..position + 8]) == |frames[n].payload|
  {
    hide AtFrame, Encode, KindOf, FromBigEndian;
    NextFrame(stream, frames, position, n, 8);
    EncodedParts(frames[n]);
    var s := Encode(frames[n]);
    SliceOfSlice(stream, position, 8, 4, 8);
    assert s[..8][4..8] == s[4..8];
  }

  lemma {:induction false} DataPart(stream: seq<byte>, frames: seq<Frame>, position: nat, n: nat, length: nat)
    requires AtFrame(stream, frames, position, n) && position + 8 + length <= |stream| && n < |frames| &&
      length == |frames[n].payload|
    ensures stream[position + 8..position + 8 + length] == frames[n].payload
    ensures AtFrame(stream, frames, position + 8 + length, n + 1)
  {
    hide AtFrame, Encode, KindOf, FromBigEndian;
    NextFrame(stream, frames, position, n, 8 + length);
    EncodedParts(frames[n]);
    var s := Encode(frames[n]);
    SliceOfSlice(stream, position, 8 + length, 8, 8 + length);
    assert s[..8 + length] == s;
  }

  lemma {:induction false} FrameBefore(stream: seq<byte>, frames: seq<Frame>, position: nat, n: nat) returns (before: nat)
    requires AtFrame(stream, frames, position, n) && n > 0
    ensures n <= |frames| && AtFrame(stream, frames, before, n - 1) && position == before + 8 + |frames[n - 1].payload| <= |stream|
  {
    FramesSplit(frames, n - 1);
    hide EncodeAll;
    before := |EncodeAll(frames[..n - 1])|;
  }

  lemma {:induction false} NoFrames(stream: seq<byte>, a: seq<Frame>, b: seq<Frame>, position: nat)
    requires AtFrame(stream, a, position, 0) && AllSendable(b) && stream <= EncodeAll(b)
    ensures AtFrame(stream, b, position, 0)
  {
    assert a[..0] == b[..0] == [];
  }

  /** What has arrived determines the frames that were read from it. */
  lemma {:induction false} FramesAgree(stream: seq<byte>, a: seq<Frame>, b: seq<Frame>, position: nat, n: nat)
    requires AtFrame(stream, a, position, n) && AllSendable(b) && stream <= EncodeAll(b)
    ensures AtFrame(stream, b, position, n) && n <= |a| && n <= |b| && a[..n] == b[..n]
  {
    hide *;
    AtFrameIs(stream, a, position, n);
    if n > 0 {
      var before := FrameBefore(stream, a, position, n);
      FramesAgree(stream, a, b, before, n - 1);
      SameFrame(stream, a, b, before, n - 1);
      assert a[..n] == a[..n - 1] + [a[n - 1]];
      assert b[..n] == b[..n - 1] + [b[n - 1]];
    } else {
      NoFrames(stream, a, b, position);
      AtFrameIs(stream, b, position, n);
    }
  }

  lemma {:induction false} SameFrame(stream: seq<byte>, a: seq<Frame>, b: seq<Frame>, position: nat, n: nat)
    requires AtFrame(stream, a, position, n) && AtFrame(stream, b, position, n) && n < |a| && position + 8 + |a[n].payload| <= |stream|
    ensures n < |b| && a[n] == b[n] && AtFrame(stream, b, position + 8 + |a[n].payload|, n + 1)
  {
    hide AtFrame, KindOf, FromBigEndian;
    HeaderParts(stream, a, position, n);
    HeaderParts(stream, b, position, n);
    LengthPart(stream, a, position, n);
    LengthPart(stream, b, position, n);
    DataPart(stream, a, position, n, |a[n].payload|);
    DataPart(stream, b, position, n, |b[n].payload|);
  }

  class Backend {
    var stream: seq<byte>   // what has arrived so far
    var position: nat       // how much of it has been read
    ghost var frames: seq<Frame>
    ghost var n: nat        // how many frames have been read
    ghost var troubles: nat // end of file, system errors and expired time limits

    constructor (stream: seq<byte>, ghost frames: seq<Frame>)
      requires AllSendable(frames) && stream <= EncodeAll(frames)
      ensures InStep() && n == 0 && position == 0 && this.stream == stream && this.frames == frames
    {
      this.stream, this.frames := stream, frames;
      position, n, troubles := 0, 0, 0;
    }

    ghost predicate InStep()
      reads this
    {
      AtFrame(stream, frames, position, n)
    }

    /** More arrives; the frames that were read stay what they were. */
    method Arrive(more: seq<byte>, ghost all: seq<Frame>)
      requires InStep() && AllSendable(all) && stream + more <= EncodeAll(all)
      modifies `stream, `frames
      ensures InStep() && stream == old(stream) + more && frames == all
      ensures n <= |frames| && n <= |old(frames)| && frames[..n] == old(frames)[..n]
    {
      hide EncodeAll;
      assert stream <= EncodeAll(all) by { assert (stream + more)[..|stream|] == stream; }
      FramesAgree(stream, frames, all, position, n);
      stream, frames := stream + more, all;
    }

    /** read: how much arrives, and whether anything does, is up to the system. */
    method Read(length: nat) returns (r: Chunk)
      requires position <= |stream| && length > 0
      modifies `position, `troubles
      ensures position <= |stream| && troubles == old(troubles) + if r.Broken? || (r.Bytes? && r.data == []) then 1 else 0
      ensures r.Bytes? ==> |r.data| <= length && position == old(position) + |r.data| && r.data == stream[old(position)..position]
      ensures !r.Bytes? ==> position == old(position)
      ensures r.Broken? ==> r.error != InvalidData
    {
      var k: int, outcome: int := *, *;
      if outcome == 0 {
        return NotYet;
      } else if outcome == 1 {
        troubles := troubles + 1;
        return Broken(OtherError);
      }
      if k < 0 || k > length || position + k > |stream| { k := 0; }
      if k == 0 { troubles := troubles + 1; }
      r := Bytes(stream[position..position + k]);
      position := position + k;
    }

    /** try_read_exact; `patience` is how many reads fit into the time limit. */
    method TryReadExact(length: nat, block: bool, patience: nat) returns (r: ReadResult)
      requires position <= |stream|
      modifies `position, `troubles
      ensures old(position) <= position <= |stream|
      ensures r.Complete? ==> |r.data| == length && position == old(position) + length && r.data == stream[old(position)..position]
      ensures r.Nothing? ==> !block && length > 0 && position == old(position)
      ensures r.Failed? ==> r.error != InvalidData
      ensures troubles == old(troubles) + if r.Failed? then 1 else 0
    {
      var buffer: seq<byte> := [];
      var left := patience;
      while |buffer| < length
        invariant troubles == old(troubles) && old(position) <= position && |buffer| <= length &&
          position <= |stream| && position == old(position) + |buffer| && buffer == stream[old(position)..position]
        decreases left
      {
        ghost var before := position;
        var chunk := Read(length - |buffer|);
        match chunk {
          case Bytes(data) =>
            if data == [] { return ReadResult.Failed(UnexpectedEof); }
            assert stream[old(position)..position] == stream[old(position)..before] + stream[before..position];
            buffer := buffer + data;
          case NotYet =>
            if !block && |buffer| == 0 { return Nothing; }
          case Broken(error) =>
            return ReadResult.Failed(error);
        }
        if left == 0 {
          troubles := troubles + 1;
          return ReadResult.Failed(TimedOut);
        }
        left := left - 1;
      }
      r := Complete(buffer);
    }

    method ReadExact(length: nat, patience: nat) returns (r: ReadResult)
      requires position <= |stream|
      modifies `position, `troubles
      ensures old(position) <= position <= |stream| && !r.Nothing?
      ensures r.Complete? ==> |r.data| == length && position == old(position) + length && r.data == stream[old(position)..position]
      ensures r.Failed? ==> r.error != InvalidData
      ensures troubles == old(troubles) + if r.Failed? then 1 else 0
    {
      r := TryReadExact(length, true, patience);
    }

    /** One frame: nothing, an error of the system, or the very next frame that was sent. */
    method ReadFrame(block: bool, patience: nat) returns (r: ReadResult, frame: Frame)
      requires InStep()
      modifies `position, `troubles, `n
      ensures r.Failed? ==> r.error != InvalidData
      ensures troubles == old(troubles) + if r.Failed? then 1 else 0
      ensures r.Nothing? ==> !block && position == old(position) && n == old(n)
      ensures !r.Failed? ==> InStep()
      ensures old(position) <= position <= |stream| && (!r.Complete? ==> n == old(n))
      ensures r.Complete? ==> n == old(n) + 1 && n <= |frames| && frame == frames[n - 1] && position > old(position)
    {
      hide AtFrame, EncodeAll, Encode, KindOf, FromBigEndian;
      AtFrameIs(stream, frames, position, n);
      frame := Frame(Completed, 0, []);
      ghost var start := position;
      var header := TryReadExact(4, block, patience);
      if !header.Complete? { return header, frame; }
      HeaderParts(stream, frames, start, n);
      var kind := KindOf(header.data[..3]);
      if kind.None? { return ReadResult.Failed(InvalidData), frame; }
      var id := header.data[3];
      var buffer := ReadExact(4, patience);
      if !buffer.Complete? { return buffer, frame; }
      LengthPart(stream, frames, start, n);
      var length := FromBigEndian(buffer.data);
      var data := ReadExact(length, patience);
      if !data.Complete? { return data, frame; }
      DataPart(stream, frames, start, n, length);
      frame := Frame(kind.value, id, data.data);
      n := n + 1;
      r := data;
    }

    /** process_incoming_data: packets on the way to a response are kept, in order. */
    method ProcessIncomingData(dataType: DataType, queue: seq<Frame>, patience: nat) returns (r: Incoming, packets: seq<Frame>)
      requires InStep()
      modifies `position, `troubles, `n
      ensures r.Error? ==> r.error != InvalidData && troubles > old(troubles)
      ensures r.Ok? ==> InStep() && troubles == old(troubles)
      ensures old(n) <= |frames| && n <= |frames|
      ensures Responses(frames[..n]) == Responses(frames[..old(n)]) + if r.Ok? then OneOrNone(r.response) else []
      ensures queue <= packets && Packets(frames[..n]) == Packets(frames[..old(n)]) + packets[|queue|..]
      ensures r.Ok? && r.response.Some? ==> r.response.value.kind != Packet
      ensures r.Ok? && dataType == ForResponse ==> r.response.Some?
      ensures r.Ok? && dataType == ForPacket ==> |packets| <= |queue| + 1 && (r.response.Some? ==> packets == queue)
    {
      hide AtFrame, Responses, Packets;
      AtFrameIs(stream, frames, position, n);
      packets := queue;
      var block := dataType == ForResponse;
      var header, frame := ReadFrame(block, patience);
      while header.Complete?
        invariant n <= |frames| && old(n) <= |frames| && (!header.Failed? ==> InStep() && troubles == old(troubles))
        invariant header.Failed? ==> header.error != InvalidData && troubles > old(troubles)
        invariant header.Nothing? ==> !block
        invariant queue <= packets && position <= |stream| + 1
        invariant var k := if header.Complete? then n - 1 else n;
          0 <= k && Responses(frames[..k]) == Responses(frames[..old(n)]) && Packets(frames[..k]) == Packets(frames[..old(n)]) + packets[|queue|..]
        invariant header.Complete? ==> n > 0 && frame == frames[n - 1]
        invariant dataType == ForPacket ==> packets == queue
        decreases |stream| - position, if header.Complete? then 1 else 0
      {
        OneMoreFrame(frames, n - 1);
        if frame.kind == Packet {
          packets := packets + [frame];
          if dataType == ForPacket { break; }
        } else {
          return Ok(Some(frame)), packets;
        }
        AtFrameIs(stream, frames, position, n);
        header, frame := ReadFrame(block, patience);
      }
      if header.Failed? { return Incoming.Error(header.error), packets; }
      r := Ok(None);
    }
  }

  datatype LinkError = Transport(error: IoError) | NoResponse | UnexpectedResponse | IdMismatch | CommandFailed

  datatype Result<T> = Success(value: T) | Failure(error: LinkError)

  datatype UsbPacket = ResponsePacket(frame: Frame) | AsynchronousPacket(frame: Frame)

  class Link {
    const backend: Backend
    var packets: seq<Frame>
    ghost var given: seq<Frame>   // packets handed out
    ghost var answers: seq<Frame> // responses taken from the stream
    ghost var written: seq<byte>  // what was sent to the device

    /** Every frame read so far was handed out, or is a packet that waits its turn. */
    ghost predicate Accounted()
      reads `packets, `given, `answers, backend
    {
      backend.n <= |backend.frames| &&
      answers == Responses(backend.frames[..backend.n]) && given + packets == Packets(backend.frames[..backend.n])
    }

    /** And the next byte read is the first of a frame. */
    ghost predicate Valid()
      reads `packets, `given, `answers, backend
    {
      backend.InStep() && Accounted()
    }

    constructor (backend: Backend)
      requires backend.InStep() && backend.n == 0
      ensures Valid() && this.backend == backend && packets == [] && given == [] && answers == [] && written == []
    {
      this.backend := backend;
      packets, given, answers, written := [], [], [], [];
    }

    /** receive_response: the next response, with the packets in front of it put aside. */
    method ReceiveResponse(patience: nat) returns (r: Result<Frame>)
      requires Valid()
      modifies this, backend`position, backend`troubles, backend`n
      ensures written == old(written) && given == old(given) && Accounted() && old(packets) <= packets
      ensures r.Failure? ==> r.error.Transport? && r.error.error != InvalidData && backend.troubles > old(backend.troubles)
      ensures r.Success? ==> Valid() && answers == old(answers) + [r.value] && given == old(given) && r.value.kind != Packet
    {
      hide AtFrame, Responses, Packets;
      ghost var n := backend.n;
      var incoming, queue := backend.ProcessIncomingData(ForResponse, packets, patience);
      packets := queue;
      if incoming.Error? { return Failure(Transport(incoming.error)); }
      answers := answers + OneOrNone(incoming.response);
      if incoming.response.None? { return Failure(NoResponse); }
      r := Success(incoming.response.value);
    }

    /** receive_packet: the next packet; a response that comes instead is an error. */
    method ReceivePacket(patience: nat) returns (r: Result<Option<Frame>>)
      requires Valid()
      modifies this, backend`position, backend`troubles, backend`n
      ensures Accounted()
      ensures r.Failure? ==> r.error == UnexpectedResponse || (r.error.Transport? && r.error.error != InvalidData && backend.troubles > old(backend.troubles))
      ensures r.Failure? && r.error == UnexpectedResponse ==> Valid() && given == old(given) && |answers| == |old(answers)| + 1
      ensures r.Success? ==> Valid() && answers == old(answers) && given == old(given) + OneOrNone(r.value)
      ensures old(packets) != [] ==> r.Success? && r.value == Some(old(packets)[0]) && backend.n == old(backend.n)
    {
      hide AtFrame, Responses, Packets;
      if |packets| == 0 {
        var incoming, queue := backend.ProcessIncomingData(ForPacket, packets, patience);
        packets := queue;
        if incoming.Error? { return Failure(Transport(incoming.error)); }
        answers := answers + OneOrNone(incoming.response);
        if incoming.response.Some? { return Failure(UnexpectedResponse); }
      }
      if |packets| == 0 { return Success(None); }
      r := Success(Some(packets[0]));
      given, packets := given + [packets[0]], packets[1..];
    }

    /** receive_response_or_packet: whichever frame comes first, packets in their order. */
    method ReceiveResponseOrPacket(patience: nat) returns (r: Result<Option<UsbPacket>>)
      requires Valid()
      modifies this, backend`position, backend`troubles, backend`n
      ensures Accounted()
      ensures r.Failure? ==> r.error.Transport? && r.error.error != InvalidData && backend.troubles > old(backend.troubles)
      ensures r.Success? ==> Valid()
      ensures r.Success? && r.value.None? ==> answers == old(answers) && given == old(given)
      ensures r.Success? && r.value.Some? && r.value.value.ResponsePacket? ==> answers == old(answers) + [r.value.value.frame] && given == old(given)
      ensures r.Success? && r.value.Some? && r.value.value.AsynchronousPacket? ==> answers == old(answers) && given == old(given) + [r.value.value.frame]
    {
      hide AtFrame, Responses, Packets;
      var incoming, queue := backend.ProcessIncomingData(ForPacket, packets, patience);
      packets := queue;
      if incoming.Error? { return Failure(Transport(incoming.error)); }
      answers := answers + OneOrNone(incoming.response);
      if incoming.response.Some? { return Success(Some(ResponsePacket(incoming.response.value))); }
      if |packets| > 0 {
        r := Success(Some(AsynchronousPacket(packets[0])));
        given, packets := given + [packets[0]], packets[1..];
        return;
      }
      r := Success(None);
    }

    /** send_command */
    method SendCommand(c: Command, data: seq<byte>)
      modifies `written
      ensures written == old(written) + EncodeCommand(c, data)
    {
      written := written + EncodeCommand(c, data);
    }

    /** The second half of execute_command_raw: the next response must be the answer to this command. */
    method ReceiveAnswer(c: Command, ignoreError: bool, patience: nat) returns (r: Result<seq<byte>>)
      requires Valid()
      modifies this, backend`position, backend`troubles, backend`n
      ensures written == old(written) && given == old(given) && Accounted() && old(packets) <= packets
      ensures r.Success? || !r.error.Transport? ==> Valid() && |answers| == |old(answers)| + 1 && old(answers) <= answers
      ensures r.Success? ==>
        var last := answers[|answers| - 1];
        last.id == c.id && (last.kind == Completed || ignoreError) && r.value == last.payload
      ensures r.Failure? && !r.error.Transport? ==>
        var last := answers[|answers| - 1];
        if last.id == c.id then last.kind == Kind.Failed && !ignoreError && r.error == CommandFailed else r.error == IdMismatch
    {
      hide AtFrame, Responses, Packets;
      var response := ReceiveResponse(patience);
      if response.Failure? { return Failure(response.error); }
      if c.id != response.value.id { return Failure(IdMismatch); }
      if !ignoreError && response.value.kind == Kind.Failed { return Failure(CommandFailed); }
      r := Success(response.value.payload);
    }

    /** execute_command_raw: the bytes of one command go out, and the next response must be its answer. */
    method ExecuteCommandRaw(c: Command, data: seq<byte>, noResponse: bool, ignoreError: bool,
            patience: nat) returns (r: Result<seq<byte>>)
      requires Valid()
      modifies this, backend`position, backend`troubles, backend`n
      ensures written == old(written) + EncodeCommand(c, data)
      ensures noResponse ==> r == Success([]) && Valid() && answers == old(answers)
      ensures !noResponse && (r.Success? || !r.error.Transport?) ==> Valid() && |answers| == |old(answers)| + 1 && old(answers) <= answers
      ensures !noResponse && r.Success? ==>
        var last := answers[|answers| - 1];
        last.id == c.id && (last.kind == Completed || ignoreError) && r.value == last.payload
      ensures !noResponse && r.Failure? && !r.error.Transport? ==>
        var last := answers[|answers| - 1];
        if last.id == c.id then last.kind == Kind.Failed && !ignoreError && r.error == CommandFailed else r.error == IdMismatch
      ensures given == old(given) && Accounted() && old(packets) <= packets
    {
      hide EncodeCommand, AtFrame, Responses, Packets;
      SendCommand(c, data);
      if noResponse { return Success([]); }
      r := ReceiveAnswer(c, ignoreError, patience);
    }
  }
}
