/**
 The host tools for the firmware container: the writer in sw/tools/update.py, writer and reader in
 sw/tools/primer.py and the reader in sw/deployer/src/sc64/firmware.rs.
 */
module FirmwareTools {
  import opened Bytes
  import opened FirmwareFormat

  function NewChunk(step: CrcStep, id: word, data: seq<byte>): Chunk {
    Chunk(id, Crc(step, data), data)
  }

  lemma {:induction false} BuiltChunk(c: Chunk, padding: seq<byte>)
    requires Fits(c) && |padding| == ChunkSize(|c.data|) - 16 - |c.data|
    ensures IsChunk(Header(c) + c.data + padding, c)
  {
    var bytes := Header(c) + c.data + padding;
    assert bytes[..16] == Header(c) && bytes[16..16 + |c.data|] == c.data;
  }

  lemma {:induction false} ContainerAppend(bytes: seq<byte>, chunks: seq<Chunk>, more: seq<byte>, c: Chunk)
    requires IsContainer(bytes, chunks) && IsChunk(more, c)
    ensures IsContainer(bytes + more, chunks + [c])
  {
    hide AreChunks, IsChunk;
    AreChunksAppend(bytes[16..], chunks, more, c);
    assert (bytes + more)[..16] == bytes[..16] && (bytes + more)[16..] == bytes[16..] + more;
  }

  lemma {:induction false} EmptyContainer()
    ensures IsContainer(TOKEN, [])
  {
    assert TOKEN[..16] == TOKEN;
  }

  // ---------- writers ----------

  /** SC64UpdateData of update.py. */
  class UpdateWriter {
    const step: CrcStep
    var data: seq<byte>
    ghost var chunks: seq<Chunk>

    ghost predicate Valid()
      reads this
    {
      IsContainer(data, chunks) && AllSound(step, chunks)
    }

    /** create_update_data */
    constructor (step: CrcStep)
      ensures Valid() && chunks == [] && this.step == step
    {
      this.step := step;
      data := TOKEN;
      chunks := [];
      new;
      EmptyContainer();
    }

    /** __add_chunk; when a length does not fit its field the OverflowError leaves the data alone. */
    method AddChunk(id: word, content: seq<byte>) returns (ok: bool)
      requires Valid()
      modifies this
      ensures Valid()
      ensures ok <==> Fits(NewChunk(step, id, content))
      ensures chunks == if ok then old(chunks) + [NewChunk(step, id, content)] else old(chunks)
      ensures old(data) <= data && |data| == |old(data)| + if ok then ChunkSize(|content|) else 0
    {
      hide AreChunks, LittleEndian, IsContainer, Crc, IsChunk;
      var chunkLength := 16 + |content|;
      var alignedLength := Align(chunkLength);
      if alignedLength - 8 >= 0x1_0000_0000 { return false; }
      var chunk: seq<byte> := [];
      chunk := chunk + LittleEndian(id);
      chunk := chunk + LittleEndian(alignedLength - 8);
      chunk := chunk + LittleEndian(Crc(step, content));
      chunk := chunk + LittleEndian(|content|);
      chunk := chunk + content;
      chunk := chunk + Zeros(alignedLength - chunkLength);
      ghost var c := NewChunk(step, id, content);
      BuiltChunk(c, Zeros(alignedLength - chunkLength));
      assert chunk == Header(c) + content + Zeros(alignedLength - chunkLength);
      ContainerAppend(data, chunks, chunk, c);
      IsChunkSize(chunk, c);
      data := data + chunk;
      chunks := chunks + [c];
      return true;
    }
  }

  /** create_bootloader_only_firmware of primer.py. */
  method CreateBootloaderOnlyFirmware(step: CrcStep, bootloader: Option<seq<byte>>) returns (r: Option<seq<byte>>)
    ensures r.Some? <==> bootloader.Some? && Fits(NewChunk(step, ID_BOOTLOADER_DATA, bootloader.value))
    ensures r.Some? ==> IsContainer(r.value, [NewChunk(step, ID_BOOTLOADER_DATA, bootloader.value)])
  {
    hide AreChunks, LittleEndian, IsContainer, Crc, IsChunk;
    if bootloader.None? { return None; }
    var content := bootloader.value;
    if 8 + Align(|content|) >= 0x1_0000_0000 { return None; }
    var chunk: seq<byte> := [];
    chunk := chunk + LittleEndian(ID_BOOTLOADER_DATA);
    chunk := chunk + LittleEndian(8 + Align(|content|));
    chunk := chunk + LittleEndian(Crc(step, content));
    chunk := chunk + LittleEndian(|content|);
    chunk := chunk + content;
    var padding := Zeros(Align(|chunk|) - |chunk|);
    ghost var c := NewChunk(step, ID_BOOTLOADER_DATA, content);
    assert |chunk| == 16 + |content|;
    assert chunk == Header(c) + content;
    BuiltChunk(c, padding);
    chunk := chunk + padding;
    EmptyContainer();
    ContainerAppend(TOKEN, [], chunk, c);
    assert [] + [c] == [c];
    return Some(TOKEN + chunk);
  }

  // ---------- readers ----------

  datatype ReadResult = Loaded(slots: Slots) | InvalidHeader | UnknownChunk | BadChecksum(id: word) | UnexpectedEnd | NotAscii

  /** firmware.rs looks at the id before the checksum. */
  function RustOutcome(step: CrcStep, s: Slots, chunks: seq<Chunk>): ReadResult
    decreases |chunks|
  {
    if chunks == [] then Loaded(s)
    else if !KnownId(chunks[0].id) then UnknownChunk
    else if !Sound(step, chunks[0]) then BadChecksum(chunks[0].id)
    else RustOutcome(step, Keep(s, chunks[0].id, chunks[0].data), chunks[1..])
  }

  predicate Ascii(data: seq<byte>) {
    forall i :: 0 <= i < |data| ==> data[i] < 128
  }

  /** primer.py looks at the checksum first, and decodes the update information as ASCII. */
  function PrimerOutcome(step: CrcStep, s: Slots, chunks: seq<Chunk>): ReadResult
    decreases |chunks|
  {
    if chunks == [] then Loaded(s)
    else if !Sound(step, chunks[0]) then BadChecksum(chunks[0].id)
    else if chunks[0].id == ID_UPDATE_INFO && !Ascii(chunks[0].data) then NotAscii
    else if !KnownId(chunks[0].id) then UnknownChunk
    else PrimerOutcome(step, Keep(s, chunks[0].id, chunks[0].data), chunks[1..])
  }

  predicate InfoIsAscii(chunks: seq<Chunk>) {
    forall i :: 0 <= i < |chunks| && chunks[i].id == ID_UPDATE_INFO ==> Ascii(chunks[i].data)
  }

  /** firmware.rs takes a chunk of a known kind whose checksum is right. */
  ghost predicate RustTakes(step: CrcStep, c: Chunk) {
    c.id in {1, 2, 3, 4, 5} && c.checksum == Crc(step, c.data)
  }

  /** primer.py wants the update information to be ASCII as well. */
  ghost predicate PrimerTakes(step: CrcStep, c: Chunk) {
    c.id in {1, 2, 3, 4, 5} && c.checksum == Crc(step, c.data) && (c.id == 1 ==> Ascii(c.data))
  }

  /** The first chunk a reader does not take. */
  ghost predicate RustStops(step: CrcStep, chunks: seq<Chunk>, k: nat) {
    k < |chunks| && !RustTakes(step, chunks[k]) && forall i :: 0 <= i < k ==> RustTakes(step, chunks[i])
  }

  ghost predicate PrimerStops(step: CrcStep, chunks: seq<Chunk>, k: nat) {
    k < |chunks| && !PrimerTakes(step, chunks[k]) && forall i :: 0 <= i < k ==> PrimerTakes(step, chunks[i])
  }

  /** firmware.rs refuses a container for the first chunk it does not take, and says what is wrong with it. */
  lemma {:induction false} RustRefuses(step: CrcStep, s: Slots, chunks: seq<Chunk>, k: nat)
    requires RustStops(step, chunks, k)
    ensures RustOutcome(step, s, chunks) == if 1 <= chunks[k].id <= 5 then BadChecksum(chunks[k].id) else UnknownChunk
    decreases k
  {
    hide Crc, Keep;
    if k > 0 {
      assert RustTakes(step, chunks[0]);
      RustRefuses(step, Keep(s, chunks[0].id, chunks[0].data), chunks[1..], k - 1);
    }
  }

  /** primer.py does too; a wrong checksum counts first, then text that is not ASCII. */
  lemma {:induction false} PrimerRefuses(step: CrcStep, s: Slots, chunks: seq<Chunk>, k: nat)
    requires PrimerStops(step, chunks, k)
    ensures chunks[k].checksum != Crc(step, chunks[k].data) ==> PrimerOutcome(step, s, chunks) == BadChecksum(chunks[k].id)
    ensures chunks[k].checksum == Crc(step, chunks[k].data) ==>
      PrimerOutcome(step, s, chunks) == if chunks[k].id == ID_UPDATE_INFO then NotAscii else UnknownChunk
    decreases k
  {
    hide Crc, Keep, Ascii;
    if k > 0 {
      assert PrimerTakes(step, chunks[0]);
      PrimerRefuses(step, Keep(s, chunks[0].id, chunks[0].data), chunks[1..], k - 1);
    }
  }

  /**
   A container is loaded if and only if every chunk is of a known kind and its checksum is right, with the last data of
   each kind; otherwise the first chunk that is not taken decides.
   */
  ghost predicate RustJudges(step: CrcStep, chunks: seq<Chunk>, r: ReadResult) {
    (r.Loaded? <==> forall i :: 0 <= i < |chunks| ==> RustTakes(step, chunks[i])) &&
    (r.Loaded? ==> AllKnown(chunks) && r.slots == KeepAll(NO_SLOTS, chunks)) &&
    (forall k: nat :: RustStops(step, chunks, k) ==> r == if 1 <= chunks[k].id <= 5 then BadChecksum(chunks[k].id) else UnknownChunk)
  }

  lemma {:induction false} RustLoads(step: CrcStep, chunks: seq<Chunk>)
    ensures RustJudges(step, chunks, RustOutcome(step, NO_SLOTS, chunks))
  {
    hide Crc, RustOutcome, PrimerOutcome, KeepAll, InfoIsAscii;
    if forall i :: 0 <= i < |chunks| ==> RustTakes(step, chunks[i]) {
      WrittenLoads(step, NO_SLOTS, chunks);
    } else {
      var k := 0;
      while RustTakes(step, chunks[k])
        invariant k < |chunks| && forall i :: 0 <= i < k ==> RustTakes(step, chunks[i])
        decreases |chunks| - k
      {
        k := k + 1;
      }
      assert RustStops(step, chunks, k);
    }
    forall k: nat | RustStops(step, chunks, k)
      ensures RustOutcome(step, NO_SLOTS, chunks) == if 1 <= chunks[k].id <= 5 then BadChecksum(chunks[k].id) else UnknownChunk
    {
      RustRefuses(step, NO_SLOTS, chunks, k);
    }
  }

  /** The same for primer.py, if the update information is ASCII. */
  ghost predicate PrimerJudges(step: CrcStep, chunks: seq<Chunk>, r: ReadResult) {
    (r.Loaded? <==> forall i :: 0 <= i < |chunks| ==> PrimerTakes(step, chunks[i])) &&
    (r.Loaded? ==> AllKnown(chunks) && r.slots == KeepAll(NO_SLOTS, chunks)) &&
    (forall k: nat :: PrimerStops(step, chunks, k) ==> r == Refusal(step, chunks[k]))
  }

  ghost function Refusal(step: CrcStep, c: Chunk): ReadResult {
    if c.checksum != Crc(step, c.data) then BadChecksum(c.id) else if c.id == 1 then NotAscii else UnknownChunk
  }

  lemma {:induction false} PrimerLoads(step: CrcStep, chunks: seq<Chunk>)
    ensures PrimerJudges(step, chunks, PrimerOutcome(step, NO_SLOTS, chunks))
  {
    hide Crc, RustOutcome, PrimerOutcome, KeepAll, Ascii;
    if forall i :: 0 <= i < |chunks| ==> PrimerTakes(step, chunks[i]) {
      WrittenLoads(step, NO_SLOTS, chunks);
    } else {
      var k := 0;
      while PrimerTakes(step, chunks[k])
        invariant k < |chunks| && forall i :: 0 <= i < k ==> PrimerTakes(step, chunks[i])
        decreases |chunks| - k
      {
        k := k + 1;
      }
      assert PrimerStops(step, chunks, k);
    }
    forall k: nat | PrimerStops(step, chunks, k)
      ensures PrimerOutcome(step, NO_SLOTS, chunks) == Refusal(step, chunks[k])
    {
      PrimerRefuses(step, NO_SLOTS, chunks, k);
    }
  }

  /**
   What a writer produced loads to the last data of each kind: always in firmware.rs, and in primer.py if and
   only if the update information is ASCII.
   */
  lemma {:induction false} WrittenLoads(step: CrcStep, s: Slots, chunks: seq<Chunk>)
    requires AllSound(step, chunks) && AllKnown(chunks)
    ensures RustOutcome(step, s, chunks) == Loaded(KeepAll(s, chunks))
    ensures PrimerOutcome(step, s, chunks) == if InfoIsAscii(chunks) then Loaded(KeepAll(s, chunks)) else NotAscii
    decreases |chunks|
  {
    if chunks != [] {
      WrittenLoads(step, Keep(s, chunks[0].id, chunks[0].data), chunks[1..]);
      InfoOfFirst(chunks);
      hide Ascii, Crc;
    }
  }

  lemma {:induction false} InfoOfFirst(chunks: seq<Chunk>)
    requires chunks != []
    ensures InfoIsAscii(chunks) <==> InfoIsAscii(chunks[1..]) && (chunks[0].id == ID_UPDATE_INFO ==> Ascii(chunks[0].data))
  {
    hide Ascii;
    assert forall i :: 0 < i < |chunks| ==> chunks[i] == chunks[1..][i - 1];
  }

  /** Which part of what was loaded came from which chunk: the last of its kind. */
  lemma {:induction false} LoadedParts(chunks: seq<Chunk>, k: nat)
    requires AllKnown(chunks) && k < |chunks| && forall i :: k < i < |chunks| ==> chunks[i].id != chunks[k].id
    ensures var s, c := KeepAll(NO_SLOTS, chunks), chunks[k];
      (c.id == 1 ==> s.updateInfo == Some(c.data)) && (c.id == 2 ==> s.mcu == Some(c.data)) &&
      (c.id == 3 ==> s.fpga == Some(c.data)) && (c.id == 4 ==> s.bootloader == Some(c.data)) &&
      (c.id == 5 ==> s.primer == Some(c.data))
  {
    SlotIsLast(NO_SLOTS, chunks, k);
    hide KeepAll, AllKnown;
  }

  /** An accented letter in the update information, as update.py encodes it: one reader takes it, the other does not. */
  lemma {:induction false} AccentRefused(step: CrcStep)
    ensures var chunks := [NewChunk(step, ID_UPDATE_INFO, [0xC3, 0xA9])];
      AllSound(step, chunks) && AllKnown(chunks) && RustOutcome(step, NO_SLOTS, chunks).Loaded? && PrimerOutcome(step, NO_SLOTS, chunks) == NotAscii
  {
    var chunks := [NewChunk(step, ID_UPDATE_INFO, [0xC3, 0xA9])];
    WrittenLoads(step, NO_SLOTS, chunks);
    assert !Ascii(chunks[0].data);
  }

  /** Where the readers are after a chunk. */
  lemma {:induction false} NextChunk(data: seq<byte>, pos: nat, chunks: seq<Chunk>)
    requires pos <= |data| && AreChunks(data[pos..], chunks)
    ensures pos == |data| <==> chunks == []
    ensures chunks != [] ==> var n := |chunks[0].data|;
      pos + ChunkSize(n) <= |data| && Fits(chunks[0]) && AreChunks(data[pos + ChunkSize(n)..], chunks[1..]) &&
      data[pos..pos + 16] == Header(chunks[0]) && data[pos + 16..pos + 16 + n] == chunks[0].data
  {
    if chunks != [] {
      var rest, n := data[pos..], |chunks[0].data|;
      var front := rest[..ChunkSize(n)];
      assert IsChunk(front, chunks[0]);
      assert data[pos..pos + 16] == front[..16] && data[pos + 16..pos + 16 + n] == front[16..16 + n];
      assert data[pos + ChunkSize(n)..] == rest[ChunkSize(n)..];
    }
  }

  /** Cursor::read from `pos` of up to n bytes; a cursor past the end reads nothing. */
  function CursorRead(data: seq<byte>, pos: nat, n: nat): (r: seq<byte>)
    ensures |r| <= n && (pos + n <= |data| ==> r == data[pos..pos + n]) && (pos >= |data| ==> r == [])
    ensures pos <= |data| ==> |r| == Min(n, |data| - pos)
  {
    if pos >= |data| then [] else data[pos..pos + Min(n, |data| - pos)]
  }

  /**
   verify of firmware.rs, for any bytes at all. `chunks` is the content when the bytes are a container.
   The subtraction that finds the padding wraps as in a release build.
   */
  method Verify(step: CrcStep, data: seq<byte>, ghost chunks: seq<Chunk>) returns (r: ReadResult)
    ensures |data| < 16 || data[..16] != TOKEN ==> r == InvalidHeader
    ensures IsContainer(data, chunks) ==> RustJudges(step, chunks, r)
  {
    hide RustJudges;
    RustLoads(step, chunks);
    hide AreChunks, FromLittleEndian, LittleEndian, Crc, Header;
    var head := CursorRead(data, 0, 16);
    var buffer := head + Zeros(16 - |head|);
    if buffer != TOKEN {
      return InvalidHeader;
    }
    assert |head| == 16 && head == data[..16] by {
      assert buffer[15] == TOKEN[15];
    }
    var slots := NO_SLOTS;
    var pos := 16;
    ghost var written, left := IsContainer(data, chunks), chunks;
    while true
      invariant written ==> pos <= |data| && AreChunks(data[pos..], left)
      invariant written ==> RustOutcome(step, slots, left) == RustOutcome(step, NO_SLOTS, chunks)
      decreases if pos < |data| then |data| - pos else 0
    {
      if written { NextChunk(data, pos, left); }
      var bytes := CursorRead(data, pos, 16);
      if |bytes| == 16 {
        if written { HeaderFields(bytes, left[0]); }
        var id := FromLittleEndian(bytes[0..4]);
        if !KnownId(id) { return UnknownChunk; }
        var alignedLength := FromLittleEndian(bytes[4..8]);
        var checksum := FromLittleEndian(bytes[8..12]);
        var dataLength := FromLittleEndian(bytes[12..16]);
        var read := CursorRead(data, pos + 16, dataLength);
        var content := read + Zeros(dataLength - |read|);
        var align := (alignedLength as int - 4 - 4 - dataLength) % 0x1_0000_0000;
        pos := pos + 16 + |read| + align;
        assert written ==> content == left[0].data && align == ChunkSize(dataLength) - 16 - dataLength;
        if Crc(step, content) != checksum {
          return BadChecksum(id);
        }
        slots := Keep(slots, id, content);
        left := if written then left[1..] else left;
      } else if |bytes| == 0 {
        break;
      } else {
        return UnexpectedEnd;
      }
    }
    return Loaded(slots);
  }

  /**
   load of primer.py. Where a malformed container makes the file position stand still the original
   never returns, so the content has to be a container unless the token is wrong.
   */
  method Load(step: CrcStep, file: seq<byte>, ghost chunks: seq<Chunk>) returns (r: ReadResult)
    requires |file| >= 16 && file[..16] == TOKEN ==> IsContainer(file, chunks)
    ensures if |file| < 16 || file[..16] != TOKEN then r == InvalidHeader else PrimerJudges(step, chunks, r)
  {
    hide PrimerJudges;
    PrimerLoads(step, chunks);
    hide AreChunks, FromLittleEndian, LittleEndian, Crc, Header;
    if CursorRead(file, 0, 16) != TOKEN {
      return InvalidHeader;
    }
    var slots := NO_SLOTS;
    var pos := 16;
    ghost var left := chunks;
    NextChunk(file, pos, left);
    while pos != |file|
      invariant pos <= |file| && AreChunks(file[pos..], left)
      invariant pos == |file| <==> left == []
      invariant PrimerOutcome(step, slots, left) == PrimerOutcome(step, NO_SLOTS, chunks)
      decreases |file| - pos
    {
      NextChunk(file, pos, left);
      HeaderFields(file[pos..pos + 16], left[0]);
      var id := FromLittleEndian(file[pos..pos + 16][0..4]);
      var alignedLength := FromLittleEndian(file[pos..pos + 16][4..8]);
      var checksum := FromLittleEndian(file[pos..pos + 16][8..12]);
      var dataLength := FromLittleEndian(file[pos..pos + 16][12..16]);
      var content := CursorRead(file, pos + 16, dataLength);
      var align := alignedLength - 4 - 4 - dataLength;
      pos := pos + 16 + |content| + align;
      if Crc(step, content) != checksum {
        return BadChecksum(id);
      }
      if id == ID_UPDATE_INFO && !Ascii(content) {
        return NotAscii;
      }
      if !KnownId(id) {
        return UnknownChunk;
      }
      slots := Keep(slots, id, content);
      left := left[1..];
      NextChunk(file, pos, left);
    }
    return Loaded(slots);
  }
}
