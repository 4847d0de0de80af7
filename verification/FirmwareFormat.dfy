/**
 The firmware container: a 16-byte token and a list of chunks, each a 16-byte header, the data and
 padding to a multiple of 16. Shared by sw/tools/update.py, sw/tools/primer.py,
 sw/deployer/src/sc64/firmware.rs and sw/controller/src/update.c.

 CRC-32 is a fold of a byte step; nothing here depends on which step it is.
 */
module FirmwareFormat {
  import opened Bytes

  type CrcStep = (word, byte) -> word

  const TOKEN: seq<byte> := [0x53, 0x43, 0x36, 0x34, 0x20, 0x55, 0x70, 0x64, 0x61, 0x74, 0x65, 0x20, 0x76, 0x32, 0x2E, 0x30]

  const ID_UPDATE_INFO: word := 1
  const ID_MCU_DATA: word := 2
  const ID_FPGA_DATA: word := 3
  const ID_BOOTLOADER_DATA: word := 4
  const ID_PRIMER_DATA: word := 5

  // ---------- checksum ----------

  function Invert(c: word): word { 0xFFFF_FFFF - c }

  function CrcFold(step: CrcStep, start: word, data: seq<byte>): word {
    if data == [] then start else step(CrcFold(step, start, data[..|data| - 1]), data[|data| - 1])
  }

  function Crc(step: CrcStep, data: seq<byte>): word {
    Invert(CrcFold(step, 0xFFFF_FFFF, data))
  }

  /** As with any CRC-32, the checksum of nothing is 0, and that of one byte the inverted step from all ones. */
  lemma {:induction false} ShortChecksums(step: CrcStep, b: byte)
    ensures Crc(step, []) == 0 && Crc(step, [b]) == 0xFFFF_FFFF - step(0xFFFF_FFFF, b)
  {
    assert [b][..0] == [];
  }

  /** Folding block by block is folding the whole. */
  lemma {:induction false} CrcFoldSplit(step: CrcStep, start: word, a: seq<byte>, b: seq<byte>)
    ensures CrcFold(step, start, a + b) == CrcFold(step, CrcFold(step, start, a), b)
  {
    if b == [] {
      assert a + b == a;
    } else {
      CrcFoldSplit(step, start, a, b[..|b| - 1]);
      assert (a + b)[..|a + b| - 1] == a + b[..|b| - 1];
    }
  }

  // ---------- framing ----------

  function Align(value: nat): (r: nat)
    ensures r % 16 == 0 && value <= r < value + 16
  {
    if value % 16 != 0 then value + (16 - value % 16) else value
  }

  /** Bytes a chunk with n bytes of data takes. */
  function ChunkSize(n: nat): (r: nat)
    ensures r % 16 == 0 && 16 + n <= r < 32 + n
  {
    Align(16 + n)
  }

  /** A chunk as it sits in a container, with whatever checksum is stored for it. */
  datatype Chunk = Chunk(id: word, checksum: word, data: seq<byte>)

  predicate Fits(c: Chunk) {
    ChunkSize(|c.data|) - 8 < 0x1_0000_0000
  }

  predicate Sound(step: CrcStep, c: Chunk) {
    c.checksum == Crc(step, c.data)
  }

  function Header(c: Chunk): (h: seq<byte>)
    requires Fits(c)
    ensures |h| == 16
  {
    LittleEndian(c.id) + LittleEndian(ChunkSize(|c.data|) - 8) + LittleEndian(c.checksum) + LittleEndian(|c.data|)
  }

  /** `bytes` is exactly this chunk; the padding may hold anything. */
  ghost predicate IsChunk(bytes: seq<byte>, c: Chunk) {
    Fits(c) && |bytes| == ChunkSize(|c.data|) && bytes[..16] == Header(c) && bytes[16..16 + |c.data|] == c.data
  }

  ghost predicate AreChunks(bytes: seq<byte>, chunks: seq<Chunk>) {
    if chunks == [] then bytes == [] else
      var n := ChunkSize(|chunks[0].data|);
      n <= |bytes| && IsChunk(bytes[..n], chunks[0]) && AreChunks(bytes[n..], chunks[1..])
  }

  ghost predicate IsContainer(bytes: seq<byte>, chunks: seq<Chunk>) {
    |bytes| >= 16 && bytes[..16] == TOKEN && AreChunks(bytes[16..], chunks)
  }

  lemma {:induction false} AreChunksAppend(bytes: seq<byte>, chunks: seq<Chunk>, more: seq<byte>, c: Chunk)
    requires AreChunks(bytes, chunks) && IsChunk(more, c)
    ensures AreChunks(bytes + more, chunks + [c])
  {
    hide IsChunk;
    if chunks == [] {
      assert bytes + more == more && chunks + [c] == [c];
      IsChunkSize(more, c);
      assert more[..|more|] == more && more[|more|..] == [] && [c][1..] == [];
    } else {
      var n := ChunkSize(|chunks[0].data|);
      AreChunksAppend(bytes[n..], chunks[1..], more, c);
      assert (bytes + more)[..n] == bytes[..n] && (bytes + more)[n..] == bytes[n..] + more;
      assert (chunks + [c])[1..] == chunks[1..] + [c];
    }
  }

  lemma {:induction false} IsChunkSize(bytes: seq<byte>, c: Chunk)
    requires IsChunk(bytes, c)
    ensures |bytes| == ChunkSize(|c.data|)
  {
  }

  /** The header fields a reader finds. */
  lemma {:induction false} HeaderFields(bytes: seq<byte>, c: Chunk)
    requires |bytes| >= 16 && Fits(c) && bytes[..16] == Header(c)
    ensures FromLittleEndian(bytes[0..4]) == c.id
    ensures FromLittleEndian(bytes[4..8]) == ChunkSize(|c.data|) - 8
    ensures FromLittleEndian(bytes[8..12]) == c.checksum
    ensures FromLittleEndian(bytes[12..16]) == |c.data|
  {
    hide LittleEndian, FromLittleEndian;
    LittleEndianRoundTrip(c.id);
    LittleEndianRoundTrip(ChunkSize(|c.data|) - 8);
    LittleEndianRoundTrip(c.checksum);
    LittleEndianRoundTrip(|c.data|);
    var h := Header(c);
    assert bytes[0..4] == bytes[..16][0..4] == h[0..4] == LittleEndian(c.id);
    assert bytes[4..8] == bytes[..16][4..8] == h[4..8] == LittleEndian(ChunkSize(|c.data|) - 8);
    assert bytes[8..12] == bytes[..16][8..12] == h[8..12] == LittleEndian(c.checksum);
    assert bytes[12..16] == bytes[..16][12..16] == h[12..16] == LittleEndian(|c.data|);
  }

  // ---------- what a reader keeps ----------

  /** The last chunk of each kind wins. */
  datatype Slots = Slots(updateInfo: Option<seq<byte>>, mcu: Option<seq<byte>>, fpga: Option<seq<byte>>,
                         bootloader: Option<seq<byte>>, primer: Option<seq<byte>>)

  const NO_SLOTS := Slots(None, None, None, None, None)

  predicate KnownId(id: word) {
    1 <= id <= 5
  }

  function Keep(s: Slots, id: word, data: seq<byte>): Slots
    requires KnownId(id)
  {
    if id == ID_UPDATE_INFO then s.(updateInfo := Some(data))
    else if id == ID_MCU_DATA then s.(mcu := Some(data))
    else if id == ID_FPGA_DATA then s.(fpga := Some(data))
    else if id == ID_BOOTLOADER_DATA then s.(bootloader := Some(data))
    else s.(primer := Some(data))
  }

  predicate AllKnown(chunks: seq<Chunk>) {
    forall i :: 0 <= i < |chunks| ==> KnownId(chunks[i].id)
  }

  ghost predicate AllSound(step: CrcStep, chunks: seq<Chunk>) {
    forall i :: 0 <= i < |chunks| ==> Sound(step, chunks[i])
  }

  function KeepAll(s: Slots, chunks: seq<Chunk>): Slots
    requires AllKnown(chunks)
    decreases |chunks|
  {
    if chunks == [] then s else KeepAll(Keep(s, chunks[0].id, chunks[0].data), chunks[1..])
  }

  function Slot(s: Slots, id: word): Option<seq<byte>>
    requires KnownId(id)
  {
    if id == ID_UPDATE_INFO then s.updateInfo else if id == ID_MCU_DATA then s.mcu
    else if id == ID_FPGA_DATA then s.fpga else if id == ID_BOOTLOADER_DATA then s.bootloader else s.primer
  }

  lemma {:induction false} SlotUntouched(s: Slots, chunks: seq<Chunk>, id: word)
    requires AllKnown(chunks) && KnownId(id) && forall i :: 0 <= i < |chunks| ==> chunks[i].id != id
    ensures Slot(KeepAll(s, chunks), id) == Slot(s, id)
    decreases |chunks|
  {
    if chunks != [] {
      KeepOne(s, chunks[0].id, chunks[0].data, id);
      SlotUntouched(Keep(s, chunks[0].id, chunks[0].data), chunks[1..], id);
    }
  }

  /** A slot holds the data of the last chunk with its id. */
  lemma {:induction false} SlotIsLast(s: Slots, chunks: seq<Chunk>, k: nat)
    requires AllKnown(chunks) && k < |chunks|
    requires forall i :: k < i < |chunks| ==> chunks[i].id != chunks[k].id
    ensures Slot(KeepAll(s, chunks), chunks[k].id) == Some(chunks[k].data)
    decreases k
  {
    var s', rest := Keep(s, chunks[0].id, chunks[0].data), chunks[1..];
    if k == 0 {
      KeepOne(s, chunks[0].id, chunks[0].data, chunks[0].id);
      SlotUntouched(s', rest, chunks[0].id);
    } else {
      assert rest[k - 1] == chunks[k];
      SlotIsLast(s', rest, k - 1);
    }
  }

  lemma {:induction false} KeepOne(s: Slots, id: word, data: seq<byte>, other: word)
    requires KnownId(id) && KnownId(other)
    ensures Slot(Keep(s, id, data), other) == if other == id then Some(data) else Slot(s, other)
  {
  }
}
