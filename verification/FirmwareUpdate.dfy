/**
 The firmware update of the controller, sw/controller/src/update.c: update_backup writes a container
 into device memory, update_prepare checks one and remembers where its data is, update_perform reads
 the lengths again before it flashes.
 */
module FirmwareUpdate {
  import opened Bytes
  import opened FirmwareFormat

  const SDRAM_LENGTH := 0x400_0000
  const FLASH_USABLE_LENGTH := 0xE0_0000
  const UPDATE_ADDRESS_END := SDRAM_LENGTH + FLASH_USABLE_LENGTH
  const BOOTLOADER_ADDRESS := 0x4E0_0000
  const BOOTLOADER_LENGTH := 0x1E_0000
  const MEMORY_LENGTH := 0x800_0000

  datatype UpdateError =
    UPDATE_OK | UPDATE_ERROR_TOKEN | UPDATE_ERROR_CHECKSUM | UPDATE_ERROR_SIZE | UPDATE_ERROR_UNKNOWN_CHUNK
    | UPDATE_ERROR_READ | UPDATE_ERROR_ADDRESS

  /** The loader parameters: one flag and one data address for each kind of chunk that is flashed. */
  datatype Parameters = Parameters(mcu: bool, fpga: bool, bootloader: bool,
                                   mcuAddress: nat, fpgaAddress: nat, bootloaderAddress: nat)

  type Memory = m: seq<byte> | |m| == MEMORY_LENGTH witness Zeros(MEMORY_LENGTH)

  /** Nothing changed outside lo..hi. */
  predicate SameOutside(before: seq<byte>, after: seq<byte>, lo: nat, hi: nat) {
    lo <= hi <= |before| && |after| == |before| && after[..lo] == before[..lo] && after[hi..] == before[hi..]
  }

  function Overwrite(m: seq<byte>, at: nat, bytes: seq<byte>): (r: seq<byte>)
    requires at + |bytes| <= |m|
    ensures |r| == |m|
  {
    Blit(m, at, bytes, 0, |bytes|)
  }

  ghost predicate ChunkAt(m: seq<byte>, at: nat, c: Chunk) {
    at + ChunkSize(|c.data|) <= |m| && IsChunk(m[at..at + ChunkSize(|c.data|)], c)
  }

  /** The data of a chunk, with its length in front of it where update_perform looks for it. */
  ghost predicate DataAt(m: seq<byte>, at: nat, d: seq<byte>) {
    4 <= at && at + |d| <= |m| && FromLittleEndian(m[at - 4..at]) == |d| && m[at..at + |d|] == d
  }

  ghost predicate SlotAt(m: seq<byte>, flag: bool, at: nat, d: Option<seq<byte>>) {
    flag == d.Some? && (flag ==> DataAt(m, at, d.value))
  }

  /** The parameters point at the data of the last chunk of each kind. */
  ghost predicate Describes(m: seq<byte>, p: Parameters, s: Slots) {
    SlotAt(m, p.mcu, p.mcuAddress, s.mcu) && SlotAt(m, p.fpga, p.fpgaAddress, s.fpga) &&
    SlotAt(m, p.bootloader, p.bootloaderAddress, s.bootloader)
  }

  class Updater {
    const step: CrcStep
    /** The contents of the two flash chips that a backup reads out. */
    const mcuFlash: seq<byte>
    const fpgaFlash: seq<byte>
    var mem: Memory
    var parameters: Parameters

    ghost predicate Valid() {
      |mcuFlash| % 8 == 0 && |mcuFlash| + |fpgaFlash| < 0x80_0000
    }

    /** The word the hardware unit holds after a block, started from `register`. */
    method CrcCalculate(register: word, data: seq<byte>) returns (r: word)
      ensures r == CrcFold(step, register, data)
    {
      r := register;
      for i := 0 to |data|
        invariant r == CrcFold(step, register, data[..i])
      {
        assert data[..i + 1][..i] == data[..i];
        r := step(r, data[i]);
      }
      assert data[..|data|] == data;
    }

    /** update_checksum: blocks of at most 128 bytes. */
    method UpdateChecksum(start: nat, size: nat) returns (checksum: word)
      requires start + size <= |mem|
      ensures checksum == Crc(step, mem[start..start + size])
    {
      hide CrcFold;
      var address, length := start, size;
      checksum := 0;
      var register: word := 0xFFFF_FFFF;
      CrcNothing(step);
      assert mem[start..start] == [];
      while length > 0
        invariant address + length == start + size && start <= address
        invariant register == CrcFold(step, 0xFFFF_FFFF, mem[start..address])
        invariant checksum == Invert(register)
      {
        var blockSize := if length > 128 then 128 else length;
        FoldBlock(step, mem, start, address, blockSize);
        register := CrcCalculate(register, mem[address..address + blockSize]);
        checksum := Invert(register);
        address := address + blockSize;
        length := length - blockSize;
      }
    }

    /** update_prepare_chunk */
    method PrepareChunk(address: nat, id: word) returns (next: nat)
      requires address + 16 <= |mem|
      modifies this`mem
      ensures next == address + 16
      ensures SameOutside(old(mem), mem, address, address + 4) && mem[address..address + 4] == LittleEndian(id)
    {
      hide LittleEndian;
      mem := Overwrite(mem, address, LittleEndian(id));
      next := address + 16;
    }

    /** update_finalize_chunk: fills in the header in front of `address`. */
    method FinalizeChunk(address: nat, length: nat, ghost id: word) returns (next: nat)
      requires 16 <= address && address - 16 + ChunkSize(length) <= |mem|
      requires mem[address - 16..address - 12] == LittleEndian(id)
      modifies this`mem
      ensures next == address - 16 + ChunkSize(length)
      ensures SameOutside(old(mem), mem, address - 12, address)
      ensures var d := old(mem)[address..address + length]; ChunkAt(mem, address - 16, Chunk(id, Crc(step, d), d))
    {
      hide LittleEndian, Crc, Overwrite;
      var chunkLength := 16 + length;
      var alignedChunkLength := Align(chunkLength);
      var alignedLength := alignedChunkLength - 8;
      var checksum := UpdateChecksum(address, length);
      ghost var before, words := mem, LittleEndian(alignedLength) + LittleEndian(checksum) + LittleEndian(length);
      ThreeWords(mem, address - 12, LittleEndian(alignedLength), LittleEndian(checksum), LittleEndian(length));
      mem := Overwrite(mem, address - 12, LittleEndian(alignedLength));
      mem := Overwrite(mem, address - 8, LittleEndian(checksum));
      mem := Overwrite(mem, address - 4, LittleEndian(length));
      next := address + length + (alignedChunkLength - chunkLength);
      HeaderWritten(before, mem, address, length, id, checksum);
    }

    /** Reads the MCU flash into memory, eight bytes at a time. */
    method CopyMcuFlash(address: nat)
      requires Valid() && address + |mcuFlash| <= |mem|
      modifies this`mem
      ensures mem == Overwrite(old(mem), address, mcuFlash)
    {
      var offset := 0;
      while offset < |mcuFlash|
        invariant 0 <= offset <= |mcuFlash| && offset % 8 == 0
        invariant mem == Overwrite(old(mem), address, mcuFlash[..offset])
      {
        var buffer := mcuFlash[offset..offset + 8];
        OverwriteNext(old(mem), address, mcuFlash[..offset], buffer);
        assert mcuFlash[..offset] + buffer == mcuFlash[..offset + 8];
        mem := Overwrite(mem, address + offset, buffer);
        offset := offset + 8;
      }
      assert mcuFlash[..offset] == mcuFlash;
    }

    /** vendor_backup: the FPGA flash as a whole, or an error before anything is written. */
    method VendorBackup(address: nat) returns (ok: bool, length: nat)
      requires address + |fpgaFlash| <= |mem|
      modifies this`mem
      ensures ok ==> mem == Overwrite(old(mem), address, fpgaFlash) && length == |fpgaFlash|
      ensures !ok ==> mem == old(mem)
    {
      ok := *;
      length := 0;
      if ok {
        mem := Overwrite(mem, address, fpgaFlash);
        length := |fpgaFlash|;
      }
    }

    /** Copies the bootloader inside device memory, 1024 bytes at a time. */
    method CopyBootloader(address: nat)
      requires address + BOOTLOADER_LENGTH <= BOOTLOADER_ADDRESS
      modifies this`mem
      ensures mem == Overwrite(old(mem), address, Bootloader(old(mem)))
    {
      hide Overwrite;
      ghost var source := Bootloader(mem);
      var offset := 0;
      assert source[..0] == [];
      OverwriteNothing(mem, address);
      while offset < BOOTLOADER_LENGTH
        invariant 0 <= offset <= BOOTLOADER_LENGTH && offset % 1024 == 0
        invariant mem == Overwrite(old(mem), address, source[..offset])
      {
        BootloaderUntouched(old(mem), address, source[..offset], offset);
        var buffer := mem[BOOTLOADER_ADDRESS + offset..BOOTLOADER_ADDRESS + offset + 1024];
        OverwriteNext(old(mem), address, source[..offset], buffer);
        assert source[..offset] + buffer == source[..offset + 1024];
        mem := Overwrite(mem, address + offset, buffer);
        offset := offset + 1024;
      }
      assert source[..offset] == source;
    }

    method BackupMcu(address: nat) returns (next: nat)
      requires Valid() && address + ChunkSize(|mcuFlash|) <= |mem|
      modifies this`mem
      ensures next == address + ChunkSize(|mcuFlash|) && SameOutside(old(mem), mem, address, next)
      ensures ChunkAt(mem, address, SoundChunk(step, ID_MCU_DATA, mcuFlash))
    {
      hide Overwrite, LittleEndian, Crc;
      var data := PrepareChunk(address, ID_MCU_DATA);
      label prepared:
      CopyMcuFlash(data);
      DataWritten(old(mem), old@prepared(mem), mem, address, mcuFlash);
      label copied:
      next := FinalizeChunk(data, |mcuFlash|, ID_MCU_DATA);
      SameOutsideJoin(old(mem), old@copied(mem), mem, address, data - 12, data, next);
    }

    method BackupFpga(address: nat) returns (ok: bool, next: nat)
      requires address + ChunkSize(|fpgaFlash|) <= |mem|
      modifies this`mem
      ensures next == address + ChunkSize(|fpgaFlash|) && SameOutside(old(mem), mem, address, next)
      ensures ok ==> ChunkAt(mem, address, SoundChunk(step, ID_FPGA_DATA, fpgaFlash))
    {
      hide Overwrite, LittleEndian, Crc;
      var length;
      var data := PrepareChunk(address, ID_FPGA_DATA);
      label prepared:
      ok, length := VendorBackup(data);
      next := address + ChunkSize(|fpgaFlash|);
      if !ok {
        SameOutsideJoin(old(mem), old(mem), mem, address, address, address + 4, next);
      }
      if ok {
        DataWritten(old(mem), old@prepared(mem), mem, address, fpgaFlash);
        label copied:
        next := FinalizeChunk(data, length, ID_FPGA_DATA);
        SameOutsideJoin(old(mem), old@copied(mem), mem, address, data - 12, data, next);
      }
    }

    method BackupBootloader(address: nat) returns (next: nat)
      requires address + ChunkSize(BOOTLOADER_LENGTH) <= BOOTLOADER_ADDRESS
      modifies this`mem
      ensures next == address + ChunkSize(BOOTLOADER_LENGTH) && SameOutside(old(mem), mem, address, next)
      ensures ChunkAt(mem, address, SoundChunk(step, ID_BOOTLOADER_DATA, Bootloader(old(mem))))
    {
      hide Overwrite, LittleEndian, Crc;
      var data := PrepareChunk(address, ID_BOOTLOADER_DATA);
      label prepared:
      assert Bootloader(mem) == Bootloader(old(mem));
      CopyBootloader(data);
      DataWritten(old(mem), old@prepared(mem), mem, address, Bootloader(old(mem)));
      label copied:
      next := FinalizeChunk(data, BOOTLOADER_LENGTH, ID_BOOTLOADER_DATA);
      SameOutsideJoin(old(mem), old@copied(mem), mem, address, data - 12, data, next);
    }

    /**
     update_backup. The result is a container with the three flash contents; it is reported as fitting
     only when the address plus twice the length is still inside SDRAM, because the length is added to an
     address that has already moved past the container.
     */
    method Backup(start: word) returns (r: UpdateError, length: nat)
      requires Valid()
      modifies this`mem
      ensures start >= SDRAM_LENGTH ==> r == UPDATE_ERROR_ADDRESS && mem == old(mem)
      ensures r in {UPDATE_OK, UPDATE_ERROR_READ, UPDATE_ERROR_ADDRESS}
      ensures start < SDRAM_LENGTH && r != UPDATE_ERROR_READ ==>
        length == BackupLength() && start + length <= |mem| && SameOutside(old(mem), mem, start, start + length) &&
        IsContainer(mem[start..start + length], BackupChunks(old(mem))) &&
        (r == UPDATE_OK <==> start + 2 * length <= SDRAM_LENGTH)
    {
      hide IsContainer, AreChunks, ChunkAt, Overwrite, LittleEndian, Crc, Written;
      length := 0;
      if start >= SDRAM_LENGTH { return UPDATE_ERROR_ADDRESS, 0; }
      ghost var c1, c2 := SoundChunk(step, ID_MCU_DATA, mcuFlash), SoundChunk(step, ID_FPGA_DATA, fpgaFlash);
      ghost var c3 := SoundChunk(step, ID_BOOTLOADER_DATA, Bootloader(mem));
      var address: nat := start;
      mem := Overwrite(mem, address, TOKEN);
      address := address + |TOKEN|;
      length := |TOKEN|;
      TokenWritten(old(mem), mem, start);
      label token:
      var next := BackupMcu(address);
      ExtendWritten(old(mem), old@token(mem), mem, start, address, [], c1);
      length := length + (next - address);
      address := next;
      label mcu:
      var ok;
      ok, next := BackupFpga(address);
      if !ok { return UPDATE_ERROR_READ, length; }
      ExtendWritten(old(mem), old@mcu(mem), mem, start, address, [] + [c1], c2);
      length := length + (next - address);
      address := next;
      label fpga:
      SameBootloader(old(mem), mem, start, address, [] + [c1] + [c2]);
      next := BackupBootloader(address);
      ExtendWritten(old(mem), old@fpga(mem), mem, start, address, [] + [c1] + [c2], c3);
      length := length + (next - address);
      address := next;
      assert [] + [c1] + [c2] + [c3] == BackupChunks(old(mem));
      WrittenMeans(old(mem), mem, start, address, BackupChunks(old(mem)));
      if address + length > SDRAM_LENGTH { return UPDATE_ERROR_ADDRESS, length; }
      return UPDATE_OK, length;
    }

    /** update_check_token */
    method CheckToken(address: nat) returns (bad: bool)
      requires address + 16 <= |mem|
      ensures bad <==> mem[address..address + 16] != TOKEN
    {
      var buffer := mem[address..address + 16];
      for i := 0 to 16
        invariant forall j :: 0 <= j < i ==> buffer[j] == TOKEN[j]
      {
        if buffer[i] != TOKEN[i] { return true; }
      }
      return false;
    }

    /** update_get_chunk, on 32-bit addresses. */
    method GetChunk(start: nat, ghost c: Chunk) returns (bad: bool, next: nat, id: word, dataAddress: nat, dataLength: word)
      requires ChunkAt(mem, start, c)
      ensures bad <==> !Sound(step, c)
      ensures id == c.id && next == start + ChunkSize(|c.data|)
      ensures dataAddress == start + 16 && dataLength == |c.data| && DataAt(mem, dataAddress, c.data)
    {
      hide LittleEndian, FromLittleEndian, Crc, Header;
      ChunkParts(mem, start, c);
      var address := start;
      id := FromLittleEndian(mem[address..address + 4]);
      address := address + 4;
      var chunkLength := FromLittleEndian(mem[address..address + 4]);
      address := address + 4;
      var checksum := FromLittleEndian(mem[address..address + 4]);
      address := address + 4;
      dataLength := FromLittleEndian(mem[address..address + 4]);
      address := address + 4;
      dataAddress := address;
      next := (address + (chunkLength - 8) % 0x1_0000_0000) % 0x1_0000_0000;
      var calculated := UpdateChecksum(dataAddress, dataLength);
      bad := checksum != calculated;
    }

    /**
     update_prepare. `chunks` is what lies behind the token; a chunk length that leads nowhere would
     keep the original in its loop, so the content has to be a container unless the token is wrong.
     */
    method Prepare(start: word, length: word, ghost chunks: seq<Chunk>) returns (r: UpdateError)
      requires InRange(start, length) && mem[start..start + 16] == TOKEN ==>
        if length <= 16 then chunks == [] else IsContainer(mem[start..start + length], chunks)
      modifies this`parameters
      ensures !InRange(start, length) ==> r == UPDATE_ERROR_ADDRESS
      ensures InRange(start, length) && mem[start..start + 16] != TOKEN ==> r == UPDATE_ERROR_TOKEN
      ensures InRange(start, length) && mem[start..start + 16] == TOKEN ==>
        r == PrepareOutcome(step, |mcuFlash|, |fpgaFlash|, chunks)
      ensures InRange(start, length) && mem[start..start + 16] == TOKEN ==>
        (r == UPDATE_OK <==> AllAcceptable(step, |mcuFlash|, |fpgaFlash|, chunks))
      ensures r == UPDATE_OK ==> AllKnown(chunks) && Describes(mem, parameters, KeepAll(NO_SLOTS, chunks))
    {
      hide IsContainer, AreChunks, ChunkAt, Describes, Sound, Keep, AllAcceptable;
      AcceptedExactly(step, |mcuFlash|, |fpgaFlash|, chunks);
      var endAddress := (start + length) % 0x1_0000_0000;
      if start >= UPDATE_ADDRESS_END || length > SDRAM_LENGTH + FLASH_USABLE_LENGTH { return UPDATE_ERROR_ADDRESS; }
      if endAddress > UPDATE_ADDRESS_END { return UPDATE_ERROR_ADDRESS; }
      var bad := CheckToken(start);
      if bad { return UPDATE_ERROR_TOKEN; }
      var address: nat := start + 16;
      parameters := Parameters(false, false, false, 0, 0, 0);
      ghost var left, kept := chunks, NO_SLOTS;
      PrepareStart(mem, start, endAddress, chunks, parameters);
      while address < endAddress
        invariant left != [] ==> address < endAddress <= |mem| && AreChunks(mem[address..endAddress], left)
        invariant left == [] ==> address >= endAddress
        invariant PrepareOutcome(step, |mcuFlash|, |fpgaFlash|, left) == PrepareOutcome(step, |mcuFlash|, |fpgaFlash|, chunks)
        invariant AllKnown(left) ==> AllKnown(chunks) && KeepAll(kept, left) == KeepAll(NO_SLOTS, chunks)
        invariant Describes(mem, parameters, kept)
        decreases |left|
      {
        ghost var c := left[0];
        FirstChunk(mem, address, endAddress, left);
        var id, dataAddress, dataLength;
        bad, address, id, dataAddress, dataLength := GetChunk(address, c);
        if bad { return UPDATE_ERROR_CHECKSUM; }
        var ok := Select(id, dataAddress, dataLength, c, kept);
        if ok != UPDATE_OK { return ok; }
        KnownStep(kept, left);
        kept := Keep(kept, id, c.data);
        left := left[1..];
      }
      return UPDATE_OK;
    }

    /** The switch over the chunk id. */
    method Select(id: word, dataAddress: nat, dataLength: word, ghost c: Chunk, ghost kept: Slots) returns (r: UpdateError)
      requires id == c.id && dataLength == |c.data| && DataAt(mem, dataAddress, c.data) && Describes(mem, parameters, kept)
      modifies this`parameters
      ensures r == SelectOutcome(|mcuFlash|, |fpgaFlash|, c)
      ensures r == UPDATE_OK ==> KnownId(id) && Describes(mem, parameters, Keep(kept, id, c.data))
    {
      hide DataAt;
      match id
      case 1 => return UPDATE_OK;
      case 2 =>
        if dataLength > |mcuFlash| { return UPDATE_ERROR_SIZE; }
        parameters := parameters.(mcu := true, mcuAddress := dataAddress);
        return UPDATE_OK;
      case 3 =>
        if dataLength > |fpgaFlash| { return UPDATE_ERROR_SIZE; }
        parameters := parameters.(fpga := true, fpgaAddress := dataAddress);
        return UPDATE_OK;
      case 4 =>
        if dataLength > BOOTLOADER_LENGTH { return UPDATE_ERROR_SIZE; }
        parameters := parameters.(bootloader := true, bootloaderAddress := dataAddress);
        return UPDATE_OK;
      case 5 => return UPDATE_OK;
      case _ => return UPDATE_ERROR_UNKNOWN_CHUNK;
    }

    /** How update_perform finds a length again: the word in front of the data. */
    method ReadLength(dataAddress: nat, ghost d: seq<byte>) returns (length: word)
      requires DataAt(mem, dataAddress, d)
      ensures length == |d| && mem[dataAddress..dataAddress + length] == d
    {
      length := FromLittleEndian(mem[dataAddress - 4..dataAddress]);
    }

    /** There is always a place where the backup fits and is refused, because its length counts twice. */
    lemma {:induction false} FittingRefused() returns (start: word)
      requires Valid()
      ensures start < SDRAM_LENGTH && start + BackupLength() <= SDRAM_LENGTH < start + 2 * BackupLength()
    {
      start := SDRAM_LENGTH - BackupLength();
    }

    /** A backup that was reported as fitting is accepted, with all three parts and their lengths. */
    method BackupIsAccepted(start: word) returns (r: UpdateError)
      requires Valid()
      modifies this
      ensures r == UPDATE_OK ==> parameters.mcu && parameters.fpga && parameters.bootloader
      ensures r == UPDATE_OK ==> DataAt(mem, parameters.mcuAddress, mcuFlash) && DataAt(mem, parameters.fpgaAddress, fpgaFlash)
      ensures r == UPDATE_OK ==> DataAt(mem, parameters.bootloaderAddress, Bootloader(old(mem)))
      ensures r in {UPDATE_OK, UPDATE_ERROR_READ, UPDATE_ERROR_ADDRESS}
      ensures r == UPDATE_ERROR_ADDRESS ==> start + 2 * BackupLength() > SDRAM_LENGTH
    {
      hide IsContainer, AreChunks, DataAt, Crc;
      ghost var chunks := BackupChunks(mem);
      var length;
      r, length := Backup(start);
      if r != UPDATE_OK { return; }
      assert mem[start..start + 16] == TOKEN by {
        ContainerToken(mem[start..start + length], chunks);
        SliceOfSlice(mem, start, length, 0, 16);
      }
      r := Prepare(start, length, chunks);
      BackupOutcome(step, mcuFlash, fpgaFlash, Bootloader(old(mem)));
    }

    ghost function BackupChunks(m: Memory): (c: seq<Chunk>)
      ensures |c| == 3
    {
      [SoundChunk(step, ID_MCU_DATA, mcuFlash), SoundChunk(step, ID_FPGA_DATA, fpgaFlash), SoundChunk(step, ID_BOOTLOADER_DATA, Bootloader(m))]
    }

    function BackupLength(): nat {
      16 + ChunkSize(|mcuFlash|) + ChunkSize(|fpgaFlash|) + ChunkSize(BOOTLOADER_LENGTH)
    }
  }

  predicate InRange(start: word, length: word) {
    start < UPDATE_ADDRESS_END && length <= SDRAM_LENGTH + FLASH_USABLE_LENGTH && start + length <= UPDATE_ADDRESS_END
  }

  function SelectOutcome(mcuSize: nat, fpgaSize: nat, c: Chunk): UpdateError {
    if !KnownId(c.id) then UPDATE_ERROR_UNKNOWN_CHUNK
    else if (c.id == ID_MCU_DATA && |c.data| > mcuSize) || (c.id == ID_FPGA_DATA && |c.data| > fpgaSize)
         || (c.id == ID_BOOTLOADER_DATA && |c.data| > BOOTLOADER_LENGTH) then UPDATE_ERROR_SIZE
    else UPDATE_OK
  }

  /** The verdict on a container: that of its first chunk that is not in order. */
  function PrepareOutcome(step: CrcStep, mcuSize: nat, fpgaSize: nat, chunks: seq<Chunk>): UpdateError
    decreases |chunks|
  {
    if chunks == [] then UPDATE_OK
    else if !Sound(step, chunks[0]) then UPDATE_ERROR_CHECKSUM
    else if SelectOutcome(mcuSize, fpgaSize, chunks[0]) != UPDATE_OK then SelectOutcome(mcuSize, fpgaSize, chunks[0])
    else PrepareOutcome(step, mcuSize, fpgaSize, chunks[1..])
  }

  /** A chunk that update_prepare takes: of a known kind, with the right checksum, and not longer than what it replaces. */
  ghost predicate Acceptable(step: CrcStep, mcuSize: nat, fpgaSize: nat, c: Chunk) {
    c.checksum == Crc(step, c.data) && c.id in {1, 2, 3, 4, 5} && (c.id == 2 ==> |c.data| <= mcuSize) &&
    (c.id == 3 ==> |c.data| <= fpgaSize) && (c.id == 4 ==> |c.data| <= 1920 * 1024)
  }

  ghost predicate AllAcceptable(step: CrcStep, mcuSize: nat, fpgaSize: nat, chunks: seq<Chunk>) {
    forall i :: 0 <= i < |chunks| ==> Acceptable(step, mcuSize, fpgaSize, chunks[i])
  }

  /** A container is accepted if and only if all its chunks are sound, of a known kind and within their sizes. */
  lemma {:induction false} AcceptedExactly(step: CrcStep, mcuSize: nat, fpgaSize: nat, chunks: seq<Chunk>)
    ensures PrepareOutcome(step, mcuSize, fpgaSize, chunks) == UPDATE_OK <==> AllAcceptable(step, mcuSize, fpgaSize, chunks)
    decreases |chunks|
  {
    hide Crc;
    if chunks != [] {
      var rest := chunks[1..];
      AcceptedExactly(step, mcuSize, fpgaSize, rest);
      assert forall i :: 0 < i < |chunks| ==> chunks[i] == rest[i - 1];
      assert AllAcceptable(step, mcuSize, fpgaSize, chunks) <==>
        Acceptable(step, mcuSize, fpgaSize, chunks[0]) && AllAcceptable(step, mcuSize, fpgaSize, rest);
    }
  }

  /** Otherwise the first chunk that is not acceptable decides: a wrong checksum, then an unknown kind, then its length. */
  lemma {:induction false} RefusedFor(step: CrcStep, mcuSize: nat, fpgaSize: nat, chunks: seq<Chunk>, k: nat)
    requires k < |chunks| && !Acceptable(step, mcuSize, fpgaSize, chunks[k])
    requires forall i :: 0 <= i < k ==> Acceptable(step, mcuSize, fpgaSize, chunks[i])
    ensures PrepareOutcome(step, mcuSize, fpgaSize, chunks) ==
      if chunks[k].checksum != Crc(step, chunks[k].data) then UPDATE_ERROR_CHECKSUM
      else if 1 <= chunks[k].id <= 5 then UPDATE_ERROR_SIZE else UPDATE_ERROR_UNKNOWN_CHUNK
    decreases k
  {
    hide Crc;
    if k > 0 {
      assert Acceptable(step, mcuSize, fpgaSize, chunks[0]);
      RefusedFor(step, mcuSize, fpgaSize, chunks[1..], k - 1);
    }
  }

  lemma {:induction false} ChunkParts(m: seq<byte>, at: nat, c: Chunk)
    requires ChunkAt(m, at, c)
    ensures at + ChunkSize(|c.data|) <= |m| && Fits(c)
    ensures FromLittleEndian(m[at..at + 4]) == c.id && FromLittleEndian(m[at + 4..at + 8]) == ChunkSize(|c.data|) - 8
    ensures FromLittleEndian(m[at + 8..at + 12]) == c.checksum && FromLittleEndian(m[at + 12..at + 16]) == |c.data|
    ensures m[at + 16..at + 16 + |c.data|] == c.data
  {
    hide LittleEndian, FromLittleEndian, Header;
    var n := ChunkSize(|c.data|);
    var bytes := m[at..at + n];
    HeaderFields(bytes, c);
    SliceOfSlice(m, at, n, 0, 4);
    SliceOfSlice(m, at, n, 4, 8);
    SliceOfSlice(m, at, n, 8, 12);
    SliceOfSlice(m, at, n, 12, 16);
    SliceOfSlice(m, at, n, 16, 16 + |c.data|);
  }

  lemma {:induction false} FirstChunk(m: seq<byte>, at: nat, end: nat, chunks: seq<Chunk>)
    requires at <= end <= |m| && chunks != [] && AreChunks(m[at..end], chunks)
    ensures ChunkAt(m, at, chunks[0])
    ensures var next := at + ChunkSize(|chunks[0].data|);
      next <= end && (chunks[1..] == [] <==> next == end) && AreChunks(m[next..end], chunks[1..])
  {
    hide IsChunk;
    var n := ChunkSize(|chunks[0].data|);
    SliceOfSlice(m, at, end - at, 0, n);
    SliceOfSlice(m, at, end - at, n, end - at);
  }

  lemma {:induction false} KnownStep(kept: Slots, left: seq<Chunk>)
    requires left != [] && KnownId(left[0].id)
    ensures AllKnown(left[1..]) ==> AllKnown(left) && KeepAll(kept, left) == KeepAll(Keep(kept, left[0].id, left[0].data), left[1..])
  {
    assert left == [left[0]] + left[1..];
  }

  lemma {:induction false} PrepareStart(m: seq<byte>, start: nat, end: nat, chunks: seq<Chunk>, p: Parameters)
    requires start <= end <= |m| && !p.mcu && !p.fpga && !p.bootloader
    requires if end <= start + 16 then chunks == [] else IsContainer(m[start..end], chunks)
    ensures Describes(m, p, NO_SLOTS)
    ensures chunks != [] ==> start + 16 < end && AreChunks(m[start + 16..end], chunks)
    ensures chunks == [] ==> end <= start + 16
  {
    if end > start + 16 {
      SliceOfSlice(m, start, end - start, 16, end - start);
      assert m[start..end][16..] == m[start..end][16..end - start] == m[start + 16..end];
    }
  }

  lemma {:induction false} ContainerToken(bytes: seq<byte>, chunks: seq<Chunk>)
    requires IsContainer(bytes, chunks)
    ensures |bytes| >= 16 && bytes[0..16] == TOKEN
  {
    assert bytes[0..16] == bytes[..16];
  }

  lemma {:induction false} BackupOutcome(step: CrcStep, mcu: seq<byte>, fpga: seq<byte>, bootloader: seq<byte>)
    requires |bootloader| == BOOTLOADER_LENGTH
    ensures var chunks := [SoundChunk(step, ID_MCU_DATA, mcu), SoundChunk(step, ID_FPGA_DATA, fpga), SoundChunk(step, ID_BOOTLOADER_DATA, bootloader)];
      PrepareOutcome(step, |mcu|, |fpga|, chunks) == UPDATE_OK && AllKnown(chunks) &&
      KeepAll(NO_SLOTS, chunks) == Slots(None, Some(mcu), Some(fpga), Some(bootloader), None)
  {
    hide Crc;
    var a, b, c := SoundChunk(step, ID_MCU_DATA, mcu), SoundChunk(step, ID_FPGA_DATA, fpga), SoundChunk(step, ID_BOOTLOADER_DATA, bootloader);
    assert [a, b, c][1..] == [b, c] && [b, c][1..] == [c] && [c][1..] == [];
    assert PrepareOutcome(step, |mcu|, |fpga|, [c]) == UPDATE_OK;
    assert PrepareOutcome(step, |mcu|, |fpga|, [b, c]) == UPDATE_OK;
    var s1 := Keep(NO_SLOTS, ID_MCU_DATA, mcu);
    var s2 := Keep(s1, ID_FPGA_DATA, fpga);
    assert KeepAll(s2, [c]) == Keep(s2, ID_BOOTLOADER_DATA, bootloader);
    assert KeepAll(s1, [b, c]) == KeepAll(s2, [c]);
  }

  /** A container has been written at start..at, and nothing else. */
  ghost predicate Written(orig: seq<byte>, m: seq<byte>, start: nat, at: nat, chunks: seq<Chunk>) {
    SameOutside(orig, m, start, at) && IsContainer(m[start..at], chunks)
  }

  lemma {:induction false} WrittenMeans(orig: seq<byte>, m: seq<byte>, start: nat, at: nat, chunks: seq<Chunk>)
    requires Written(orig, m, start, at, chunks)
    ensures SameOutside(orig, m, start, at) && IsContainer(m[start..at], chunks)
  {
  }

  lemma {:induction false} SameBootloader(orig: Memory, m: Memory, start: nat, at: nat, chunks: seq<Chunk>)
    requires Written(orig, m, start, at, chunks) && at <= BOOTLOADER_ADDRESS
    ensures Bootloader(m) == Bootloader(orig)
  {
    assert m[BOOTLOADER_ADDRESS..] == m[at..][BOOTLOADER_ADDRESS - at..] == orig[at..][BOOTLOADER_ADDRESS - at..] == orig[BOOTLOADER_ADDRESS..];
    assert Bootloader(m) == m[BOOTLOADER_ADDRESS..][..BOOTLOADER_LENGTH];
    assert Bootloader(orig) == orig[BOOTLOADER_ADDRESS..][..BOOTLOADER_LENGTH];
  }

  lemma {:induction false} TokenWritten(before: seq<byte>, after: seq<byte>, at: nat)
    requires at + 16 <= |before| && after == Overwrite(before, at, TOKEN)
    ensures Written(before, after, at, at + 16, [])
  {
    assert after[at..at + 16] == TOKEN;
  }

  /** A chunk written right behind a container makes a longer container. */
  lemma {:induction false} ExtendWritten(orig: seq<byte>, before: seq<byte>, after: seq<byte>, start: nat, at: nat,
          chunks: seq<Chunk>, c: Chunk)
    requires start <= at && Written(orig, before, start, at, chunks)
    requires ChunkAt(after, at, c) && SameOutside(before, after, at, at + ChunkSize(|c.data|))
    ensures Written(orig, after, start, at + ChunkSize(|c.data|), chunks + [c])
  {
    hide IsChunk, AreChunks;
    var end := at + ChunkSize(|c.data|);
    var whole, front := after[start..end], before[start..at];
    assert after[start..at] == after[..at][start..] == before[..at][start..] == front;
    assert whole == front + after[at..end];
    AreChunksAppend(front[16..], chunks, after[at..end], c);
    assert whole[..16] == front[..16] && whole[16..] == front[16..] + after[at..end];
    assert after[..start] == after[..at][..start] == before[..at][..start] == before[..start];
    assert after[end..] == before[end..] == before[at..][end - at..] == orig[at..][end - at..] == orig[end..];
  }

  /** The bootloader section of device memory. */
  ghost function Bootloader(m: Memory): (d: seq<byte>)
    ensures |d| == BOOTLOADER_LENGTH
  {
    m[BOOTLOADER_ADDRESS..BOOTLOADER_ADDRESS + BOOTLOADER_LENGTH]
  }

  function SoundChunk(step: CrcStep, id: word, data: seq<byte>): Chunk {
    Chunk(id, Crc(step, data), data)
  }

  lemma {:induction false} OverwriteNothing(m: seq<byte>, at: nat)
    requires at <= |m|
    ensures Overwrite(m, at, []) == m
  {
    assert m[..at] + [] + m[at..] == m;
  }

  lemma {:induction false} OverwriteNext(m: seq<byte>, at: nat, x: seq<byte>, y: seq<byte>)
    requires at + |x| + |y| <= |m|
    ensures Overwrite(Overwrite(m, at, x), at + |x|, y) == Overwrite(m, at, x + y)
  {
  }

  lemma {:induction false} BootloaderUntouched(m: Memory, at: nat, x: seq<byte>, offset: nat)
    requires at + |x| <= BOOTLOADER_ADDRESS && offset + 1024 <= BOOTLOADER_LENGTH
    ensures Overwrite(m, at, x)[BOOTLOADER_ADDRESS + offset..BOOTLOADER_ADDRESS + offset + 1024] == Bootloader(m)[offset..offset + 1024]
  {
    OverwriteMeaning(m, at, x);
    hide Overwrite;
    var lo := BOOTLOADER_ADDRESS + offset;
    var after := Overwrite(m, at, x);
    assert forall i :: lo <= i < lo + 1024 ==> after[i] == m[i];
    assert after[lo..lo + 1024] == m[lo..lo + 1024];
    assert Bootloader(m)[offset..offset + 1024] == m[lo..lo + 1024];
  }

  /** Between preparing and finalizing a chunk its data is copied in behind the 16 header bytes. */
  lemma {:induction false} DataWritten(start: seq<byte>, prepared: seq<byte>, m: seq<byte>, address: nat, data: seq<byte>)
    requires address + ChunkSize(|data|) <= |start|
    requires SameOutside(start, prepared, address, address + 4)
    requires m == Overwrite(prepared, address + 16, data)
    ensures m[address..address + 4] == prepared[address..address + 4]
    ensures m[address + 16..address + 16 + |data|] == data
    ensures SameOutside(start, m, address, address + ChunkSize(|data|))
  {
    OverwriteMeaning(prepared, address + 16, data);
    hide Overwrite;
    var hi := address + ChunkSize(|data|);
    assert m[hi..] == prepared[hi..] == prepared[address + 4..][hi - address - 4..] == start[address + 4..][hi - address - 4..];
  }

  lemma {:induction false} OverwriteMeaning(m: seq<byte>, at: nat, bytes: seq<byte>)
    requires at + |bytes| <= |m|
    ensures forall i :: 0 <= i < |m| ==> Overwrite(m, at, bytes)[i] == if at <= i < at + |bytes| then bytes[i - at] else m[i]
  {
  }

  lemma {:induction false} ThreeWords(m: seq<byte>, at: nat, x: seq<byte>, y: seq<byte>, z: seq<byte>)
    requires |x| == |y| == |z| == 4 && at + 12 <= |m|
    ensures Overwrite(Overwrite(Overwrite(m, at, x), at + 4, y), at + 8, z) == Overwrite(m, at, x + y + z)
  {
  }

  lemma {:induction false} SameOutsideJoin(x: seq<byte>, y: seq<byte>, z: seq<byte>, lo: nat, lo': nat, hi': nat, hi: nat)
    requires lo <= lo' <= hi' <= hi && SameOutside(x, y, lo, hi) && SameOutside(y, z, lo', hi')
    ensures SameOutside(x, z, lo, hi)
  {
    assert z[..lo] == z[..lo'][..lo] == y[..lo'][..lo] == y[..lo];
    assert z[hi..] == z[hi'..][hi - hi'..] == y[hi'..][hi - hi'..] == y[hi..];
  }

  lemma {:induction false} ChunkFromParts(m: seq<byte>, at: nat, c: Chunk)
    requires Fits(c) && at + ChunkSize(|c.data|) <= |m|
    requires m[at..at + 16] == Header(c) && m[at + 16..at + 16 + |c.data|] == c.data
    ensures ChunkAt(m, at, c)
  {
    hide Header;
    var bytes := m[at..at + ChunkSize(|c.data|)];
    SliceOfSlice(m, at, |bytes|, 0, 16);
    SliceOfSlice(m, at, |bytes|, 16, 16 + |c.data|);
  }

  lemma {:induction false} HeaderWritten(before: seq<byte>, after: seq<byte>, address: nat, length: nat, id: word, checksum: word)
    requires 16 <= address && address - 16 + ChunkSize(length) <= |before| && ChunkSize(length) - 8 < 0x1_0000_0000
    requires before[address - 16..address - 12] == LittleEndian(id)
    requires after == Overwrite(before, address - 12, LittleEndian(ChunkSize(length) - 8) + LittleEndian(checksum) + LittleEndian(length))
    ensures SameOutside(before, after, address - 12, address)
    ensures ChunkAt(after, address - 16, Chunk(id, checksum, before[address..address + length]))
  {
    hide LittleEndian, ChunkAt;
    var words := LittleEndian(ChunkSize(length) - 8) + LittleEndian(checksum) + LittleEndian(length);
    assert after[address..] == before[address..] && after[..address - 12] == before[..address - 12];
    assert after[address - 12..address] == words;
    hide Overwrite;
    assert after[address..address + length] == after[address..][..length] == before[address..][..length] == before[address..address + length];
    assert after[address - 16..address - 12] == after[..address - 12][address - 16..] == before[..address - 12][address - 16..] == before[address - 16..address - 12];
    assert after[address - 16..address] == after[address - 16..address - 12] + after[address - 12..address];
    ChunkFromParts(after, address - 16, Chunk(id, checksum, before[address..address + length]));
  }

  lemma {:induction false} FoldBlock(step: CrcStep, m: seq<byte>, start: nat, at: nat, n: nat)
    requires start <= at && at + n <= |m|
    ensures CrcFold(step, 0xFFFF_FFFF, m[start..at + n]) == CrcFold(step, CrcFold(step, 0xFFFF_FFFF, m[start..at]), m[at..at + n])
  {
    hide CrcFold;
    CrcFoldSplit(step, 0xFFFF_FFFF, m[start..at], m[at..at + n]);
    assert m[start..at + n] == m[start..at] + m[at..at + n];
  }

  lemma {:induction false} CrcNothing(step: CrcStep)
    ensures CrcFold(step, 0xFFFF_FFFF, []) == 0xFFFF_FFFF
  {
  }
}
