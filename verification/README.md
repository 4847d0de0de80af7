# SC64 verification

SC64 is a flash cartridge for the Nintendo 64. Its controller firmware (C) talks to a host over USB, emulates the
64DD disk drive on top of an SD card, emulates the lockout chip and updates itself. Host tools (Rust, Python) speak
the other end of the protocol, serve disk images and build firmware containers. This project models the parts of
both sides that have to agree with each other, and proves that they do.

Code that updates state in place is modelled as classes and methods over arrays and fields; what it promises is
stated by functions, predicates and lemmas beside it. Hardware is nondeterminism: how many bytes a FIFO has or
takes, how far the DMA engine gets between two polls, whether a command to the SD card fails, when the host reads.

| files | what they model |
|---|---|
| `UsbProtocol`, `UsbState`, `UsbAnswers`, `UsbDevice` | the two resumable state machines of the firmware's USB process, its packet queue, the shared DMA engine, and what each command is to be answered |
| `UsbHost`, `UsbSession` | the host's frame parser, and device and host together |
| `IsViewer` | the IS-Viewer ring buffer in device memory, on top of the USB process |
| `DriveControl`, `DriveProtocol`, `DriveBuffer`, `DiskDrive`, `DriveTransfer`, `DriveReading` | the 64DD emulation: registers, what the console is told, block buffer, polls, a whole block write and a whole block read |
| `SdBlocks`, `SdCrc` | SD sector transfers in commands and runs; the CRC of the SD data lines |
| `DiskImage`, `DiskStore`, `DiskGeometry`, `DiskLayout`, `DiskOrder`, `DiskOpen`, `DiskAccept` | 64DD disk images on the host |
| `FirmwareFormat`, `FirmwareTools`, `FirmwareUpdate` | the firmware container: its three writers and three readers |
| `CicEmulator`, `Ipl3` | the lockout chip, and the boot code checksum in C and in Rust |
| `Rle` | the run-length codec of the boot screen |

Main results:

- **USB.** After any sequence of polls, packets, debug read requests and stores by the console, the bytes on the wire
  since the last reset are the encoding of the frames of the messages that were handed over, plus the start of the next
  one; each frame holds the id, the error flag, the data words and the memory of its message, unless somebody wrote that memory while it was
  being sent. A host that reads the wire in pieces of any size recovers those frames in order. Its k-th packet is the k-th packet that
  was accepted; its k-th response has the id of the k-th command that is answered at all, so a host that waits for each answer never sees another id (`UsbSession.Converse`).
  Every answer is the right one to its command: a memory write or read fails if and only if its range is empty, leaves the memory or (when writing) touches the bootloader; the answer has the length
  the host insists on; and the host reports an error exactly when the device has found one and errors are not ignored (`UsbSession.AnsweredRightly`).
  A command consumes its 12 bytes and its payload whatever becomes of it. One DMA engine serves both state machines
  without either taking the other's transfer for its own. A packet's callback is called once and never twice, across resets and power saving.
- **IS-Viewer.** What the host gets in IS-Viewer packets is the start of what the console stored, through any number of wraps, with console,
  USB process and host interleaved at will, as long as the link is up and the host writes no byte of the ring.
- **64DD.** In every sequence of polls a sector is copied only while the block has sectors left, and inside the block buffer.
  Writing a block lays what the console supplied over the disk image where the copy engine puts it, whatever else goes on meanwhile. Exactly when the
  block starts at an even place and its disk sectors have an even length, that is the block as it was supplied, and exactly then (or when it starts at
  an even place and is not written to its end) no byte beside it changes, though its first and last SD sectors are shared with its neighbours. All blocks of disk images are of that kind.
  Reading a block hands out the sectors of the disk image in order, all of them before the block ends; the console is told that the data is valid if and only if
  every SD sector of the block was read, and of an error otherwise (`DriveReading.ReadBlock`).
- **SD.** Coalescing a sector table into runs and runs into commands does what moving the sectors one at a time does.
- **Disk images.** No location is numbered twice, no two locations share a byte, a written block reads back and leaves all others alone.
  Tracks lie in the file in the order of their zones, upwards on head 0 and downwards on head 1, and no good track is missing; a block is writable from a fixed number per disk type on.
  Which files are opened is said about their bytes alone (`DiskAccept.OpenedExactly`).
  The promise of 4316 blocks is false of some bad track tables; it holds if and only if no zone lists a track twice or lists one of the tracks it would be filled up with.
- **Containers.** The firmware and firmware.rs give back what all writers put in; primer.py does if and only if the update information is ASCII.
  A container is accepted if and only if its chunks are sound, known and (by the firmware) within their sizes, and otherwise the first chunk that is not decides the error; a backup that is reported as fitting is, with all three parts.
- **Boot code.** The C and Rust checksums are one function, and both detections know the same boot codes.
- **Lockout chip.** The unmasked byte arithmetic computes the 4-bit algorithm; seed, checksum and challenge can be recovered from what is sent.
- **Boot screen.** Decompression undoes compression, and no shorter list of records exists.

Where the code differs from what one would expect:

- `update_backup` (sw/controller/src/update.c:226) adds the length of the container to an address that has already moved past
  it. A backup is therefore reported as fitting only when the start plus *twice* the length lies inside SDRAM; `FirmwareUpdate.Updater.Backup` states exactly that,
  and `FirmwareUpdate.Updater.FittingRefused` names a place where a backup fits and is refused.
- `fpga_mem_copy` (sw/controller/src/fpga.c:78) copies whole 16-bit words, and the memory bus drops the lowest bit of an address
  (fw/rtl/mcu/mcu_top.sv:290, fw/rtl/memory/memory_sdram.sv:80). A disk sector at an odd place is therefore read from one byte below it, and written there.
  `DriveBuffer.SectorReadExactly`, `DriveBuffer.BlockHeldExactly` and `DriveBuffer.NeighboursKeptExactly` say exactly when a sector is read right, when a block holds what it was
  given, and when its neighbours stay; `DriveBuffer.OddBlockSpills` and `DriveBuffer.OddPlaceSpills` are cases that fail. On disk images every place and length is even (`DiskLayout.EvenBlocks`).
- `primer.py` (sw/tools/primer.py:129) decodes the update information as ASCII, while update.py:229 writes UTF-8. A container with an accented letter
  there loads in firmware.rs and not in primer.py (`FirmwareTools.AccentRefused`).
- The token matcher of the firmware (sw/controller/src/usb.c:144) swallows a byte that does not match without trying it as the
  first byte of a token. `UsbProtocol.Feed` is that automaton.
- `get_lba` (sw/deployer/src/disk.rs:110) answers for the first twelve tracks without looking at the index. Its answer is the number in the index if
  and only if no track up to there is listed as bad and the block is not left out (`DiskLayout.ShortcutExact`). Every disk leaves
  out some system blocks, so on every disk that can be opened the two differ somewhere (`DiskOpen.ShortcutNeverRight`).
- A disk whose system data lists a track twice is opened with more than 4316 blocks; `DiskOpen.TwiceOpened` gives such a file.
- The 40 entries of the sector table (sw/controller/src/dd.c:15) are enough exactly for disk sectors of up to 234 bytes; the drive's largest has 232 (`DriveBuffer.TableFitsExactly`).

## Model

| member | source | states |
|---|---|---|
| UsbProtocol.EncodedParts | sw/deployer/src/sc64/link.rs:184-199 | the token, id, length and payload the host cuts out of an encoded frame are those of the frame |
| UsbProtocol.EncodeAllAppend | sw/controller/src/usb.c:626-698 | encoding a list of frames distributes over concatenation, so frames never overlap on the wire |
| UsbProtocol.FeedToken | sw/controller/src/usb.c:136-150 | from the idle state the automaton recognises CMD and the id behind it |
| UsbProtocol.FeedArgs | sw/controller/src/usb.c:239-252 | eight more bytes are the two arguments, and what is waited for then is the payload they announce |
| UsbProtocol.FeedPayload | sw/controller/src/usb.c:338-382 | payload bytes are counted and never read as commands |
| UsbProtocol.CommandRoundTrip | sw/deployer/src/sc64/link.rs:163-175 | a command sent with its payload is taken as exactly that command, and the device is in step again |
| UsbState.RejectedExactly | sw/controller/src/usb.c:205-221 | the 32-bit address check lets through exactly the non-empty ranges inside memory that avoid the bootloader where they must |
| UsbState.MessageIsFrame | sw/controller/src/usb.c:645-697 | token word, length word, data words and DMA bytes are together the encoding of one frame that carries the message |
| UsbState.BytesIn | sw/controller/src/usb.c:338-355 | the engine moves bytes in only for a transfer that the receiving half has running, and never more than its command has left |
| UsbState.BytesInMemory | sw/controller/src/usb.c:338-382 | bytes that come in by DMA extend what has landed, at the address the transfer was started for |
| UsbState.ChangeLeaves | sw/controller/src/usb.c:674-689 | a change of memory leaves the message being sent as it was unless one of its addresses is written |
| UsbState.ParcelDone | sw/controller/src/usb.c:691-720 | a packet that is complete has moved from the accepted ones still to be sent to those sent, in order |
| UsbDevice.Usb.UsbRxWord | sw/controller/src/usb.c:106-119 | a word is the last four bytes taken, big-endian, over any number of calls; nothing is lost when it is incomplete |
| UsbDevice.Usb.UsbTxWord | sw/controller/src/usb.c:123-132 | exactly the bytes of the word that are still due go out, in order, however often the FIFO is full |
| UsbDevice.Usb.UsbRxCmd | sw/controller/src/usb.c:136-150 | the counter and the id agree with the automaton fed with every byte taken so far |
| UsbDevice.Usb.UsbReset | sw/controller/src/usb.c:152-172 | both machines, queue and counters are back at the start and all invariants hold for the new stream |
| UsbDevice.Usb.UsbFlushPacket | sw/controller/src/usb.c:174-183 | the callback of the waiting and of the sent packet is called once and forgotten; a waiting packet with a callback is dropped, and nothing on the wire changes |
| UsbDevice.Usb.UsbIsActive | sw/controller/src/usb.c:185-199 | only a reset that begins discards the streams, after the callbacks were called |
| UsbDevice.Usb.UsbDmaReady | sw/controller/src/usb.c:201-203 | whatever the engine did meanwhile keeps every invariant and completes no frame; it wrote only inside its transfer, and a message whose memory was not written stays as it was |
| UsbDevice.Usb.DmaIn | sw/controller/src/usb.c:338-382 | bytes moved in count as payload of the command that started the transfer; exactly their addresses are written |
| UsbDevice.Usb.DmaOut | sw/controller/src/usb.c:674-689 | bytes moved out are the next bytes of the memory of the message being sent |
| UsbDevice.Usb.RxStart | sw/controller/src/usb.c:224-237 | a command is accepted only when no response is pending, and owes its answer from then on |
| UsbDevice.Usb.RxArguments | sw/controller/src/usb.c:239-252 | the arguments are the eight bytes behind the id, read in pieces; it stops only at an empty FIFO |
| UsbDevice.Usb.RxArgument | sw/controller/src/usb.c:240-244 | one argument word more, or the FIFO is empty |
| UsbDevice.Usb.RxSimple | sw/controller/src/usb.c:254-588 | a command without payload is answered at once, with the answer length of its id; an unknown one with an error |
| UsbDevice.Usb.RxMemoryRead | sw/controller/src/usb.c:327-336 | an error exactly when the range is rejected, otherwise the answer carries exactly that range |
| UsbDevice.Usb.RxMemoryWrite | sw/controller/src/usb.c:338-355 | a transfer into memory runs only where that is allowed, a range that is not is drained, and a positive answer means the whole payload is in memory at the given address |
| UsbDevice.Usb.WriteFacts | sw/controller/src/usb.c:338-355 | while the payload of a memory write goes to memory its range is allowed, and while it is drained it is not |
| UsbDevice.AllowedExactly | sw/controller/src/usb.c:205-221 | the address check lets through exactly the non-empty ranges that end inside memory and keep clear of the bootloader where they must |
| UsbDevice.ReplyRight | docs/03_usb_interface.md:171-197 | the answers to the commands without payload have the lengths the host insists on and fail only where they may; an unknown command always fails |
| UsbDevice.SectorsRight | sw/controller/src/usb.c:449-495 | sectors are moved only when there are fewer than 0x800000 and all of them lie in memory, clear of the bootloader |
| UsbAnswers.AnswersAsked | sw/controller/src/usb.c:239-252 | a command that is complete is owed one answer, and none of the others is forgotten |
| UsbAnswers.AnswersGiven | sw/controller/src/usb.c:254-590 | the answer that is worked out is the one to the last command, and all earlier ones stay right |
| UsbAnswers.AnswersDone | sw/controller/src/usb.c:690-697 | a response that is out has become a frame with its id, error flag and length |
| UsbDevice.Usb.RxUsbWrite | sw/controller/src/usb.c:357-382 | each finished piece lies where the console asked for it, and the place moves on by exactly its length |
| UsbDevice.Usb.FinishRead | sw/controller/src/usb.c:369-376 | the length worked out again at completion is the one that was programmed, and that many bytes have arrived in place |
| UsbDevice.Usb.FinishDrain | sw/controller/src/usb.c:595-604 | the same for a payload that is thrown away in pieces of 1 MiB |
| UsbDevice.Usb.RxSectors | sw/controller/src/usb.c:454-504 | one payload word and then an answer; wrong counts and ranges are errors |
| UsbDevice.Usb.RxDrain | sw/controller/src/usb.c:592-623 | a payload is drained to its last byte before the error or the packet that reports it; it goes on later only for the engine, a full queue or the next piece |
| UsbDevice.Usb.StartIn | sw/controller/src/usb.c:345-348 | a transfer is started only when the engine is free, and to the place the command is for |
| UsbDevice.Usb.StartOut | sw/controller/src/usb.c:677-681 | the same for sending, from the first byte of the message's memory |
| UsbDevice.Usb.TxStart | sw/controller/src/usb.c:627-643 | a response goes before a packet; the message latched is the one that was pending |
| UsbDevice.Usb.TxHeader | sw/controller/src/usb.c:645-657 | token and length go out in order; it stops only at a full FIFO |
| UsbDevice.Usb.TxBody | sw/controller/src/usb.c:659-672 | the data words go out in order; it stops only at a full FIFO |
| UsbDevice.Usb.TxTransferStep | sw/controller/src/usb.c:674-689 | the DMA part counts as sent only when all of it is, and no transfer of this half is running any more |
| UsbDevice.Usb.TxDone | sw/controller/src/usb.c:691-697 | one more complete frame, carrying the message with the memory it had when latched; its callback is called |
| UsbDevice.Usb.RxCommand | sw/controller/src/usb.c:254-590 | whatever the command, it is still worked on, drained or answered, and nothing is sent meanwhile |
| UsbDevice.Usb.UsbRxProcess | sw/controller/src/usb.c:223-624 | all invariants are kept; it stops only for the FIFO, the engine, the console or a full packet queue, or having finished a piece of a payload; without bytes from the host nothing is written; an answer that becomes pending is the right one to the last command |
| UsbDevice.Usb.TxAdvance | sw/controller/src/usb.c:645-689 | token, data and memory of the message in hand, and of no other, go out |
| UsbDevice.Usb.UsbTxProcess | sw/controller/src/usb.c:626-698 | goes on with the message in hand, or the response, or the packet; at most one becomes complete, with its callback called, and with its memory unless that was written meanwhile |
| UsbDevice.Usb.UsbEnqueuePacket | sw/controller/src/usb.c:712-720 | accepted exactly when no packet waits, and then it is the next of the accepted packets; a refused packet changes nothing |
| UsbDevice.Usb.UsbPrepareRead | sw/controller/src/usb.c:722-729 | refused exactly while a debug transfer is under way |
| UsbDevice.Usb.UsbProcess | sw/controller/src/usb.c:751-759 | every poll keeps all invariants and goes on with exactly one message; a message whose memory is not among the written addresses is still to be sent as it was, or has been; when the link is not active every accepted packet has had its callback called exactly once |
| UsbDevice.Usb.constructor | sw/controller/src/usb.c:745-748 | the invariants hold at the start |
| UsbDevice.Usb.ConsoleWrites | sw/controller/src/usb.c:674-689 | stores outside a message's memory do not disturb what is sent |
| UsbDevice.ArgumentRead | sw/controller/src/usb.c:240-251 | partial and complete argument words keep the machine and the automaton in step |
| UsbDevice.FrameDone | sw/controller/src/usb.c:691-697 | a finished message is one more frame and leaves nothing behind |
| UsbHost.NextFrame | sw/deployer/src/sc64/link.rs:184-199 | at a frame boundary the next bytes are the start of the next frame |
| UsbHost.FramesAgree | sw/deployer/src/sc64/link.rs:184-199 | what has arrived determines the frames read from it, whatever comes later |
| UsbHost.Backend.Arrive | sw/deployer/src/sc64/link.rs:125-149 | more bytes may arrive at any time; the frames read so far stay what they were |
| UsbHost.Backend.TryReadExact | sw/deployer/src/sc64/link.rs:125-149 | all bytes, or nothing at all and nothing consumed, or an error of the system; never a part |
| UsbHost.Backend.ReadExact | sw/deployer/src/sc64/link.rs:156-161 | all bytes or an error |
| UsbHost.Backend.ReadFrame | sw/deployer/src/sc64/link.rs:184-199 | the very next frame that was sent, or nothing consumed; never invalid data |
| UsbHost.Backend.ProcessIncomingData | sw/deployer/src/sc64/link.rs:177-212 | responses and packets of the stream are split without loss or reordering, and packets are kept through an error |
| UsbHost.Link.ReceiveResponse | sw/deployer/src/sc64/link.rs:462-475 | the next response of the stream; packets in front of it are kept, through a transport error as well |
| UsbHost.Link.ReceivePacket | sw/deployer/src/sc64/link.rs:477-487 | the next packet in order, first those kept before; a response instead is an error |
| UsbHost.Link.ReceiveResponseOrPacket | sw/deployer/src/sc64/link.rs:489-500 | the next frame, with the packets in their order |
| UsbHost.Link.ReceiveAnswer | sw/deployer/src/sc64/link.rs:440-460 | success with its data if and only if the next response has the id of the command and is no error, or errors are ignored; otherwise which of the two is wrong |
| UsbHost.Link.ExecuteCommandRaw | sw/deployer/src/sc64/link.rs:440-460 | sends the encoding of the command; succeeds with the data of the next response if and only if that has the id of the command and is no error, or errors are ignored |
| UsbSession.WireIsFrames | sw/controller/src/usb.c:626-698 | at any time the wire is a prefix of the encoding of frames, at most one of them unfinished |
| UsbSession.ResponsesInOrder | sw/controller/src/usb.c:223-237 | the responses on the wire answer, in order, a prefix of the commands that are answered |
| UsbSession.VerdictsOnTheWire | sw/controller/src/usb.c:626-698 | id, error flag and length of every response on the wire are what the device has found |
| UsbSession.AllTaken | sw/deployer/src/sc64/link.rs:163-175 | a stream of well-formed commands is taken as exactly those commands |
| UsbSession.TakenInOrder | sw/controller/src/usb.c:223-252 | any part of the stream is taken as the first of those commands |
| UsbSession.PacketsMatch | sw/controller/src/usb.c:626-698 | the packets among the frames are, one by one, the packets among the messages |
| UsbSession.PacketsAccepted | sw/controller/src/usb.c:712-720 | packets found on the wire are the accepted packets from the first on, in order, with their id, words and length |
| UsbSession.EndToEnd | sw/deployer/src/sc64/link.rs:440-500 | frames read are frames sent with their content; the k-th packet is the k-th that was accepted, the k-th answer belongs to the k-th answered command |
| UsbSession.AnsweredRightly | sw/deployer/src/sc64/link.rs:440-474 | the k-th response the host has read is the right answer to the k-th command that is answered at all, and an error just when the device has found one |
| UsbSession.WriteJudged | sw/deployer/src/sc64/mod.rs:225-229 | a memory write succeeds if and only if its range is not empty, ends inside memory and does not touch the bootloader |
| UsbSession.ReadJudged | sw/deployer/src/sc64/mod.rs:213-223 | a memory read succeeds if and only if its range is not empty and ends inside memory, and then gives as many bytes as were asked for |
| UsbSession.LockStep | sw/deployer/src/sc64/link.rs:440-460 | a host that waits for each answer gets the answer to the command it has just sent: same id, an error just when the device has found one, and the right answer |
| UsbSession.Listen | sw/deployer/src/sc64/link.rs:177-212 | a host may start on whatever is on the wire |
| UsbSession.Step | sw/controller/src/usb.c:751-759 | one event: the wire grows, the accepted packets grow by what is noted, and messages whose memory is not written stay whole |
| UsbSession.Run | sw/controller/src/usb.c:751-759 | all this after any sequence of polls and calls; while the link is up the wire only grows and the accepted packets are all remembered; if nobody writes the memory of a message being sent, every message has gone out with what it held |
| UsbSession.Converse | sw/deployer/src/sc64/link.rs:440-460 | over any list of commands, with device runs and arriving bytes in between, until a transport error ends it: every answer the host hears is the right one to the command just sent, and the result is an error just when the device has found one and errors are not ignored |
| IsViewer.SlotsDiffer | sw/controller/src/isv.c:16-18 | bytes less than a ring apart never share a slot |
| IsViewer.PieceFits | sw/controller/src/isv.c:94-95 | from the two pointers alone, how many unread bytes lie in one piece |
| IsViewer.RoomLeft | sw/controller/src/isv.c:80-92 | full and empty ring can be told apart by the pointers |
| IsViewer.StoreApart | sw/controller/src/isv.c:94-101 | a console that does not overtake the read pointer never touches the memory of a packet under way |
| IsViewer.RingSlice | sw/controller/src/isv.c:94-101 | a piece of the ring is that piece of the console's stream |
| IsViewer.PollKeeps | sw/controller/src/usb.c:626-719 | in one poll of the USB process the packet stays in the queue, goes into sending, or becomes complete with its callback called |
| IsViewer.PollFaithful | sw/controller/src/usb.c:626-698 | a packet whose part of the ring is not written in a poll is sent with the bytes it had |
| IsViewer.NotCalledYet | sw/controller/src/usb.c:691-697 | the callback has not been called while the packet waits or is being sent |
| IsViewer.PieceDelivered | sw/controller/src/isv.c:94-103 | a complete packet holds exactly the next bytes of the console |
| IsViewer.TextIsOutput | sw/controller/src/usb.c:645-697 | the payloads on the wire are the memory of the packets |
| IsViewer.Isv.constructor | sw/controller/src/isv.c:48-64 | the invariants hold for an empty ring |
| IsViewer.Isv.Store | sw/controller/src/isv.c:16-18 | the console stores a byte exactly when there is room, and disturbs nothing under way, unless the host is writing there |
| IsViewer.Isv.Publish | sw/controller/src/isv.c:85-88 | the write pointer may move while a packet is under way |
| IsViewer.Isv.OtherStore | sw/controller/src/isv.c:67-108 | stores elsewhere do not matter |
| IsViewer.Isv.Poll | sw/controller/src/isv.c:67-108 | queues all unread bytes, or those up to the end of the ring, exactly when ready, enabled, not empty and the queue is free |
| IsViewer.Isv.UpdateReadPointer | sw/controller/src/isv.c:42-45 | the read pointer in memory moves past exactly the bytes of the complete packet |
| IsViewer.Isv.UsbPoll | sw/controller/src/usb.c:751-759 | the read pointer moves only in the poll that completes the packet, and what the host gets grows by its bytes; the order is lost exactly when the link is down, the ring is among the written addresses or the read pointer gave way |
| IsViewer.Isv.Run | sw/controller/src/isv.c:67-108 | in every interleaving in which the link is up and nothing else writes the ring, the IS-Viewer payloads on the wire are the start of what the console stored; the notes say when that is so, and a poll without bytes from the host writes nothing |
| DriveControl.StepStays | sw/controller/src/dd.c:455-541 | the switch over the states keeps the sector counter inside the block |
| DriveControl.PollStaysInBlock | sw/controller/src/dd.c:307-547 | after any poll a pending sector copy has current_sector below sectors_in_block - 4 |
| DriveControl.SeekAnswered | sw/controller/src/dd.c:325-338 | a seek moves the head at once and is answered by the first later poll that finds the time is up, by no other |
| DriveProtocol.RequestsCleared | sw/controller/src/dd.c:404-454 | each request bit of the hardware is acknowledged by the poll that serves it, and by no other |
| DriveProtocol.CommandsAnswered | sw/controller/src/dd.c:311-402 | a command is answered in the poll that finds it, a seek when its time is up; which commands clear the disk change and the reset |
| DriveProtocol.OtherwiseQuiet | sw/controller/src/dd.c:404-416 | a poll that does not go on with a transfer says nothing new about a block; a stop or start takes back what was said |
| DriveProtocol.StartAndStop | sw/controller/src/dd.c:404-417 | a start bit begins the block the registers name, unless a stop bit ends everything |
| DriveProtocol.ReadMoves | sw/controller/src/dd.c:418-547 | a block read hands out its data sectors, then counts four C2 sectors, and only then goes on to the other block or stops |
| DriveProtocol.ReadReady | sw/controller/src/dd.c:418-498 | when reading, the console is told that a sector is ready exactly when the sector counter moves |
| DriveProtocol.WriteMoves | sw/controller/src/dd.c:429-547 | a block write takes in its sectors as they are requested, then writes back, then goes on to the next block |
| DriveProtocol.WriteReady | sw/controller/src/dd.c:466-541 | when writing, the console is told to go on exactly when the drive falls idle |
| DriveProtocol.BlockAnnounced | sw/controller/src/dd.c:466-485 | TransferData and MicroError are raised by the poll that finds the block ready, by its validity, and by no other; when each is taken back |
| DriveProtocol.C2Announced | sw/controller/src/dd.c:437-453 | TransferC2 is raised exactly with the last C2 sector |
| DriveProtocol.WaitTells | sw/controller/src/dd.c:466-485 | the poll with which the wait for a block ends says whether its data is valid, and no earlier one |
| DriveBuffer.SpanHolds | sw/controller/src/dd.c:119-124 | the SD sectors computed for a block cover it, and how many they are at most |
| DriveBuffer.TableFitsExactly | sw/controller/src/dd.c:10-15 | the sector table suffices for every place of a block if and only if a disk sector has at most 234 bytes |
| DriveBuffer.ReadGivesImage | sw/controller/src/dd.c:136-145 | after a complete read the buffer holds the SD sectors of the block end to end |
| DriveBuffer.WriteBackHolds | sw/controller/src/dd.c:160-172 | writing the buffer back puts what it holds into the listed SD sectors and into no other |
| DriveBuffer.LaidEven | sw/controller/src/dd.c:498-503 | with an even start and an even length the copied sectors lie end to end where the block starts |
| DriveBuffer.LaidOutside | fw/rtl/mcu/mcu_top.sv:290-316 | for every place and length, bytes in front of the word of the first sector and behind that of the last are never touched |
| DriveBuffer.NeighboursKeptExactly | fw/rtl/mcu/mcu_top.sv:290-316 | no byte beside the block changes, whatever is written, if and only if it starts at an even place, and disk sectors have even length or the block is not written to its end |
| DriveBuffer.BlockHeldExactly | fw/rtl/mcu/mcu_top.sv:290-316 | the block holds the sectors it was given, whatever they are, if and only if it starts at an even place, and disk sectors have even length or there is only one |
| DriveBuffer.SectorReadExactly | fw/rtl/memory/memory_sdram.sv:80-85 | what is copied out for a disk sector is that sector, whatever it holds, if and only if it lies at an even place |
| DriveBuffer.OddBlockSpills | sw/controller/src/fpga.c:78-92 | with 231 bytes in each of 85 sectors the byte behind the block takes what the sector buffer held |
| DriveBuffer.OddPlaceSpills | fw/rtl/mcu/mcu_top.sv:290-316 | a block that starts at byte 1 changes byte 0, which is not part of it |
| DriveBuffer.ImageUpdate | sw/controller/src/dd.c:160-172 | the image of the whole disk changes by the copied sectors laid over it where the block starts, though SD sectors are shared |
| DiskDrive.BufferPlace | sw/controller/src/dd.c:487-503 | the words copied for a disk sector lie inside the 20480-byte block buffer |
| DiskDrive.SessionDelivers | sw/controller/src/dd.c:487-496 | a sector copied out is what the card has where the engine finds that sector of the block |
| DiskDrive.SessionCollects | sw/controller/src/dd.c:498-511 | a sector copied in is laid over the buffer where the engine puts it; the rest of the buffer is as it was |
| DiskDrive.TrackHeadBlock | sw/controller/src/dd.c:97-102 | the index packs track, head and block as the host's disk images do |
| DiskDrive.BlockStartExactly | sw/controller/src/dd.c:104-131 | where the big-endian tables in memory say a block is, and that a block without the write flag is nowhere for writing |
| DiskDrive.Drive.FillSdSectorTable | sw/controller/src/dd.c:104-131 | the table has at most 40 entries, lists the sectors of the block and covers it; nothing for unmapped or read-only blocks |
| DiskDrive.Drive.TransferBlock | sw/controller/src/dd.c:160-187 | the block is moved sector by sector as its table says, or an error is reported |
| DiskDrive.Drive.BlockReadRequest | sw/controller/src/dd.c:133-158 | ready and valid flags tell whether the image of the block is in the buffer; memory outside the buffer is untouched |
| DiskDrive.Drive.BlockWriteRequest | sw/controller/src/dd.c:160-187 | a write-back of a block read before leaves on the card what was read, with the collected sectors laid over it; no other SD sector is written |
| DiskDrive.Drive.StepStart | sw/controller/src/dd.c:459-464 | a block transfer begins with a read of the block |
| DiskDrive.Drive.StepSectorRead | sw/controller/src/dd.c:487-496 | the words of the sector at hand go to the sector buffer; nothing else moves |
| DiskDrive.Drive.StepSectorWrite | sw/controller/src/dd.c:498-511 | the sector buffer goes to the words of the sector at hand; nothing else moves |
| DiskDrive.Drive.StepBlockReadWait | sw/controller/src/dd.c:466-485 | waits for the block, then reports data or an error, by whether the block is valid |
| DiskDrive.Drive.StepBlockWrite | sw/controller/src/dd.c:513-517 | the block is written back once it is complete |
| DiskDrive.Drive.StepBlockWriteWait | sw/controller/src/dd.c:519-523 | waits for the write |
| DiskDrive.Drive.StepNextBlock | sw/controller/src/dd.c:525-540 | the other block of the track, or the end |
| DiskDrive.Drive.Pending | sw/controller/src/dd.c:418-436 | a sector request starts a copy only while data sectors are left |
| DiskDrive.Drive.Ack | sw/controller/src/dd.c:437-453 | the C2 sectors are counted, and a finished write stops the transfer |
| DiskDrive.Drive.Reset | sw/controller/src/dd.c:311-318 | a hard reset stops everything and the invariants hold |
| DiskDrive.Drive.StopTransfer | sw/controller/src/dd.c:404-407 | stops the transfer whatever its state |
| DiskDrive.Drive.StartTransfer | sw/controller/src/dd.c:408-416 | the block to start with follows from the sector registers; an earlier block in the buffer counts no more |
| DiskDrive.Drive.Process | sw/controller/src/dd.c:307-547 | one poll, with commands, seeks and resets: the registers, memory and card after it, and all invariants; the poll that finds the block ready says TransferData if it is valid and MicroError if not |
| DiskDrive.Drive.ProcessParts | sw/controller/src/dd.c:307-547 | the parts of a poll one after the other: reset and command, stop, start, or the transfer |
| DiskDrive.Drive.SetBlockReady | sw/controller/src/dd.c:190-193 | an answer of the host sets both flags |
| DiskDrive.Drive.SetSdMode | sw/controller/src/dd.c:254-256 | the mode may change at any time |
| DiskDrive.Drive.SetDiskMapping | sw/controller/src/dd.c:258-273 | up to four disks, the others unmapped |
| DiskDrive.Drive.HandleButton | sw/controller/src/dd.c:275-289 | the disk that comes in is the first mapped one behind the last, in a ring of four, if there is any |
| DiskDrive.Drive.constructor | sw/controller/src/dd.c:292-304 | the invariants hold at the start |
| DiskDrive.Drive.Run | sw/controller/src/dd.c:307-547 | in any sequence of events every sector delivered is the card's at its place, and every block written back is complete and lays exactly its sectors over what the card had |
| DriveTransfer.StillAddressed | sw/controller/src/dd.c:104-131 | the block's sectors are the same at write-back as when it was read |
| DriveTransfer.WritePoll | sw/controller/src/dd.c:418-547 | how a poll moves a block write on: read, copy, wait or write back, and how many sectors have been copied |
| DriveTransfer.ReadPoll | sw/controller/src/dd.c:459-464 | the poll that reads the block leaves the card alone and its image in the buffer |
| DriveTransfer.CopyPoll | sw/controller/src/dd.c:498-511 | a poll with a pending sector adds what the sector buffer holds then to the sectors of the block |
| DriveTransfer.WriteBackPoll | sw/controller/src/dd.c:513-517 | the poll that writes back lays the collected sectors over the block on the card and changes nothing else |
| DriveTransfer.Step | sw/controller/src/dd.c:307-547 | any quiet event keeps the write under way: polls, stores and mode registers in any order |
| DriveTransfer.Transfer | sw/controller/src/dd.c:404-541 | over any sequence of quiet events the card stays as it is until the write-back, and then has what was supplied laid over the block |
| DriveTransfer.ImageWritten | sw/controller/src/dd.c:160-172 | that change of the card is the same change of the disk image, and with an even start and length exactly the supplied sectors end to end |
| DriveTransfer.WriteBlock | sw/controller/src/dd.c:404-541 | start bit, then any quiet events: if the block is written back, the disk image has changed by what the sector buffer held at each copy, and nowhere else; with an even start and length to exactly that |
| DriveReading.StillLocated | sw/controller/src/dd.c:104-131 | as long as its tables stay, the block is where it was |
| DriveReading.HandedOut | sw/controller/src/dd.c:487-496 | the sector that was copied out is the next one of the image |
| DriveReading.ReadSays | sw/controller/src/dd.c:418-541 | what one poll of a read may say about the block |
| DriveReading.StageMoves | sw/controller/src/dd.c:418-541 | how a poll moves a read on, and how many sectors have been handed out |
| DriveReading.FirstPoll | sw/controller/src/dd.c:459-464 | the poll that reads the block, and when it is valid |
| DriveReading.CopyOutPoll | sw/controller/src/dd.c:487-496 | the sector buffer then holds the next sector of the image |
| DriveReading.WaitPoll | sw/controller/src/dd.c:466-485 | a poll that hands out nothing leaves memory and card alone and tells the truth about the block |
| DriveReading.LastPoll | sw/controller/src/dd.c:525-541 | the block ends only when all of its sectors have been handed out |
| DriveReading.Read | sw/controller/src/dd.c:307-547 | from the start of a block on, in any sequence of calm events: sectors in order, and only the truth is told |
| DriveReading.SectorsRead | sw/controller/src/dd.c:104-131 | the sectors of the block are those of the image of the whole disk |
| DriveReading.ReadBlock | sw/controller/src/dd.c:307-547 | whatever happens between the start bit and the end of the block: the console gets the sectors of the disk image in order, all of them before the block ends; it is told TransferData if and only if all SD sectors were read, and MicroError if and only if not |
| SdBlocks.ReadRunIsTable | sw/controller/src/sd.c:603-629 | reading a run of neighbours at once is reading them one at a time |
| SdBlocks.WriteRunIsTable | sw/controller/src/sd.c:603-629 | the same for writing |
| SdBlocks.ReadTableMeaning | sw/controller/src/sd.c:603-629 | byte i of the k-th sector of a table arrives at 512 k + i |
| SdBlocks.ReadTableFrame | sw/controller/src/sd.c:603-629 | reading a table touches no other memory |
| SdBlocks.WriteTableMeaning | sw/controller/src/sd.c:603-629 | after writing distinct sectors each holds its piece of memory |
| SdBlocks.WriteTableFrame | sw/controller/src/sd.c:603-629 | sectors that are not in the table keep their content |
| SdBlocks.Sd.ArgMeaning | sw/controller/src/sd.c:533-600 | the command argument names the sector, by number or by byte, as long as it does not wrap around |
| SdBlocks.Sd.ReadSectors | sw/controller/src/sd.c:565-600 | all sectors arrive or an error is reported; in commands of up to 256 blocks, on both kinds of card |
| SdBlocks.Sd.WriteSectors | sw/controller/src/sd.c:533-563 | the same for writing; no other sector changes |
| SdBlocks.Sd.OptimizeSectors | sw/controller/src/sd.c:603-629 | the sectors in front of the first zero entry are moved as if one at a time; success means all were moved |
| SdBlocks.Sd.MoveRun | sw/controller/src/sd.c:603-629 | one run of neighbours |
| SdCrc.CrcDivides | sw/controller/src/sd.c:298-309 | the register is a remainder of the data by x^16 + x^12 + x^5 + 1 |
| SdCrc.RemainderUnique | sw/controller/src/sd.c:298-309 | there is only one such remainder |
| SdCrc.CrcIsTheRemainder | sw/controller/src/sd.c:298-309 | the register holds r if and only if r is the remainder |
| SdCrc.CrcStepInjective | sw/controller/src/sd.c:298-309 | no two registers are mapped to one by the same bit, and a changed bit always shows |
| SdCrc.ShiftHalfByte | sw/controller/src/sd.c:287-296 | one bit more of each line is shifted into its register |
| SdCrc.CrcHalfByte | sw/controller/src/sd.c:298-309 | one bit more of each line goes through its CRC |
| SdCrc.CollectDeviceCrc | sw/controller/src/sd.c:287-296 | the four interleaved remainders behind the data are taken apart |
| SdCrc.ComputeControllerCrc | sw/controller/src/sd.c:298-309 | each line's register is the CRC of what that line carried |
| SdCrc.CheckCrc16 | sw/controller/src/sd.c:278-318 | reports damage if and only if some line does not carry its remainder |
| SdCrc.FlippedByte | sw/controller/src/sd.c:278-318 | flipping a bit of a byte changes one bit of one line |
| SdCrc.ChangedLineIsCaught | sw/controller/src/sd.c:278-318 | a difference in a line's CRC survives whatever follows |
| SdCrc.FlippedBitIsCaught | sw/controller/src/sd.c:278-318 | an accepted buffer of any length with one data bit flipped is always rejected |
| DiskImage.VZoneInverts | sw/deployer/src/disk.rs:80-88 | every disk type visits every zone exactly once |
| DiskImage.PhysicalUnique | sw/deployer/src/disk.rs:61-78 | head and physical track determine zone and track |
| DiskImage.WalkFacts | sw/deployer/src/disk.rs:245-283 | the walk meets every track at most once, and only good ones |
| DiskImage.WalkIsInjective | sw/deployer/src/disk.rs:245-283 | no (track, head, block) is numbered twice, for every disk type and bad track table |
| DiskImage.RangesDisjoint | sw/deployer/src/disk.rs:262-279 | file ranges of different blocks do not overlap and follow the numbering |
| DiskImage.IndexStep | sw/deployer/src/disk.rs:261-279 | no insertion replaces an earlier one |
| DiskImage.IndexMeaning | sw/deployer/src/disk.rs:239-285 | the index holds every usable block under its location, and nothing else |
| DiskImage.BuildIndex | sw/deployer/src/disk.rs:239-283 | the loops compute that index, with the tracks in the order of `DiskOrder.WalkOrder` |
| DiskImage.NumberZone | sw/deployer/src/disk.rs:245-282 | one zone, upwards on head 0 and downwards on head 1 (`DiskOrder.WalkOrder`), with none of its good tracks missing |
| DiskImage.AddTrack | sw/deployer/src/disk.rs:259-281 | the two blocks of one track |
| DiskOrder.ZonesTile | sw/deployer/src/disk.rs:61-78 | the zones of a head follow each other without a gap over 1175 tracks, and those of the lower head record like the next ones of the upper |
| DiskOrder.PZoneInverts | sw/deployer/src/disk.rs:80-88 | every zone has its place in the walk of every disk type |
| DiskOrder.WalkOrder | sw/deployer/src/disk.rs:245-257 | zones are met in the order of the disk type, the tracks of a zone upwards on head 0 and downwards on head 1 |
| DiskOrder.WalkIsComplete | sw/deployer/src/disk.rs:245-259 | every good track of every zone is met |
| DiskOrder.PlaceOfBlock | sw/deployer/src/disk.rs:260-280 | track, head and block of a location, and that the first block of a track alternates from track to track |
| DiskOrder.FileOrder | sw/deployer/src/disk.rs:239-283 | of two blocks of one zone, the one on the higher track lies later in the file on head 0 and earlier on head 1 |
| DiskOrder.RomZonesFirst | sw/deployer/src/disk.rs:90 | the read-only zones of a disk type are the first ones of each head |
| DiskOrder.WritableBlocks | sw/deployer/src/disk.rs:266 | a block may be written exactly from number 0x5A2, 0x7C6, 0x9EA, 0xC0E, 0xE32, 0x1010 or 0x10DC on, by disk type |
| DiskStore.IndexIsStore | sw/deployer/src/disk.rs:239-285 | different locations never share a byte of the file |
| DiskStore.WriteAtMeaning | sw/deployer/src/disk.rs:136-152 | a write holds its data and keeps every other byte, past the end of the file as well |
| DiskStore.Disk.constructor | sw/deployer/src/disk.rs:155-163 | an opened disk is such a store |
| DiskStore.Disk.ReadBlock | sw/deployer/src/disk.rs:120-134 | the bytes stored for the location, nothing for unknown ones, an error past the end |
| DiskStore.Disk.WriteBlock | sw/deployer/src/disk.rs:136-152 | refused exactly for unknown, read-only or wrongly sized blocks; otherwise it reads back and all others are unchanged |
| DiskGeometry.GoodCount | sw/deployer/src/disk.rs:259-260 | a zone has its tracks less the distinct existing bad ones |
| DiskGeometry.SumIsOrderFree | sw/deployer/src/disk.rs:80-88 | what is summed over the zones does not depend on the disk type |
| DiskGeometry.WalkLength | sw/deployer/src/disk.rs:245-283 | tracks walked are the sum over the zones |
| DiskGeometry.WalkBytes | sw/deployer/src/disk.rs:245-283 | so is the offset where the walk ends |
| DiskGeometry.TrackCount | sw/deployer/src/disk.rs:245-283 | 2350 tracks less the bad ones, for every disk type |
| DiskLayout.NamedTracks | sw/deployer/src/disk.rs:224-237 | a list names as many tracks as it has entries if and only if they are distinct and exist |
| DiskLayout.BlockCount | sw/deployer/src/disk.rs:245-283 | never fewer than 4316 blocks, and exactly 4316 if and only if every entry counts |
| DiskLayout.ImageLength | sw/deployer/src/disk.rs:245-283 | then the image ends at byte 64,931,840 for every disk type |
| DiskLayout.EvenBlocks | sw/deployer/src/disk.rs:245-283 | on every disk image blocks start at even offsets and disk sectors have even lengths |
| DiskLayout.FilledExact | sw/deployer/src/disk.rs:226-237 | a filled-up list counts twelve tracks if and only if the listed ones are distinct and none is a filler |
| DiskLayout.ZoneBadTracks | sw/deployer/src/disk.rs:224-237 | the loops read and fill up the lists of all zones |
| DiskLayout.SystemDataDecides | sw/deployer/src/disk.rs:224-285 | a disk has 4316 blocks if and only if its system data lists no track twice and no filler |
| DiskLayout.FirstZoneOffsets | sw/deployer/src/disk.rs:288-294 | blocks of the first zone lie at lba times 19720, where the system area is looked for |
| DiskLayout.SystemBlocks | sw/deployer/src/disk.rs:288-294 | at least 146 tracks of the first zone remain, so the system blocks are among them |
| DiskLayout.ClosedFormAgrees | sw/deployer/src/disk.rs:110-118 | with the tracks up to it good, the closed form is the number in the index |
| DiskLayout.BadTrackAbsent | sw/deployer/src/disk.rs:259-260 | a bad track is under no location at all |
| DiskLayout.ShortcutExact | sw/deployer/src/disk.rs:110-118 | for each of the first tracks, the number computed without the index is the one in the index if and only if no track up to it is bad and the block is not left out |
| DiskOpen.SystemBlockIsIndexed | sw/deployer/src/disk.rs:288-294 | what is read as a system block is what the index stores for that block |
| DiskOpen.VerifySysLba | sw/deployer/src/disk.rs:296-306 | true if and only if all sectors of the block are copies of the first |
| DiskOpen.UnusableMeaning | sw/deployer/src/disk.rs:183-203 | a block is marked bad if and only if it is no system block; system data exists unless all are bad |
| DiskOpen.SearchArea | sw/deployer/src/disk.rs:184-198 | bad blocks and the last genuine system data of one area |
| DiskOpen.SearchAreas | sw/deployer/src/disk.rs:183-206 | the retail area, or else the development area, with its blocks to leave out |
| DiskOpen.CheckIds | sw/deployer/src/disk.rs:211-222 | the identification blocks whose sectors differ |
| DiskOpen.Open | sw/deployer/src/disk.rs:155-286 | which files are refused and why; otherwise the disk its system area describes |
| DiskOpen.OpenedShortcut | sw/deployer/src/disk.rs:110-118 | on an opened disk the shortcut is right exactly where the system data lists no track up to there and the block is not left out |
| DiskOpen.ShortcutNeverRight | sw/deployer/src/disk.rs:110-118 | on every opened disk it is wrong somewhere: at track 1, block 1 of a retail disk and at track 0, block 0 of a development disk |
| DiskOpen.TwiceOpened | sw/deployer/src/disk.rs:155-286 | a file that lists a track twice is opened with more than 4316 blocks, and the shortcut is wrong on it behind that track too |
| DiskAccept.GenuineExactly | sw/deployer/src/disk.rs:186-198 | a block is system data just when the bytes of the file at its place say so |
| DiskAccept.LeftOut | sw/deployer/src/disk.rs:183-207 | which blocks an opened disk leaves out: copies of the system data that are not genuine, the area of the other format, and the reserved ones |
| DiskAccept.BadTracksExactly | sw/deployer/src/disk.rs:224-237 | the bad tracks of a zone are those its list names and the last ones of the zone, twelve entries in all |
| DiskAccept.IdsExactly | sw/deployer/src/disk.rs:211-222 | the identification blocks fail just when the sectors of both differ |
| DiskAccept.OpenedExactly | sw/deployer/src/disk.rs:177-286 | which files are opened, and for which reason others are not, in terms of the bytes of the file |
| FirmwareFormat.CrcFoldSplit | sw/controller/src/update.c:52-65 | folding a checksum block by block is folding the whole |
| FirmwareFormat.AreChunksAppend | sw/tools/update.py:166-176 | a chunk behind a list of chunks is a longer list of chunks |
| FirmwareFormat.HeaderFields | sw/controller/src/update.c:107-126 | the four fields a reader finds are those that were written |
| FirmwareFormat.SlotIsLast | sw/deployer/src/sc64/firmware.rs:94-149 | of several chunks of a kind the last is kept |
| FirmwareTools.UpdateWriter.constructor | sw/tools/update.py:178-179 | a new container is empty |
| FirmwareTools.UpdateWriter.AddChunk | sw/tools/update.py:161-176 | the container holds one sound chunk more, or is unchanged exactly when a length does not fit its field |
| FirmwareTools.CreateBootloaderOnlyFirmware | sw/tools/primer.py:171-187 | a container with exactly the bootloader |
| FirmwareTools.WrittenLoads | sw/tools/primer.py:98-154 | what a writer produced loads to the last data of each kind: always in firmware.rs, in primer.py if and only if its update information is ASCII |
| FirmwareTools.RustRefuses | sw/deployer/src/sc64/firmware.rs:113-141 | firmware.rs refuses a container for the first chunk it does not take: an unknown kind, else a wrong checksum |
| FirmwareTools.PrimerRefuses | sw/tools/primer.py:98-139 | primer.py does too: a wrong checksum, else text that is not ASCII, else an unknown kind |
| FirmwareTools.RustLoads | sw/deployer/src/sc64/firmware.rs:94-149 | a container is loaded if and only if every chunk has a kind from 1 to 5 and the right checksum |
| FirmwareTools.PrimerLoads | sw/tools/primer.py:98-154 | the same, if the update information is ASCII as well |
| FirmwareTools.LoadedParts | sw/deployer/src/sc64/firmware.rs:132-140 | each part that was loaded is the data of the last chunk of its kind, by number |
| FirmwareTools.AccentRefused | sw/tools/primer.py:128-129 | an accented letter in the update information: firmware.rs takes it, primer.py fails |
| FirmwareTools.NextChunk | sw/tools/primer.py:98-112 | where a reader is after a chunk, and that it ends exactly at the end |
| FirmwareTools.Verify | sw/deployer/src/sc64/firmware.rs:94-149 | for any bytes at all a wrong token is refused; a container is loaded if and only if every chunk is of a known kind and sound, and otherwise the first one that is not decides: unknown kind, then wrong checksum |
| FirmwareTools.Load | sw/tools/primer.py:98-154 | a container is loaded if and only if every chunk is sound, of a known kind and, as update information, ASCII; otherwise the first one that is not decides: wrong checksum, then not ASCII, then unknown kind |
| FirmwareUpdate.Updater.UpdateChecksum | sw/controller/src/update.c:52-65 | blocks of 128 bytes give the checksum of the whole |
| FirmwareUpdate.Updater.PrepareChunk | sw/controller/src/update.c:74-80 | writes the id and leaves room for the header |
| FirmwareUpdate.Updater.FinalizeChunk | sw/controller/src/update.c:82-93 | what lies there now is a sound chunk, and only header bytes were written |
| FirmwareUpdate.Updater.CopyMcuFlash | sw/controller/src/update.c:206-210 | memory holds the flash contents, eight bytes at a time |
| FirmwareUpdate.Updater.CopyBootloader | sw/controller/src/update.c:220-223 | copying inside memory, 1024 bytes at a time, does not read what it has written |
| FirmwareUpdate.Updater.Backup | sw/controller/src/update.c:194-231 | a container with the three flash contents; reported as fitting if and only if start + 2 length lies inside SDRAM |
| FirmwareUpdate.Updater.FittingRefused | sw/controller/src/update.c:226-230 | there is always a start where the backup fits in front of the end of SDRAM and is refused |
| FirmwareUpdate.Updater.CheckToken | sw/controller/src/update.c:95-105 | true if and only if the token differs |
| FirmwareUpdate.Updater.GetChunk | sw/controller/src/update.c:107-126 | id, data and length of the chunk, the next chunk, and whether the checksum is wrong |
| FirmwareUpdate.Updater.Prepare | sw/controller/src/update.c:233-297 | the verdict on a container is that of its first chunk out of order, success if and only if there is none; on success the parameters describe the last chunk of each kind |
| FirmwareUpdate.Updater.Select | sw/controller/src/update.c:260-293 | one chunk: its flag and address, or the error |
| FirmwareUpdate.Updater.ReadLength | sw/controller/src/update.c:309-337 | the length found again in front of the data is the one that was checked |
| FirmwareUpdate.Updater.BackupIsAccepted | sw/controller/src/update.c:194-297 | a backup reported as fitting is accepted, with three flags and the lengths and data of the three parts |
| FirmwareUpdate.BackupOutcome | sw/controller/src/update.c:233-297 | the verdict on the chunks of a backup |
| FirmwareUpdate.AcceptedExactly | sw/controller/src/update.c:233-297 | a container is accepted if and only if all its chunks have the right checksum, a kind from 1 to 5, and as MCU, FPGA or bootloader data at most the length of what they replace |
| FirmwareUpdate.RefusedFor | sw/controller/src/update.c:233-297 | otherwise the first chunk out of order decides: a wrong checksum, then an unknown kind, then its length |
| CicEmulator.UnscrambleScramble | sw/cic/cic.c:99-105 | a scrambling round can be undone |
| CicEmulator.ScrambleUnscramble | sw/cic/cic.c:99-105 | and every sequence of cells comes from one |
| CicEmulator.EncodeRound | sw/cic/cic.c:99-105 | the bytes of the round mean the round on 4-bit cells; the rest of the memory is untouched |
| CicEmulator.WriteRamNibbles | sw/cic/cic.c:93-97 | the low halves go out in order |
| CicEmulator.WriteSeed | sw/cic/cic.c:131-155 | the six cells are two rounds of the seed's cells |
| CicEmulator.SeedRecovered | sw/cic/cic.c:131-155 | the transmitted cells determine the seed |
| CicEmulator.LoadChecksum | sw/cic/cic.c:157-170 | four zero cells and the twelve of the checksum |
| CicEmulator.WriteChecksum | sw/cic/cic.c:157-178 | the sixteen cells are four rounds of those |
| CicEmulator.ChecksumRecovered | sw/cic/cic.c:157-178 | the transmitted cells determine the six checksum bytes |
| CicEmulator.ExchangeBytes | sw/cic/cic.c:199-203 | accumulator and cell change places |
| CicEmulator.RoundHead | sw/cic/cic.c:212-225 | the first cells and the carry that skips one, on unmasked bytes as on 4-bit cells |
| CicEmulator.RoundMiddle | sw/cic/cic.c:226-238 | the next three cells and the carry of adding 8 |
| CicEmulator.RoundTail | sw/cic/cic.c:239-244 | the cells up to the last one, and no further |
| CicEmulator.CicPass | sw/cic/cic.c:211-247 | one pass of the 4-bit machine |
| CicEmulator.CountDown | sw/cic/cic.c:245-247 | the unmasked counter ends the loop after the right pass |
| CicEmulator.CicRound | sw/cic/cic.c:205-248 | a round is as many passes as the value of the last cell plus one |
| CicEmulator.CompareMode | sw/cic/cic.c:250-272 | the answer bits are a function of the 4-bit cells alone |
| CicEmulator.CompareBits | sw/cic/cic.c:250-272 | after three rounds the answer is the lowest bits of the cells from the one cell 7 names (cell 1 for none) up to 15, or down to 1 |
| CicEmulator.SendCells | sw/cic/cic.c:263-271 | upwards or downwards until the end of the cells |
| CicEmulator.X105Cell | sw/cic/cic.c:274-301 | the byte arithmetic for one cell, and that it stays in range |
| CicEmulator.X105Algorithm | sw/cic/cic.c:274-301 | the payload is replaced by its answers, at any length |
| CicEmulator.QuestionAnswer | sw/cic/cic.c:274-301 | a challenge cell can be read off its answer |
| CicEmulator.AnswerQuestion | sw/cic/cic.c:274-301 | every answer has a challenge cell |
| CicEmulator.QuestionsOfAnswers | sw/cic/cic.c:274-301 | the same for sequences of any length: the transform is injective |
| CicEmulator.AnswersOfQuestions | sw/cic/cic.c:274-301 | and onto |
| Ipl3.ShiftsAreRotations | sw/bootloader/src/cic.c:21-27 | two shifts with a negated amount are a rotation, for every amount |
| Ipl3.SumMeaning | sw/bootloader/src/cic.c:29-35 | the lower half of the 64-bit product is taken from the upper half; a zero second factor and a zero difference are replaced |
| Ipl3.CLow | sw/bootloader/src/cic.c:37-98 | cells 0 to 4 of the C loop |
| Ipl3.CMiddle | sw/bootloader/src/cic.c:37-98 | cells 5 to 9 of the C loop |
| Ipl3.CBack | sw/bootloader/src/cic.c:37-98 | cells 10 to 15 of the C loop |
| Ipl3.CFinish | sw/bootloader/src/cic.c:37-98 | the final folding of the C code |
| Ipl3.CChecksum | sw/bootloader/src/cic.c:37-98 | the rolling window computes the checksum, for every image and seed |
| Ipl3.RustWord | sw/deployer/src/sc64/cic.rs:6-80 | one iteration, reading by index |
| Ipl3.RustFinish | sw/deployer/src/sc64/cic.rs:82-111 | the final folding of the Rust code |
| Ipl3.RustChecksum | sw/deployer/src/sc64/cic.rs:6-111 | the same checksum as the C code; nothing for a short image |
| Ipl3.CDetect | sw/bootloader/src/cic.c:101-128 | the detection, as a function of the checksums |
| Ipl3.DetectAgreesWithTable | sw/deployer/src/sc64/cic.rs:118-137 | the C code detects a boot code if and only if it is in the Rust table, with the same seed |
| Ipl3.SignIpl3 | sw/deployer/src/sc64/cic.rs:113-144 | reports a match if and only if the C code detects the image, with its seed when only one seed matches |
| Rle.RunsOfExpand | sw/bootloader/tools/asset_converter.py:8-33 | the records are well formed and stand for exactly the values |
| Rle.RunsOfOptimal | sw/bootloader/tools/asset_converter.py:8-33 | no list of records of 1 to 256 repeats for the same values is shorter |
| Rle.Compress | sw/bootloader/tools/asset_converter.py:8-33 | refuses misaligned and too long data, otherwise the header and exactly those records |
| Rle.CompressAligned | sw/bootloader/tools/asset_converter.py:14-33 | the loop, which closes a record at 256 repeats |
| Rle.RecordFields | sw/bootloader/src/display.c:69-87 | shifts and masks take a record word apart |
| Rle.WordsOfRuns | sw/bootloader/src/display.c:69-87 | a reader of words sees one word per record |
| Rle.Decompress | sw/bootloader/src/display.c:69-87 | paints the pixels of the records with opaque alpha, reads exactly their words, and nothing beyond is painted |
| Rle.RoundTrip | sw/bootloader/src/display.c:69-87 | decompressing what compress produced paints bytes 3 i to 3 i + 2 at pixel i, and nothing behind the image |

## Left out

- FPGA registers, SPI, I2C, timers, LEDs, the button's debouncing and the real-time clock: they appear as inputs or as nondeterminism.
- Wall-clock limits: the USB debug timeout, the host's read timeout and the drive's spin-up time are events that may happen at any poll.
- UsbDevice.Usb.RxSimple: lets the rest of the firmware write any memory, fail and choose the words of the answer; stated are the answer's length and error flag, and that an unknown command is answered with 0xFFFFFFFF.
- UsbDevice.Usb.RxSectors: leaves the transfer and the data word of the answer to the rest of the firmware; stated are the errors for wrong counts and ranges.
- The serial, FTDI and TCP backends of the host, its reset handshake and its unlock command: `Backend` is a byte stream that arrives in pieces.
- Bytes of the previous stream that are still in the host's buffers after a reset: a reset starts a new history on both sides.
- UsbState.Carries: says which memory a frame holds when nobody changed that memory between the start of the message and its end; while it changes, only how many bytes there are.
- UsbSession.Run: says nothing of the wire across a reset but that the invariants hold; a packet with a callback that waits when the link goes down is dropped, as in the source.
- IsViewer.Isv.Run: covers an active link, one buffer address, even because the controller reads and writes memory in 16-bit words, a console that keeps to the ring protocol, and a host that does not write the ring (`alone` is lost exactly otherwise). When the link goes down the callback also moves the read pointer, and those bytes are lost.
- IsViewer.Isv.Poll: starts behind the setup handshake with the console, which returns before anything else.
- IsViewer.Isv.Store: is what the console's library has to do; that library is not part of this model.
- The clock commands and version words of the 64DD command set: they are answered like any other command.
- The lock on the SD card between host and console, beyond whether a request holds it.
- SdBlocks.Sd.ReadSectors: has no byte swapping, so it does not refuse an odd address while that is on (sw/controller/src/sd.c:574).
- The SD card's initialisation sequence, and what a failed command has already transferred, beyond where it may have.
- SdBlocks.Sd.OptimizeSectors: says success or failure, not the error code, since the code drops it too (sw/controller/src/sd.c:619); results are for sectors whose command argument does not wrap around 32 bits.
- DiskDrive.Drive.BlockReadRequest: says whether a request for a host over USB was queued, not what the packet holds.
- DiskDrive.Drive.BlockWriteRequest: the same for a write request.
- DiskDrive.Drive.FillSdSectorTable: reads its tables at byte addresses; in the original the bus drops address bit 0, so this is for tables at even addresses.
- DiskDrive.Drive.Run: assumes what the console's drive hardware asks for, disk sectors of at most 232 bytes and 5 to 89 sectors in a block.
- DriveTransfer.WriteBlock: assumes distinct SD sectors, tables outside the two buffers, and between start and write-back no reset, start, stop, seek, change of disk or mode, foreign write to the card, or store into the block buffer or the tables; with such events `DiskDrive.Drive.Run` still holds.
- DriveReading.ReadBlock: covers SD mode, and between start and end no reset, start, stop, seek, change of disk or mode, foreign write to the card, answer of the host in place of the card, or store into the block buffer or (before the block was read) its tables; that the verdict is always said is for a console that requests nothing before it.
- UsbSession.AnsweredRightly: leaves open whether the commands that other parts of the firmware carry out (`c`, `C`, `a`, `A`, `i`, `P`, `f`, `F`, and `s` and `S` once their range is allowed) fail.
- DiskOpen.Open: a bad track table that does not fit ends the original with a panic; here it is a refusal of its own.
- FirmwareTools.Load: claims nothing of malformed containers, on which the original may never return.
- FirmwareUpdate.Updater.Backup: is for even start addresses; at an odd one the controller's 16-bit accesses shift everything down by one byte. The same holds for the other members of `Updater`.
- FirmwareUpdate.Updater.GetChunk: is stated for an address where a well-formed chunk lies; elsewhere the original reads whatever lengths it finds.
- FirmwareUpdate.Updater.Prepare: is stated for a right token followed by a container; on other bytes the original may never return.
- FirmwareTools.Verify: computes the padding as a build without overflow checks does, and keeps the update information as bytes where the original decodes it, replacing what is not UTF-8.
- CRC-32: a fold of an arbitrary byte step; its strength is not a subject here.
- Device memory during a backup is one flat array; the padding between chunks is whatever was there before.
- The flashing itself: `mcu_update`, `bootloader_update` and the FPGA vendor routines after the lengths have been read again.
- What the update information says, JEDEC parsing, and the primer's own serial protocol.
- The pin timing, power-on and region handshake of the lockout chip.
- Text and box drawing, the menu, PNG decoding and file output of the asset converter.
