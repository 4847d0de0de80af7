/**
 The 64DD block buffer of sw/controller/src/dd.c on its own: where a block lies in the SD sectors that
 hold it, how many of them a table needs, and why writing the whole buffer back only changes the block.
 */
module DriveBuffer {
  import opened Bytes
  import opened SdBlocks
  import opened DriveControl

  const BUFFER_SIZE := (SECTOR_MAX_SIZE * DATA_SECTORS + SECTOR_SIZE - 1) / SECTOR_SIZE * SECTOR_SIZE + SECTOR_SIZE
  const BUFFER_ADDRESS := 0x03BC_0000 - BUFFER_SIZE
  const SECTOR_BUFFER_ADDRESS := 0x0500_2800
  const TABLE_SIZE := BUFFER_SIZE / SECTOR_SIZE
  const UNMAPPED := 0xFFFF_FFFF
  const WRITABLE_FLAG := 0x8000_0000

  // ---------- how many SD sectors a block touches ----------

  /** SD sectors touched by n bytes from position `start` of an image. */
  function SectorSpan(start: nat, n: nat): (r: nat)
    requires n > 0
  {
    1 + (start + n - 1) / SECTOR_SIZE - start / SECTOR_SIZE
  }

  lemma {:induction false} SpanHolds(start: nat, n: nat)
    requires n > 0
    ensures start % SECTOR_SIZE + n <= SectorSpan(start, n) * SECTOR_SIZE
    ensures SectorSpan(start, n) <= 1 + (SECTOR_SIZE - 2 + n) / SECTOR_SIZE
  {
    var q, r := start / SECTOR_SIZE, start % SECTOR_SIZE;
    assert start == q * SECTOR_SIZE + r;
    assert (start + n - 1) / SECTOR_SIZE == q + (r + n - 1) / SECTOR_SIZE;
  }

  lemma {:induction false} SpanFits(start: nat, n: nat)
    requires 0 < n <= BUFFER_SIZE - SECTOR_SIZE
    ensures SectorSpan(start, n) <= TABLE_SIZE && start % SECTOR_SIZE + n <= SectorSpan(start, n) * SECTOR_SIZE
  {
    SpanHolds(start, n);
    hide SectorSpan;
  }

  /** The sector table is large enough for every place of a block just when a disk sector has at most 234 bytes. */
  lemma {:induction false} TableFitsExactly(length: nat)
    requires length > 0
    ensures (forall start: nat :: SectorSpan(start, length * DATA_SECTORS) <= TABLE_SIZE) <==> length <= 234
  {
    if length <= 234 {
      forall start: nat
        ensures SectorSpan(start, length * DATA_SECTORS) <= TABLE_SIZE
      {
        SpanHolds(start, length * DATA_SECTORS);
      }
    } else {
      assert SectorSpan(511, length * DATA_SECTORS) > TABLE_SIZE;
    }
  }

  // ---------- the image in some SD sectors ----------

  /** The SD sectors of a table hold this image. */
  ghost predicate HasImage(card: seq<byte>, table: seq<word>, image: seq<byte>) {
    |image| == |table| * SECTOR_SIZE && OnCard(card, table, |table|) &&
    forall k, i :: 0 <= k < |table| && 0 <= i < SECTOR_SIZE ==> TableByte(card, table, k, i) == image[k * SECTOR_SIZE + i]
  }

  // ---------- the copy engine ----------

  /** Bytes fpga_mem_copy moves for n: whole 16-bit words. */
  function Paired(n: nat): (m: nat)
    ensures n <= m <= n + 1 && m % 2 == 0
  {
    n + n % 2
  }

  /** The word an address is in: the memory bus drops the lowest bit. */
  function Even(address: nat): (a: nat)
    ensures a <= address <= a + 1 && a % 2 == 0
  {
    address - address % 2
  }

  /** fpga_mem_copy, on the bus of the FPGA: all words are read before the first one is written. */
  function MemCopy(mem: seq<byte>, src: nat, dst: nat, n: nat): (r: seq<byte>)
    requires Even(src) + Paired(n) <= |mem| && Even(dst) + Paired(n) <= |mem|
    ensures |r| == |mem|
  {
    Blit(mem, Even(dst), mem, Even(src), Paired(n))
  }

  /** Both buffers start at even addresses. */
  lemma {:induction false} BufferEven(at: nat)
    ensures Even(BUFFER_ADDRESS + at) == BUFFER_ADDRESS + Even(at) && Even(SECTOR_BUFFER_ADDRESS) == SECTOR_BUFFER_ADDRESS
  {
  }

  // ---------- disk sectors laid over an image ----------

  /** Bytes of n disk sectors. */
  function SectorsLength(n: nat, length: nat): nat {
    n * length
  }

  lemma {:induction false} OneMore(n: nat, length: nat)
    ensures SectorsLength(n, length) + length == SectorsLength(n + 1, length) && SectorsLength(0, length) == 0
  {
  }

  lemma {:induction false} NoMore(n: nat, length: nat)
    requires n <= DATA_SECTORS
    ensures SectorsLength(n, length) <= DATA_SECTORS * length
  {
  }

  lemma {:induction false} SectorFits(n: nat, length: nat)
    requires n < DATA_SECTORS
    ensures SectorsLength(n, length) + length == SectorsLength(n + 1, length) <= DATA_SECTORS * length
  {
    OneMore(n, length);
    NoMore(n + 1, length);
    hide SectorsLength;
  }

  /** Where the engine finds or puts disk sector k of a block that starts at `offset`. */
  function SectorPlace(offset: nat, length: nat, k: nat): nat {
    Even(offset + SectorsLength(k, length))
  }

  /** What is copied for a disk sector ends where it ends, or one byte behind that at an even address. */
  lemma {:induction false} PlaceEnds(offset: nat, length: nat, k: nat)
    ensures SectorPlace(offset, length, k) + Paired(length) <= Even(offset + SectorsLength(k + 1, length) + 1)
    ensures k < DATA_SECTORS ==> SectorPlace(offset, length, k) + Paired(length) <= Even(offset + length * DATA_SECTORS + 1)
    ensures Even(offset) <= SectorPlace(offset, length, k)
  {
    OneMore(k, length);
    if k < DATA_SECTORS { SectorFits(k, length); }
    hide SectorsLength;
  }

  /** Bytes laid over an image; what would lie behind its end is cut off. */
  function LaidOver(image: seq<byte>, at: nat, bytes: seq<byte>): (r: seq<byte>)
    ensures |r| == |image|
    ensures forall i :: 0 <= i < |image| ==> r[i] == if at <= i < at + |bytes| then bytes[i - at] else image[i]
  {
    seq(|image|, i requires 0 <= i < |image| => if at <= i < at + |bytes| then bytes[i - at] else image[i])
  }

  /** What was copied for each disk sector, laid over the image one after the other. */
  ghost function Laid(image: seq<byte>, offset: nat, length: nat, got: seq<seq<byte>>): (r: seq<byte>)
    ensures |r| == |image|
  {
    if got == [] then image else
      LaidOver(Laid(image, offset, length, got[..|got| - 1]), SectorPlace(offset, length, |got| - 1), got[|got| - 1])
  }

  lemma {:induction false} LaidOne(image: seq<byte>, offset: nat, length: nat, got: seq<seq<byte>>, more: seq<byte>)
    ensures Laid(image, offset, length, got + [more]) == LaidOver(Laid(image, offset, length, got), SectorPlace(offset, length, |got|), more)
  {
    assert (got + [more])[..|got|] == got;
  }

  lemma {:induction false} LaidSplit(image: seq<byte>, offset: nat, length: nat, got: seq<seq<byte>>)
    requires got != []
    ensures Laid(image, offset, length, got) ==
      LaidOver(Laid(image, offset, length, got[..|got| - 1]), SectorPlace(offset, length, |got| - 1), got[|got| - 1])
  {
    hide LaidOver, SectorPlace;
  }

  ghost predicate AllPaired(got: seq<seq<byte>>, n: nat) {
    forall i :: 0 <= i < |got| ==> |got[i]| == Paired(n)
  }

  /** The disk sectors, each of n bytes, end to end. */
  ghost function Gathered(got: seq<seq<byte>>, n: nat): seq<byte>
    requires AllPaired(got, n)
  {
    if got == [] then [] else
      var last := got[|got| - 1];
      assert |last| == Paired(n);
      Gathered(got[..|got| - 1], n) + last[..n]
  }

  lemma {:induction false} GatheredLength(got: seq<seq<byte>>, n: nat)
    requires AllPaired(got, n)
    ensures |Gathered(got, n)| == SectorsLength(|got|, n)
  {
    hide SectorsLength;
    if got == [] {
      OneMore(0, n);
    } else {
      GatheredLength(got[..|got| - 1], n);
      OneMore(|got| - 1, n);
    }
  }

  /** With an even length and an even start, the sectors lie end to end where the block starts. */
  lemma {:induction false} LaidEven(image: seq<byte>, offset: nat, length: nat, got: seq<seq<byte>>)
    requires offset % 2 == 0 && length % 2 == 0 && AllPaired(got, length)
    ensures Laid(image, offset, length, got) == LaidOver(image, offset, Gathered(got, length))
  {
    if got != [] {
      var init, last := got[..|got| - 1], got[|got| - 1];
      assert got == init + [last];
      LaidOne(image, offset, length, init, last);
      LaidEven(image, offset, length, init);
      GatheredLength(init, length);
      EvenPlace(offset, length, |init|);
      assert Gathered(got, length) == Gathered(init, length) + last;
      hide Laid, Gathered, LaidOver, SectorPlace, SectorsLength;
      LaidTwice(image, offset, Gathered(init, length), last);
    }
  }

  lemma {:induction false} EvenPlace(offset: nat, length: nat, k: nat)
    requires offset % 2 == 0 && (length % 2 == 0 || k % 2 == 0)
    ensures SectorPlace(offset, length, k) == offset + SectorsLength(k, length)
  {
    EvenProduct(k, length);
    hide SectorsLength;
  }

  lemma {:induction false} EvenProduct(k: nat, length: nat)
    requires length % 2 == 0 || k % 2 == 0
    ensures SectorsLength(k, length) % 2 == 0
  {
    if length % 2 == 0 {
      var h := length / 2;
      assert k * (2 * h) == 2 * (k * h);
    } else {
      var h := k / 2;
      assert (2 * h) * length == 2 * (h * length);
    }
  }

  lemma {:induction false} LaidTwice(image: seq<byte>, at: nat, first: seq<byte>, more: seq<byte>)
    ensures LaidOver(LaidOver(image, at, first), at + |first|, more) == LaidOver(image, at, first + more)
  {
    hide LaidOver;
  }

  /** Bytes where no sector is put stay. */
  lemma {:induction false} LaidBeside(image: seq<byte>, offset: nat, length: nat, got: seq<seq<byte>>, lo: nat, hi: nat, j: nat)
    requires AllPaired(got, length) && j < |image| && (j < lo || hi <= j)
    requires forall k :: 0 <= k < |got| ==> lo <= SectorPlace(offset, length, k) && SectorPlace(offset, length, k) + Paired(length) <= hi
    ensures Laid(image, offset, length, got)[j] == image[j]
  {
    hide SectorPlace, Paired, LaidOver;
    if got != [] { LaidBeside(image, offset, length, got[..|got| - 1], lo, hi, j); }
  }

  lemma {:induction false} LengthsGrow(k: nat, n: nat, length: nat)
    requires k <= n
    ensures SectorsLength(k, length) <= SectorsLength(n, length)
  {
    assert n * length == k * length + (n - k) * length;
  }

  /** Bytes in front of the first sector's word and behind the last one's are never touched. */
  lemma {:induction false} LaidOutside(image: seq<byte>, offset: nat, length: nat, got: seq<seq<byte>>, j: nat)
    requires AllPaired(got, length) && j < |image|
    requires j < Even(offset) || Even(offset + SectorsLength(|got|, length) + 1) <= j
    ensures Laid(image, offset, length, got)[j] == image[j]
  {
    hide *;
    var lo, hi := Even(offset), Even(offset + SectorsLength(|got|, length) + 1);
    forall k | 0 <= k < |got|
      ensures lo <= SectorPlace(offset, length, k) && SectorPlace(offset, length, k) + Paired(length) <= hi
    {
      PlaceEnds(offset, length, k);
      LengthsGrow(k + 1, |got|, length);
      EvenGrows(offset + SectorsLength(k + 1, length) + 1, offset + SectorsLength(|got|, length) + 1);
    }
    LaidBeside(image, offset, length, got, lo, hi, j);
  }

  lemma {:induction false} EvenGrows(x: nat, y: nat)
    requires x <= y
    ensures Even(x) <= Even(y)
  {
  }

  lemma {:induction false} EvenBelow(x: nat, n: nat)
    requires x <= n && n % 2 == 0
    ensures Even(x + 1) <= n
  {
  }

  // ---------- a block laid out in the buffer ----------

  /**
   A block read from the card: the SD sectors and what they held, and what was copied into the buffer since
   for each of so many disk sectors.
   */
  datatype Session = Session(table: seq<word>, offset: nat, length: nat, sectors: nat, image: seq<byte>, got: seq<seq<byte>>)

  ghost predicate Proper(s: Session) {
    |s.table| <= TABLE_SIZE && |s.image| == |s.table| * SECTOR_SIZE && 0 < s.length && s.offset < SECTOR_SIZE &&
    s.offset + s.length * DATA_SECTORS <= |s.image| && |s.got| <= DATA_SECTORS && AllPaired(s.got, s.length)
  }

  /** The image with what was collected over it. */
  ghost function Overlaid(s: Session): (r: seq<byte>)
    ensures |r| == |s.image|
  {
    Laid(s.image, s.offset, s.length, s.got)
  }

  /** One more disk sector. */
  ghost function WithSector(s: Session, more: seq<byte>): Session {
    s.(got := s.got + [more])
  }

  lemma {:induction false} OverlaidMore(s: Session, more: seq<byte>)
    ensures Overlaid(WithSector(s, more)) == LaidOver(Overlaid(s), SectorPlace(s.offset, s.length, |s.got|), more)
  {
    LaidOne(s.image, s.offset, s.length, s.got, more);
  }

  /** The part of memory that holds the first n bytes of the block buffer. */
  function Buffered(mem: seq<byte>, n: nat): seq<byte>
    requires |mem| == ADDRESSES && n <= BUFFER_SIZE
  {
    mem[BUFFER_ADDRESS..BUFFER_ADDRESS + n]
  }

  lemma {:induction false} BufferedBlit(mem: seq<byte>, n: nat, at: nat, source: seq<byte>, from: nat, count: nat)
    requires |mem| == ADDRESSES && n <= BUFFER_SIZE && from + count <= |source| && BUFFER_ADDRESS + at + count <= |mem|
    ensures Buffered(Blit(mem, BUFFER_ADDRESS + at, source, from, count), n) == LaidOver(Buffered(mem, n), at, source[from..from + count])
  {
    var a := Buffered(Blit(mem, BUFFER_ADDRESS + at, source, from, count), n);
    var b := LaidOver(Buffered(mem, n), at, source[from..from + count]);
    hide Blit, LaidOver;
    forall i | 0 <= i < n
      ensures a[i] == b[i]
    {
    }
  }

  lemma {:induction false} BufferedElsewhere(mem: seq<byte>, after: seq<byte>, n: nat)
    requires |mem| == ADDRESSES && |after| == ADDRESSES && n <= BUFFER_SIZE
    requires forall j :: BUFFER_ADDRESS <= j < BUFFER_ADDRESS + n ==> after[j] == mem[j]
    ensures Buffered(after, n) == Buffered(mem, n)
  {
  }

  // ---------- reading a block ----------

  /** A completed table read leaves the image of the table in the buffer. */
  lemma {:induction false} ReadGivesImage(mem: seq<byte>, card: seq<byte>, table: seq<word>)
    requires |mem| == ADDRESSES && |table| <= TABLE_SIZE && OnCard(card, table, |table|)
    ensures HasImage(card, table, Buffered(ReadTable(mem, card, BUFFER_ADDRESS, table, |table|), |table| * SECTOR_SIZE))
  {
    var after := ReadTable(mem, card, BUFFER_ADDRESS, table, |table|);
    var image := Buffered(after, |table| * SECTOR_SIZE);
    hide ReadTable, TableByte;
    forall k, i | 0 <= k < |table| && 0 <= i < SECTOR_SIZE
      ensures TableByte(card, table, k, i) == image[k * SECTOR_SIZE + i]
    {
      ReadTableMeaning(mem, card, BUFFER_ADDRESS, table, |table|, k, i);
    }
  }

  // ---------- writing it back ----------

  /** Writing the buffer back puts what it holds into the SD sectors of the table, and into no other. */
  lemma {:induction false} WriteBackHolds(mem: seq<byte>, card: seq<byte>, table: seq<word>)
    requires |mem| == ADDRESSES && |table| <= TABLE_SIZE && OnCard(card, table, |table|) && DistinctSectors(table)
    ensures var after := WriteTable(card, mem, BUFFER_ADDRESS, table, |table|);
      OnlyListed(table, card, after) && HasImage(after, table, Buffered(mem, |table| * SECTOR_SIZE))
  {
    WriteBackListed(card, mem, table);
    var after, image := WriteTable(card, mem, BUFFER_ADDRESS, table, |table|), Buffered(mem, |table| * SECTOR_SIZE);
    hide WriteTable, TableByte, OnlyListed, DistinctSectors;
    forall k, i | 0 <= k < |table| && 0 <= i < SECTOR_SIZE
      ensures TableByte(after, table, k, i) == image[k * SECTOR_SIZE + i]
    {
      WriteTableMeaning(card, mem, BUFFER_ADDRESS, table, |table|, k, i);
    }
  }

  lemma {:induction false} ImageOnCard(card: seq<byte>, table: seq<word>, image: seq<byte>)
    requires HasImage(card, table, image)
    ensures OnCard(card, table, |table|)
  {
  }

  lemma {:induction false} WriteBackListed(card: seq<byte>, mem: seq<byte>, table: seq<word>)
    requires |mem| == ADDRESSES && |table| <= TABLE_SIZE && OnCard(card, table, |table|)
    ensures OnlyListed(table, card, WriteTable(card, mem, BUFFER_ADDRESS, table, |table|))
  {
    var after := WriteTable(card, mem, BUFFER_ADDRESS, table, |table|);
    hide WriteTable;
    forall j | 0 <= j < |card| && j / SECTOR_SIZE !in table
      ensures after[j] == card[j]
    {
      WriteTableFrame(card, mem, BUFFER_ADDRESS, table, |table|, j);
    }
  }

  // ---------- odd places and odd lengths ----------

  /** So many sectors of a block at this place of the image have been collected. */
  ghost predicate Collected(s: Session, start: nat, length: nat, sectors: nat) {
    Proper(s) && s.offset == start % SECTOR_SIZE && s.length == length && s.sectors == sectors == |s.got| &&
    |s.table| == SectorSpan(start, length * DATA_SECTORS)
  }

  /** Nothing beside the block changes. */
  ghost predicate KeepsNeighbours(s: Session) {
    forall j :: 0 <= j < |s.image| && !(s.offset <= j < s.offset + s.length * DATA_SECTORS) ==> Overlaid(s)[j] == s.image[j]
  }

  /** The block holds the sectors end to end. */
  ghost predicate HoldsBlock(s: Session)
    requires Proper(s)
  {
    s.offset + |Gathered(s.got, s.length)| <= |s.image| &&
    Overlaid(s)[s.offset..s.offset + |Gathered(s.got, s.length)|] == Gathered(s.got, s.length)
  }

  function Filled(n: nat, b: byte): (r: seq<byte>)
    ensures |r| == n && forall i :: 0 <= i < n ==> r[i] == b
  {
    seq(n, _ => b)
  }

  /** A first sector, and ones behind it. */
  function OnesBehind(first: seq<byte>, length: nat, sectors: nat): (r: seq<seq<byte>>)
    requires |first| == Paired(length) && sectors > 0
    ensures |r| == sectors && r[0] == first && forall k :: 0 < k < sectors ==> r[k] == Filled(Paired(length), 1)
  {
    seq(sectors, k => if k == 0 then first else Filled(Paired(length), 1))
  }

  /** A byte that was set stays set, and so does one that some later sector takes in. */
  lemma {:induction false} OnesStay(image: seq<byte>, offset: nat, length: nat, got: seq<seq<byte>>, j: nat, k: nat)
    requires j < |image| && 0 < k <= |got| && forall i :: k <= i < |got| ==> got[i] == Filled(Paired(length), 1)
    requires Laid(image, offset, length, got[..k])[j] == 1
    ensures Laid(image, offset, length, got)[j] == 1
  {
    if k == |got| {
      assert got[..k] == got;
    } else {
      var init := got[..|got| - 1];
      assert init[..k] == got[..k];
      OnesStay(image, offset, length, init, j, k);
    }
  }

  lemma {:induction false} Parity(start: nat)
    ensures start % SECTOR_SIZE % 2 == start % 2
  {
  }

  /** A block whose first sector is this, and whose other sectors are ones, over zeros. */
  lemma {:induction false} Sample(start: nat, length: nat, sectors: nat, first: seq<byte>) returns (s: Session)
    requires 0 < length <= SECTOR_MAX_SIZE && 0 < sectors <= DATA_SECTORS && |first| == Paired(length)
    ensures Collected(s, start, length, sectors) && Proper(s) && s.got == OnesBehind(first, length, sectors) && |s.got| == sectors
    ensures s.offset == start % SECTOR_SIZE && s.offset % 2 == start % 2 && s.length == length && s.offset + length * DATA_SECTORS <= |s.image|
    ensures |s.image| % 2 == 0 && forall j :: 0 <= j < |s.image| ==> s.image[j] == 0
  {
    var n := length * DATA_SECTORS;
    SpanFits(start, n);
    Parity(start);
    hide SectorSpan;
    var span := SectorSpan(start, n);
    EvenSectors(span);
    s := Session(seq<word>(span, _ => 0), start % SECTOR_SIZE, length, sectors, Zeros(span * SECTOR_SIZE), OnesBehind(first, length, sectors));
  }

  /** What the first sector set to one, and what a later sector takes in, is one in the end. */
  lemma {:induction false} FirstStays(image: seq<byte>, offset: nat, length: nat, first: seq<byte>, sectors: nat, j: nat)
    requires |first| == Paired(length) && sectors > 0 && j < |image|
    requires Even(offset) <= j < Even(offset) + |first| && first[j - Even(offset)] == 1
    ensures Laid(image, offset, length, OnesBehind(first, length, sectors))[j] == 1
  {
    var got := OnesBehind(first, length, sectors);
    OneSector(image, offset, length, got);
    hide Laid, Even, Paired, OnesBehind;
    OnesStay(image, offset, length, got, j, 1);
  }

  lemma {:induction false} SecondStays(image: seq<byte>, offset: nat, length: nat, first: seq<byte>, sectors: nat, j: nat)
    requires |first| == Paired(length) && sectors > 1 && j < |image|
    requires Even(offset + length) <= j < Even(offset + length) + Paired(length)
    ensures Laid(image, offset, length, OnesBehind(first, length, sectors))[j] == 1
  {
    var got := OnesBehind(first, length, sectors);
    TwoSectors(image, offset, length, got);
    hide Laid, Even, Paired, OnesBehind;
    OnesStay(image, offset, length, got, j, 2);
  }

  lemma {:induction false} LastStays(image: seq<byte>, offset: nat, length: nat, first: seq<byte>, sectors: nat, j: nat)
    requires |first| == Paired(length) && sectors > 1 && j < |image|
    requires SectorPlace(offset, length, sectors - 1) <= j < SectorPlace(offset, length, sectors - 1) + Paired(length)
    ensures Laid(image, offset, length, OnesBehind(first, length, sectors))[j] == 1
  {
    var got := OnesBehind(first, length, sectors);
    assert got[sectors - 1] == Filled(Paired(length), 1);
    hide SectorPlace, Paired, OnesBehind;
  }

  lemma {:induction false} OneSector(image: seq<byte>, offset: nat, length: nat, got: seq<seq<byte>>)
    requires |got| > 0
    ensures Laid(image, offset, length, got[..1]) == LaidOver(image, Even(offset), got[0])
  {
    assert got[..1] == [got[0]] && got[..1][..0] == [];

  }

  lemma {:induction false} TwoSectors(image: seq<byte>, offset: nat, length: nat, got: seq<seq<byte>>)
    requires |got| > 1
    ensures Laid(image, offset, length, got[..2]) == LaidOver(LaidOver(image, Even(offset), got[0]), Even(offset + length), got[1])
  {
    var two := got[..2];
    OneSector(image, offset, length, got);
    LaidSplit(image, offset, length, two);
    SecondPlace(offset, length);
    hide Laid, LaidOver, SectorPlace, Even;
    assert two[..1] == got[..1] && two[1] == got[1];
  }

  lemma {:induction false} SecondPlace(offset: nat, length: nat)
    ensures SectorPlace(offset, length, 1) == Even(offset + length)
  {
    hide Even;
  }

  lemma {:induction false} FirstGathered(got: seq<seq<byte>>, n: nat)
    requires AllPaired(got, n) && got != []
    ensures |Gathered(got, n)| >= n && Gathered(got, n)[..n] == got[0][..n]
  {
    if |got| > 1 {
      var init := got[..|got| - 1];
      FirstGathered(init, n);
      assert Gathered(got, n)[..n] == Gathered(init, n)[..n];
    } else {
      assert got[..0] == [];
      assert Gathered(got, n) == [] + got[0][..n];
    }
  }

  /** The image in the SD sectors is even and holds the block, so what is copied behind an odd one has room in it. */
  lemma {:induction false} RoomBehind(start: nat, length: nat)
    requires length > 0 && start % 2 == 0 && length % 2 == 1
    ensures start % SECTOR_SIZE + length * DATA_SECTORS < SectorSpan(start, length * DATA_SECTORS) * SECTOR_SIZE
  {
    SpanHolds(start, length * DATA_SECTORS);
    hide SectorSpan;
  }

  lemma {:induction false} NeighboursKept(s: Session, start: nat, length: nat, sectors: nat)
    requires Collected(s, start, length, sectors) && start % 2 == 0 && (length % 2 == 0 || sectors < DATA_SECTORS)
    ensures KeepsNeighbours(s)
  {
    Parity(start);
    EndsInside(s.offset, length, sectors);
    hide Laid, SectorSpan, SectorsLength, Even, AllPaired;
    forall j | 0 <= j < |s.image| && !(s.offset <= j < s.offset + length * DATA_SECTORS)
      ensures Overlaid(s)[j] == s.image[j]
    {
      LaidOutside(s.image, s.offset, length, s.got, j);
    }
  }

  lemma {:induction false} EndsInside(offset: nat, length: nat, sectors: nat)
    requires offset % 2 == 0 && sectors <= DATA_SECTORS && length > 0 && (length % 2 == 0 || sectors < DATA_SECTORS)
    ensures Even(offset + SectorsLength(sectors, length) + 1) <= offset + length * DATA_SECTORS
  {
    if sectors < DATA_SECTORS { SectorFits(sectors, length); }
    hide SectorsLength;
  }

  lemma {:induction false} NotKept(s: Session, j: nat)
    requires j < |s.image| && !(s.offset <= j < s.offset + s.length * DATA_SECTORS) && Overlaid(s)[j] != s.image[j]
    ensures !KeepsNeighbours(s)
  {
    hide Overlaid;
  }

  /** An odd start takes the byte in front of the block along. */
  lemma {:induction false} OddStartSpills(start: nat, length: nat, sectors: nat) returns (s: Session)
    requires 0 < length <= SECTOR_MAX_SIZE && 0 < sectors <= DATA_SECTORS && start % 2 == 1
    ensures Collected(s, start, length, sectors) && s.offset > 0 && Overlaid(s)[s.offset - 1] != s.image[s.offset - 1]
    ensures s.offset == start % SECTOR_SIZE && !KeepsNeighbours(s)
  {
    var first := Filled(Paired(length), 1);
    s := Sample(start, length, sectors, first);
    assert Even(s.offset) == s.offset - 1 && Even(s.offset) + |first| > s.offset - 1;
    hide Collected, Proper, Even, Laid;
    FirstStays(s.image, s.offset, length, first, sectors, s.offset - 1);
    assert Overlaid(s)[s.offset - 1] == 1;
    hide *;
    NotKept(s, s.offset - 1);
  }

  /** An odd length takes the byte behind a whole block along. */
  lemma {:induction false} OddLengthSpills(start: nat, length: nat) returns (s: Session)
    requires 0 < length <= SECTOR_MAX_SIZE && start % 2 == 0 && length % 2 == 1
    ensures Collected(s, start, length, DATA_SECTORS) && s.offset + length * DATA_SECTORS < |s.image|
    ensures Overlaid(s)[s.offset + length * DATA_SECTORS] != s.image[s.offset + length * DATA_SECTORS]
    ensures !KeepsNeighbours(s)
  {
    var first := Filled(Paired(length), 1);
    s := Sample(start, length, DATA_SECTORS, first);
    var j := s.offset + length * DATA_SECTORS;
    LastPlace(s.offset, length);
    assert j < |s.image| by { hide *; }
    hide Collected, Proper, SectorPlace, Laid;
    LastStays(s.image, s.offset, length, first, DATA_SECTORS, j);
    assert Overlaid(s)[j] == 1;
    hide *;
    NotKept(s, j);
  }

  lemma {:induction false} LastPlace(offset: nat, length: nat)
    requires offset % 2 == 0 && length % 2 == 1
    ensures SectorPlace(offset, length, DATA_SECTORS - 1) + length == offset + length * DATA_SECTORS
    ensures (offset + length * DATA_SECTORS) % 2 == 1 && Paired(length) == length + 1
  {
    EvenPlace(offset, length, DATA_SECTORS - 1);
    assert SectorsLength(DATA_SECTORS - 1, length) + length == length * DATA_SECTORS;
    hide SectorPlace, SectorsLength;
  }

  /**
   The neighbours of a block keep every byte, whatever is written, if and only if it starts at an even place, and
   its disk sectors have an even number of bytes or it is not written to its end.
   */
  lemma {:induction false} NeighboursKeptExactly(start: nat, length: nat, sectors: nat)
    requires 0 < length <= SECTOR_MAX_SIZE && 0 < sectors <= DATA_SECTORS
    ensures (forall s :: Collected(s, start, length, sectors) ==> KeepsNeighbours(s)) <==>
      start % 2 == 0 && (length % 2 == 0 || sectors < DATA_SECTORS)
  {
    hide Collected, KeepsNeighbours, Overlaid;
    if start % 2 == 0 && (length % 2 == 0 || sectors < DATA_SECTORS) {
      forall s | Collected(s, start, length, sectors)
        ensures KeepsNeighbours(s)
      {
        NeighboursKept(s, start, length, sectors);
      }
    } else if start % 2 == 1 {
      var s := OddStartSpills(start, length, sectors);
    } else {
      var s := OddLengthSpills(start, length);
    }
  }

  lemma {:induction false} BlockHeld(s: Session, start: nat, length: nat, sectors: nat)
    requires Collected(s, start, length, sectors) && start % 2 == 0 && (length % 2 == 0 || sectors == 1)
    ensures HoldsBlock(s)
  {
    hide Proper, HoldsBlock, SectorSpan;
    if length % 2 == 0 { EvenHeld(s); } else { SingleHeld(s); }
  }

  lemma {:induction false} EvenHeld(s: Session)
    requires Proper(s) && s.offset % 2 == 0 && s.length % 2 == 0
    ensures HoldsBlock(s)
  {
    var all := Gathered(s.got, s.length);
    GatheredLength(s.got, s.length);
    NoMore(|s.got|, s.length);
    LaidEven(s.image, s.offset, s.length, s.got);
    hide Laid, Gathered, SectorsLength, LaidOver, AllPaired;
  }

  lemma {:induction false} SingleHeld(s: Session)
    requires Proper(s) && s.offset % 2 == 0 && |s.got| == 1
    ensures HoldsBlock(s)
  {
    OneSector(s.image, s.offset, s.length, s.got);
    assert s.got[..1] == s.got && s.got[..0] == [];
    assert Gathered(s.got, s.length) == [] + s.got[0][..s.length];
    hide Laid, Gathered, LaidOver;
  }

  lemma {:induction false} OddStartShifts(start: nat, length: nat, sectors: nat) returns (s: Session)
    requires 0 < length <= SECTOR_MAX_SIZE && 0 < sectors <= DATA_SECTORS && start % 2 == 1
    ensures Collected(s, start, length, sectors) && !HoldsBlock(s)
  {
    var first := [0] + Filled(Paired(length) - 1, 1);
    s := Sample(start, length, sectors, first);
    assert Even(s.offset) == s.offset - 1 && |first| >= 2 && first[1] == 1;
    FirstStays(s.image, s.offset, length, first, sectors, s.offset);
    assert Overlaid(s)[s.offset] == 1;
    FirstGathered(s.got, length);
    assert s.got[0] == first;
    hide *;
    assert Gathered(s.got, length)[0] == Gathered(s.got, length)[..length][0] == first[..length][0] == first[0] == 0;
    NotHeld(s, 0);
  }

  lemma {:induction false} OddLengthOverlaps(start: nat, length: nat, sectors: nat) returns (s: Session)
    requires 0 < length <= SECTOR_MAX_SIZE && 1 < sectors <= DATA_SECTORS && start % 2 == 0 && length % 2 == 1
    ensures Collected(s, start, length, sectors) && !HoldsBlock(s)
  {
    var first := Filled(Paired(length), 0);
    s := Sample(start, length, sectors, first);
    var j := s.offset + length - 1;
    assert Even(s.offset + length) == j;
    hide Collected, Proper, Laid, Even;
    SecondStays(s.image, s.offset, length, first, sectors, j);
    assert Overlaid(s)[j] == 1;
    assert AllPaired(s.got, length) && s.got[0] == first;
    FirstGathered(s.got, length);
    hide *;
    assert Gathered(s.got, length)[length - 1] == Gathered(s.got, length)[..length][length - 1] == first[..length][length - 1] == first[length - 1] == 0;
    NotHeld(s, length - 1);
  }

  lemma {:induction false} NotHeld(s: Session, i: nat)
    requires Proper(s) && i < |Gathered(s.got, s.length)| && s.offset + i < |s.image| && Overlaid(s)[s.offset + i] != Gathered(s.got, s.length)[i]
    ensures !HoldsBlock(s)
  {
    if HoldsBlock(s) { HeldAt(s, i); }
    hide Overlaid, Gathered, Proper;
  }

  lemma {:induction false} HeldAt(s: Session, i: nat)
    requires Proper(s) && HoldsBlock(s) && i < |Gathered(s.got, s.length)|
    ensures s.offset + i < |s.image| && Overlaid(s)[s.offset + i] == Gathered(s.got, s.length)[i]
  {
    hide Overlaid, Gathered;
    assert Overlaid(s)[s.offset..s.offset + |Gathered(s.got, s.length)|][i] == Overlaid(s)[s.offset + i];
  }

  /**
   A block holds the sectors it was given, whatever they are, if and only if it starts at an even place, and its
   disk sectors have an even number of bytes or there is only one.
   */
  lemma {:induction false} BlockHeldExactly(start: nat, length: nat, sectors: nat)
    requires 0 < length <= SECTOR_MAX_SIZE && 0 < sectors <= DATA_SECTORS
    ensures (forall s :: Collected(s, start, length, sectors) ==> HoldsBlock(s)) <==>
      start % 2 == 0 && (length % 2 == 0 || sectors == 1)
  {
    hide HoldsBlock;
    if start % 2 == 0 && (length % 2 == 0 || sectors == 1) {
      forall s | Collected(s, start, length, sectors)
        ensures HoldsBlock(s)
      {
        BlockHeld(s, start, length, sectors);
      }
    } else if start % 2 == 1 {
      var s := OddStartShifts(start, length, sectors);
    } else {
      var s := OddLengthOverlaps(start, length, sectors);
    }
  }

  /** What is copied out for disk sector k is that sector. */
  ghost predicate ReadsSector(image: seq<byte>, offset: nat, length: nat, k: nat)
    requires offset + SectorsLength(k, length) + length <= |image|
  {
    var at, from := SectorPlace(offset, length, k), offset + SectorsLength(k, length);
    image[at..at + length] == image[from..from + length]
  }

  /** A disk sector is read right, whatever it holds, if and only if it lies at an even place. */
  lemma {:induction false} SectorReadExactly(n: nat, offset: nat, length: nat, k: nat)
    requires length > 0 && offset + SectorsLength(k, length) + length <= n
    ensures (forall image: seq<byte> :: |image| == n ==> ReadsSector(image, offset, length, k)) <==> (offset + SectorsLength(k, length)) % 2 == 0
  {
    hide SectorsLength;
    var at, from := SectorPlace(offset, length, k), offset + SectorsLength(k, length);
    if from % 2 == 1 {
      var image := Zeros(n)[from := 1];
      assert at == from - 1;
      hide SectorPlace;
      var a, b := image[at..at + length], image[from..from + length];
      assert a[0] == image[at] == 0 && b[0] == image[from] == 1;
      assert !ReadsSector(image, offset, length, k);
    }
  }

  /** 231 bytes in each of 85 sectors: the byte behind the block, number 19635, takes what the sector buffer held. */
  lemma {:induction false} OddBlockSpills()
    ensures ProperInfo(SectorInfo(0, 230, 89)) && Length(SectorInfo(0, 230, 89)) * DATA_SECTORS == 19635
    ensures exists s :: Collected(s, 0, 231, DATA_SECTORS) && |s.image| > 19635 && Overlaid(s)[19635] != s.image[19635]
  {
    var s := OddLengthSpills(0, 231);
  }

  /** A block that starts at byte 1 of the image: byte 0, which is not part of it, takes its first byte. */
  lemma {:induction false} OddPlaceSpills()
    ensures ProperInfo(SectorInfo(0, 231, 89)) && Length(SectorInfo(0, 231, 89)) == 232
    ensures exists s :: Collected(s, 1, 232, DATA_SECTORS) && s.offset == 1 && |s.image| > 0 && Overlaid(s)[0] != s.image[0]
  {
    var s := OddStartSpills(1, 232, DATA_SECTORS);
  }

  // ---------- what that means for a disk image ----------

  /** Byte p of a disk image kept in the sectors of a table. */
  function ImageByte(card: seq<byte>, disk: seq<word>, p: nat): byte
    requires OnCard(card, disk, |disk|) && p < |disk| * SECTOR_SIZE
  {
    TableByte(card, disk, p / SECTOR_SIZE, p % SECTOR_SIZE)
  }

  /** A disk image kept in the sectors of a table. */
  function ImageOf(card: seq<byte>, disk: seq<word>): (image: seq<byte>)
    requires OnCard(card, disk, |disk|)
    ensures |image| == |disk| * SECTOR_SIZE && forall p :: 0 <= p < |image| ==> image[p] == ImageByte(card, disk, p)
  {
    seq(|disk| * SECTOR_SIZE, p requires 0 <= p < |disk| * SECTOR_SIZE => ImageByte(card, disk, p))
  }

  lemma {:induction false} ImageIs(card: seq<byte>, table: seq<word>, image: seq<byte>)
    requires HasImage(card, table, image)
    ensures OnCard(card, table, |table|) && image == ImageOf(card, table)
  {
    hide TableByte;
    forall p | 0 <= p < |image|
      ensures image[p] == ImageOf(card, table)[p]
    {
      assert p == p / SECTOR_SIZE * SECTOR_SIZE + p % SECTOR_SIZE;
    }
  }

  /** The SD sectors of a table that are a stretch of those of the disk hold that stretch of its image. */
  lemma {:induction false} Stretch(card: seq<byte>, disk: seq<word>, first: nat, table: seq<word>, p: nat)
    requires OnCard(card, disk, |disk|) && first + |table| <= |disk| && table == disk[first..first + |table|]
    requires first * SECTOR_SIZE <= p < (first + |table|) * SECTOR_SIZE
    ensures OnCard(card, table, |table|) && ImageOf(card, disk)[p] == ImageOf(card, table)[p - first * SECTOR_SIZE]
  {
    var k, i := p / SECTOR_SIZE, p % SECTOR_SIZE;
    assert table[k - first] == disk[k];
    assert (p - first * SECTOR_SIZE) / SECTOR_SIZE == k - first && (p - first * SECTOR_SIZE) % SECTOR_SIZE == i;
    assert forall j :: 0 <= j < |table| ==> table[j] == disk[first + j];
    hide ImageOf;
  }

  /** A write that touches only the SD sectors of the table leaves the rest of the image alone. */
  lemma {:induction false} Elsewhere(before: seq<byte>, after: seq<byte>, disk: seq<word>, first: nat, table: seq<word>, p: nat)
    requires OnCard(before, disk, |disk|) && OnlyListed(table, before, after) && DistinctSectors(disk)
    requires first + |table| <= |disk| && table == disk[first..first + |table|]
    requires p < |disk| * SECTOR_SIZE && !(first * SECTOR_SIZE <= p < (first + |table|) * SECTOR_SIZE)
    ensures OnCard(after, disk, |disk|) && ImageOf(after, disk)[p] == ImageOf(before, disk)[p]
  {
    var k, i := p / SECTOR_SIZE, p % SECTOR_SIZE;
    NotInSlice(disk, first, first + |table|, k);
    var j := disk[k] * SECTOR_SIZE + i;
    assert j / SECTOR_SIZE == disk[k];
    assert after[j] == before[j];
  }

  lemma {:induction false} NotInSlice(disk: seq<word>, lo: nat, hi: nat, k: nat)
    requires DistinctSectors(disk) && lo <= hi <= |disk| && k < |disk| && (k < lo || hi <= k)
    ensures disk[k] !in disk[lo..hi]
  {
    assert forall i :: 0 <= i < hi - lo ==> disk[lo..hi][i] == disk[lo + i];
  }

  /** Laying sectors over a stretch of an image that starts at an even place is laying them over the image. */
  lemma {:induction false} LaidInStretch(image: seq<byte>, base: nat, part: seq<byte>, offset: nat, length: nat, got: seq<seq<byte>>, q: nat)
    requires base % 2 == 0 && q < |part| && base + q < |image| && part[q] == image[base + q]
    ensures Laid(image, base + offset, length, got)[base + q] == Laid(part, offset, length, got)[q]
  {
    if got != [] {
      var init := got[..|got| - 1];
      LaidSplit(image, base + offset, length, got);
      LaidSplit(part, offset, length, got);
      PlaceMoved(base, offset, length, |got| - 1);
      hide Laid, LaidOver, SectorPlace;
      LaidInStretch(image, base, part, offset, length, init, q);
      OverInStretch(Laid(image, base + offset, length, init), base, Laid(part, offset, length, init), SectorPlace(offset, length, |got| - 1), got[|got| - 1], q);
    }
  }

  lemma {:induction false} OverInStretch(image: seq<byte>, base: nat, part: seq<byte>, at: nat, bytes: seq<byte>, q: nat)
    requires q < |part| && base + q < |image| && image[base + q] == part[q]
    ensures LaidOver(image, base + at, bytes)[base + q] == LaidOver(part, at, bytes)[q]
  {
    hide LaidOver;
  }

  /** Bytes beside the stretch stay as they are when it holds the block. */
  lemma {:induction false} BesideStretch(image: seq<byte>, base: nat, n: nat, offset: nat, length: nat, got: seq<seq<byte>>, p: nat)
    requires AllPaired(got, length) && |got| <= DATA_SECTORS && base % 2 == 0 && n % 2 == 0
    requires offset + length * DATA_SECTORS <= n && p < |image| && !(base <= p < base + n)
    ensures Laid(image, base + offset, length, got)[p] == image[p]
  {
    NoMore(|got|, length);
    EvenBelow(base + offset + SectorsLength(|got|, length), base + n);
    EvenGrows(base, base + offset);
    hide Laid, SectorsLength, AllPaired;
    assert Even(base) == base;
    LaidOutside(image, base + offset, length, got, p);
  }

  lemma {:induction false} PlaceMoved(base: nat, offset: nat, length: nat, k: nat)
    requires base % 2 == 0
    ensures SectorPlace(base + offset, length, k) == base + SectorPlace(offset, length, k)
  {
    hide SectorsLength;
  }

  lemma {:induction false} UpdatedFrom(disk: seq<word>, first: nat, offset: nat, table: seq<word>, length: nat, got: seq<seq<byte>>,
          before: seq<byte>, after: seq<byte>)
    requires DistinctSectors(disk) && OnCard(before, disk, |disk|) && AllPaired(got, length) && |got| <= DATA_SECTORS
    requires first + |table| <= |disk| && table == disk[first..first + |table|] && offset + length * DATA_SECTORS <= |table| * SECTOR_SIZE
    requires OnlyListed(table, before, after) && OnCard(before, table, |table|)
    requires HasImage(after, table, Laid(ImageOf(before, table), offset, length, got))
    ensures OnCard(after, disk, |disk|) && ImageOf(after, disk) == Laid(ImageOf(before, disk), first * SECTOR_SIZE + offset, length, got)
  {
    ImageIs(after, table, Laid(ImageOf(before, table), offset, length, got));
    StillOnCard(before, after, disk, table);
    hide OnCard, OnlyListed, DistinctSectors, Laid, ImageOf, ImageByte, HasImage, AllPaired;
    var a, b := ImageOf(after, disk), Laid(ImageOf(before, disk), first * SECTOR_SIZE + offset, length, got);
    forall p | 0 <= p < |disk| * SECTOR_SIZE
      ensures a[p] == b[p]
    {
      UpdatedAt(disk, first, offset, table, length, got, before, after, p);
    }
    assert |a| == |b| == |disk| * SECTOR_SIZE;
  }

  /** The image of the whole disk changes by the sectors laid over it where the block starts, whether SD sectors are shared or not. */
  lemma {:induction false} ImageUpdate(disk: seq<word>, start: nat, table: seq<word>, length: nat, got: seq<seq<byte>>,
          before: seq<byte>, after: seq<byte>)
    requires DistinctSectors(disk) && OnCard(before, disk, |disk|) && AllPaired(got, length) && |got| <= DATA_SECTORS
    requires start / SECTOR_SIZE + |table| <= |disk| && table == disk[start / SECTOR_SIZE..start / SECTOR_SIZE + |table|]
    requires start % SECTOR_SIZE + length * DATA_SECTORS <= |table| * SECTOR_SIZE
    requires OnlyListed(table, before, after) && OnCard(before, table, |table|)
    requires HasImage(after, table, Laid(ImageOf(before, table), start % SECTOR_SIZE, length, got))
    ensures OnCard(after, disk, |disk|) && ImageOf(after, disk) == Laid(ImageOf(before, disk), start, length, got)
  {
    BaseOf(start);
    hide OnCard, OnlyListed, DistinctSectors, Laid, ImageOf, HasImage, AllPaired;
    UpdatedFrom(disk, start / SECTOR_SIZE, start % SECTOR_SIZE, table, length, got, before, after);
  }

  lemma {:induction false} BaseOf(start: nat)
    ensures start == start / SECTOR_SIZE * SECTOR_SIZE + start % SECTOR_SIZE
  {
  }

  lemma {:induction false} EvenSectors(n: nat)
    ensures n * SECTOR_SIZE % 2 == 0
  {
  }

  lemma {:induction false} UpdatedAt(disk: seq<word>, first: nat, offset: nat, table: seq<word>, length: nat, got: seq<seq<byte>>,
          before: seq<byte>, after: seq<byte>, p: nat)
    requires DistinctSectors(disk) && OnCard(before, disk, |disk|) && OnCard(after, disk, |disk|) && AllPaired(got, length) && |got| <= DATA_SECTORS
    requires first + |table| <= |disk| && table == disk[first..first + |table|]
    requires offset + length * DATA_SECTORS <= |table| * SECTOR_SIZE && p < |disk| * SECTOR_SIZE
    requires OnlyListed(table, before, after) && OnCard(before, table, |table|) && OnCard(after, table, |table|)
    requires ImageOf(after, table) == Laid(ImageOf(before, table), offset, length, got)
    ensures ImageOf(after, disk)[p] == Laid(ImageOf(before, disk), first * SECTOR_SIZE + offset, length, got)[p]
  {
    hide OnCard, OnlyListed, DistinctSectors, Laid, ImageOf, ImageByte, AllPaired;
    EvenSectors(first);
    EvenSectors(|table|);
    var base := first * SECTOR_SIZE;
    if base <= p < base + |table| * SECTOR_SIZE {
      Stretch(before, disk, first, table, p);
      Stretch(after, disk, first, table, p);
      LaidInStretch(ImageOf(before, disk), base, ImageOf(before, table), offset, length, got, p - base);
    } else {
      Elsewhere(before, after, disk, first, table, p);
      BesideStretch(ImageOf(before, disk), base, |table| * SECTOR_SIZE, offset, length, got, p);
    }
  }

  lemma {:induction false} StillOnCard(before: seq<byte>, after: seq<byte>, disk: seq<word>, table: seq<word>)
    requires OnCard(before, disk, |disk|) && OnlyListed(table, before, after)
    ensures OnCard(after, disk, |disk|)
  {
  }
}
