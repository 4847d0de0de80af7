/**
 Moving sectors between an SD card and device memory (sd_read_sectors, sd_write_sectors and
 sd_optimize_sectors in sw/controller/src/sd.c).

 The specification moves one sector at a time; the code splits a request into commands of at most
 256 blocks, and a table of sectors into runs of neighbours.
 */
module SdBlocks {
  import opened Bytes

  const SECTOR_SIZE := 512
  const BLOCK_MAX_COUNT := 256

  // ---------- the specification: one sector at a time ----------

  /** Memory after `count` neighbouring sectors were read to `address`. */
  function ReadRun(mem: seq<byte>, card: seq<byte>, address: nat, sector: nat, count: nat): (r: seq<byte>)
    requires address + count * SECTOR_SIZE <= |mem| && (sector + count) * SECTOR_SIZE <= |card|
    ensures |r| == |mem|
  {
    Blit(mem, address, card, sector * SECTOR_SIZE, count * SECTOR_SIZE)
  }

  /** The card after `count` neighbouring sectors were written from `address`. */
  function WriteRun(card: seq<byte>, mem: seq<byte>, address: nat, sector: nat, count: nat): (r: seq<byte>)
    requires address + count * SECTOR_SIZE <= |mem| && (sector + count) * SECTOR_SIZE <= |card|
    ensures |r| == |card|
  {
    Blit(card, sector * SECTOR_SIZE, mem, address, count * SECTOR_SIZE)
  }

  ghost predicate OnCard(card: seq<byte>, table: seq<word>, n: nat) {
    n <= |table| && forall k :: 0 <= k < n ==> (table[k] + 1) * SECTOR_SIZE <= |card|
  }

  /** Memory after the first n sectors of a table were read one by one. */
  ghost function ReadTable(mem: seq<byte>, card: seq<byte>, address: nat, table: seq<word>, n: nat): (r: seq<byte>)
    requires address + n * SECTOR_SIZE <= |mem| && OnCard(card, table, n)
    ensures |r| == |mem|
  {
    if n == 0 then mem
    else ReadRun(ReadTable(mem, card, address, table, n - 1), card, address + (n - 1) * SECTOR_SIZE, table[n - 1], 1)
  }

  /** The card after the first n sectors of a table were written one by one. */
  ghost function WriteTable(card: seq<byte>, mem: seq<byte>, address: nat, table: seq<word>, n: nat): (r: seq<byte>)
    requires address + n * SECTOR_SIZE <= |mem| && OnCard(card, table, n)
    ensures |r| == |card|
  {
    if n == 0 then card
    else WriteRun(WriteTable(card, mem, address, table, n - 1), mem, address + (n - 1) * SECTOR_SIZE, table[n - 1], 1)
  }

  lemma {:induction false} BlitAppend(target: seq<byte>, at: nat, source: seq<byte>, from: nat, n: nat, m: nat)
    requires at + n + m <= |target| && from + n + m <= |source|
    ensures Blit(Blit(target, at, source, from, n), at + n, source, from + n, m) == Blit(target, at, source, from, n + m)
  {
    hide Blit;
  }

  lemma {:induction false} BlitNothing(target: seq<byte>, at: nat, source: seq<byte>, from: nat)
    requires at <= |target| && from <= |source|
    ensures Blit(target, at, source, from, 0) == target
  {
    hide Blit;
  }

  lemma {:induction false} ReadRunAppend(mem: seq<byte>, card: seq<byte>, address: nat, sector: nat, n: nat, m: nat)
    requires address + (n + m) * SECTOR_SIZE <= |mem| && (sector + n + m) * SECTOR_SIZE <= |card|
    ensures ReadRun(ReadRun(mem, card, address, sector, n), card, address + n * SECTOR_SIZE, sector + n, m) ==
      ReadRun(mem, card, address, sector, n + m)
    ensures ReadRun(mem, card, address, sector, 0) == mem
  {
    BlitAppend(mem, address, card, sector * SECTOR_SIZE, n * SECTOR_SIZE, m * SECTOR_SIZE);
    BlitNothing(mem, address, card, sector * SECTOR_SIZE);
    hide Blit;
  }

  lemma {:induction false} WriteRunAppend(card: seq<byte>, mem: seq<byte>, address: nat, sector: nat, n: nat, m: nat)
    requires address + (n + m) * SECTOR_SIZE <= |mem| && (sector + n + m) * SECTOR_SIZE <= |card|
    ensures WriteRun(WriteRun(card, mem, address, sector, n), mem, address + n * SECTOR_SIZE, sector + n, m) ==
      WriteRun(card, mem, address, sector, n + m)
    ensures WriteRun(card, mem, address, sector, 0) == card
  {
    BlitAppend(card, sector * SECTOR_SIZE, mem, address, n * SECTOR_SIZE, m * SECTOR_SIZE);
    BlitNothing(card, sector * SECTOR_SIZE, mem, address);
    hide Blit;
  }

  /** Entries a to a + n of the table are neighbouring sectors. */
  ghost predicate Neighbours(table: seq<word>, a: nat, n: nat) {
    a + n <= |table| && forall i :: a <= i < a + n ==> table[i] == table[a] + (i - a)
  }

  /** Reading a run of neighbours at once is reading its sectors one by one. */
  lemma {:induction false} ReadRunIsTable(mem: seq<byte>, card: seq<byte>, address: nat, table: seq<word>, a: nat, n: nat)
    requires 0 < n && Neighbours(table, a, n)
    requires address + (a + n) * SECTOR_SIZE <= |mem| && OnCard(card, table, a + n)
    ensures (table[a] + n) * SECTOR_SIZE <= |card|
    ensures ReadTable(mem, card, address, table, a + n) ==
      ReadRun(ReadTable(mem, card, address, table, a), card, address + a * SECTOR_SIZE, table[a], n)
  {
    hide ReadRun;
    assert table[a + n - 1] == table[a] + (n - 1);
    if n > 1 {
      ReadRunIsTable(mem, card, address, table, a, n - 1);
      ReadRunAppend(ReadTable(mem, card, address, table, a), card, address + a * SECTOR_SIZE, table[a], n - 1, 1);
    }
  }

  lemma {:induction false} WriteRunIsTable(card: seq<byte>, mem: seq<byte>, address: nat, table: seq<word>, a: nat, n: nat)
    requires 0 < n && Neighbours(table, a, n)
    requires address + (a + n) * SECTOR_SIZE <= |mem| && OnCard(card, table, a + n)
    ensures (table[a] + n) * SECTOR_SIZE <= |card|
    ensures WriteTable(card, mem, address, table, a + n) ==
      WriteRun(WriteTable(card, mem, address, table, a), mem, address + a * SECTOR_SIZE, table[a], n)
  {
    hide WriteRun;
    assert table[a + n - 1] == table[a] + (n - 1);
    if n > 1 {
      WriteRunIsTable(card, mem, address, table, a, n - 1);
      WriteRunAppend(WriteTable(card, mem, address, table, a), mem, address + a * SECTOR_SIZE, table[a], n - 1, 1);
    }
  }

  // ---------- what the tables do, byte by byte ----------

  /** Byte i of sector k of a table. */
  function TableByte(card: seq<byte>, table: seq<word>, k: nat, i: nat): byte
    requires k < |table| && i < SECTOR_SIZE && (table[k] + 1) * SECTOR_SIZE <= |card|
  {
    card[table[k] * SECTOR_SIZE + i]
  }

  /** A table read puts its sectors end to end. */
  lemma {:induction false} ReadTableMeaning(mem: seq<byte>, card: seq<byte>, address: nat, table: seq<word>, n: nat,
          k: nat, i: nat)
    requires address + n * SECTOR_SIZE <= |mem| && OnCard(card, table, n) && k < n && i < SECTOR_SIZE
    ensures ReadTable(mem, card, address, table, n)[address + k * SECTOR_SIZE + i] == TableByte(card, table, k, i)
  {
    if k < n - 1 { ReadTableMeaning(mem, card, address, table, n - 1, k, i); }
    assert ReadTable(mem, card, address, table, n) ==
      ReadRun(ReadTable(mem, card, address, table, n - 1), card, address + (n - 1) * SECTOR_SIZE, table[n - 1], 1);
    hide Blit, ReadTable;
  }

  /** It touches nothing else. */
  lemma {:induction false} ReadTableFrame(mem: seq<byte>, card: seq<byte>, address: nat, table: seq<word>, n: nat, j: nat)
    requires address + n * SECTOR_SIZE <= |mem| && OnCard(card, table, n) && j < |mem|
    requires j < address || address + n * SECTOR_SIZE <= j
    ensures ReadTable(mem, card, address, table, n)[j] == mem[j]
  {
    if n > 0 {
      ReadTableFrame(mem, card, address, table, n - 1, j);
      assert ReadTable(mem, card, address, table, n) ==
        ReadRun(ReadTable(mem, card, address, table, n - 1), card, address + (n - 1) * SECTOR_SIZE, table[n - 1], 1);
    }
    hide Blit, ReadTable;
  }

  ghost predicate DistinctSectors(table: seq<word>) {
    forall i, k :: 0 <= i < k < |table| ==> table[i] != table[k]
  }

  lemma {:induction false} OtherSector(card: seq<byte>, mem: seq<byte>, address: nat, sector: nat, other: nat, i: nat)
    requires address + SECTOR_SIZE <= |mem| && (sector + 1) * SECTOR_SIZE <= |card| && (other + 1) * SECTOR_SIZE <= |card|
    requires i < SECTOR_SIZE && sector != other
    ensures WriteRun(card, mem, address, sector, 1)[other * SECTOR_SIZE + i] == card[other * SECTOR_SIZE + i]
  {
    hide Blit;
  }

  lemma {:induction false} SameSector(card: seq<byte>, mem: seq<byte>, address: nat, sector: nat, i: nat)
    requires address + SECTOR_SIZE <= |mem| && (sector + 1) * SECTOR_SIZE <= |card| && i < SECTOR_SIZE
    ensures WriteRun(card, mem, address, sector, 1)[sector * SECTOR_SIZE + i] == mem[address + i]
  {
    hide Blit;
  }

  lemma {:induction false} OutsideSector(card: seq<byte>, mem: seq<byte>, address: nat, sector: nat, j: nat)
    requires address + SECTOR_SIZE <= |mem| && (sector + 1) * SECTOR_SIZE <= |card| && j < |card| && j / SECTOR_SIZE != sector
    ensures WriteRun(card, mem, address, sector, 1)[j] == card[j]
  {
    assert j < sector * SECTOR_SIZE || (sector + 1) * SECTOR_SIZE <= j;
    hide Blit;
  }

  /** A table write leaves every sector that is not in the table alone. */
  lemma {:induction false} WriteTableFrame(card: seq<byte>, mem: seq<byte>, address: nat, table: seq<word>, n: nat, j: nat)
    requires address + n * SECTOR_SIZE <= |mem| && OnCard(card, table, n)
    requires j < |card| && j / SECTOR_SIZE !in table
    ensures WriteTable(card, mem, address, table, n)[j] == card[j]
  {
    hide WriteRun;
    if n > 0 {
      WriteTableFrame(card, mem, address, table, n - 1, j);
      OutsideSector(WriteTable(card, mem, address, table, n - 1), mem, address + (n - 1) * SECTOR_SIZE, table[n - 1], j);
    }
  }

  /** When no sector is listed twice, the table then reads back what memory held. */
  lemma {:induction false} WriteTableMeaning(card: seq<byte>, mem: seq<byte>, address: nat, table: seq<word>, n: nat,
          k: nat, i: nat)
    requires address + n * SECTOR_SIZE <= |mem| && OnCard(card, table, n) && DistinctSectors(table) && k < n && i < SECTOR_SIZE
    ensures TableByte(WriteTable(card, mem, address, table, n), table, k, i) == mem[address + k * SECTOR_SIZE + i]
  {
    hide WriteRun;
    if k < n - 1 {
      WriteTableMeaning(card, mem, address, table, n - 1, k, i);
      OtherSector(WriteTable(card, mem, address, table, n - 1), mem, address + (n - 1) * SECTOR_SIZE, table[n - 1], table[k], i);
    } else {
      SameSector(WriteTable(card, mem, address, table, n - 1), mem, address + k * SECTOR_SIZE, table[k], i);
    }
  }

  // ---------- the card and its commands ----------

  /** How many entries come before the first zero. */
  function FirstZero(table: seq<word>): (k: nat)
    ensures k <= |table| && (forall i :: 0 <= i < k ==> table[i] != 0) && (k < |table| ==> table[k] == 0)
  {
    if table == [] || table[0] == 0 then 0 else 1 + FirstZero(table[1..])
  }

  lemma {:induction false} FirstZeroIs(table: seq<word>, n: nat)
    requires n <= |table| && (forall i :: 0 <= i < n ==> table[i] != 0) && (n < |table| ==> table[n] == 0)
    ensures FirstZero(table) == n
  {
    if n > 0 { FirstZeroIs(table[1..], n - 1); }
  }

  lemma {:induction false} NeighboursNext(table: seq<word>, a: nat, n: nat)
    requires a + n < |table| && (n > 0 ==> Neighbours(table, a, n) && table[a + n] as int == table[a + n - 1] as int + 1)
    ensures Neighbours(table, a, n + 1)
  {
    assert n > 0 ==> table[a + n - 1] == table[a] + (n - 1);
  }

  /** Only sectors of the table differ. */
  ghost predicate OnlyListed(table: seq<word>, before: seq<byte>, after: seq<byte>) {
    |before| == |after| && forall j :: 0 <= j < |after| && j / SECTOR_SIZE !in table ==> after[j] == before[j]
  }

  lemma {:induction false} RunIsListed(table: seq<word>, a: nat, n: nat, before: seq<byte>, after: seq<byte>)
    requires 0 < n && Neighbours(table, a, n) && |before| == |after|
    requires forall j :: 0 <= j < |after| && !(table[a] * SECTOR_SIZE <= j < (table[a] + n) * SECTOR_SIZE) ==> after[j] == before[j]
    ensures OnlyListed(table, before, after)
  {
    forall j | 0 <= j < |after|
      ensures j / SECTOR_SIZE !in table ==> after[j] == before[j]
    {
      if table[a] * SECTOR_SIZE <= j < (table[a] + n) * SECTOR_SIZE { InRun(table, a, n, j / SECTOR_SIZE); }
    }
  }

  lemma {:induction false} InRun(table: seq<word>, a: nat, n: nat, sector: nat)
    requires 0 < n && Neighbours(table, a, n) && table[a] <= sector < table[a] + n
    ensures sector in table
  {
    assert table[a + (sector - table[a])] == sector;
  }

  datatype Direction = Read | Write

  class Sd {
    var mem: seq<byte>
    var card: seq<byte>
    var cardInitialized: bool
    var cardTypeBlock: bool
    ghost var faults: nat // commands that failed

    /** The sector numbers a command argument can hold without wrapping around. */
    ghost function Limit(): nat
      reads this`cardTypeBlock
    {
      if cardTypeBlock then 0xFFFF_FFFF else 0x80_0000
    }

    /** The command argument for a sector: its number, or its first byte. */
    function Arg(sector: nat): word
      reads this`cardTypeBlock
    {
      (if cardTypeBlock then sector else sector * SECTOR_SIZE) % 0x1_0000_0000
    }

    /** The sector the card takes an argument for. */
    function SectorOf(arg: word): nat
      reads this`cardTypeBlock
    {
      if cardTypeBlock then arg else arg / SECTOR_SIZE
    }

    lemma {:induction false} ArgNext(sector: nat, blocks: nat)
      ensures Arg(sector + blocks) == (Arg(sector) + blocks * (if cardTypeBlock then 1 else SECTOR_SIZE)) % 0x1_0000_0000
    {
    }

    lemma {:induction false} ArgMeaning(sector: nat)
      ensures sector < Limit() ==> SectorOf(Arg(sector)) == sector
      ensures !cardTypeBlock ==> Arg(sector) % SECTOR_SIZE == 0
    {
    }

    ghost predicate InLimits(table: seq<word>)
      reads this`cardTypeBlock
    {
      forall k :: 0 <= k < |table| ==> table[k] < Limit()
    }

    /** One CMD18 with its data. It may fail at any point, and fails past the end of the card. */
    method ReadBlocks(address: nat, arg: word, blocks: nat) returns (ok: bool)
      requires 0 < blocks <= BLOCK_MAX_COUNT && address + blocks * SECTOR_SIZE <= |mem| && (!cardTypeBlock ==> arg % SECTOR_SIZE == 0)
      modifies this`mem, this`faults
      ensures faults >= old(faults) && (ok <==> faults == old(faults))
      ensures var sector := SectorOf(arg);
        ok ==> (sector + blocks) * SECTOR_SIZE <= |card| && mem == ReadRun(old(mem), card, address, sector, blocks)
      ensures |mem| == |old(mem)|
      ensures forall j :: 0 <= j < |mem| && !(address <= j < address + blocks * SECTOR_SIZE) ==> mem[j] == old(mem)[j]
    {
      var position := if cardTypeBlock then arg * SECTOR_SIZE else arg;
      var fail: bool := *;
      if fail || position + blocks * SECTOR_SIZE > |card| {
        var partial: seq<byte> := *;
        faults := faults + 1;
        if |partial| == blocks * SECTOR_SIZE { mem := Blit(mem, address, partial, 0, |partial|); }
        return false;
      }
      mem := Blit(mem, address, card, position, blocks * SECTOR_SIZE);
      ok := true;
    }

    /** One CMD25 with its data. */
    method WriteBlocks(address: nat, arg: word, blocks: nat) returns (ok: bool)
      requires 0 < blocks <= BLOCK_MAX_COUNT && address + blocks * SECTOR_SIZE <= |mem| && (!cardTypeBlock ==> arg % SECTOR_SIZE == 0)
      modifies this`card, this`faults
      ensures |card| == |old(card)|
      ensures faults >= old(faults) && (ok <==> faults == old(faults))
      ensures var sector := SectorOf(arg);
        (ok ==> (sector + blocks) * SECTOR_SIZE <= |card| && card == WriteRun(old(card), mem, address, sector, blocks)) &&
        forall j :: 0 <= j < |card| && !(sector * SECTOR_SIZE <= j < (sector + blocks) * SECTOR_SIZE) ==> card[j] == old(card)[j]
    {
      var position := if cardTypeBlock then arg * SECTOR_SIZE else arg;
      var fail: bool := *;
      if position + blocks * SECTOR_SIZE > |card| {
        faults := faults + 1;
        return false;
      }
      if fail {
        faults := faults + 1;
        var partial: seq<byte> := *;
        if |partial| == blocks * SECTOR_SIZE { card := Blit(card, position, partial, 0, |partial|); }
        return false;
      }
      card := Blit(card, position, mem, address, blocks * SECTOR_SIZE);
      ok := true;
    }

    /** sd_read_sectors: either all sectors arrive, or an error is returned and nothing outside their place changed. */
    method ReadSectors(address: nat, sector: word, count: nat) returns (ok: bool)
      requires address + count * SECTOR_SIZE <= |mem|
      modifies this`mem, this`faults
      ensures faults >= old(faults) && (ok <==> cardInitialized && count > 0 && faults == old(faults))
      ensures ok && sector + count <= Limit() ==> (sector + count) * SECTOR_SIZE <= |card|
      ensures ok && sector + count <= Limit() ==> mem == ReadRun(old(mem), card, address, sector, count)
      ensures |mem| == |old(mem)|
      ensures forall j :: 0 <= j < |mem| && !(address <= j < address + count * SECTOR_SIZE) ==> mem[j] == old(mem)[j]
      ensures !cardInitialized || count == 0 ==> mem == old(mem)
    {
      hide ReadRun, Blit, SectorOf, Limit;
      if !cardInitialized || count == 0 { return false; }
      ghost var fits := sector + count <= Limit();
      var step := if cardTypeBlock then 1 else SECTOR_SIZE;
      var to, arg, left := address, if cardTypeBlock then sector else sector * SECTOR_SIZE % 0x1_0000_0000, count;
      while left > 0
        invariant faults == old(faults)
        invariant 0 <= left <= count && to == address + (count - left) * SECTOR_SIZE
        invariant arg == Arg(sector + (count - left))
        invariant fits && left < count ==> (sector + (count - left)) * SECTOR_SIZE <= |card|
        invariant |mem| == |old(mem)|
        invariant fits && left < count ==> mem == ReadRun(old(mem), card, address, sector, count - left)
        invariant left == count ==> mem == old(mem)
        invariant forall j :: 0 <= j < |mem| && !(address <= j < address + count * SECTOR_SIZE) ==> mem[j] == old(mem)[j]
      {
        var blocks := if left > BLOCK_MAX_COUNT then BLOCK_MAX_COUNT else left;
        ArgMeaning(sector + (count - left));
        ArgNext(sector + (count - left), blocks);
        hide Arg;
        var done := ReadBlocks(to, arg, blocks);
        if !done { return false; }
        if fits { ReadRunAppend(old(mem), card, address, sector, count - left, blocks); }
        to := to + blocks * SECTOR_SIZE;
        arg := (arg + blocks * step) % 0x1_0000_0000;
        left := left - blocks;
      }
      ok := true;
    }

    /** sd_write_sectors: either all sectors are written, or an error is returned and no other sector changed. */
    method WriteSectors(address: nat, sector: word, count: nat) returns (ok: bool)
      requires address + count * SECTOR_SIZE <= |mem|
      modifies this`card, this`faults
      ensures |card| == |old(card)|
      ensures faults >= old(faults) && (ok <==> cardInitialized && count > 0 && faults == old(faults))
      ensures ok && sector + count <= Limit() ==> (sector + count) * SECTOR_SIZE <= |card|
      ensures ok && sector + count <= Limit() ==> card == WriteRun(old(card), mem, address, sector, count)
      ensures sector + count <= Limit() ==>
        forall j :: 0 <= j < |card| && !(sector * SECTOR_SIZE <= j < (sector + count) * SECTOR_SIZE) ==> card[j] == old(card)[j]
      ensures !cardInitialized || count == 0 ==> card == old(card)
    {
      hide WriteRun, Blit, SectorOf, Limit;
      if !cardInitialized || count == 0 { return false; }
      ghost var fits := sector + count <= Limit();
      var step := if cardTypeBlock then 1 else SECTOR_SIZE;
      var from, arg, left := address, if cardTypeBlock then sector else sector * SECTOR_SIZE % 0x1_0000_0000, count;
      while left > 0
        invariant faults == old(faults)
        invariant 0 <= left <= count && from == address + (count - left) * SECTOR_SIZE
        invariant arg == Arg(sector + (count - left))
        invariant fits && left < count ==> (sector + (count - left)) * SECTOR_SIZE <= |card|
        invariant |card| == |old(card)|
        invariant fits && left < count ==> card == WriteRun(old(card), mem, address, sector, count - left)
        invariant left == count ==> card == old(card)
        invariant fits ==> forall j :: 0 <= j < |card| && !(sector * SECTOR_SIZE <= j < (sector + count) * SECTOR_SIZE) ==> card[j] == old(card)[j]
      {
        var blocks := if left > BLOCK_MAX_COUNT then BLOCK_MAX_COUNT else left;
        ArgMeaning(sector + (count - left));
        ArgNext(sector + (count - left), blocks);
        hide Arg;
        var done := WriteBlocks(from, arg, blocks);
        if !done { return false; }
        if fits { WriteRunAppend(old(card), mem, address, sector, count - left, blocks); }
        from := from + blocks * SECTOR_SIZE;
        arg := (arg + blocks * step) % 0x1_0000_0000;
        left := left - blocks;
      }
      ok := true;
    }

    /** The function pointer handed to sd_optimize_sectors. */
    method ProcessSectors(direction: Direction, address: nat, sector: word, count: nat) returns (error: bool)
      requires address + count * SECTOR_SIZE <= |mem|
      modifies this`mem, this`card, this`faults
      ensures direction == Read ==> card == old(card)
      ensures direction == Write ==> mem == old(mem)
      ensures |card| == |old(card)| && |mem| == |old(mem)|
      ensures faults >= old(faults) && (!error <==> cardInitialized && count > 0 && faults == old(faults))
      ensures !error && sector + count <= Limit() ==> (sector + count) * SECTOR_SIZE <= |card|
      ensures !error && sector + count <= Limit() && direction == Read ==> mem == ReadRun(old(mem), card, address, sector, count)
      ensures !error && sector + count <= Limit() && direction == Write ==> card == WriteRun(old(card), mem, address, sector, count)
      ensures !cardInitialized || count == 0 ==> mem == old(mem) && card == old(card)
      ensures forall j :: 0 <= j < |mem| && !(address <= j < address + count * SECTOR_SIZE) ==> mem[j] == old(mem)[j]
      ensures sector + count <= Limit() ==>
        forall j :: 0 <= j < |card| && !(sector * SECTOR_SIZE <= j < (sector + count) * SECTOR_SIZE) ==> card[j] == old(card)[j]
    {
      hide ReadRun, WriteRun;
      var ok;
      if direction == Read {
        ok := ReadSectors(address, sector, count);
      } else {
        ok := WriteSectors(address, sector, count);
      }
      error := !ok;
    }

    /**
     sd_optimize_sectors: as moving the sectors one by one. The first zero entry ends the transfer with
     an error after the sectors in front of it.
     */
    method OptimizeSectors(address: nat, table: seq<word>, direction: Direction) returns (ok: bool)
      requires address + |table| * SECTOR_SIZE <= |mem|
      modifies this`mem, this`card, this`faults
      ensures Moved(direction, address, table, FirstZero(table), old(mem), old(card), old(faults))
      ensures ok <==> cardInitialized && table != [] && FirstZero(table) == |table| && faults == old(faults)
    {
      hide Neighbours, ReadTable, WriteTable, ReadRun, WriteRun, Moved, OnCard, InLimits, OnlyListed, FirstZero;
      var to, startingSector, sectorsToProcess := address, 0, 0;
      MovedNothing(direction, address, table);
      if |table| == 0 { return false; }
      for i := 0 to |table|
        invariant startingSector + sectorsToProcess == i && to == address + startingSector * SECTOR_SIZE
        invariant |mem| == |old(mem)| && faults == old(faults) && (startingSector > 0 ==> cardInitialized)
        invariant forall k :: 0 <= k < i ==> table[k] != 0
        invariant sectorsToProcess > 0 ==> i < |table|
        invariant InLimits(table) && sectorsToProcess > 0 ==>
          Neighbours(table, startingSector, sectorsToProcess) && table[i] as int == table[i - 1] as int + 1
        invariant Moved(direction, address, table, startingSector, old(mem), old(card), old(faults))
      {
        if table[i] == 0 {
          FirstZeroIs(table, i);
          MovedSoFar(direction, address, table, startingSector, i, old(mem), old(card), old(faults));
          return false;
        }
        if InLimits(table) {
          NeighboursNext(table, startingSector, sectorsToProcess);
          NoWrap(table, i);
        }
        sectorsToProcess := sectorsToProcess + 1;
        if i < |table| - 1 && (table[i] as int + 1) % 0x1_0000_0000 == table[i + 1] {
          continue;
        }
        var error := MoveRun(direction, address, to, table, startingSector, sectorsToProcess, old(mem), old(card), old(faults), FirstZero(table));
        if error { return false; }
        to := to + sectorsToProcess * SECTOR_SIZE;
        startingSector := startingSector + sectorsToProcess;
        sectorsToProcess := 0;
      }
      FirstZeroIs(table, |table|);
      ok := true;
    }

    lemma {:induction false} NoWrap(table: seq<word>, i: nat)
      requires InLimits(table) && i < |table|
      ensures table[i] < 0xFFFF_FFFF
    {
    }

    /** What one-by-one transfer of the first n sectors leaves; after a failed command, what may have changed. */
    ghost predicate Moved(direction: Direction, address: nat, table: seq<word>, n: nat, mem0: seq<byte>,
            card0: seq<byte>, faults0: nat)
      requires address + |table| * SECTOR_SIZE <= |mem0| && n <= |table|
      reads this
    {
      |mem| == |mem0| && |card| == |card0| && faults >= faults0 &&
      (direction == Read ==> card == card0) && (direction == Write ==> mem == mem0) &&
      (!cardInitialized ==> mem == mem0 && card == card0) &&
      (forall j :: 0 <= j < |mem| && !(address <= j < address + |table| * SECTOR_SIZE) ==> mem[j] == mem0[j]) &&
      (InLimits(table) ==> OnlyListed(table, card0, card)) &&
      (cardInitialized && faults == faults0 && InLimits(table) ==> OnCard(card, table, n)) &&
      (cardInitialized && faults == faults0 && InLimits(table) && direction == Read ==> mem == ReadTable(mem0, card, address, table, n)) &&
      (cardInitialized && faults == faults0 && InLimits(table) && direction == Write ==> card == WriteTable(card0, mem, address, table, n))
    }

    lemma {:induction false} MovedNothing(direction: Direction, address: nat, table: seq<word>)
      requires address + |table| * SECTOR_SIZE <= |mem|
      ensures Moved(direction, address, table, 0, mem, card, faults)
    {
    }

    lemma {:induction false} NeighboursLimit(table: seq<word>, start: nat, count: nat)
      requires 0 < count && Neighbours(table, start, count) && InLimits(table)
      ensures table[start] + count <= Limit()
    {
      assert table[start + count - 1] == table[start] + (count - 1);
    }

    lemma {:induction false} MovedSoFar(direction: Direction, address: nat, table: seq<word>, n: nat, m: nat,
                                        mem0: seq<byte>, card0: seq<byte>, faults0: nat)
      requires address + |table| * SECTOR_SIZE <= |mem0| && n <= |table| && m <= |table|
      requires Moved(direction, address, table, n, mem0, card0, faults0) && (InLimits(table) ==> n == m)
      ensures Moved(direction, address, table, m, mem0, card0, faults0)
    {
    }

    /** The next run of neighbours. */
    method MoveRun(direction: Direction, address: nat, to: nat, table: seq<word>, start: nat, count: nat,
                   ghost mem0: seq<byte>, ghost card0: seq<byte>, ghost faults0: nat, ghost whole: nat) returns (error: bool)
      requires address + |table| * SECTOR_SIZE <= |mem0| && count > 0 && start + count <= |table| && whole <= |table|
      requires InLimits(table) ==> Neighbours(table, start, count)
      requires to == address + start * SECTOR_SIZE
      requires Moved(direction, address, table, start, mem0, card0, faults0) && faults == faults0
      modifies this`mem, this`card, this`faults
      ensures error <==> !(cardInitialized && faults == faults0)
      ensures !error ==> Moved(direction, address, table, start + count, mem0, card0, faults0)
      ensures error ==> Moved(direction, address, table, whole, mem0, card0, faults0)
      ensures |mem| == |mem0|
    {
      hide ReadTable, WriteTable, ReadRun, WriteRun;
      error := ProcessSectors(direction, to, table[start], count);
      if InLimits(table) {
        NeighboursLimit(table, start, count);
        RunIsListed(table, start, count, old(card), card);
      }
      if !error && InLimits(table) {
        if direction == Read {
          ReadRunIsTable(mem0, card, address, table, start, count);
        } else {
          WriteRunIsTable(card0, mem, address, table, start, count);
        }
      }
    }
  }
}
