/**
 The lockout-chip emulator, sw/cic/cic.c: the seed and checksum scrambling, the compare-mode
 rounds and the x105 challenge. The C code keeps 4-bit cells in bytes and masks them only where it
 has to; the model keeps the bytes and proves what they mean as 4-bit cells.
 */
module CicEmulator {
  type Cells = seq<bv4>

  function Low(x: bv8): bv4 {
    (x & 0x0F) as bv4
  }

  function Join(high: bv4, low: bv4): bv8 {
    ((high as bv8) << 4) | (low as bv8)
  }

  /** The 4-bit meaning of unmasked bytes. */
  function Nibbles(s: seq<bv8>): (n: Cells)
    ensures |n| == |s| && forall i :: 0 <= i < |s| ==> n[i] == Low(s[i])
  {
    seq(|s|, i requires 0 <= i < |s| => Low(s[i]))
  }

  // ---------- scrambling of seed and checksum ----------

  function ScrambleCell(previous: bv4, cell: bv4): bv4 { previous + 1 + cell }

  function UnscrambleCell(previous: bv4, cell: bv4): bv4 { cell - previous - 1 }

  lemma {:induction false} CellUndone(previous: bv4, cell: bv4)
    ensures UnscrambleCell(previous, ScrambleCell(previous, cell)) == cell
    ensures ScrambleCell(previous, UnscrambleCell(previous, cell)) == cell
  {
  }

  /** One scrambling round over consecutive cells; the first is the start value. */
  function Scramble(n: Cells): (r: Cells)
    ensures |r| == |n|
  {
    if |n| < 2 then n else
      var r := Scramble(n[..|n| - 1]);
      r + [ScrambleCell(r[|r| - 1], n[|n| - 1])]
  }

  function Unscramble(r: Cells): (n: Cells)
    ensures |n| == |r|
  {
    if |r| < 2 then r else
      Unscramble(r[..|r| - 1]) + [UnscrambleCell(r[|r| - 2], r[|r| - 1])]
  }

  lemma {:induction false} UnscrambleScramble(n: Cells)
    ensures Unscramble(Scramble(n)) == n
  {
    if |n| >= 2 {
      hide ScrambleCell, UnscrambleCell;
      var init, last := n[..|n| - 1], n[|n| - 1];
      UnscrambleScramble(init);
      var r0 := Scramble(init);
      UnscrambleAppend(r0, ScrambleCell(r0[|r0| - 1], last));
      CellUndone(r0[|r0| - 1], last);
      assert n == init + [last];
    }
  }

  lemma {:induction false} UnscrambleAppend(r: Cells, x: bv4)
    requires r != []
    ensures Unscramble(r + [x]) == Unscramble(r) + [UnscrambleCell(r[|r| - 1], x)]
  {
    assert (r + [x])[..|r|] == r;
  }

  lemma {:induction false} ScrambleAppend(n: Cells, x: bv4)
    requires n != []
    ensures Scramble(n + [x]) == Scramble(n) + [ScrambleCell(Scramble(n)[|n| - 1], x)]
  {
    assert (n + [x])[..|n|] == n;
  }

  lemma {:induction false} ScrambleUnscramble(r: Cells)
    ensures Scramble(Unscramble(r)) == r
  {
    if |r| >= 2 {
      hide ScrambleCell, UnscrambleCell;
      var init, last := r[..|r| - 1], r[|r| - 1];
      ScrambleUnscramble(init);
      ScrambleAppend(Unscramble(init), UnscrambleCell(init[|init| - 1], last));
      CellUndone(init[|init| - 1], last);
      assert r == init + [last];
    }
  }

  /** The C expression for one cell, and what it means. */
  function EncodeCell(data: bv8, cell: bv8): (r: bv8)
    ensures Low(r) == ScrambleCell(Low(data), Low(cell))
  {
    (((data + 1) & 0x0F) + cell) & 0x0F
  }

  lemma {:induction false} RoundMeaning(before: seq<bv8>, after: seq<bv8>)
    requires before != [] && |after| == |before| && after[0] == before[0]
    requires forall i :: 0 < i < |after| ==> after[i] == EncodeCell(after[i - 1], before[i])
    ensures Nibbles(after) == Scramble(Nibbles(before))
  {
    hide EncodeCell, Low, ScrambleCell;
    if |before| >= 2 {
      var n := |before| - 1;
      RoundMeaning(before[..n], after[..n]);
      ScrambleAppend(Nibbles(before[..n]), Low(before[n]));
      hide Scramble;
      assert Nibbles(before) == Nibbles(before[..n]) + [Low(before[n])];
      assert Nibbles(after) == Nibbles(after[..n]) + [Low(after[n])];
    }
  }

  method EncodeRound(ram: array<bv8>, index: nat)
    requires ram.Length == 32 && index < 15
    modifies ram
    ensures forall i :: (0 <= i <= index || 16 <= i < 32) ==> ram[i] == old(ram[i])
    ensures Nibbles(ram[index..16]) == Scramble(Nibbles(old(ram[index..16])))
  {
    hide EncodeCell, Low, Scramble;
    var i := index;
    var data := ram[i];
    i := i + 1;
    while i < 16
      invariant index < i <= 16
      invariant forall j :: (0 <= j <= index || i <= j < 32) ==> ram[j] == old(ram[j])
      invariant data == ram[i - 1]
      invariant forall j :: index < j < i ==> ram[j] == EncodeCell(ram[j - 1], old(ram[j]))
    {
      data := EncodeCell(data, ram[i]);
      ram[i] := data;
      i := i + 1;
    }
    RoundMeaning(old(ram[index..16]), ram[index..16]);
  }

  /** What goes out on the wire for cells index..15: the low four bits of each. */
  method WriteRamNibbles(ram: array<bv8>, index: nat) returns (sent: Cells)
    requires ram.Length == 32 && index < 16
    ensures sent == Nibbles(ram[index..16])
  {
    sent := [];
    for i := index to 16
      invariant sent == Nibbles(ram[index..i])
    {
      sent := sent + [Low(ram[i])];
    }
  }

  function SeedCells(seed: bv8): Cells {
    [0xB, 0x5, Low(seed >> 4), Low(seed), Low(seed >> 4), Low(seed)]
  }

  method WriteSeed(ram: array<bv8>, seed: bv8) returns (sent: Cells)
    requires ram.Length == 32
    modifies ram
    ensures sent == Scramble(Scramble(SeedCells(seed)))
  {
    ram[10] := 0x0B;
    ram[11] := 0x05;
    ram[12] := seed >> 4;
    ram[13] := seed;
    ram[14] := seed >> 4;
    ram[15] := seed;
    assert Nibbles(ram[10..16]) == SeedCells(seed);
    EncodeRound(ram, 10);
    EncodeRound(ram, 10);
    sent := WriteRamNibbles(ram, 10);
  }

  /** The console can recover the seed from the six cells it receives. */
  function SeedOf(sent: Cells): bv8
    requires |sent| == 6
  {
    var cells := Unscramble(Unscramble(sent));
    Join(cells[2], cells[3])
  }

  lemma {:induction false} SeedRecovered(seed: bv8)
    ensures SeedOf(Scramble(Scramble(SeedCells(seed)))) == seed
  {
    UnscrambleScramble(Scramble(SeedCells(seed)));
    UnscrambleScramble(SeedCells(seed));
  }

  /** Four zero cells, then the upper and lower half of each checksum byte. */
  function ChecksumCell(checksum: seq<bv8>, k: nat): bv4
    requires |checksum| == 6 && k < 16
  {
    if k < 4 then 0 else if k % 2 == 0 then Low(checksum[k / 2 - 2] >> 4) else Low(checksum[k / 2 - 2])
  }

  function ChecksumCells(checksum: seq<bv8>): (n: Cells)
    requires |checksum| == 6
    ensures |n| == 16 && forall k :: 0 <= k < 16 ==> n[k] == ChecksumCell(checksum, k)
  {
    seq(16, k requires 0 <= k < 16 => ChecksumCell(checksum, k))
  }

  function FourRounds(n: Cells): Cells {
    Scramble(Scramble(Scramble(Scramble(n))))
  }

  method LoadChecksum(ram: array<bv8>, checksum: seq<bv8>)
    requires ram.Length == 32 && |checksum| == 6
    modifies ram
    ensures Nibbles(ram[0..16]) == ChecksumCells(checksum)
  {
    hide Low;
    LowFacts();
    for i := 0 to 4
      invariant forall k :: 0 <= k < i ==> Low(ram[k]) == ChecksumCell(checksum, k)
    {
      ram[i] := 0;
    }
    for i := 0 to 6
      invariant forall k :: 0 <= k < 2 * i + 4 ==> Low(ram[k]) == ChecksumCell(checksum, k)
    {
      var value := checksum[i];
      LowMasked(value >> 4);
      LowMasked(value);
      ram[i * 2 + 4] := (value >> 4) & 0x0F;
      ram[i * 2 + 5] := value & 0x0F;
    }
  }

  lemma {:induction false} LowFacts()
    ensures Low(0) == 0
  {
  }

  lemma {:induction false} LowMasked(x: bv8)
    ensures Low(x & 0x0F) == Low(x)
  {
  }

  method WriteChecksum(ram: array<bv8>, checksum: seq<bv8>) returns (sent: Cells)
    requires ram.Length == 32 && |checksum| == 6
    modifies ram
    ensures sent == FourRounds(ChecksumCells(checksum))
  {
    hide Scramble, ChecksumCells;
    LoadChecksum(ram, checksum);
    EncodeRound(ram, 0);
    EncodeRound(ram, 0);
    EncodeRound(ram, 0);
    EncodeRound(ram, 0);
    sent := WriteRamNibbles(ram, 0);
  }

  function JoinCells(n: Cells): (checksum: seq<bv8>)
    requires |n| == 16
    ensures |checksum| == 6 && forall i :: 0 <= i < 6 ==> checksum[i] == Join(n[2 * i + 4], n[2 * i + 5])
  {
    seq(6, i requires 0 <= i < 6 => Join(n[2 * i + 4], n[2 * i + 5]))
  }

  /** The console can recover the checksum from the sixteen cells it receives. */
  function ChecksumOf(sent: Cells): seq<bv8>
    requires |sent| == 16
  {
    JoinCells(Unscramble(Unscramble(Unscramble(Unscramble(sent)))))
  }

  lemma {:induction false} ChecksumRecovered(checksum: seq<bv8>)
    requires |checksum| == 6
    ensures |FourRounds(ChecksumCells(checksum))| == 16
    ensures ChecksumOf(FourRounds(ChecksumCells(checksum))) == checksum
  {
    FourRoundsUndone(ChecksumCells(checksum));
    hide FourRounds, Low, Join, Unscramble;
    forall i | 0 <= i < 6
      ensures JoinCells(ChecksumCells(checksum))[i] == checksum[i]
    {
      JoinNibbles(checksum[i]);
      assert ChecksumCell(checksum, 2 * i + 4) == Low(checksum[i] >> 4) && ChecksumCell(checksum, 2 * i + 5) == Low(checksum[i]);
    }
  }

  lemma {:induction false} FourRoundsUndone(n: Cells)
    ensures Unscramble(Unscramble(Unscramble(Unscramble(FourRounds(n))))) == n
  {
    UnscrambleScramble(Scramble(Scramble(Scramble(n))));
    UnscrambleScramble(Scramble(Scramble(n)));
    UnscrambleScramble(Scramble(n));
    UnscrambleScramble(n);
    hide Scramble, Unscramble;
  }

  lemma {:induction false} JoinNibbles(x: bv8)
    ensures Join(Low(x >> 4), Low(x)) == x
  {
  }

  // ---------- compare mode ----------

  // Four-bit arithmetic; the carry tests are the ones the algorithm branches on.

  function Plus(a: bv4, x: bv4): bv4 { a + x }

  function PlusOne(a: bv4, x: bv4): bv4 { a + x + 1 }

  function Not(x: bv4): bv4 { !x }

  function PlusEight(a: bv4): bv4 { a + 8 }

  function MinusOne(a: bv4): bv4 { a - 1 }

  function Value(a: bv4): nat { a as nat }

  /** The carry out of a + x + 1. */
  predicate Carries(a: bv4, x: bv4) {
    (a as bv5) + (x as bv5) + 1 >= 16
  }

  /** The carry out of a + 8. */
  predicate CarriesEight(a: bv4) {
    (a as bv5) + 8 >= 16
  }

  /** One pass of the 4-bit machine over its sixteen cells, started with accumulator `a`. */
  function Pass(n: Cells, a: bv4): (r: Cells)
    requires |n| == 16
    ensures |r| == 16
  {
    var (m, acc, b) := PassHead(n, a);
    var (m', acc', b') := PassMiddle(m, acc, b);
    PassTail(m', acc', b')
  }

  function PassHead(n: Cells, a: bv4): (r: (Cells, bv4, nat))
    requires |n| == 16
    ensures |r.0| == 16 && 3 <= r.2 <= 4
  {
    var first := PlusOne(a, n[1]);
    var m := n[1 := first][2 := Not(PlusOne(first, n[2]))];
    var sum := PlusOne(n[2], n[3]);
    if Carries(n[2], n[3]) then (m, sum, 3) else (m[3 := sum], n[3], 4)
  }

  function PassMiddle(m: Cells, a: bv4, b: nat): (r: (Cells, bv4, nat))
    requires |m| == 16 && b <= 12
    ensures |r.0| == 16 && r.2 == b + 3
  {
    var first := Plus(a, m[b]);
    var second := Plus(first, m[b + 1]);
    var third := PlusEight(m[b + 1]);
    var third' := if CarriesEight(m[b + 1]) then third else Plus(third, m[b + 2]);
    (m[b := first][b + 1 := second][b + 2 := third'], m[b + 2], b + 3)
  }

  function PassTail(m: Cells, a: bv4, b: nat): (r: Cells)
    requires |m| == 16 && b <= 16
    ensures |r| == 16
    decreases 16 - b
  {
    if b == 16 then m else PassTail(m[b := PlusOne(a, m[b])], PlusOne(a, m[b]), b + 1)
  }

  /** The passes of one round: accumulators a, a - 1, ..., 0. */
  function Passes(n: Cells, a: bv4, count: nat): (r: Cells)
    requires |n| == 16
    ensures |r| == 16
    decreases count
  {
    if count == 0 then n else Passes(Pass(n, a), MinusOne(a), count - 1)
  }

  /** One round of the 4-bit machine: one pass more than the value of the last cell. */
  function Round(n: Cells): (r: Cells)
    requires |n| == 16
    ensures |r| == 16
  {
    Passes(n, n[15], Value(n[15]) + 1)
  }

  ghost function View(ram: array<bv8>): (n: Cells)
    requires ram.Length == 32
    reads ram
    ensures |n| == 16 && forall i :: 0 <= i < 16 ==> n[i] == Low(ram[16 + i])
  {
    Nibbles(ram[16..32])
  }

  // The byte arithmetic of the C code and what each expression means for the low four bits.

  function Add(a: bv8, x: bv8): (r: bv8)
    ensures Low(r) == Plus(Low(a), Low(x))
  {
    a + x
  }

  function AddAndOne(a: bv8, x: bv8): (r: bv8)
    ensures Low(r) == PlusOne(Low(a), Low(x))
  {
    a + (x + 1)
  }

  function Complement(x: bv8): (r: bv8)
    ensures Low(r) == Not(Low(x))
  {
    !x
  }

  function MaskedAddAndOne(a: bv8, x: bv8): (r: bv8)
    ensures Low(r) == PlusOne(Low(a), Low(x))
    ensures r < 16 <==> !Carries(Low(a), Low(x))
  {
    (a & 0x0F) + ((x & 0x0F) + 1)
  }

  function MaskedAddEight(a: bv8): (r: bv8)
    ensures Low(r) == PlusEight(Low(a))
    ensures r < 16 <==> !CarriesEight(Low(a))
  {
    (a & 0x0F) + 8
  }

  method Load(ram: array<bv8>, b: nat) returns (v: bv8)
    requires ram.Length == 32 && b < 16
    ensures Low(v) == View(ram)[b]
  {
    v := ram[16 + b];
  }

  method Store(ram: array<bv8>, b: nat, v: bv8)
    requires ram.Length == 32 && b < 16
    modifies ram
    ensures View(ram) == old(View(ram))[b := Low(v)] && ram[..16] == old(ram[..16])
  {
    hide Low;
    ram[16 + b] := v;
    assert View(ram) == old(View(ram))[b := Low(v)];
  }

  method ExchangeBytes(ram: array<bv8>, b: nat, a: bv8) returns (a': bv8)
    requires ram.Length == 32 && b < 16
    modifies ram
    ensures View(ram) == old(View(ram))[b := Low(a)] && ram[..16] == old(ram[..16])
    ensures Low(a') == old(View(ram))[b]
  {
    var tmp := ram[16 + b];
    Store(ram, b, a);
    a' := tmp;
  }

  /** Cells 1 and 2, and the carry that decides whether cell 3 is left alone. */
  method RoundHead(ram: array<bv8>, start: bv8) returns (a: bv8, b: nat)
    requires ram.Length == 32
    modifies ram
    ensures (View(ram), Low(a), b) == PassHead(old(View(ram)), Low(start)) && ram[..16] == old(ram[..16])
  {
    hide Low, View, AddAndOne, Complement, MaskedAddAndOne, PlusOne, Not, Carries;
    ghost var n := View(ram);
    b := 1;
    var v := Load(ram, b);
    a := AddAndOne(start, v);
    Store(ram, b, a);
    b := b + 1;
    v := Load(ram, b);
    a := AddAndOne(a, v);
    ghost var second := Low(a);
    a := ExchangeBytes(ram, b, a);
    v := Load(ram, b);
    Store(ram, b, Complement(v));
    assert View(ram) == n[1 := PlusOne(Low(start), n[1])][2 := Not(second)];
    b := b + 1;
    v := Load(ram, b);
    a := MaskedAddAndOne(a, v);
    if a < 16 {
      a := ExchangeBytes(ram, b, a);
      b := b + 1;
    }
  }

  /** Three cells from `from` on, with the carry out of adding 8. */
  method RoundMiddle(ram: array<bv8>, start: bv8, from: nat) returns (a: bv8, b: nat)
    requires ram.Length == 32 && 3 <= from <= 4
    modifies ram
    ensures (View(ram), Low(a), b) == PassMiddle(old(View(ram)), Low(start), from) && ram[..16] == old(ram[..16])
  {
    hide Low, View, Add, MaskedAddEight, Plus, PlusEight, CarriesEight;
    b := from;
    var v := Load(ram, b);
    a := Add(start, v);
    Store(ram, b, a);
    b := b + 1;
    v := Load(ram, b);
    a := Add(a, v);
    a := ExchangeBytes(ram, b, a);
    b := b + 1;
    v := Load(ram, b);
    a := MaskedAddEight(a);
    if a < 16 {
      a := Add(a, v);
    }
    a := ExchangeBytes(ram, b, a);
    b := b + 1;
  }

  /** The remaining cells, up to and including cell 15. */
  method RoundTail(ram: array<bv8>, start: bv8, from: nat)
    requires ram.Length == 32 && 6 <= from <= 7
    modifies ram
    ensures View(ram) == PassTail(old(View(ram)), Low(start), from) && ram[..16] == old(ram[..16])
  {
    hide Low, View, AddAndOne, PlusOne;
    var a, b := start, from;
    while true
      invariant b <= 15 && ram[..16] == old(ram[..16])
      invariant PassTail(View(ram), Low(a), b) == PassTail(old(View(ram)), Low(start), from)
      decreases 16 - b
    {
      var v := Load(ram, b);
      a := AddAndOne(a, v);
      Store(ram, b, a);
      b := b + 1;
      if b % 16 == 0 { break; }
    }
  }

  method CicPass(ram: array<bv8>, start: bv8)
    requires ram.Length == 32
    modifies ram
    ensures View(ram) == Pass(old(View(ram)), Low(start)) && ram[..16] == old(ram[..16])
  {
    hide Low, View, PassHead, PassMiddle, PassTail;
    var a, b := RoundHead(ram, start);
    a, b := RoundMiddle(ram, a, b);
    RoundTail(ram, a, b);
  }

  function NextStart(x: bv8): bv8 { x + 15 }

  function NextCount(a: bv8): bv8 { a & 0x0F }

  lemma {:induction false} CountDown(x: bv8)
    ensures Low(NextStart(x)) == MinusOne(Low(x)) && Low(NextCount(NextStart(x))) == MinusOne(Low(x))
    ensures NextCount(NextStart(x)) == 15 <==> Value(Low(x)) == 0
    ensures Value(Low(x)) > 0 ==> Value(MinusOne(Low(x))) == Value(Low(x)) - 1
  {
  }

  method CicRound(ram: array<bv8>) returns (passes: nat)
    requires ram.Length == 32
    modifies ram
    ensures View(ram) == Round(old(View(ram))) && ram[..16] == old(ram[..16])
    ensures passes == Value(old(View(ram))[15]) + 1
  {
    hide Low, View, Pass, Value, MinusOne, NextStart, NextCount;
    var x := Load(ram, 15);
    var a := x;
    passes := 0;
    ghost var total, left := Value(Low(x)) + 1, Value(Low(x)) + 1;
    while true
      invariant left == Value(Low(x)) + 1 && Low(a) == Low(x) && passes + left == total
      invariant Passes(View(ram), Low(a), left) == Round(old(View(ram))) && ram[..16] == old(ram[..16])
      decreases left
    {
      CountDown(x);
      CicPass(ram, a);
      a := NextStart(x);
      x := NextCount(a);
      passes := passes + 1;
      left := left - 1;
      if x == 15 { break; }
    }
  }

  function LowBit(n: bv4): bool { n & 1 == 1 }

  /** cic_write(v, 1) sends the lowest bit of the unmasked byte. */
  function WireBit(v: bv8): (bit: bool)
    ensures bit == LowBit(Low(v))
  {
    v & 1 == 1
  }

  /** The cells compare mode answers with, in order: upward for NTSC, downward for PAL. */
  function CompareCells(n: Cells, index: nat, pal: bool): (bits: seq<bool>)
    requires |n| == 16 && index <= 16
    decreases if pal then index else 16 - index
  {
    if index == 0 || index == 16 then [] else
      [LowBit(n[index])] + CompareCells(n, if pal then index - 1 else index + 1, pal)
  }

  /** The answer bits as a function of the 4-bit cells alone. */
  function CompareAnswer(n: Cells, pal: bool): seq<bool>
    requires |n| == 16
  {
    var m := Round(Round(Round(n)));
    CompareCells(m, if Value(m[7]) == 0 then 1 else Value(m[7]), pal)
  }

  /** After three rounds the answer starts at the cell that cell 7 names, or cell 1 for none, and goes up to cell 15 or down to cell 1. */
  lemma {:induction false} CompareBits(n: Cells, pal: bool)
    requires |n| == 16
    ensures var m, bits := Round(Round(Round(n))), CompareAnswer(n, pal);
      var start := if m[7] == 0 then 1 else m[7] as nat;
      |bits| == (if pal then start else 16 - start) &&
      forall k :: 0 <= k < |bits| ==> bits[k] == (m[if pal then start - k else start + k] & 1 == 1)
  {
    hide Round;
    var m := Round(Round(Round(n)));
    NoneIsZero(m[7]);
    CellBits(m, if Value(m[7]) == 0 then 1 else Value(m[7]), pal);
  }

  lemma {:induction false} NoneIsZero(x: bv4)
    ensures Value(x) == 0 <==> x == 0
    ensures Value(x) == x as nat < 16
  {
  }

  lemma {:induction false} CellBits(m: Cells, start: nat, pal: bool)
    requires |m| == 16 && start <= 16
    ensures var bits := CompareCells(m, start, pal);
      |bits| == (if start == 0 || start == 16 then 0 else if pal then start else 16 - start) &&
      forall k :: 0 <= k < |bits| ==> bits[k] == LowBit(m[if pal then start - k else start + k])
    decreases if pal then start else 16 - start
  {
    hide LowBit;
    if start != 0 && start != 16 { CellBits(m, if pal then start - 1 else start + 1, pal); }
  }

  method CompareMode(ram: array<bv8>, pal: bool) returns (bits: seq<bool>)
    requires ram.Length == 32
    modifies ram
    ensures bits == CompareAnswer(old(View(ram)), pal) && ram[..16] == old(ram[..16])
  {
    hide Low, View, Round, CompareCells;
    var passes := CicRound(ram);
    passes := CicRound(ram);
    passes := CicRound(ram);
    var v := Load(ram, 7);
    var index := if Value(Low(v)) == 0 then 1 else Value(Low(v));
    bits := SendCells(ram, index, pal);
  }

  method SendCells(ram: array<bv8>, start: nat, pal: bool) returns (bits: seq<bool>)
    requires ram.Length == 32 && 1 <= start <= 15
    ensures bits == CompareCells(View(ram), start, pal)
  {
    hide Low, View, LowBit, WireBit, CompareCells;
    bits := [];
    var index := start;
    while true
      invariant 1 <= index <= 15
      invariant bits + CompareCells(View(ram), index, pal) == CompareCells(View(ram), start, pal)
      decreases if pal then index else 16 - index
    {
      var v := Load(ram, index);
      CompareStep(View(ram), index, pal, bits);
      bits := bits + [WireBit(v)];
      index := if pal then index - 1 else index + 1;
      if index % 16 == 0 { break; }
    }
  }

  lemma {:induction false} CompareStep(n: Cells, index: nat, pal: bool, bits: seq<bool>)
    requires |n| == 16 && 1 <= index <= 15
    ensures var next := if pal then index - 1 else index + 1;
      bits + CompareCells(n, index, pal) == bits + [LowBit(n[index])] + CompareCells(n, next, pal) &&
      (next % 16 == 0 ==> CompareCells(n, next, pal) == [])
  {
  }

  // ---------- the x105 challenge ----------

  /** One challenge cell: the answer cell, which is also the next accumulator, and the next carry. */
  function Answer(a: bv4, carry: bool, cell: bv4): (r: (bv4, bool)) {
    var mixed := Mix(a, cell);
    var sum := (Fold(mixed, carry) as bv5) + (mixed as bv5) + (if carry then 1 else 0);
    (!((sum & 0x0F) as bv4), sum >= 16)
  }

  /** Adds a challenge cell to the accumulator. */
  function Mix(a: bv4, cell: bv4): bv4 {
    Offset(a, cell & 1 == 1) + cell
  }

  function Offset(a: bv4, odd: bool): bv4 {
    var a1 := if odd then a else a + 8;
    if a1 & 2 == 2 then a1 else a1 + 4
  }

  function Fold(mixed: bv4, carry: bool): bv4 {
    if carry then mixed + mixed else mixed + mixed + 7
  }

  /** Recovers the challenge cell from its answer. */
  function Question(a: bv4, carry: bool, answer: bv4): bv4 {
    var tripled := !answer - (if carry then 1 else 7);
    var mixed := tripled * 11;
    var cell := mixed - Offset(a, true);
    if cell & 1 == 1 then cell else cell + 8
  }

  lemma {:induction false} QuestionAnswer(a: bv4, carry: bool, cell: bv4)
    ensures Question(a, carry, Answer(a, carry, cell).0) == cell
  {
  }

  lemma {:induction false} AnswerQuestion(a: bv4, carry: bool, answer: bv4)
    ensures Answer(a, carry, Question(a, carry, answer)).0 == answer
  {
  }

  function Answers(a: bv4, carry: bool, cells: Cells): (r: Cells)
    decreases |cells|
    ensures |r| == |cells|
  {
    if cells == [] then [] else
      var (answer, carry') := Answer(a, carry, cells[0]);
      [answer] + Answers(answer, carry', cells[1..])
  }

  function Questions(a: bv4, carry: bool, answers: Cells): (r: Cells)
    decreases |answers|
    ensures |r| == |answers|
  {
    if answers == [] then [] else
      var cell := Question(a, carry, answers[0]);
      var (answer, carry') := Answer(a, carry, cell);
      [cell] + Questions(answer, carry', answers[1..])
  }

  /** The challenge can be read off its answers, at any length. */
  lemma {:induction false} QuestionsOfAnswers(a: bv4, carry: bool, cells: Cells)
    ensures Questions(a, carry, Answers(a, carry, cells)) == cells
    decreases |cells|
  {
    if cells != [] {
      hide Question, Answer;
      var (answer, carry') := Answer(a, carry, cells[0]);
      QuestionAnswer(a, carry, cells[0]);
      QuestionsOfAnswers(answer, carry', cells[1..]);
      assert Answers(a, carry, cells)[1..] == Answers(answer, carry', cells[1..]);
    }
  }

  /** Every sequence of answers is the answer to some challenge. */
  lemma {:induction false} AnswersOfQuestions(a: bv4, carry: bool, answers: Cells)
    ensures Answers(a, carry, Questions(a, carry, answers)) == answers
    decreases |answers|
  {
    if answers != [] {
      hide Question, Answer;
      var cell := Question(a, carry, answers[0]);
      var (answer, carry') := Answer(a, carry, cell);
      AnswerQuestion(a, carry, answers[0]);
      AnswersOfQuestions(answer, carry', answers[1..]);
      assert Questions(a, carry, answers)[1..] == Questions(answer, carry', answers[1..]);
    }
  }

  /** The C code for one cell, on bytes. */
  method X105Cell(start: bv8, carry: bv8, cell: bv8) returns (a: bv8, carry': bv8, answer: bv8)
    requires start < 16 && carry <= 1 && cell < 16
    ensures a < 16 && carry' <= 1 && answer == a
    ensures (Low(a), carry' == 1) == Answer(Low(start), carry == 1, Low(cell))
  {
    a := start;
    answer := cell;
    if answer & 1 == 0 {
      a := a + 8;
    }
    if a & 2 == 0 {
      a := a + 4;
    }
    a := (a + answer) & 0x0F;
    answer := a;
    if carry == 0 {
      a := a + 7;
    }
    a := (a + answer) & 0x0F;
    a := a + answer + carry;
    if a >= 16 {
      carry' := 1;
      a := a - 16;
    } else {
      carry' := 0;
    }
    a := !a & 0x0F;
    answer := a;
  }

  lemma {:induction false} AnswersStep(done: Cells, a: bv4, carry: bool, cell: bv4, rest: Cells)
    ensures var (answer, carry') := Answer(a, carry, cell);
      done + Answers(a, carry, [cell] + rest) == done + [answer] + Answers(answer, carry', rest)
  {
    hide Answer;
    assert ([cell] + rest)[1..] == rest;
  }

  /** cic_x105_algorithm for a payload of any length (the console sends 30 cells). */
  method X105Algorithm(payload: array<bv8>)
    requires forall i :: 0 <= i < payload.Length ==> payload[i] < 16
    modifies payload
    ensures Nibbles(payload[..]) == Answers(5, true, Nibbles(old(payload[..])))
  {
    hide Low, Answer, Answers;
    var a: bv8, carry: bv8 := 5, 1;
    ghost var challenge := payload[..];
    LowFive();
    for i := 0 to payload.Length
      invariant a < 16 && carry <= 1
      invariant payload[i..] == challenge[i..]
      invariant Nibbles(payload[..i]) + Answers(Low(a), carry == 1, Nibbles(challenge[i..])) == Answers(5, true, Nibbles(challenge))
    {
      var cell := payload[i];
      ghost var done := payload[..i];
      assert cell == challenge[i];
      assert Nibbles(challenge[i..]) == [Low(cell)] + Nibbles(challenge[i + 1..]);
      AnswersStep(Nibbles(done), Low(a), carry == 1, Low(cell), Nibbles(challenge[i + 1..]));
      a, carry, cell := X105Cell(a, carry, cell);
      payload[i] := cell;
      assert Nibbles(payload[..i + 1]) == Nibbles(done) + [Low(a)];
    }
    AnswersNothing(Low(a), carry == 1);
  }

  lemma {:induction false} LowFive()
    ensures Low(5) == 5
  {
  }

  lemma {:induction false} AnswersNothing(a: bv4, carry: bool)
    ensures Answers(a, carry, []) == []
  {
  }
}
