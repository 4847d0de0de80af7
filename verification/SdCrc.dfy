/**
 The data checksum of the SD card bus: sd_dat_check_crc16 in sw/controller/src/sd.c.

 Four data lines carry the bits of every byte interleaved. Each line ends in its own 16-bit
 remainder by x^16 + x^12 + x^5 + 1 (section 4.5 of the SD Physical Layer Simplified Specification).
 */
module SdCrc {
  /** Bits of a polynomial over GF(2), highest power first. */
  type Bits = seq<bool>

  function Xor(a: bool, b: bool): bool { a != b }

  /** The coefficient of x^k. */
  function Coefficient(p: Bits, k: int): bool {
    if 0 <= k < |p| then p[|p| - 1 - k] else false
  }

  /** The coefficient of x^k in q(x) * (x^16 + x^12 + x^5 + 1). */
  function TimesGenerator(q: Bits, k: int): bool {
    Xor(Xor(Coefficient(q, k - 16), Coefficient(q, k - 12)), Xor(Coefficient(q, k - 5), Coefficient(q, k)))
  }

  /** m(x) * x^16 == q(x) * G(x) + r(x) */
  ghost predicate Divides(m: Bits, q: Bits, r: bv16) {
    forall k: int :: Coefficient(m, k - 16) == Xor(TimesGenerator(q, k), RegisterBit(r, k))
  }

  /** `r` is the remainder of m(x) * x^16 by the generator polynomial. */
  ghost predicate IsRemainder(m: Bits, r: bv16) {
    exists q: Bits :: Divides(m, q, r)
  }

  function RegisterBit(r: bv16, k: int): bool {
    0 <= k < 16 && r & PowerMask(k) != 0
  }

  /** The register bit that stands for x^k. */
  function PowerMask(k: int): bv16
    requires 0 <= k < 16
  {
    if k == 0 then 0x0001 else if k == 1 then 0x0002 else if k == 2 then 0x0004 else if k == 3 then 0x0008
    else if k == 4 then 0x0010 else if k == 5 then 0x0020 else if k == 6 then 0x0040 else if k == 7 then 0x0080
    else if k == 8 then 0x0100 else if k == 9 then 0x0200 else if k == 10 then 0x0400 else if k == 11 then 0x0800
    else if k == 12 then 0x1000 else if k == 13 then 0x2000 else if k == 14 then 0x4000 else 0x8000
  }

  /** One bit through the shift register of the firmware. */
  function CrcStep(crc: bv16, bit: bool): bv16 {
    var inv: bv16 := ((crc >> 15) ^ (if bit then 1 else 0)) & 1;
    ((crc ^ ((inv << 11) | (inv << 4))) << 1) | inv
  }

  function Crc(bits: Bits): bv16 {
    if bits == [] then 0 else CrcStep(Crc(bits[..|bits| - 1]), bits[|bits| - 1])
  }

  function Inverted(crc: bv16, bit: bool): bool {
    Xor(RegisterBit(crc, 15), bit)
  }

  lemma {:induction false} CrcStepBits(crc: bv16, bit: bool, k: int)
    ensures RegisterBit(CrcStep(crc, bit), k) ==
      (0 <= k < 16 && Xor(RegisterBit(crc, k - 1), Inverted(crc, bit) && (k == 0 || k == 5 || k == 12)))
  {
    if 0 <= k < 16 {
      if
      case k == 0 =>
      case k == 1 =>
      case k == 2 =>
      case k == 3 =>
      case k == 4 =>
      case k == 5 =>
      case k == 6 =>
      case k == 7 =>
      case k == 8 =>
      case k == 9 =>
      case k == 10 =>
      case k == 11 =>
      case k == 12 =>
      case k == 13 =>
      case k == 14 =>
      case k == 15 =>
    }
  }

  // ---------- the register holds the remainder ----------

  /** The quotient that goes with the register: the bits that were fed back. */
  ghost function Quotient(m: Bits): Bits {
    if m == [] then [] else
      var before := m[..|m| - 1];
      Quotient(before) + [Inverted(Crc(before), m[|m| - 1])]
  }

  lemma {:induction false} CrcDivides(m: Bits)
    ensures Divides(m, Quotient(m), Crc(m))
  {
    if m == [] {
      assert forall k: int :: !RegisterBit(0, k);
    } else {
      var before, bit := m[..|m| - 1], m[|m| - 1];
      CrcDivides(before);
      DivisionStep(before, Quotient(before), Crc(before), bit);
      assert m == before + [bit];
    }
  }

  lemma {:induction false} DivisionStep(m: Bits, q: Bits, r: bv16, bit: bool)
    requires Divides(m, q, r)
    ensures Divides(m + [bit], q + [Inverted(r, bit)], CrcStep(r, bit))
  {
    var inv, r' := Inverted(r, bit), CrcStep(r, bit);
    hide CrcStep, RegisterBit;
    forall k: int
      ensures Coefficient(m + [bit], k - 16) == Xor(TimesGenerator(q + [inv], k), RegisterBit(r', k))
    {
      CrcStepBits(r, bit, k);
      RegisterRange(r, k - 1);
      assert Coefficient(m, (k - 1) - 16) == Xor(TimesGenerator(q, k - 1), RegisterBit(r, k - 1));
      AppendCoefficient(m, bit, k - 16);
      AppendCoefficient(q, inv, k - 16);
      AppendCoefficient(q, inv, k - 12);
      AppendCoefficient(q, inv, k - 5);
      AppendCoefficient(q, inv, k);
    }
  }

  lemma {:induction false} RegisterRange(r: bv16, k: int)
    ensures RegisterBit(r, k) ==> 0 <= k < 16
  {
  }

  lemma {:induction false} AppendCoefficient(p: Bits, bit: bool, k: int)
    ensures Coefficient(p + [bit], k) == if k == 0 then bit else Coefficient(p, k - 1)
  {
  }

  /** Division by the generator leaves one remainder only. */
  lemma {:induction false} RemainderUnique(m: Bits, q1: Bits, r1: bv16, q2: Bits, r2: bv16)
    requires Divides(m, q1, r1) && Divides(m, q2, r2)
    ensures r1 == r2
  {
    forall k | 0 <= k < 16
      ensures RegisterBit(r1, k) == RegisterBit(r2, k)
    {
      QuotientsAgree(m, q1, r1, q2, r2, k);
      QuotientsAgree(m, q1, r1, q2, r2, k - 5);
      QuotientsAgree(m, q1, r1, q2, r2, k - 12);
      QuotientsAgree(m, q1, r1, q2, r2, k - 16);
      assert Xor(TimesGenerator(q1, k), RegisterBit(r1, k)) == Coefficient(m, k - 16) == Xor(TimesGenerator(q2, k), RegisterBit(r2, k));
    }
    SameBits(r1, r2);
  }

  lemma {:induction false} QuotientsAgree(m: Bits, q1: Bits, r1: bv16, q2: Bits, r2: bv16, k: int)
    requires Divides(m, q1, r1) && Divides(m, q2, r2)
    ensures Coefficient(q1, k) == Coefficient(q2, k)
    decreases |q1| + |q2| - k
  {
    if 0 <= k < |q1| + |q2| {
      QuotientsAgree(m, q1, r1, q2, r2, k + 4);
      QuotientsAgree(m, q1, r1, q2, r2, k + 11);
      QuotientsAgree(m, q1, r1, q2, r2, k + 16);
      RegisterRange(r1, k + 16);
      RegisterRange(r2, k + 16);
      hide RegisterBit;
      assert Xor(TimesGenerator(q1, k + 16), RegisterBit(r1, k + 16)) == Coefficient(m, k) == Xor(TimesGenerator(q2, k + 16), RegisterBit(r2, k + 16));
    }
  }

  lemma {:induction false} SameBits(a: bv16, b: bv16)
    requires forall k :: 0 <= k < 16 ==> RegisterBit(a, k) == RegisterBit(b, k)
    ensures a == b
  {
    hide RegisterBit;
    SameSixteenBits(a, b);
  }

  lemma {:induction false} SameSixteenBits(a: bv16, b: bv16)
    requires
      RegisterBit(a, 0) == RegisterBit(b, 0) && RegisterBit(a, 1) == RegisterBit(b, 1) &&
      RegisterBit(a, 2) == RegisterBit(b, 2) && RegisterBit(a, 3) == RegisterBit(b, 3) &&
      RegisterBit(a, 4) == RegisterBit(b, 4) && RegisterBit(a, 5) == RegisterBit(b, 5) &&
      RegisterBit(a, 6) == RegisterBit(b, 6) && RegisterBit(a, 7) == RegisterBit(b, 7) &&
      RegisterBit(a, 8) == RegisterBit(b, 8) && RegisterBit(a, 9) == RegisterBit(b, 9) &&
      RegisterBit(a, 10) == RegisterBit(b, 10) && RegisterBit(a, 11) == RegisterBit(b, 11) &&
      RegisterBit(a, 12) == RegisterBit(b, 12) && RegisterBit(a, 13) == RegisterBit(b, 13) &&
      RegisterBit(a, 14) == RegisterBit(b, 14) && RegisterBit(a, 15) == RegisterBit(b, 15)
    ensures a == b
  {
  }

  lemma {:induction false} CrcIsTheRemainder(m: Bits, r: bv16)
    ensures IsRemainder(m, r) <==> r == Crc(m)
  {
    CrcDivides(m);
    if IsRemainder(m, r) {
      var q :| Divides(m, q, r);
      RemainderUnique(m, q, r, Quotient(m), Crc(m));
    }
  }

  // ---------- the four data lines ----------

  /** The bit a line takes from the upper half of a byte. */
  function LineBit(byte: bv8, line: nat): bool
    requires line < 4
  {
    (byte >> ((7 - line) as bv4)) & 1 == 1
  }

  /** Everything one line carries for some bytes: upper half first. */
  function LineBits(data: seq<bv8>, line: nat): Bits
    requires line < 4
  {
    if data == [] then [] else
      var last := data[|data| - 1];
      LineBits(data[..|data| - 1], line) + [LineBit(last, line)] + [LineBit(last << 4, line)]
  }

  /** Bits shifted into a 16-bit register; only the last sixteen stay. */
  function Shifted(bits: Bits): bv16 {
    if bits == [] then 0 else (Shifted(bits[..|bits| - 1]) << 1) | (if bits[|bits| - 1] then 1 else 0)
  }

  /** One line carries its remainder in the eight bytes that follow the data. */
  ghost predicate LineIntact(data: seq<bv8>, length: nat, line: nat)
    requires |data| == length + 8 && line < 4
  {
    IsRemainder(LineBits(data[..length], line), Shifted(LineBits(data[length..], line)))
  }

  ghost predicate Intact(data: seq<bv8>, length: nat)
    requires |data| == length + 8
  {
    forall line :: 0 <= line < 4 ==> LineIntact(data, length, line)
  }

  lemma {:induction false} LineIntactMeaning(data: seq<bv8>, length: nat, line: nat)
    requires |data| == length + 8 && line < 4
    ensures LineIntact(data, length, line) <==> Crc(LineBits(data[..length], line)) == Shifted(LineBits(data[length..], line))
  {
    CrcIsTheRemainder(LineBits(data[..length], line), Shifted(LineBits(data[length..], line)));
  }

  lemma {:induction false} ShiftedAppend(bits: Bits, bit: bool)
    ensures Shifted(bits + [bit]) == (Shifted(bits) << 1) | (if bit then 1 else 0)
  {
    assert (bits + [bit])[..|bits|] == bits;
  }

  lemma {:induction false} CrcAppend(bits: Bits, bit: bool)
    ensures Crc(bits + [bit]) == CrcStep(Crc(bits), bit)
  {
    assert (bits + [bit])[..|bits|] == bits;
  }

  method ShiftHalfByte(registers: array<bv16>, byte: bv8, ghost bits: seq<Bits>)
    requires registers.Length == 4 && |bits| == 4
    requires forall line :: 0 <= line < 4 ==> registers[line] == Shifted(bits[line])
    modifies registers
    ensures forall line :: 0 <= line < 4 ==> registers[line] == Shifted(bits[line] + [LineBit(byte, line)])
  {
    hide Shifted, Crc, LineBit;
    for crc := 0 to 4
      invariant forall line :: 0 <= line < crc ==> registers[line] == Shifted(bits[line] + [LineBit(byte, line)])
      invariant forall line :: crc <= line < 4 ==> registers[line] == Shifted(bits[line])
    {
      ShiftedAppend(bits[crc], LineBit(byte, crc));
      registers[crc] := registers[crc] << 1;
      registers[crc] := registers[crc] | (if LineBit(byte, crc) then 1 else 0);
    }
  }

  method CrcHalfByte(registers: array<bv16>, byte: bv8, ghost bits: seq<Bits>)
    requires registers.Length == 4 && |bits| == 4
    requires forall line :: 0 <= line < 4 ==> registers[line] == Crc(bits[line])
    modifies registers
    ensures forall line :: 0 <= line < 4 ==> registers[line] == Crc(bits[line] + [LineBit(byte, line)])
  {
    hide Shifted, Crc, LineBit;
    for crc := 0 to 4
      invariant forall line :: 0 <= line < crc ==> registers[line] == Crc(bits[line] + [LineBit(byte, line)])
      invariant forall line :: crc <= line < 4 ==> registers[line] == Crc(bits[line])
    {
      CrcAppend(bits[crc], LineBit(byte, crc));
      var inv: bv16 := ((registers[crc] >> 15) ^ (if LineBit(byte, crc) then 1 else 0)) & 1;
      registers[crc] := registers[crc] ^ ((inv << 11) | (inv << 4));
      registers[crc] := registers[crc] << 1;
      registers[crc] := registers[crc] | inv;
    }
  }

  ghost function AllLines(data: seq<bv8>): (s: seq<Bits>)
    ensures |s| == 4 && forall line :: 0 <= line < 4 ==> s[line] == LineBits(data, line)
  {
    seq(4, line requires 0 <= line < 4 => LineBits(data, line))
  }

  ghost function AddHalf(lines: seq<Bits>, byte: bv8): (s: seq<Bits>)
    requires |lines| == 4
    ensures |s| == 4 && forall line :: 0 <= line < 4 ==> s[line] == lines[line] + [LineBit(byte, line)]
  {
    seq(4, line requires 0 <= line < 4 => lines[line] + [LineBit(byte, line)])
  }

  lemma {:induction false} AddByte(data: seq<bv8>, byte: bv8)
    ensures AllLines(data + [byte]) == AddHalf(AddHalf(AllLines(data), byte), byte << 4)
  {
    assert (data + [byte])[..|data|] == data;
  }

  lemma {:induction false} NoBytes()
    ensures AllLines([]) == [[], [], [], []] && Shifted([]) == 0 && Crc([]) == 0
  {
  }

  method CollectDeviceCrc(deviceCrc: array<bv16>, trailer: seq<bv8>)
    requires deviceCrc.Length == 4 && |trailer| == 8
    requires forall line :: 0 <= line < 4 ==> deviceCrc[line] == 0
    modifies deviceCrc
    ensures forall line :: 0 <= line < 4 ==> deviceCrc[line] == Shifted(LineBits(trailer, line))
  {
    hide Shifted, Crc, LineBit, LineBits;
    NoBytes();
    assert trailer[..0] == [];
    for index := 0 to 8
      invariant forall line :: 0 <= line < 4 ==> deviceCrc[line] == Shifted(AllLines(trailer[..index])[line])
    {
      var byte := trailer[index];
      ghost var before := trailer[..index];
      ShiftHalfByte(deviceCrc, byte, AllLines(before));
      ShiftHalfByte(deviceCrc, byte << 4, AddHalf(AllLines(before), byte));
      AddByte(before, byte);
      assert trailer[..index + 1] == before + [byte];
    }
    assert trailer[..8] == trailer;
  }

  method ComputeControllerCrc(controllerCrc: array<bv16>, body: seq<bv8>)
    requires controllerCrc.Length == 4
    requires forall line :: 0 <= line < 4 ==> controllerCrc[line] == 0
    modifies controllerCrc
    ensures forall line :: 0 <= line < 4 ==> controllerCrc[line] == Crc(LineBits(body, line))
  {
    hide Shifted, Crc, LineBit, LineBits;
    NoBytes();
    assert body[..0] == [];
    for index := 0 to |body|
      invariant forall line :: 0 <= line < 4 ==> controllerCrc[line] == Crc(AllLines(body[..index])[line])
    {
      var byte := body[index];
      ghost var before := body[..index];
      CrcHalfByte(controllerCrc, byte, AllLines(before));
      CrcHalfByte(controllerCrc, byte << 4, AddHalf(AllLines(before), byte));
      AddByte(before, byte);
      assert body[..index + 1] == before + [byte];
    }
    assert body[..|body|] == body;
  }

  /** Returns true when the buffer is damaged. */
  method CheckCrc16(data: seq<bv8>, length: nat) returns (bad: bool)
    requires |data| == length + 8
    ensures bad <==> !Intact(data, length)
  {
    var deviceCrc := new bv16[4](_ => 0);
    var controllerCrc := new bv16[4](_ => 0);
    CollectDeviceCrc(deviceCrc, data[length..]);
    ComputeControllerCrc(controllerCrc, data[..length]);
    hide Crc, Shifted, LineIntact, LineBits;
    forall line | 0 <= line < 4
      ensures LineIntact(data, length, line) <==> deviceCrc[line] == controllerCrc[line]
    {
      LineIntactMeaning(data, length, line);
    }
    for crc := 0 to 4
      invariant forall line :: 0 <= line < crc ==> controllerCrc[line] == deviceCrc[line]
    {
      if controllerCrc[crc] != deviceCrc[crc] { return true; }
    }
    return false;
  }

  // ---------- one flipped bit ----------

  /** For a fixed bit, no two registers lead to the same one; and the bit always shows. */
  lemma {:induction false} CrcStepInjective(a: bv16, b: bv16, bit: bool)
    ensures CrcStep(a, bit) == CrcStep(b, bit) ==> a == b
    ensures CrcStep(a, bit) != CrcStep(a, !bit)
  {
  }

  lemma {:induction false} CrcKeepsDifference(a: Bits, b: Bits, tail: Bits)
    requires Crc(a) != Crc(b)
    ensures Crc(a + tail) != Crc(b + tail)
  {
    if tail == [] {
      assert a + tail == a && b + tail == b;
    } else {
      var front, bit := tail[..|tail| - 1], tail[|tail| - 1];
      CrcKeepsDifference(a, b, front);
      CrcAppend(a + front, bit);
      CrcAppend(b + front, bit);
      CrcStepInjective(Crc(a + front), Crc(b + front), bit);
      assert a + tail == a + front + [bit] && b + tail == b + front + [bit];
    }
  }

  function ByteBits(byte: bv8, line: nat): Bits
    requires line < 4
  {
    [LineBit(byte, line), LineBit(byte << 4, line)]
  }

  lemma {:induction false} LineBitsAppend(front: seq<bv8>, byte: bv8, line: nat)
    requires line < 4
    ensures LineBits(front + [byte], line) == LineBits(front, line) + ByteBits(byte, line)
  {
    assert (front + [byte])[..|front|] == front;
  }

  lemma {:induction false} LineBitsSplit(front: seq<bv8>, back: seq<bv8>, line: nat)
    requires line < 4
    ensures LineBits(front + back, line) == LineBits(front, line) + LineBits(back, line)
  {
    if back == [] {
      assert front + back == front;
    } else {
      var init, last := back[..|back| - 1], back[|back| - 1];
      LineBitsSplit(front, init, line);
      LineBitsAppend(front + init, last, line);
      LineBitsAppend(init, last, line);
      assert back == init + [last];
      hide LineBits, ByteBits;
      assert front + back == front + init + [last];
      assert LineBits(front, line) + LineBits(init, line) + ByteBits(last, line) == LineBits(front, line) + (LineBits(init, line) + ByteBits(last, line));
    }
  }

  /** Flipping one bit of a byte changes exactly one bit of exactly one line. */
  lemma {:induction false} FlippedByte(byte: bv8, bit: nat)
    requires bit < 8
    ensures var flipped, line := byte ^ (1 << (bit as bv4)), 3 - bit % 4;
      if bit >= 4 then LineBit(flipped, line) != LineBit(byte, line) && LineBit(flipped << 4, line) == LineBit(byte << 4, line)
      else LineBit(flipped, line) == LineBit(byte, line) && LineBit(flipped << 4, line) != LineBit(byte << 4, line)
  {
    if bit == 0 {} else if bit == 1 {} else if bit == 2 {} else if bit == 3 {}
    else if bit == 4 {} else if bit == 5 {} else if bit == 6 {} else {}
  }

  lemma {:induction false} FlippedByteChangesCrc(front: seq<bv8>, byte: bv8, flipped: bv8, line: nat)
    requires line < 4
    requires (LineBit(flipped, line) != LineBit(byte, line)) != (LineBit(flipped << 4, line) != LineBit(byte << 4, line))
    ensures Crc(LineBits(front + [byte], line)) != Crc(LineBits(front + [flipped], line))
  {
    LineBitsAppend(front, byte, line);
    LineBitsAppend(front, flipped, line);
    CrcOfTwo(LineBits(front, line), LineBit(byte, line), LineBit(byte << 4, line));
    CrcOfTwo(LineBits(front, line), LineBit(flipped, line), LineBit(flipped << 4, line));
    TwoStepsDiffer(Crc(LineBits(front, line)), LineBit(byte, line), LineBit(byte << 4, line));
    hide Crc, CrcStep, LineBit, LineBits;
  }

  lemma {:induction false} CrcOfTwo(bits: Bits, x: bool, y: bool)
    ensures Crc(bits + [x, y]) == CrcStep(CrcStep(Crc(bits), x), y)
  {
    CrcAppend(bits, x);
    CrcAppend(bits + [x], y);
    assert bits + [x, y] == bits + [x] + [y];
  }

  lemma {:induction false} TwoStepsDiffer(r: bv16, x: bool, y: bool)
    ensures CrcStep(CrcStep(r, x), y) != CrcStep(CrcStep(r, !x), y)
    ensures CrcStep(CrcStep(r, x), y) != CrcStep(CrcStep(r, x), !y)
  {
  }

  lemma {:induction false} ChangedLineIsCaught(data: seq<bv8>, length: nat, index: nat, byte': bv8, line: nat)
    requires |data| == length + 8 && index < length && line < 4
    requires Crc(LineBits(data[..index] + [data[index]], line)) != Crc(LineBits(data[..index] + [byte'], line))
    requires Intact(data, length)
    ensures !Intact(data[index := byte'], length)
  {
    var data', back := data[index := byte'], data[index + 1..length];
    var front1, front2 := data[..index] + [data[index]], data[..index] + [byte'];
    hide LineBits, Crc, LineIntact, Shifted;
    assert data[..length] == front1 + back && data'[..length] == front2 + back && data[length..] == data'[length..];
    LineIntactMeaning(data, length, line);
    LineIntactMeaning(data', length, line);
    LineBitsSplit(front1, back, line);
    LineBitsSplit(front2, back, line);
    CrcKeepsDifference(LineBits(front1, line), LineBits(front2, line), LineBits(back, line));
  }

  /** A buffer with one data bit flipped never passes with the checksum of the original. */
  lemma {:induction false} FlippedBitIsCaught(data: seq<bv8>, length: nat, index: nat, bit: nat)
    requires |data| == length + 8 && index < length && bit < 8
    requires Intact(data, length)
    ensures !Intact(data[index := data[index] ^ (1 << (bit as bv4))], length)
  {
    var line, byte' := 3 - bit % 4, data[index] ^ (1 << (bit as bv4));
    FlippedByte(data[index], bit);
    hide LineBits, Crc, Intact, LineBit;
    FlippedByteChangesCrc(data[..index], data[index], byte', line);
    ChangedLineIsCaught(data, length, index, byte', line);
  }
}
