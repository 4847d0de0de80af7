/**
 The boot code checksum, written twice: sw/bootloader/src/cic.c keeps a rolling window of three
 words and rotates with shifts, sw/deployer/src/sc64/cic.rs reads by index and rotates outright.
 Both are proved against one definition.
 */
module Ipl3 {
  import opened Bytes

  const WORDS := 1008
  const LENGTH := 4032
  /**
   A 32-bit machine word. Wrapping the bit-vector keeps its bits out of the proofs about the loops;
   only the rotation lemmas look inside.
   */
  datatype U32 = U32(bits: bv32)

  const MAGIC := U32(0x6C078965)

  // ---------- arithmetic ----------

  function Add(a: U32, b: U32): U32 { U32(a.bits + b.bits) }
  function Sub(a: U32, b: U32): U32 { U32(a.bits - b.bits) }
  function Mul(a: U32, b: U32): U32 { U32(a.bits * b.bits) }
  function Xor(a: U32, b: U32): U32 { U32(a.bits ^ b.bits) }
  predicate Less(a: U32, b: U32) { a.bits < b.bits }
  predicate Odd(a: U32) { a.bits & 1 == 1 }
  predicate LowBitsEqual(a: U32) { (a.bits & 2) >> 1 == a.bits & 1 }

  /** Rotation amounts taken from a word: its lowest and its highest five bits. */
  function LowFive(a: U32): (s: bv32)
    ensures s < 32
  {
    a.bits & 0x1F
  }

  function HighFive(a: U32): (s: bv32)
    ensures s < 32
  {
    a.bits >> 27
  }

  function Word(i: nat): U32
    requires i < 0x1_0000_0000
  {
    U32(i as bv32)
  }

  /** The folded 64-bit product that drives the checksum. */
  function Sum(a0: U32, a1: U32, a2: U32): U32 {
    var diff := Fold(Product(a0.bits, if a1.bits == 0 then a2.bits else a1.bits));
    if diff == 0 then a0 else U32(diff)
  }

  function Product(a: bv32, b: bv32): bv64 { (a as bv64) * (b as bv64) }

  function Fold(prod: bv64): bv32 {
    ((prod >> 32) as bv32) - ((prod & 0xFFFF_FFFF) as bv32)
  }

  function Joined(high: bv32, low: bv32): bv64 {
    ((high as bv64) << 32) | (low as bv64)
  }

  lemma {:induction false} FoldJoined(high: bv32, low: bv32)
    ensures Fold(Joined(high, low)) == high - low
  {
    assert (Joined(high, low) >> 32) as bv32 == high;
    assert (Joined(high, low) & 0xFFFF_FFFF) as bv32 == low;
  }

  lemma {:induction false} NoDifference(high: bv32, low: bv32)
    ensures high - low == 0 <==> high == low
  {
  }

  /** The low half of the product is taken from the high half; a zero second factor is replaced, and a zero difference. */
  lemma {:induction false} SumMeaning(a0: U32, a1: U32, a2: U32, high: bv32, low: bv32)
    requires Product(a0.bits, if a1.bits == 0 then a2.bits else a1.bits) == Joined(high, low)
    ensures Sum(a0, a1, a2) == if high == low then a0 else U32(high - low)
  {
    hide Fold, Joined, Product;
    FoldJoined(high, low);
    NoDifference(high, low);
  }

  /** Rotation by one place, and by s places: what rotate_left and rotate_right do. */
  function RotateLeft(a: bv32, s: nat): bv32 {
    if s == 0 then a else LeftOnce(RotateLeft(a, s - 1))
  }

  function RotateRight(a: bv32, s: nat): bv32 {
    if s == 0 then a else RightOnce(RotateRight(a, s - 1))
  }

  function LeftOnce(a: bv32): bv32 { (a << 1) | (a >> 31) }
  function RightOnce(a: bv32): bv32 { (a >> 1) | (a << 31) }

  function Rol(a: U32, s: bv32): U32 { U32(RotateLeft(a.bits, s as nat)) }
  function Ror(a: U32, s: bv32): U32 { U32(RotateRight(a.bits, s as nat)) }

  /** The C code's rotations: two shifts, the second by the negated amount modulo 32. */
  function ShiftRol(a: bv32, s: bv32): bv32
    requires s < 32
  {
    (a << s) | (a >> ((0 - s) & 31))
  }

  function ShiftRor(a: bv32, s: bv32): bv32
    requires s < 32
  {
    (a >> s) | (a << ((0 - s) & 31))
  }

  // The shift amounts are taken one by one: the solver expands each into plain bits.

  lemma {:induction false} ShiftRolStepLow(a: bv32, s: bv32)
    requires 1 <= s < 16
    ensures ShiftRol(a, s) == LeftOnce(ShiftRol(a, s - 1))
  {
    if s == 1 {} else if s == 2 {} else if s == 3 {} else if s == 4 {} else if s == 5 {}
    else if s == 6 {} else if s == 7 {} else if s == 8 {} else if s == 9 {} else if s == 10 {}
    else if s == 11 {} else if s == 12 {} else if s == 13 {} else if s == 14 {} else {}
  }

  lemma {:induction false} ShiftRolStepHigh(a: bv32, s: bv32)
    requires 16 <= s < 32
    ensures ShiftRol(a, s) == LeftOnce(ShiftRol(a, s - 1))
  {
    if s == 16 {} else if s == 17 {} else if s == 18 {} else if s == 19 {} else if s == 20 {}
    else if s == 21 {} else if s == 22 {} else if s == 23 {} else if s == 24 {} else if s == 25 {}
    else if s == 26 {} else if s == 27 {} else if s == 28 {} else if s == 29 {} else if s == 30 {}
    else {}
  }

  lemma {:induction false} ShiftRorStepLow(a: bv32, s: bv32)
    requires 1 <= s < 16
    ensures ShiftRor(a, s) == RightOnce(ShiftRor(a, s - 1))
  {
    if s == 1 {} else if s == 2 {} else if s == 3 {} else if s == 4 {} else if s == 5 {}
    else if s == 6 {} else if s == 7 {} else if s == 8 {} else if s == 9 {} else if s == 10 {}
    else if s == 11 {} else if s == 12 {} else if s == 13 {} else if s == 14 {} else {}
  }

  lemma {:induction false} ShiftRorStepHigh(a: bv32, s: bv32)
    requires 16 <= s < 32
    ensures ShiftRor(a, s) == RightOnce(ShiftRor(a, s - 1))
  {
    if s == 16 {} else if s == 17 {} else if s == 18 {} else if s == 19 {} else if s == 20 {}
    else if s == 21 {} else if s == 22 {} else if s == 23 {} else if s == 24 {} else if s == 25 {}
    else if s == 26 {} else if s == 27 {} else if s == 28 {} else if s == 29 {} else if s == 30 {}
    else {}
  }

  lemma {:induction false} ShiftsAreRotations(a: bv32, s: bv32)
    requires s < 32
    ensures ShiftRol(a, s) == RotateLeft(a, s as nat) && ShiftRor(a, s) == RotateRight(a, s as nat)
    decreases s as nat
  {
    if s == 0 {
      ShiftByNothing(a);
    } else {
      Predecessor(s);
      ShiftsAreRotations(a, s - 1);
      if s < 16 {
        ShiftRolStepLow(a, s);
        ShiftRorStepLow(a, s);
      } else {
        ShiftRolStepHigh(a, s);
        ShiftRorStepHigh(a, s);
      }
      hide ShiftRol, ShiftRor, LeftOnce, RightOnce;
    }
  }

  lemma {:induction false} ShiftByNothing(a: bv32)
    ensures ShiftRol(a, 0) == a && ShiftRor(a, 0) == a
  {
  }

  lemma {:induction false} Predecessor(s: bv32)
    requires 0 < s < 32
    ensures (s - 1) as nat == s as nat - 1
  {
  }

  // ---------- the checksum ----------

  /** Word number `index` of the image, most significant byte first. */
  function Get(ipl3: seq<bv8>, index: nat): U32
    requires |ipl3| >= LENGTH && index < WORDS
  {
    U32(((ipl3[4 * index] as bv32) << 24) | ((ipl3[4 * index + 1] as bv32) << 16) |
        ((ipl3[4 * index + 2] as bv32) << 8) | (ipl3[4 * index + 3] as bv32))
  }

  datatype State = State(
    c0: U32, c1: U32, c2: U32, c3: U32, c4: U32, c5: U32, c6: U32, c7: U32,
    c8: U32, c9: U32, c10: U32, c11: U32, c12: U32, c13: U32, c14: U32, c15: U32)

  function AllCells(v: U32): State {
    State(v, v, v, v, v, v, v, v, v, v, v, v, v, v, v, v)
  }

  /** The sixteen cells of an array, as a record. */
  function Cells(s: seq<U32>): State
    requires |s| == 16
  {
    State(s[0], s[1], s[2], s[3], s[4], s[5], s[6], s[7], s[8], s[9], s[10], s[11], s[12], s[13], s[14], s[15])
  }

  function Cell(b: State, k: nat): U32
    requires k < 16
  {
    if k == 0 then b.c0 else if k == 1 then b.c1 else if k == 2 then b.c2 else if k == 3 then b.c3
    else if k == 4 then b.c4 else if k == 5 then b.c5 else if k == 6 then b.c6 else if k == 7 then b.c7
    else if k == 8 then b.c8 else if k == 9 then b.c9 else if k == 10 then b.c10 else if k == 11 then b.c11
    else if k == 12 then b.c12 else if k == 13 then b.c13 else if k == 14 then b.c14 else b.c15
  }

  function Init(ipl3: seq<bv8>, seed: bv8): U32
    requires |ipl3| >= LENGTH
  {
    Xor(Add(Mul(MAGIC, U32(seed as bv32)), Word(1)), Get(ipl3, 0))
  }

  /** Cells 0 to 4 after one word. */
  function LowStep(b: State, prev: U32, data: U32, i: U32): State {
    b.(c0 := Add(b.c0, Sum(Sub(Word(1007), i), data, i)),
       c1 := Sum(b.c1, data, i),
       c2 := Xor(b.c2, data),
       c3 := Add(b.c3, Sum(Add(data, Word(5)), MAGIC, i)),
       c4 := Add(b.c4, Ror(data, LowFive(prev))))
  }

  /** Cells 5 to 9; cell 6 uses the new cells 3 and 4. */
  function MiddleStep(b: State, prev: U32, data: U32, i: U32): State {
    b.(c5 := Add(b.c5, Rol(data, HighFive(prev))),
       c6 := if Less(data, b.c6) then Xor(Add(b.c3, b.c6), Add(data, i)) else Xor(Add(b.c4, data), b.c6),
       c7 := Sum(b.c7, Rol(data, LowFive(prev)), i),
       c8 := Sum(b.c8, Ror(data, HighFive(prev)), i),
       c9 := if Less(prev, data) then Sum(b.c9, data, i) else Add(b.c9, data))
  }

  function FrontStep(b: State, prev: U32, data: U32, i: U32): State {
    MiddleStep(LowStep(b, prev, data, i), prev, data, i)
  }

  /** Cells 10 to 15, which also look at the word after; the last word has none. */
  function BackStep(b: State, prev: U32, data: U32, next: U32, i: U32): State {
    b.(c10 := Sum(Add(b.c10, data), next, i),
       c11 := Sum(Xor(b.c11, data), next, i),
       c12 := Add(b.c12, Xor(b.c8, data)),
       c13 := Add(b.c13, Add(Ror(data, LowFive(data)), Ror(next, LowFive(next)))),
       c14 := Sum(Sum(b.c14, Ror(data, LowFive(prev)), i), Ror(next, LowFive(data)), i),
       c15 := Sum(Sum(b.c15, Rol(data, HighFive(prev)), i), Rol(next, HighFive(data)), i))
  }

  /** The sixteen cells after the first n words. */
  function After(ipl3: seq<bv8>, seed: bv8, n: nat): State
    requires |ipl3| >= LENGTH && n <= WORDS
  {
    if n == 0 then AllCells(Init(ipl3, seed)) else
      var prev, data := Get(ipl3, if n < 2 then 0 else n - 2), Get(ipl3, n - 1);
      var b := FrontStep(After(ipl3, seed, n - 1), prev, data, Word(n));
      if n == WORDS then b else BackStep(b, prev, data, Get(ipl3, n), Word(n))
  }

  lemma {:induction false} AfterFirst(ipl3: seq<bv8>, seed: bv8)
    requires |ipl3| >= LENGTH
    ensures After(ipl3, seed, 0) == AllCells(Init(ipl3, seed))
  {
  }

  lemma {:induction false} AfterNext(ipl3: seq<bv8>, seed: bv8, n: nat)
    requires |ipl3| >= LENGTH && 1 <= n <= WORDS
    ensures var prev, data := Get(ipl3, if n < 2 then 0 else n - 2), Get(ipl3, n - 1);
      var b := MiddleStep(LowStep(After(ipl3, seed, n - 1), prev, data, Word(n)), prev, data, Word(n));
      After(ipl3, seed, n) == if n == WORDS then b else BackStep(b, prev, data, Get(ipl3, n), Word(n))
  {
    hide Get, LowStep, MiddleStep, BackStep, Word;
  }

  lemma {:induction false} CellsOfConstant(s: seq<U32>, v: U32)
    requires |s| == 16 && forall k :: 0 <= k < 16 ==> s[k] == v
    ensures Cells(s) == AllCells(v)
  {
  }

  datatype Final = Final(f0: U32, f1: U32, f2: U32, f3: U32)

  function FinalStep(f: Final, data: U32, i: U32): Final {
    var f0 := Add(f.f0, Ror(data, LowFive(data)));
    Final(f0,
          if Less(data, f0) then Add(f.f1, data) else Sum(f.f1, data, i),
          if LowBitsEqual(data) then Add(f.f2, data) else Sum(f.f2, data, i),
          if Odd(data) then Xor(f.f3, data) else Sum(f.f3, data, i))
  }

  function FinalAfter(b: State, n: nat): Final
    requires n <= 16
  {
    if n == 0 then Final(b.c0, b.c0, b.c0, b.c0) else FinalStep(FinalAfter(b, n - 1), Cell(b, n - 1), Word(n - 1))
  }

  function Pack(f: Final): nat {
    ((((Sum(f.f0, f.f1, Word(16)).bits as bv64) & 0xFFFF) << 32) | (Xor(f.f3, f.f2).bits as bv64)) as nat
  }

  /** The 48-bit checksum of a boot code image under a seed. */
  function Checksum(ipl3: seq<bv8>, seed: bv8): nat
    requires |ipl3| >= LENGTH
  {
    Pack(FinalAfter(After(ipl3, seed, WORDS), 16))
  }

  // ---------- the C code ----------

  function CRol(a: U32, s: bv32): (r: U32)
    requires s < 32
    ensures r == Rol(a, s)
  {
    ShiftsAreRotations(a.bits, s);
    U32(ShiftRol(a.bits, s))
  }

  function CRor(a: U32, s: bv32): (r: U32)
    requires s < 32
    ensures r == Ror(a, s)
  {
    ShiftsAreRotations(a.bits, s);
    U32(ShiftRor(a.bits, s))
  }

  method CLow(buf: array<U32>, prev: U32, data: U32, i: U32)
    requires buf.Length == 16
    modifies buf
    ensures Cells(buf[..]) == LowStep(old(Cells(buf[..])), prev, data, i)
  {
    hide Add, Sub, Xor, Sum, Rol, Ror, CRol, CRor, LowFive, HighFive, Less;
    buf[0] := Add(buf[0], Sum(Sub(Word(1007), i), data, i));
    buf[1] := Sum(buf[1], data, i);
    buf[2] := Xor(buf[2], data);
    buf[3] := Add(buf[3], Sum(Add(data, Word(5)), MAGIC, i));
    buf[4] := Add(buf[4], CRor(data, LowFive(prev)));
  }

  method CMiddle(buf: array<U32>, prev: U32, data: U32, i: U32)
    requires buf.Length == 16
    modifies buf
    ensures Cells(buf[..]) == MiddleStep(old(Cells(buf[..])), prev, data, i)
  {
    hide Add, Sub, Xor, Sum, Rol, Ror, CRol, CRor, LowFive, HighFive, Less;
    buf[5] := Add(buf[5], CRol(data, HighFive(prev)));
    buf[6] := if Less(data, buf[6]) then Xor(Add(buf[3], buf[6]), Add(data, i)) else Xor(Add(buf[4], data), buf[6]);
    buf[7] := Sum(buf[7], CRol(data, LowFive(prev)), i);
    buf[8] := Sum(buf[8], CRor(data, HighFive(prev)), i);
    buf[9] := if Less(prev, data) then Sum(buf[9], data, i) else Add(buf[9], data);
  }

  method CBack(buf: array<U32>, prev: U32, data: U32, next: U32, i: U32)
    requires buf.Length == 16
    modifies buf
    ensures Cells(buf[..]) == BackStep(old(Cells(buf[..])), prev, data, next, i)
  {
    hide Add, Sub, Xor, Sum, Rol, Ror, CRol, CRor, LowFive, HighFive, Less;
    buf[10] := Sum(Add(buf[10], data), next, i);
    buf[11] := Sum(Xor(buf[11], data), next, i);
    buf[12] := Add(buf[12], Xor(buf[8], data));
    buf[13] := Add(buf[13], Add(CRor(data, LowFive(data)), CRor(next, LowFive(next))));
    buf[14] := Sum(Sum(buf[14], CRor(data, LowFive(prev)), i), CRor(next, LowFive(data)), i);
    buf[15] := Sum(Sum(buf[15], CRol(data, HighFive(prev)), i), CRol(next, HighFive(data)), i);
  }

  method CChecksum(ipl3: seq<bv8>, seed: bv8) returns (checksum: nat)
    requires |ipl3| >= LENGTH
    ensures checksum == Checksum(ipl3, seed)
  {
    hide Get, LowStep, MiddleStep, BackStep, Init, Word, FinalAfter, Pack, After, Cells;
    AfterFirst(ipl3, seed);
    var data := Get(ipl3, 0);
    var prev, next := data, data;
    var buf := new U32[16](_ => Init(ipl3, seed));
    CellsOfConstant(buf[..], Init(ipl3, seed));
    var i := 1;
    while true
      invariant 1 <= i <= WORDS
      invariant next == Get(ipl3, i - 1) && data == Get(ipl3, if i < 2 then 0 else i - 2)
      invariant Cells(buf[..]) == After(ipl3, seed, i - 1)
      decreases WORDS - i
    {
      prev := data;
      data := next;
      AfterNext(ipl3, seed, i);
      CLow(buf, prev, data, Word(i));
      CMiddle(buf, prev, data, Word(i));
      if i == WORDS { break; }
      next := Get(ipl3, i);
      CBack(buf, prev, data, next, Word(i));
      i := i + 1;
    }
    var f := CFinish(buf);
    checksum := Pack(f);
  }

  method CFinish(buf: array<U32>) returns (f: Final)
    requires buf.Length == 16
    ensures f == FinalAfter(Cells(buf[..]), 16)
  {
    hide FinalStep, CFinal, Word;
    f := Final(buf[0], buf[0], buf[0], buf[0]);
    for k := 0 to 16
      invariant f == FinalAfter(Cells(buf[..]), k)
    {
      CellAt(buf[..], k);
      f := CFinal(f, buf[k], Word(k));
    }
  }

  lemma {:induction false} CellAt(s: seq<U32>, k: nat)
    requires |s| == 16 && k < 16
    ensures Cell(Cells(s), k) == s[k]
  {
  }

  function CFinal(f: Final, data: U32, i: U32): (r: Final)
    ensures r == FinalStep(f, data, i)
  {
    var f0 := Add(f.f0, CRor(data, LowFive(data)));
    Final(f0,
          if Less(data, f0) then Add(f.f1, data) else Sum(f.f1, data, i),
          if LowBitsEqual(data) then Add(f.f2, data) else Sum(f.f2, data, i),
          if Odd(data) then Xor(f.f3, data) else Sum(f.f3, data, i))
  }

  // ---------- the Rust code ----------

  method RustLow(buf: array<U32>, prev: U32, data: U32, i: U32)
    requires buf.Length == 16
    modifies buf
    ensures Cells(buf[..]) == LowStep(old(Cells(buf[..])), prev, data, i)
  {
    hide Add, Sub, Xor, Sum, Rol, Ror, LowFive, HighFive;
    buf[0] := Add(buf[0], Sum(Sub(Word(1007), i), data, i));
    buf[1] := Sum(buf[1], data, i);
    buf[2] := Xor(buf[2], data);
    buf[3] := Add(buf[3], Sum(Add(data, Word(5)), MAGIC, i));
    buf[4] := Add(buf[4], Ror(data, LowFive(prev)));
  }

  method RustMiddle(buf: array<U32>, prev: U32, data: U32, i: U32)
    requires buf.Length == 16
    modifies buf
    ensures Cells(buf[..]) == MiddleStep(old(Cells(buf[..])), prev, data, i)
  {
    hide Add, Sub, Xor, Sum, Rol, Ror, LowFive, HighFive, Less;
    buf[5] := Add(buf[5], Rol(data, HighFive(prev)));
    buf[6] := if Less(data, buf[6]) then Xor(Add(buf[3], buf[6]), Add(data, i)) else Xor(Add(buf[4], data), buf[6]);
    buf[7] := Sum(buf[7], Rol(data, LowFive(prev)), i);
    buf[8] := Sum(buf[8], Ror(data, HighFive(prev)), i);
    buf[9] := if Less(prev, data) then Sum(buf[9], data, i) else Add(buf[9], data);
  }

  method RustBack(buf: array<U32>, prev: U32, data: U32, next: U32, i: U32)
    requires buf.Length == 16
    modifies buf
    ensures Cells(buf[..]) == BackStep(old(Cells(buf[..])), prev, data, next, i)
  {
    hide Add, Sub, Xor, Sum, Rol, Ror, LowFive, HighFive;
    buf[10] := Sum(Add(buf[10], data), next, i);
    buf[11] := Sum(Xor(buf[11], data), next, i);
    buf[12] := Add(buf[12], Xor(buf[8], data));
    buf[13] := Add(buf[13], Add(Ror(data, LowFive(data)), Ror(next, LowFive(next))));
    buf[14] := Sum(Sum(buf[14], Ror(data, LowFive(prev)), i), Ror(next, LowFive(data)), i);
    buf[15] := Sum(Sum(buf[15], Rol(data, HighFive(prev)), i), Rol(next, HighFive(data)), i);
  }

  /** The body of the loop; true when it leaves the loop. */
  method RustWord(buf: array<U32>, ipl3: seq<bv8>, i: nat, ghost seed: bv8) returns (last: bool)
    requires buf.Length == 16 && |ipl3| >= LENGTH && 1 <= i <= WORDS
    requires Cells(buf[..]) == After(ipl3, seed, i - 1)
    modifies buf
    ensures Cells(buf[..]) == After(ipl3, seed, i)
    ensures last <==> i == WORDS
  {
    hide Get, LowStep, MiddleStep, BackStep, Word, After, Cells;
    AfterNext(ipl3, seed, i);
    var prev := Get(ipl3, if i < 2 then 0 else i - 2);
    var data := Get(ipl3, i - 1);
    RustLow(buf, prev, data, Word(i));
    RustMiddle(buf, prev, data, Word(i));
    if i == WORDS { return true; }
    var next := Get(ipl3, i);
    RustBack(buf, prev, data, next, Word(i));
    return false;
  }

  /** None when the image is too short. */
  method RustChecksum(ipl3: seq<bv8>, seed: bv8) returns (checksum: Option<nat>)
    ensures checksum == if |ipl3| < LENGTH then None else Some(Checksum(ipl3, seed))
  {
    hide Init, FinalAfter, Pack, After, Cells;
    if |ipl3| < LENGTH { return None; }
    AfterFirst(ipl3, seed);
    var buf := new U32[16](_ => Init(ipl3, seed));
    CellsOfConstant(buf[..], Init(ipl3, seed));
    var i := 1;
    while i <= WORDS
      invariant 1 <= i <= WORDS + 1 && Cells(buf[..]) == After(ipl3, seed, i - 1)
    {
      var last := RustWord(buf, ipl3, i, seed);
      i := i + 1;
    }
    var f := RustFinish(buf);
    checksum := Some(Pack(f));
  }

  method RustFinish(buf: array<U32>) returns (f: Final)
    requires buf.Length == 16
    ensures f == FinalAfter(Cells(buf[..]), 16)
  {
    hide FinalStep, Word;
    f := Final(buf[0], buf[0], buf[0], buf[0]);
    for k := 0 to 16
      invariant f == FinalAfter(Cells(buf[..]), k)
    {
      CellAt(buf[..], k);
      f := FinalStep(f, buf[k], Word(k));
    }
  }

  // ---------- recognising known boot code ----------

  datatype CicType =
    CIC_5101 | CIC_5167 | CIC_6101 | CIC_7102 | CIC_6102_7101 | CIC_x103 | CIC_x105 | CIC_x106
    | CIC_8301 | CIC_8302 | CIC_8303 | CIC_8401 | CIC_8501 | CIC_UNKNOWN

  /** cic_detect, as a function of the checksum under each seed. */
  function Detect(c: bv8 -> nat): CicType {
    if c(0x3F) == 0x45CC73EE317A then CIC_6101
    else if c(0x3F) == 0x44160EC5D9AF then CIC_7102
    else if c(0x3F) == 0xA536C0F1D859 then CIC_6102_7101
    else if c(0x78) == 0x586FD4709867 then CIC_x103
    else if c(0x85) == 0x2BBAD4E6EB74 then CIC_x106
    else if c(0x91) == 0x8618A45BC2D3 then CIC_x105
    else if c(0xDD) == 0x6EE8D9E84970 then CIC_8401
    else if c(0xDD) == 0x6C216495C8B9 then CIC_8301
    else if c(0xDD) == 0xE27F43BA93AC then CIC_8302
    else if c(0xDD) == 0x32B294E2AB90 then CIC_8303
    else if c(0xDD) == 0x083C6C77E0B1 then CIC_5167
    else if c(0xDE) == 0x05BA2EF0A5F1 then CIC_8501
    else CIC_UNKNOWN
  }

  function GetSeed(t: CicType): bv8 {
    match t
    case CIC_5101 => 0xAC
    case CIC_5167 => 0xDD
    case CIC_6101 => 0x3F
    case CIC_7102 => 0x3F
    case CIC_6102_7101 => 0x3F
    case CIC_x103 => 0x78
    case CIC_x105 => 0x91
    case CIC_x106 => 0x85
    case CIC_8301 => 0xDD
    case CIC_8302 => 0xDD
    case CIC_8303 => 0xDD
    case CIC_8401 => 0xDD
    case CIC_8501 => 0xDE
    case CIC_UNKNOWN => 0x3F
  }

  datatype Pair = Pair(seed: bv8, checksum: nat)

  const KNOWN_PAIRS: seq<Pair> := [
    Pair(0xDD, 0x083C6C77E0B1), Pair(0x3F, 0x45CC73EE317A), Pair(0x3F, 0x44160EC5D9AF), Pair(0x3F, 0xA536C0F1D859),
    Pair(0x78, 0x586FD4709867), Pair(0x91, 0x8618A45BC2D3), Pair(0x85, 0x2BBAD4E6EB74), Pair(0xDD, 0x6EE8D9E84970),
    Pair(0xDD, 0x6C216495C8B9), Pair(0xDD, 0xE27F43BA93AC), Pair(0xDD, 0x32B294E2AB90), Pair(0xDE, 0x05BA2EF0A5F1)]

  predicate Matches(c: bv8 -> nat, p: Pair) { c(p.seed) == p.checksum }

  ghost predicate SomePairMatches(c: bv8 -> nat) {
    exists k :: 0 <= k < |KNOWN_PAIRS| && Matches(c, KNOWN_PAIRS[k])
  }

  /** At most one seed has a known checksum. */
  ghost predicate OneSeedMatches(c: bv8 -> nat) {
    forall j, k :: 0 <= j < |KNOWN_PAIRS| && 0 <= k < |KNOWN_PAIRS| && Matches(c, KNOWN_PAIRS[j]) && Matches(c, KNOWN_PAIRS[k]) ==>
      KNOWN_PAIRS[j].seed == KNOWN_PAIRS[k].seed
  }

  /** The position in the Rust table of what the C code detects. */
  function PairOf(t: CicType): (k: nat)
    ensures k < |KNOWN_PAIRS|
  {
    match t
    case CIC_5101 => 0
    case CIC_5167 => 0
    case CIC_6101 => 1
    case CIC_7102 => 2
    case CIC_6102_7101 => 3
    case CIC_x103 => 4
    case CIC_x105 => 5
    case CIC_x106 => 6
    case CIC_8401 => 7
    case CIC_8301 => 8
    case CIC_8302 => 9
    case CIC_8303 => 10
    case CIC_8501 => 11
    case CIC_UNKNOWN => 0
  }

  /** The C detection and the Rust table know the same boot codes, and agree on their seeds. */
  lemma {:induction false} DetectAgreesWithTable(c: bv8 -> nat)
    ensures Detect(c) != CIC_UNKNOWN <==> SomePairMatches(c)
    ensures Detect(c) != CIC_UNKNOWN ==>
      Matches(c, KNOWN_PAIRS[PairOf(Detect(c))]) && GetSeed(Detect(c)) == KNOWN_PAIRS[PairOf(Detect(c))].seed
  {
    if Detect(c) != CIC_UNKNOWN {
      assert Matches(c, KNOWN_PAIRS[PairOf(Detect(c))]);
    }
  }

  method CDetect(ipl3: seq<bv8>) returns (t: CicType)
    requires |ipl3| >= LENGTH
    ensures t == Detect(Checksums(ipl3))
  {
    hide Checksum;
    var c := CChecksum(ipl3, 0x3F);
    if c == 0x45CC73EE317A { return CIC_6101; }
    if c == 0x44160EC5D9AF { return CIC_7102; }
    if c == 0xA536C0F1D859 { return CIC_6102_7101; }
    c := CChecksum(ipl3, 0x78);
    if c == 0x586FD4709867 { return CIC_x103; }
    c := CChecksum(ipl3, 0x85);
    if c == 0x2BBAD4E6EB74 { return CIC_x106; }
    c := CChecksum(ipl3, 0x91);
    if c == 0x8618A45BC2D3 { return CIC_x105; }
    c := CChecksum(ipl3, 0xDD);
    if c == 0x6EE8D9E84970 { return CIC_8401; }
    if c == 0x6C216495C8B9 { return CIC_8301; }
    if c == 0xE27F43BA93AC { return CIC_8302; }
    if c == 0x32B294E2AB90 { return CIC_8303; }
    if c == 0x083C6C77E0B1 { return CIC_5167; }
    c := CChecksum(ipl3, 0xDE);
    if c == 0x05BA2EF0A5F1 { return CIC_8501; }
    return CIC_UNKNOWN;
  }

  datatype Signature = Signature(seed: bv8, checksum: nat, matched: bool)

  /** The checksum under each seed. */
  ghost function Checksums(ipl3: seq<bv8>): bv8 -> nat {
    (seed: bv8) => if |ipl3| >= LENGTH then Checksum(ipl3, seed) else 0
  }

  /** None when the image is too short. */
  method SignIpl3(ipl3: seq<bv8>, customSeed: Option<bv8>) returns (r: Option<Signature>)
    ensures r.None? <==> |ipl3| < LENGTH
    ensures r.Some? ==> r.value.checksum == Checksum(ipl3, r.value.seed)
    ensures r.Some? && customSeed.Some? ==> r.value.seed == customSeed.value && r.value.matched
    ensures r.Some? && customSeed.None? ==> (r.value.matched <==> Detect(Checksums(ipl3)) != CIC_UNKNOWN)
    ensures r.Some? && customSeed.None? && OneSeedMatches(Checksums(ipl3)) ==> r.value.seed == GetSeed(Detect(Checksums(ipl3)))
  {
    hide Checksum, Detect, GetSeed;
    if customSeed.Some? {
      var c := RustChecksum(ipl3, customSeed.value);
      return match c case None => None case Some(v) => Some(Signature(customSeed.value, v, true));
    }
    ghost var sums := Checksums(ipl3);
    DetectAgreesWithTable(sums);
    for k := 0 to |KNOWN_PAIRS|
      invariant k > 0 ==> |ipl3| >= LENGTH
      invariant |ipl3| >= LENGTH ==> forall j :: 0 <= j < k ==> !Matches(sums, KNOWN_PAIRS[j])
    {
      var c := RustChecksum(ipl3, KNOWN_PAIRS[k].seed);
      if c.None? { return None; }
      if c.value == KNOWN_PAIRS[k].checksum {
        assert Matches(sums, KNOWN_PAIRS[k]);
        return Some(Signature(KNOWN_PAIRS[k].seed, KNOWN_PAIRS[k].checksum, true));
      }
    }
    DefaultSeed(sums);
    var c := RustChecksum(ipl3, 0x3F);
    if c.None? { return None; }
    return Some(Signature(0x3F, c.value, false));
  }

  lemma {:induction false} DefaultSeed(c: bv8 -> nat)
    ensures Detect(c) == CIC_UNKNOWN ==> GetSeed(Detect(c)) == 0x3F
  {
  }
}
