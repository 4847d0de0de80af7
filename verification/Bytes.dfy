/** Bytes, 32-bit words and the byte orders the project uses. */
module Bytes {
  type byte = x: int | 0 <= x < 256
  type word = x: int | 0 <= x < 0x1_0000_0000

  /** The address space of the bus that USB, SD card and disk drive share. */
  const ADDRESSES := 0x1_0000_0000

  datatype Option<+T> = None | Some(value: T)

  /** The four bytes of a word, most significant first. */
  function BigEndian(w: word): (s: seq<byte>)
    ensures |s| == 4
  {
    [w / 256 / 256 / 256, w / 256 / 256 % 256, w / 256 % 256, w % 256]
  }

  function FromBigEndian(s: seq<byte>): (w: word)
    requires |s| == 4
  {
    (((s[0] as int * 256) + s[1]) * 256 + s[2]) * 256 + s[3]
  }

  /** The four bytes of a word, least significant first. */
  function LittleEndian(w: word): (s: seq<byte>)
    ensures |s| == 4
  {
    [w % 256, w / 256 % 256, w / 256 / 256 % 256, w / 256 / 256 / 256]
  }

  function FromLittleEndian(s: seq<byte>): (w: word)
    requires |s| == 4
  {
    (((s[3] as int * 256) + s[2]) * 256 + s[1]) * 256 + s[0]
  }

  lemma {:induction false} BigEndianRoundTrip(w: word)
    ensures FromBigEndian(BigEndian(w)) == w
  {
  }

  lemma {:induction false} LittleEndianRoundTrip(w: word)
    ensures FromLittleEndian(LittleEndian(w)) == w
  {
  }

  /** `target` with `length` bytes of `source` (from index `from` on) copied over it at index `at`. */
  function Blit(target: seq<byte>, at: nat, source: seq<byte>, from: nat, length: nat): (r: seq<byte>)
    requires at + length <= |target| && from + length <= |source|
    ensures |r| == |target|
    ensures forall i :: 0 <= i < |r| ==>
      r[i] == if at <= i < at + length then source[from + (i - at)] else target[i]
  {
    target[..at] + source[from..from + length] + target[at + length..]
  }

  lemma {:induction false} SliceOfSlice<T>(s: seq<T>, at: nat, n: nat, lo: nat, hi: nat)
    requires at + n <= |s| && lo <= hi <= n
    ensures s[at..at + n][lo..hi] == s[at + lo..at + hi]
  {
    var a, b := s[at..at + n][lo..hi], s[at + lo..at + hi];
    forall i | 0 <= i < |a|
      ensures a[i] == b[i]
    {
      assert a[i] == s[at..at + n][lo + i] == s[at + lo + i];
    }
  }

  function Min(a: nat, b: nat): nat { if a <= b then a else b }

  function Zeros(n: nat): (s: seq<byte>)
    ensures |s| == n && forall i :: 0 <= i < n ==> s[i] == 0
  {
    seq(n, _ => 0)
  }
}
