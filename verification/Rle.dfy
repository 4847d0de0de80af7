/**
 The run-length codec of the boot screen: sw/bootloader/tools/asset_converter.py writes it,
 display_decompress_background in sw/bootloader/src/display.c reads it back.
 */
module Rle {
  import opened Bytes

  /** One record of the format: a value and how often it repeats. */
  datatype Run<T> = Run(repeats: nat, value: T)

  datatype CompressResult = Compressed(bytes: seq<byte>) | Misaligned | TooLong

  ghost predicate ValidRuns<T>(runs: seq<Run<T>>) {
    forall i :: 0 <= i < |runs| ==> 1 <= runs[i].repeats <= 256
  }

  function Repeat<T>(n: nat, v: T): (s: seq<T>)
    ensures |s| == n && forall i :: 0 <= i < n ==> s[i] == v
  {
    seq(n, _ => v)
  }

  /** The values a list of records stands for. */
  ghost function Expand<T>(runs: seq<Run<T>>): seq<T> {
    if runs == [] then [] else
      Expand(runs[..|runs| - 1]) + Repeat(runs[|runs| - 1].repeats, runs[|runs| - 1].value)
  }

  // ---------- the records compress computes ----------

  /** One more value: the last record grows, or is closed and a new one opened. */
  ghost function Push<T>(runs: seq<Run<T>>, v: T): seq<Run<T>> {
    if runs != [] && runs[|runs| - 1].value == v && runs[|runs| - 1].repeats < 256
    then runs[..|runs| - 1] + [Run(runs[|runs| - 1].repeats + 1, v)]
    else runs + [Run(1, v)]
  }

  /** The records compress emits for a list of values, the pending one included. */
  ghost function RunsOf<T>(values: seq<T>): seq<Run<T>> {
    if values == [] then [] else Push(RunsOf(values[..|values| - 1]), values[|values| - 1])
  }

  lemma {:induction false} ExpandAppend<T>(runs: seq<Run<T>>, n: nat, v: T)
    ensures Expand(runs + [Run(n, v)]) == Expand(runs) + Repeat(n, v)
    ensures Expand(runs + [Run(n + 1, v)]) == Expand(runs + [Run(n, v)]) + [v]
  {
    assert (runs + [Run(n, v)])[..|runs|] == runs;
    assert (runs + [Run(n + 1, v)])[..|runs|] == runs;
    assert Expand(runs) + Repeat(n + 1, v) == Expand(runs) + Repeat(n, v) + [v];
  }

  lemma {:induction false} PushExpand<T>(runs: seq<Run<T>>, v: T)
    requires ValidRuns(runs)
    ensures ValidRuns(Push(runs, v))
    ensures Push(runs, v) != [] && Push(runs, v)[|Push(runs, v)| - 1].value == v
    ensures Expand(Push(runs, v)) == Expand(runs) + [v]
  {
    hide Expand;
    if |Push(runs, v)| == |runs| {
      var kept, last := runs[..|runs| - 1], runs[|runs| - 1];
      assert runs == kept + [last];
      ExpandAppend(kept, last.repeats, v);
    } else {
      ExpandAppend(runs, 1, v);
      assert Repeat(1, v) == [v];
    }
  }

  /** The records are well formed and stand for exactly the values they were computed from. */
  lemma {:induction false} RunsOfExpand<T>(values: seq<T>)
    ensures ValidRuns(RunsOf(values))
    ensures Expand(RunsOf(values)) == values
    ensures values != [] ==> RunsOf(values) != [] && RunsOf(values)[|RunsOf(values)| - 1].value == values[|values| - 1]
  {
    if values != [] {
      var init, v := values[..|values| - 1], values[|values| - 1];
      RunsOfExpand(init);
      PushExpand(RunsOf(init), v);
      assert values == init + [v];
    }
  }

  /** `runs` is no longer than `other`, and when as long leaves no less room in its last record. */
  ghost predicate Beats<T>(runs: seq<Run<T>>, other: seq<Run<T>>) {
    |runs| <= |other| &&
    (other != [] && |runs| == |other| ==> runs[|other| - 1].repeats <= other[|other| - 1].repeats)
  }

  lemma {:induction false} BeatsWhenOtherOpens<T>(runs: seq<Run<T>>, rest: seq<Run<T>>, v: T)
    requires Beats(runs, rest)
    ensures Beats(Push(runs, v), rest + [Run(1, v)])
  {
  }

  lemma {:induction false} BeatsWhenOtherGrows<T>(runs: seq<Run<T>>, rest: seq<Run<T>>, n: nat, v: T)
    requires Beats(runs, rest + [Run(n, v)]) && n < 256
    requires runs != [] ==> runs[|runs| - 1].value == v
    ensures Beats(Push(runs, v), rest + [Run(n + 1, v)])
  {
  }

  /** Taking the last value off a list of records. */
  lemma {:induction false} DropLast<T>(runs: seq<Run<T>>) returns (rest: seq<Run<T>>, n: nat, v: T)
    requires runs != [] && ValidRuns(runs)
    ensures runs == rest + [Run(n + 1, v)] && n < 256
    ensures ValidRuns(rest) && (n > 0 ==> ValidRuns(rest + [Run(n, v)]))
    ensures Expand(runs) == Expand(rest + [Run(n, v)]) + [v]
    ensures n == 0 ==> Expand(rest + [Run(n, v)]) == Expand(rest)
    ensures n > 0 ==> var e := Expand(rest + [Run(n, v)]); e != [] && e[|e| - 1] == v
  {
    var last := runs[|runs| - 1];
    rest, n, v := runs[..|runs| - 1], last.repeats - 1, last.value;
    assert runs == rest + [Run(n + 1, v)];
    ExpandAppend(rest, n, v);
  }

  /** No other list of records for the same values is shorter. */
  lemma {:induction false} RunsOfOptimal<T>(values: seq<T>, other: seq<Run<T>>)
    requires ValidRuns(other) && Expand(other) == values
    ensures Beats(RunsOf(values), other)
    decreases |values|
  {
    if other != [] {
      var rest, n, v := DropLast(other);
      var init := values[..|values| - 1];
      assert init == Expand(rest + [Run(n, v)]) && RunsOf(values) == Push(RunsOf(init), v);
      hide Expand, RunsOf, Push;
      if n == 0 {
        RunsOfOptimal(init, rest);
        BeatsWhenOtherOpens(RunsOf(init), rest, v);
      } else {
        RunsOfOptimal(init, rest + [Run(n, v)]);
        RunsOfExpand(init);
        BeatsWhenOtherGrows(RunsOf(init), rest, n, v);
      }
    }
  }

  // ---------- compress ----------

  type Records = seq<Run<seq<byte>>>

  ghost predicate HaveLength(runs: Records, step: nat) {
    forall i :: 0 <= i < |runs| ==> |runs[i].value| == step
  }

  lemma {:induction false} RecordsHaveLength(runs: Records, step: nat)
    requires ValidRuns(runs) && forall i :: 0 <= i < |Expand(runs)| ==> |Expand(runs)[i]| == step
    ensures HaveLength(runs, step)
  {
    if runs != [] {
      var rest, n, v := DropLast(runs);
      ExpandAppend(rest, n + 1, v);
      var all := Expand(runs);
      hide Expand;
      assert |all[|all| - 1]| == step;
      assert forall i :: 0 <= i < |Expand(rest)| ==> Expand(rest)[i] == all[i];
      RecordsHaveLength(rest, step);
    }
  }

  /** Records as bytes: the repeat count minus one, then the value. */
  ghost function Serialize(runs: Records): seq<byte>
    requires ValidRuns(runs)
  {
    if runs == [] then [] else
      Serialize(runs[..|runs| - 1]) + ([runs[|runs| - 1].repeats - 1] + runs[|runs| - 1].value)
  }

  /** Flat data cut into values of `step` bytes. */
  ghost function Values(data: seq<byte>, step: nat): (v: seq<seq<byte>>)
    requires step > 0
    ensures forall i :: 0 <= i < |v| ==> |v[i]| == step
  {
    if |data| < step then [] else
      Values(data[..|data| - step], step) + [data[|data| - step..]]
  }

  lemma {:induction false} ValuesStep(data: seq<byte>, step: nat, offset: nat)
    requires step > 0 && offset + step <= |data|
    ensures Values(data[..offset + step], step) == Values(data[..offset], step) + [data[offset..offset + step]]
  {
    assert data[..offset + step][..offset] == data[..offset];
    assert data[..offset + step][offset..] == data[offset..offset + step];
  }

  /** Adding a value either lengthens the last record or opens a new one. */
  lemma {:induction false} RunsOfStep(values: seq<seq<byte>>, flushed: Records, count: nat, last: seq<byte>, next: seq<byte>)
    requires RunsOf(values) == flushed + [Run(count + 1, last)] && count <= 255
    ensures RunsOf(values + [next]) ==
      if next == last && count < 255 then flushed + [Run(count + 2, last)]
      else flushed + [Run(count + 1, last)] + [Run(1, next)]
  {
    assert (values + [next])[..|values|] == values;
    assert RunsOf(values)[..|flushed|] == flushed;
  }

  /** The loop's view of the records so far: all but the last are written out. */
  ghost predicate Pending(seen: seq<seq<byte>>, flushed: Records, count: nat, last: seq<byte>) {
    RunsOf(seen) == flushed + [Run(count + 1, last)] && count <= 255
  }

  lemma {:induction false} SerializeStep(header: seq<byte>, runs: Records, r: Run<seq<byte>>)
    requires ValidRuns(runs) && 1 <= r.repeats <= 256
    ensures ValidRuns(runs + [r])
    ensures header + Serialize(runs + [r]) == header + Serialize(runs) + ([r.repeats - 1] + r.value)
  {
    assert (runs + [r])[..|runs|] == runs;
  }

  /** `length` is reached from zero in steps of `step`. */
  ghost predicate Multiple(length: nat, step: nat)
    requires step > 0
  {
    length == 0 || (length >= step && Multiple(length - step, step))
  }

  lemma {:induction false} ProductIsMultiple(n: nat, step: nat)
    requires step > 0
    ensures Multiple(n * step, step)
  {
    if n > 0 {
      assert n * step - step == (n - 1) * step;
      ProductIsMultiple(n - 1, step);
    }
  }

  lemma {:induction false} RemainderIsMultiple(length: nat, step: nat)
    requires step > 0 && length % step == 0
    ensures Multiple(length, step)
  {
    var n := length / step;
    assert length == n * step;
    ProductIsMultiple(n, step);
  }

  method Compress(data: seq<byte>, step: nat) returns (r: CompressResult)
    requires step > 0
    ensures |data| % step != 0 ==> r == Misaligned
    ensures |data| % step == 0 && |data| >= 0x1_0000_0000 ==> r == TooLong
    ensures |data| % step == 0 && |data| < 0x1_0000_0000 ==>
      var runs := RunsOf(Values(data, step));
      ValidRuns(runs) && r == Compressed(BigEndian(|data|) + Serialize(runs))
  {
    if |data| % step != 0 { return Misaligned; }
    if |data| >= 0x1_0000_0000 { return TooLong; }
    RemainderIsMultiple(|data|, step);
    var out := CompressAligned(data, step);
    return Compressed(out);
  }

  lemma {:induction false} StartFacts(data: seq<byte>, step: nat)
    requires step > 0
    ensures Values(data[..0], step) == [] && RunsOf<seq<byte>>([]) == [] && Serialize([]) == []
    ensures forall v: seq<byte> :: RunsOf([v]) == [Run(1, v)]
  {
  }

  method CompressAligned(data: seq<byte>, step: nat) returns (out: seq<byte>)
    requires step > 0 && |data| < 0x1_0000_0000 && Multiple(|data|, step)
    ensures var runs := RunsOf(Values(data, step));
      ValidRuns(runs) && out == BigEndian(|data|) + Serialize(runs)
  {
    hide RunsOf, Values, Serialize;
    RunsOfExpand(Values(data, step));
    StartFacts(data, step);
    out := BigEndian(|data|);
    var count: byte, last: seq<byte> := 0, [];
    var offset := 0;
    ghost var seen: seq<seq<byte>>, flushed: Records, header := [], [], out;
    while offset < |data| + step
      invariant if offset <= |data| then Multiple(|data| - offset, step) else offset == |data| + step
      invariant ValidRuns(flushed) && out == header + Serialize(flushed)
      invariant offset <= |data| ==> seen == Values(data[..offset], step)
      invariant offset == 0 ==> flushed == [] && count == 0
      invariant 0 < offset <= |data| ==> Pending(seen, flushed, count, last)
      invariant offset > |data| ==> RunsOf(Values(data, step)) == flushed
    {
      var next := Slice(data, offset, offset + step);
      if offset != 0 {
        if offset < |data| {
          RunsOfStep(seen, flushed, count, last, next);
        }
        if next == last && count < 255 {
          count := count + 1;
        } else {
          SerializeStep(header, flushed, Run(count + 1, last));
          out := out + ([count] + last);
          flushed := flushed + [Run(count + 1, last)];
          count := 0;
        }
      } else {
        assert seen + [next] == [next];
      }
      if offset < |data| {
        ValuesStep(data, step, offset);
        seen := seen + [next];
      } else {
        assert data[..offset] == data;
      }
      last := next;
      offset := offset + step;
    }
  }

  /** Python's data[from:to]: indices past the end are cut off. */
  function Slice<T>(s: seq<T>, from: nat, to: nat): (r: seq<T>)
    requires from <= to
    ensures to <= |s| ==> r == s[from..to]
    ensures from >= |s| ==> r == []
  {
    s[if from < |s| then from else |s|..if to < |s| then to else |s|]
  }

  // ---------- the decompressor ----------

  /** The 32-bit word the decompressor writes for a three-byte value: red, green, blue, opaque alpha. */
  function Pixel(v: seq<byte>): (w: word)
    requires |v| == 3
  {
    FromBigEndian(v + [255])
  }

  /** A byte string as the big-endian words a 32-bit reader sees. */
  function WordsOf(bytes: seq<byte>): seq<word> {
    if |bytes| < 4 then [] else WordsOf(bytes[..|bytes| - 4]) + [FromBigEndian(bytes[|bytes| - 4..])]
  }

  function RunWord(r: Run<seq<byte>>): word
    requires 1 <= r.repeats <= 256 && |r.value| == 3
  {
    FromBigEndian([r.repeats - 1] + r.value)
  }

  ghost function RunWords(runs: Records): (words: seq<word>)
    requires ValidRuns(runs) && HaveLength(runs, 3)
    ensures |words| == |runs| && forall i :: 0 <= i < |runs| ==> words[i] == RunWord(runs[i])
  {
    if runs == [] then [] else RunWords(runs[..|runs| - 1]) + [RunWord(runs[|runs| - 1])]
  }

  lemma {:induction false} WordsOfAppend(bytes: seq<byte>, record: seq<byte>)
    requires |record| == 4
    ensures WordsOf(bytes + record) == WordsOf(bytes) + [FromBigEndian(record)]
  {
    assert (bytes + record)[..|bytes|] == bytes && (bytes + record)[|bytes|..] == record;
  }

  /** A reader of words sees one word per record. */
  lemma {:induction false} WordsOfRuns(header: seq<byte>, runs: Records)
    requires ValidRuns(runs) && HaveLength(runs, 3)
    ensures WordsOf(header + Serialize(runs)) == WordsOf(header) + RunWords(runs)
  {
    if runs == [] {
      assert header + Serialize(runs) == header;
    } else {
      var rest, last := runs[..|runs| - 1], runs[|runs| - 1];
      var record := [last.repeats - 1] + last.value;
      WordsOfRuns(header, rest);
      WordsOfAppend(header + Serialize(rest), record);
      assert Serialize(runs) == Serialize(rest) + record;
      assert RunWords(runs) == RunWords(rest) + [FromBigEndian(record)];
      hide WordsOf, Serialize, FromBigEndian, RunWords;
      assert header + Serialize(runs) == header + Serialize(rest) + record;
    }
  }

  lemma {:induction false} WordsOfHeader(w: word)
    ensures WordsOf(BigEndian(w)) == [w]
  {
    BigEndianRoundTrip(w);
    WordsOfAppend([], BigEndian(w));
    assert [] + BigEndian(w) == BigEndian(w);
  }

  lemma {:induction false} SplitTop(q: nat, low: nat)
    requires q < 256 && low < 0x100_0000
    ensures (q * 0x100_0000 + low) / 0x100_0000 == q && (q * 0x100_0000 + low) % 0x100_0000 == low
  {
  }

  /** What the decompressor's shifts and masks do to a record word. */
  lemma {:induction false} RecordFields(r: Run<seq<byte>>)
    requires 1 <= r.repeats <= 256 && |r.value| == 3
    ensures RunWord(r) / 0x100_0000 + 1 == r.repeats
    ensures RunWord(r) % 0x100_0000 * 256 + 255 == Pixel(r.value)
  {
    var low := (r.value[0] as int * 256 + r.value[1]) * 256 + r.value[2];
    assert RunWord(r) == (r.repeats - 1) * 0x100_0000 + low;
    SplitTop(r.repeats - 1, low);
    assert Pixel(r.value) == low * 256 + 255;
  }

  lemma {:induction false} ExpandGrows(runs: Records, k: nat)
    requires ValidRuns(runs) && k <= |runs|
    ensures |Expand(runs[..k])| <= |Expand(runs)|
    ensures k < |runs| ==> |Expand(runs[..k + 1])| <= |Expand(runs)| && |Expand(runs[..k])| < |Expand(runs)|
    ensures k < |runs| ==> Expand(runs[..k + 1]) == Expand(runs[..k]) + Repeat(runs[k].repeats, runs[k].value)
    decreases |runs| - k
  {
    if k == |runs| {
      assert runs[..k] == runs;
    } else {
      assert runs[..k + 1][..k] == runs[..k];
      ExpandGrows(runs, k + 1);
    }
  }

  /**
   Writes exactly the pixels the records stand for and reads exactly the words of the asset.
   `runs` is what the asset's words encode; the header word counts bytes.
   */
  method Decompress(background: seq<word>, framebuffer: array<word>, ghost runs: Records) returns (wordsRead: nat)
    requires ValidRuns(runs) && HaveLength(runs, 3) && |background| == 1 + |runs| && |Expand(runs)| <= framebuffer.Length
    requires background[0] / 3 == |Expand(runs)|
    requires forall i :: 0 <= i < |runs| ==> background[1 + i] == RunWord(runs[i])
    modifies framebuffer
    ensures wordsRead == |background|
    ensures forall i :: 0 <= i < |Expand(runs)| ==> |Expand(runs)[i]| == 3 && framebuffer[i] == Pixel(Expand(runs)[i])
    ensures forall i :: |Expand(runs)| <= i < framebuffer.Length ==> framebuffer[i] == old(framebuffer[i])
  {
    hide Expand, RunWord, Pixel;
    var pixelCount := background[0] / 3;
    var pixelsPainted := 0;
    wordsRead := 1;
    ghost var k := 0;
    ExpandGrows(runs, 0);
    ExpandStart(runs);
    while pixelsPainted < pixelCount
      invariant k <= |runs| && wordsRead == 1 + k
      invariant pixelsPainted == |Expand(runs[..k])| <= pixelCount
      invariant pixelsPainted == pixelCount ==> k == |runs|
      invariant forall i :: 0 <= i < pixelsPainted ==> |Expand(runs[..k])[i]| == 3 && framebuffer[i] == Pixel(Expand(runs[..k])[i])
      invariant forall i :: pixelsPainted <= i < framebuffer.Length ==> framebuffer[i] == old(framebuffer[i])
      decreases pixelCount - pixelsPainted
    {
      assert k < |runs| by { assert runs[..|runs|] == runs; }
      ExpandGrows(runs, k);
      RecordFields(runs[k]);
      var pixel := background[wordsRead];
      wordsRead := wordsRead + 1;
      var pixelRepeat := pixel / 0x100_0000 + 1;
      var pixelValue := pixel % 0x100_0000 * 256 + 255;
      for j := 0 to pixelRepeat
        invariant forall i :: 0 <= i < pixelsPainted ==> framebuffer[i] == Pixel(Expand(runs[..k])[i])
        invariant forall i :: pixelsPainted <= i < pixelsPainted + j ==> framebuffer[i] == pixelValue
        invariant forall i :: pixelsPainted + j <= i < framebuffer.Length ==> framebuffer[i] == old(framebuffer[i])
      {
        framebuffer[pixelsPainted + j] := pixelValue;
      }
      pixelsPainted := pixelsPainted + pixelRepeat;
      k := k + 1;
      ExpandGrows(runs, k);
    }
    assert runs[..k] == runs;
  }

  lemma {:induction false} ExpandStart(runs: Records)
    ensures Expand(runs[..0]) == []
    ensures |Expand(runs)| == 0 && ValidRuns(runs) ==> runs == []
  {
    if runs != [] && ValidRuns(runs) { ExpandGrows(runs, 0); }
  }

  /** Compressing an image and decompressing it paints the image. */
  method RoundTrip(data: seq<byte>, framebuffer: array<word>) returns (asset: seq<byte>)
    requires |data| % 3 == 0 && |data| < 0x1_0000_0000 && |data| / 3 <= framebuffer.Length
    modifies framebuffer
    ensures forall i :: 0 <= i < |data| / 3 ==> framebuffer[i] == Pixel(data[3 * i..3 * i + 3])
    ensures forall i :: |data| / 3 <= i < framebuffer.Length ==> framebuffer[i] == old(framebuffer[i])
  {
    hide Values, Expand, RunsOf, Serialize, WordsOf, RunWord, Pixel, BigEndian, ValidRuns, HaveLength;
    var r := Compress(data, 3);
    asset := r.bytes;
    ghost var runs := RunsOf(Values(data, 3));
    RunsOfExpand(Values(data, 3));
    RecordsHaveLength(runs, 3);
    ValuesAre(data);
    WordsOfHeader(|data|);
    WordsOfRuns(BigEndian(|data|), runs);
    var n := Decompress(WordsOf(asset), framebuffer, runs);
  }

  /** Value i of an image is its bytes 3 i to 3 i + 2. */
  lemma {:induction false} ValuesAre(data: seq<byte>)
    requires |data| % 3 == 0
    ensures |Values(data, 3)| == |data| / 3
    ensures forall i :: 0 <= i < |data| / 3 ==> Values(data, 3)[i] == data[3 * i..3 * i + 3]
  {
    if |data| >= 3 {
      var init := data[..|data| - 3];
      ValuesAre(init);
      forall i | 0 <= i < |data| / 3
        ensures Values(data, 3)[i] == data[3 * i..3 * i + 3]
      {
        if i < |init| / 3 { assert init[3 * i..3 * i + 3] == data[3 * i..3 * i + 3]; }
      }
    }
  }
}
