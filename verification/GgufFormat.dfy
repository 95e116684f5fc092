/**
 The GGUF format by its numbers: the width of every type, which entries set the alignment, what editing
 does to each entry, and a file written out byte by byte with what the parser returns for it.
 */
module GgufFormat {
  import opened Utf8
  import opened Arithmetic
  import opened GgufValues
  import opened GgufRewrite

  // ---------------------------------------------------------------------------
  // Widths
  // ---------------------------------------------------------------------------

  /** A scalar of `n` bytes, if the file is long enough. */
  predicate Takes(data: Bytes, off: nat, t: nat, n: nat) {
    Read(data, off, t) == if off + n <= |data| then Ok(Scalar(data[off..off + n]), off + n) else Err
  }

  /**
   Each of the eleven scalar types takes its bytes: UINT8, INT8 and BOOL one, UINT16 and INT16 two,
   UINT32, INT32 and FLOAT32 four, UINT64, INT64 and FLOAT64 eight. Other than strings and arrays
   there is nothing else.
   */
  lemma ScalarWidths(data: Bytes, off: nat)
    ensures Takes(data, off, 0, 1) && Takes(data, off, 1, 1) && Takes(data, off, 7, 1)
    ensures Takes(data, off, 2, 2) && Takes(data, off, 3, 2)
    ensures Takes(data, off, 4, 4) && Takes(data, off, 5, 4) && Takes(data, off, 6, 4)
    ensures Takes(data, off, 10, 8) && Takes(data, off, 11, 8) && Takes(data, off, 12, 8)
    ensures forall t: nat :: t > 12 ==> Read(data, off, t) == Err
  {}

  /** Writing takes the same bytes, and refuses every other tag and length. */
  lemma ScalarsTyped(t: nat, raw: Bytes)
    ensures Typed(t, Scalar(raw)) <==>
            (|raw| == 1 && (t == 0 || t == 1 || t == 7)) || (|raw| == 2 && (t == 2 || t == 3))
            || (|raw| == 4 && (t == 4 || t == 5 || t == 6)) || (|raw| == 8 && (t == 10 || t == 11 || t == 12))
  {}

  /** A string is its length in eight bytes and then its text, cut off where the file ends. */
  lemma StringTaken(data: Bytes, off: nat)
    requires off + 8 <= |data|
    ensures var n := FromLe(data[off..off + 8]);
            Read(data, off, 8) ==
            Ok(Str(if off + 8 + n <= |data| then data[off + 8..off + 8 + n] else data[off + 8..]), off + 8 + n)
  {
    hide FromLe;
  }

  /**
   A negative alignment, which an INT32 entry can give: nothing is padded, and the data start is a
   multiple that lies before the end of the tensor infos.
   */
  lemma NegativeAlignment(x: nat, a: int)
    requires a < 0
    ensures Padding(x, a) == 0
    ensures AlignUp(x, a) % (-a) == 0 && x + a - 1 <= AlignUp(x, a) < x - 1
  {
    var y, m := x + a - 1, -a;
    var q := (-y) / m;
    DivMod(-y, m);
    assert AlignUp(x, a) == q * a == -(m * q);
    assert m * -q == -(m * q);
    DivUnique(-(m * q), m, -q, 0);
  }

  // ---------------------------------------------------------------------------
  // The alignment entry
  // ---------------------------------------------------------------------------

  /** One entry behind others: it decides if it is a UINT32, INT32 or UINT64 under the right key. */
  lemma AlignmentOfLast(kvs: seq<KV>, key: Bytes, t: nat, raw: Bytes)
    ensures Alignment([]) == 32
    ensures key == AlignmentKey && (t == 4 || t == 10) ==> Alignment(kvs + [KV(key, t, Scalar(raw))]) == FromLe(raw)
    ensures key == AlignmentKey && t == 5 && |raw| == 4 ==>
              Alignment(kvs + [KV(key, t, Scalar(raw))]) ==
              if raw[3] >= 128 then FromLe(raw) - 0x1_0000_0000 else FromLe(raw)
    ensures key != AlignmentKey || !(t == 4 || t == 5 || t == 10) ==>
              Alignment(kvs + [KV(key, t, Scalar(raw))]) == Alignment(kvs)
  {
    var kv := KV(key, t, Scalar(raw));
    assert (kvs + [kv])[..|kvs|] == kvs;
    Spans();
    if |raw| == 4 {
      TopBit(raw);
    }
    hide FromLe, Span;
  }

  /** Lowest byte first, and the highest bit is the sign. */
  lemma TopBit(raw: Bytes)
    requires |raw| == 4
    ensures var a: nat, b: nat, c: nat, d: nat := raw[0], raw[1], raw[2], raw[3];
            FromLe(raw) == a + 0x100 * b + 0x1_0000 * c + 0x100_0000 * d
    ensures 2 * FromLe(raw) >= 0x1_0000_0000 <==> raw[3] >= 128
  {
    var a, b, c, d: nat := raw[0], raw[1], raw[2], raw[3];
    assert raw[1..][1..] == raw[2..] && raw[2..][1..] == raw[3..] && raw[3..][1..] == [];
    assert FromLe(raw[3..]) == d;
    assert FromLe(raw[2..]) == c + 256 * d;
    assert FromLe(raw[1..]) == b + 256 * (c + 256 * d);
    assert FromLe(raw) == a + 256 * (b + 256 * (c + 256 * d));
  }

  lemma AlignmentKeySpelled()
    ensures AlignmentKey == Ascii("general.alignment")
  {
    var s, a := "general.alignment", Ascii("general.alignment");
    assert |a| == |AlignmentKey| == 17;
    assert forall i :: 0 <= i < 17 ==> a[i] as int == s[i] as int;
  }

  // ---------------------------------------------------------------------------
  // Editing
  // ---------------------------------------------------------------------------

  /** The entries whose key is not to be removed. */
  function NotRemoved(kvs: seq<KV>, remove: seq<Bytes>): seq<KV> {
    if kvs == [] then []
    else NotRemoved(kvs[..|kvs| - 1], remove) + (if kvs[|kvs| - 1].key in remove then [] else [kvs[|kvs| - 1]])
  }

  /** Entry by entry: removed ones are gone, strings with a new value have it, the others are as before. */
  lemma {:induction false} EditMeaning(kvs: seq<KV>, cfg: Config)
    ensures |Edit(kvs, cfg)| == |NotRemoved(kvs, cfg.remove)|
    ensures forall i :: 0 <= i < |Edit(kvs, cfg)| ==>
              var old_, new_ := NotRemoved(kvs, cfg.remove)[i], Edit(kvs, cfg)[i];
              && new_.key == old_.key && new_.tag == old_.tag && new_.key !in cfg.remove
              && new_.value == if old_.tag == 8 && old_.key in cfg.replace then cfg.replace[old_.key] else old_.value
    decreases |kvs|
  {
    if kvs == [] {
    } else {
      EditMeaning(kvs[..|kvs| - 1], cfg);
    }
  }

  // ---------------------------------------------------------------------------
  // A file byte by byte
  // ---------------------------------------------------------------------------

  const Uint8Entry := KV([97], 0, Scalar([200]))
  const Int8Entry := KV([98], 1, Scalar([255]))
  const Uint16Entry := KV([99], 2, Scalar([1, 2]))
  const Int16Entry := KV([100], 3, Scalar([3, 4]))
  const Uint32Entry := KV([101], 4, Scalar([1, 0, 0, 0]))
  const Int32Entry := KV([102], 5, Scalar([255, 255, 255, 255]))
  const Float32Entry := KV([103], 6, Scalar([0, 0, 128, 63]))
  const BoolEntry := KV([104], 7, Scalar([1]))
  const Uint64Entry := KV([105], 10, Scalar([1, 2, 3, 4, 5, 6, 7, 8]))
  const Int64Entry := KV([106], 11, Scalar([255, 255, 255, 255, 255, 255, 255, 255]))
  const Float64Entry := KV([107], 12, Scalar([0, 0, 0, 0, 0, 0, 240, 63]))
  const StringEntry := KV([108], 8, Str([104, 105]))
  const ArrayEntry := KV([109], 9, Arr(2, [Scalar([1, 0]), Scalar([2, 0])]))

  const Entries := [Uint8Entry, Int8Entry, Uint16Entry, Int16Entry, Uint32Entry,
    Int32Entry, Float32Entry, BoolEntry, Uint64Entry, Int64Entry,
    Float64Entry, StringEntry, ArrayEntry]

  /** One tensor named "t" of 3 by 4 floats. */
  const OneTensor: Bytes := [
    1, 0, 0, 0, 0, 0, 0, 0, 116, 2, 0, 0, 0, 3, 0, 0, 0, 0, 0, 0, 0, 4, 0, 0, 0, 0, 0, 0, 0,
    0, 0, 0, 0, 0, 0, 0, 0, 0, 0, 0, 0]

  const FileStart: Bytes := [0x47, 0x47, 0x55, 0x46, 3, 0, 0, 0, 1, 0, 0, 0, 0, 0, 0, 0, 13, 0, 0, 0, 0, 0, 0, 0]

  const Uint8Bytes: Bytes := [1, 0, 0, 0, 0, 0, 0, 0, 97, 0, 0, 0, 0, 200]
  const Int8Bytes: Bytes := [1, 0, 0, 0, 0, 0, 0, 0, 98, 1, 0, 0, 0, 255]
  const Uint16Bytes: Bytes := [1, 0, 0, 0, 0, 0, 0, 0, 99, 2, 0, 0, 0, 1, 2]
  const Int16Bytes: Bytes := [1, 0, 0, 0, 0, 0, 0, 0, 100, 3, 0, 0, 0, 3, 4]
  const Uint32Bytes: Bytes := [1, 0, 0, 0, 0, 0, 0, 0, 101, 4, 0, 0, 0, 1, 0, 0, 0]
  const Int32Bytes: Bytes := [1, 0, 0, 0, 0, 0, 0, 0, 102, 5, 0, 0, 0, 255, 255, 255, 255]
  const Float32Bytes: Bytes := [1, 0, 0, 0, 0, 0, 0, 0, 103, 6, 0, 0, 0, 0, 0, 128, 63]
  const BoolBytes: Bytes := [1, 0, 0, 0, 0, 0, 0, 0, 104, 7, 0, 0, 0, 1]
  const Uint64Bytes: Bytes := [1, 0, 0, 0, 0, 0, 0, 0, 105, 10, 0, 0, 0, 1, 2, 3, 4, 5, 6, 7, 8]
  const Int64Bytes: Bytes := [1, 0, 0, 0, 0, 0, 0, 0, 106, 11, 0, 0, 0, 255, 255, 255, 255, 255, 255, 255, 255]
  const Float64Bytes: Bytes := [1, 0, 0, 0, 0, 0, 0, 0, 107, 12, 0, 0, 0, 0, 0, 0, 0, 0, 0, 240, 63]
  const StringBytes: Bytes := [1, 0, 0, 0, 0, 0, 0, 0, 108, 8, 0, 0, 0, 2, 0, 0, 0, 0, 0, 0, 0, 104, 105]
  const ArrayBytes: Bytes := [1, 0, 0, 0, 0, 0, 0, 0, 109, 9, 0, 0, 0, 2, 0, 0, 0, 2, 0, 0, 0, 0, 0, 0, 0, 1, 0, 2, 0]

  const EntryBytes: seq<Bytes> := [Uint8Bytes, Int8Bytes, Uint16Bytes, Int16Bytes, Uint32Bytes,
    Int32Bytes, Float32Bytes, BoolBytes, Uint64Bytes, Int64Bytes,
    Float64Bytes, StringBytes, ArrayBytes]

  function Joined(parts: seq<Bytes>): Bytes { if parts == [] then [] else parts[0] + Joined(parts[1..]) }

  /** The header, the entries, the tensor info, padding up to 320 and one byte of data. */
  function ExampleFile(): Bytes { FileStart + Joined(EntryBytes) + OneTensor + Zeros(17) + [77] }

  lemma Small8(n: Byte)
    ensures Le(n, 8) == [n, 0, 0, 0, 0, 0, 0, 0]
  {
    assert Le(n, 8) == [n] + Le(0, 7) && Le(0, 7) == [0] + Le(0, 6) && Le(0, 6) == [0] + Le(0, 5);
    assert Le(0, 5) == [0] + Le(0, 4);
    Small4(0);
  }

  lemma Small4(n: Byte)
    ensures Le(n, 4) == [n, 0, 0, 0]
  {
    assert Le(n, 4) == [n] + Le(0, 3) && Le(0, 3) == [0] + Le(0, 2) && Le(0, 2) == [0] + Le(0, 1);
    assert Le(0, 1) == [0] + Le(0, 0) && Le(0, 0) == [];
  }

  lemma ScalarEntry(k: Byte, t: Byte, raw: Bytes)
    requires Typed(t, Scalar(raw))
    ensures WriteKv(KV([k], t, Scalar(raw))) == [1, 0, 0, 0, 0, 0, 0, 0, k, t, 0, 0, 0] + raw
    ensures TypedKv(KV([k], t, Scalar(raw)))
  {
    Small8(1);
    Small4(t);
    Spans();
    hide Le, Span;
  }

  lemma {:induction false} WrittenJoined(kvs: seq<KV>, parts: seq<Bytes>)
    requires |kvs| == |parts| && forall i :: 0 <= i < |kvs| ==> WriteKv(kvs[i]) == parts[i] && TypedKv(kvs[i])
    ensures WriteKvs(kvs) == Joined(parts) && AllTypedKvs(kvs)
    decreases |kvs|
  {
    hide WriteKv, TypedKv;
    if kvs == [] {
    } else {
      assert WriteKv(kvs[0]) == parts[0] && TypedKv(kvs[0]);
      WrittenJoined(kvs[1..], parts[1..]);
    }
  }

  lemma StringEntryBytes()
    ensures WriteKv(StringEntry) == StringBytes && TypedKv(StringEntry)
  {
    hide Le, Span;
    Small8(1);
    Small8(2);
    Small4(8);
    Spans();
    assert Write(Str([104, 105])) == [2, 0, 0, 0, 0, 0, 0, 0] + [104, 105];
    assert Typed(8, Str([104, 105]));
    hide Write, Typed;
    assert WriteKv(StringEntry) == [1, 0, 0, 0, 0, 0, 0, 0, 108] + [8, 0, 0, 0] + Write(Str([104, 105]));
  }

  lemma TwoItems(x: Value, y: Value)
    ensures WriteItems([x, y]) == Write(x) + Write(y)
    ensures AllTyped(2, [x, y]) <==> Typed(2, x) && Typed(2, y)
  {
    hide Write, Typed;
    assert [x, y][1..] == [y] && [y][1..] == [];
    assert WriteItems([]) == [] && AllTyped(2, []);
    assert WriteItems([y]) == Write(y) + [];
    assert AllTyped(2, [y]) <==> Typed(2, y);
  }

  lemma ArrayEntryBytes()
    ensures WriteKv(ArrayEntry) == ArrayBytes && TypedKv(ArrayEntry)
  {
    hide Le, Span, WriteItems, AllTyped;
    Small8(1);
    Small8(2);
    Small4(9);
    Small4(2);
    Spans();
    var x, y := Scalar([1, 0]), Scalar([2, 0]);
    TwoItems(x, y);
    ScalarsTyped(2, [1, 0]);
    ScalarsTyped(2, [2, 0]);
    var v := Arr(2, [x, y]);
    assert Write(v) == [2, 0, 0, 0] + [2, 0, 0, 0, 0, 0, 0, 0] + [1, 0, 2, 0];
    assert Typed(9, v);
    hide Write, Typed;
    assert WriteKv(KV([109], 9, v)) == [1, 0, 0, 0, 0, 0, 0, 0, 109] + [9, 0, 0, 0] + Write(v);
  }

  lemma EntriesWritten()
    ensures WriteKvs(Entries) == Joined(EntryBytes) && AllTypedKvs(Entries)
  {
    hide WriteKv, TypedKv, Typed;
    ScalarsTyped(0, [200]);
    ScalarEntry(97, 0, [200]);
    ScalarsTyped(1, [255]);
    ScalarEntry(98, 1, [255]);
    ScalarsTyped(2, [1, 2]);
    ScalarEntry(99, 2, [1, 2]);
    ScalarsTyped(3, [3, 4]);
    ScalarEntry(100, 3, [3, 4]);
    ScalarsTyped(4, [1, 0, 0, 0]);
    ScalarEntry(101, 4, [1, 0, 0, 0]);
    ScalarsTyped(5, [255, 255, 255, 255]);
    ScalarEntry(102, 5, [255, 255, 255, 255]);
    ScalarsTyped(6, [0, 0, 128, 63]);
    ScalarEntry(103, 6, [0, 0, 128, 63]);
    ScalarsTyped(7, [1]);
    ScalarEntry(104, 7, [1]);
    ScalarsTyped(10, [1, 2, 3, 4, 5, 6, 7, 8]);
    ScalarEntry(105, 10, [1, 2, 3, 4, 5, 6, 7, 8]);
    ScalarsTyped(11, [255, 255, 255, 255, 255, 255, 255, 255]);
    ScalarEntry(106, 11, [255, 255, 255, 255, 255, 255, 255, 255]);
    ScalarsTyped(12, [0, 0, 0, 0, 0, 0, 240, 63]);
    ScalarEntry(107, 12, [0, 0, 0, 0, 0, 0, 240, 63]);
    StringEntryBytes();
    ArrayEntryBytes();
    WrittenJoined(Entries, EntryBytes);
  }

  lemma JoinedFrom(parts: seq<Bytes>, i: nat)
    requires i < |parts|
    ensures |Joined(parts[i..])| == |parts[i]| + |Joined(parts[i + 1..])|
  {
    assert parts[i..][1..] == parts[i + 1..];
  }

  lemma EntriesLength()
    ensures |Joined(EntryBytes)| == 238
  {
    hide Joined;
    assert EntryBytes[0..] == EntryBytes;
    assert |Joined(EntryBytes[13..])| == 0 by { NothingJoined(EntryBytes[13..]); }
    JoinedFrom(EntryBytes, 0);
    JoinedFrom(EntryBytes, 1);
    JoinedFrom(EntryBytes, 2);
    JoinedFrom(EntryBytes, 3);
    JoinedFrom(EntryBytes, 4);
    JoinedFrom(EntryBytes, 5);
    JoinedFrom(EntryBytes, 6);
    JoinedFrom(EntryBytes, 7);
    JoinedFrom(EntryBytes, 8);
    JoinedFrom(EntryBytes, 9);
    JoinedFrom(EntryBytes, 10);
    JoinedFrom(EntryBytes, 11);
    JoinedFrom(EntryBytes, 12);
  }

  lemma NothingJoined(parts: seq<Bytes>)
    requires parts == []
    ensures Joined(parts) == []
  {}

  lemma TensorParts()
    ensures OneTensor == WriteStr([116]) + (Le(2, 4) + OneTensor[13..]) && |WriteStr([116])| == 9
    ensures 1 < Span(8) && 2 < Span(4)
  {
    hide Le, Span;
    Small8(1);
    Small4(2);
    Spans();
    assert OneTensor[..13] == [1, 0, 0, 0, 0, 0, 0, 0, 116] + [2, 0, 0, 0];
    assert OneTensor == OneTensor[..13] + OneTensor[13..];
  }

  lemma TensorSkipped(data: Bytes, off: nat)
    requires Holds(data, off, OneTensor)
    ensures SkipTensors(data, off, 1) == Ok((), off + 41)
  {
    hide Le, Span, FromLe, Holds, WriteStr;
    TensorParts();
    var rest := Le(2, 4) + OneTensor[13..];
    HoldsBoth(data, off, WriteStr([116]), rest);
    HoldsBoth(data, off + 9, Le(2, 4), OneTensor[13..]);
    StrHeld(data, off, [116]);
    IntHeld(data, off + 9, 2, 4);
    hide ReadStr, ReadInt;
    assert SkipTensor(data, off) == Ok((), off + 41);
    assert SkipTensors(data, off + 41, 0) == Ok((), off + 41);
  }

  /** The header of the file, as the parser reads it. */
  lemma ExampleHeader()
    ensures ReadHeader(ExampleFile()) == Ok(Header(3, 1, Entries, 262, 303), 303)
    ensures |ExampleFile()| == 321 && ExampleFile()[262..303] == OneTensor
  {
    hide Span, Le, FromLe, Holds, WriteKvs, AllTypedKvs, ReadKvs, SkipTensors, ReadInt, Joined, Zeros;
    var data, kvs := ExampleFile(), Entries;
    var tail := Zeros(17) + [77];
    EntriesWritten();
    EntriesLength();
    StartBytes();
    var head := FileStart + Joined(EntryBytes) + OneTensor;
    assert data == head + tail;
    WholeHeld(head, tail);
    HoldsBoth(data, 0, FileStart + Joined(EntryBytes), OneTensor);
    HoldsBoth(data, 0, FileStart, Joined(EntryBytes));
    PreludeHeld(data, 3, 1, 13);
    ReadKvsUndoesWrite(data, 24, kvs);
    TensorSkipped(data, 262);
    ScalarHeld(data, 262, OneTensor);
  }

  lemma StartBytes()
    ensures Prelude(3, 1, 13) == FileStart && 3 < Span(4) && 13 < Span(8) && 1 < Span(8)
  {
    hide Le, Span;
    Small4(3);
    Small8(1);
    Small8(13);
    Spans();
  }

  lemma {:induction false} SameValue(v: Value, fix: Bytes -> Bytes)
    requires forall s: Bytes :: fix(s) == s
    ensures Decoded(v, fix) == v
    decreases v, 0
  {
    if v.Arr? {
      SameValues(v.items, fix);
    }
  }

  lemma {:induction false} SameValues(vs: seq<Value>, fix: Bytes -> Bytes)
    requires forall s: Bytes :: fix(s) == s
    ensures DecodedAll(vs, fix) == vs
    decreases vs, 1
  {
    if vs == [] {
    } else {
      SameValue(vs[0], fix);
      SameValues(vs[1..], fix);
    }
  }

  /** A file whose strings are text is not changed by decoding them. */
  lemma {:induction false} SameEntries(kvs: seq<KV>, fix: Bytes -> Bytes)
    requires forall s: Bytes :: fix(s) == s
    ensures DecodedKvs(kvs, fix) == kvs
    decreases |kvs|
  {
    if kvs == [] {
    } else {
      SameEntries(kvs[..|kvs| - 1], fix);
      SameValue(kvs[|kvs| - 1].value, fix);
    }
  }

  lemma {:induction false} NoAlignment(kvs: seq<KV>)
    requires forall i :: 0 <= i < |kvs| ==> kvs[i].key != AlignmentKey
    ensures Alignment(kvs) == 32
    decreases |kvs|
  {
    if kvs == [] {
    } else {
      NoAlignment(kvs[..|kvs| - 1]);
    }
  }

  /** The whole result: version, counts, every entry, the tensor info, the start, 32 and the length. */
  lemma ExampleParsed(fix: Bytes -> Bytes)
    requires forall s: Bytes :: fix(s) == s
    ensures Parsing(ExampleFile(), fix) == Parse(3, 1, Entries, OneTensor, 320, 32, 321)
  {
    hide ReadHeader, ExampleFile, DecodedKvs, Alignment;
    ExampleHeader();
    SameEntries(Entries, fix);
    assert forall i :: 0 <= i < |Entries| ==> |Entries[i].key| == 1;
    assert |AlignmentKey| == 17;
    NoAlignment(Entries);
    assert AlignUp(303, 32) == 320;
  }
}
