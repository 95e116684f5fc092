/**
 The rewriting of a GGUF file by sanitize-gguf-v3.py: the header's key-value list is edited and
 written anew, tensor infos and tensor data are copied as they are, and the padding between them
 is computed again.
 */
module GgufRewrite {
  import opened Utf8
  import opened GgufValues
  import opened Arithmetic

  datatype KV = KV(key: Bytes, tag: nat, value: Value)

  datatype Header = Header(version: nat, nTensors: nat, kvs: seq<KV>, kvEnd: nat, tiEnd: nat)

  // ---------------------------------------------------------------------------
  // Reading a header
  // ---------------------------------------------------------------------------

  function ReadKv(data: Bytes, off: nat): (r: Parsed<KV>)
    ensures r.Ok? ==> off < r.end
  {
    match ReadStr(data, off)
    case Err => Err
    case Ok(key, at) =>
      match ReadInt(data, at, 4)
      case Err => Err
      case Ok(tag, from) =>
        match Read(data, from, tag)
        case Err => Err
        case Ok(v, end) => Ok(KV(key, tag, v), end)
  }

  function ReadKvs(data: Bytes, off: nat, n: nat): (r: Parsed<seq<KV>>)
    ensures r.Ok? ==> off <= r.end && |r.value| == n
    decreases n
  {
    if n == 0 then Ok([], off)
    else
      match ReadKv(data, off)
      case Err => Err
      case Ok(kv, mid) => Prepend([kv], ReadKvs(data, mid, n - 1))
  }

  /** The end of one tensor info: a name, its dimensions, a type and an offset. */
  function SkipTensor(data: Bytes, off: nat): (r: Parsed<()>)
    ensures r.Ok? ==> off + 12 <= r.end
  {
    match ReadStr(data, off)
    case Err => Err
    case Ok(_, at) =>
      match ReadInt(data, at, 4)
      case Err => Err
      case Ok(nd, from) => Ok((), from + (nd * 8 + 4 + 8))
  }

  function SkipTensors(data: Bytes, off: nat, n: nat): (r: Parsed<()>)
    ensures r.Ok? ==> off <= r.end
    decreases n
  {
    if n == 0 then Ok((), off)
    else
      match SkipTensor(data, off)
      case Err => Err
      case Ok(_, mid) => SkipTensors(data, mid, n - 1)
  }

  /** The header; the magic bytes are not looked at. */
  function ReadHeader(data: Bytes): (r: Parsed<Header>)
    ensures r.Ok? ==> 24 <= r.value.kvEnd <= r.value.tiEnd && |data| >= 24
  {
    var version, nTensors, nKv := ReadInt(data, 4, 4), ReadInt(data, 8, 8), ReadInt(data, 16, 8);
    if version.Err? || nTensors.Err? || nKv.Err? then Err
    else
      match ReadKvs(data, 24, nKv.value)
      case Err => Err
      case Ok(kvs, kvEnd) =>
        match SkipTensors(data, kvEnd, nTensors.value)
        case Err => Err
        case Ok(_, tiEnd) => Ok(Header(version.value, nTensors.value, kvs, kvEnd, tiEnd), tiEnd)
  }

  function DecodedKv(kv: KV, fix: Bytes -> Bytes): KV { KV(fix(kv.key), kv.tag, Decoded(kv.value, fix)) }

  function DecodedKvs(kvs: seq<KV>, fix: Bytes -> Bytes): (r: seq<KV>)
    ensures |r| == |kvs|
  {
    if kvs == [] then [] else DecodedKvs(kvs[..|kvs| - 1], fix) + [DecodedKv(kvs[|kvs| - 1], fix)]
  }

  // ---------------------------------------------------------------------------
  // Alignment
  // ---------------------------------------------------------------------------

  /** The bytes of "general.alignment". */
  const AlignmentKey: Bytes :=
    [103, 101, 110, 101, 114, 97, 108, 46, 97, 108, 105, 103, 110, 109, 101, 110, 116]

  const DefaultAlignment := 32

  predicate SetsAlignment(kv: KV) {
    kv.key == AlignmentKey && (kv.tag == 4 || kv.tag == 5 || kv.tag == 10) && kv.value.Scalar?
  }

  /** The number a scalar of tag 4, 5 or 10 packs; tag 5 is signed. */
  function Number(tag: nat, raw: Bytes): int {
    if tag == 5 && 2 * FromLe(raw) >= Span(4) then FromLe(raw) - Span(4) else FromLe(raw)
  }

  /** The last alignment entry wins. */
  function Alignment(kvs: seq<KV>): int {
    if kvs == [] then DefaultAlignment
    else if SetsAlignment(kvs[|kvs| - 1]) then Number(kvs[|kvs| - 1].tag, kvs[|kvs| - 1].value.raw)
    else Alignment(kvs[..|kvs| - 1])
  }

  /** Division rounding down. */
  function FloorDiv(x: int, a: int): int
    requires a != 0
  {
    if a > 0 then x / a else (-x) / (-a)
  }

  function AlignUp(x: int, a: int): int
    requires a != 0
  {
    FloorDiv(x + a - 1, a) * a
  }

  function Padding(x: int, a: int): nat
    requires a != 0
  {
    if a > 0 then Remainder(-x, a) else 0
  }

  function Zeros(n: nat): (r: Bytes)
    ensures |r| == n
  {
    if n == 0 then [] else Zeros(n - 1) + [0]
  }

  /** A start past the header's fixed part never turns negative, not even for a negative alignment. */
  lemma AlignUpNonNegative(x: int, a: int)
    requires a != 0 && x >= 2
    ensures AlignUp(x, a) >= 0
  {
    var y := x + a - 1;
    if a > 0 {
      DivMod(y, a);
      Scale(a, y / a);
    } else {
      DivMod(-y, -a);
      Scale(-a, (-y) / (-a));
    }
  }

  /** Padding reaches the next multiple and no further. */
  lemma PaddedIsAligned(x: int, a: int)
    requires a > 0
    ensures AlignUp(x, a) == x + Padding(x, a) && Padding(x, a) < a && (x + Padding(x, a)) % a == 0
  {
    DivMod(-x, a);
    var m, p := -((-x) / a), (-x) % a;
    assert x + p == a * m by {
      assert a * m == -(a * ((-x) / a));
    }
    DivUnique(x + p, a, m, 0);
    DivUnique(x + a - 1, a, m, a - 1 - p);
    assert m * a == a * m;
  }

  // ---------------------------------------------------------------------------
  // Writing
  // ---------------------------------------------------------------------------

  /** The bytes of "GGUF". */
  const Magic: Bytes := [0x47, 0x47, 0x55, 0x46]

  function WriteKv(kv: KV): Bytes { WriteStr(kv.key) + Le(kv.tag, 4) + Write(kv.value) }

  function WriteKvs(kvs: seq<KV>): Bytes {
    if kvs == [] then [] else WriteKv(kvs[0]) + WriteKvs(kvs[1..])
  }

  predicate TypedKv(kv: KV) { |kv.key| < Span(8) && kv.tag < Span(4) && Typed(kv.tag, kv.value) }

  predicate AllTypedKvs(kvs: seq<KV>) {
    kvs == [] || (TypedKv(kvs[0]) && AllTypedKvs(kvs[1..]))
  }

  lemma {:induction false} WriteKvsAppend(kvs: seq<KV>, kv: KV)
    ensures WriteKvs(kvs + [kv]) == WriteKvs(kvs) + WriteKv(kv)
    ensures AllTypedKvs(kvs + [kv]) <==> AllTypedKvs(kvs) && TypedKv(kv)
    decreases |kvs|
  {
    hide WriteKv, TypedKv;
    if kvs == [] {
      assert [kv][1..] == [];
      assert [] + [kv] == [kv];
    } else {
      WriteKvsAppend(kvs[1..], kv);
      assert (kvs + [kv])[1..] == kvs[1..] + [kv];
    }
  }

  lemma {:induction false} ReadKvUndoesWrite(data: Bytes, off: nat, kv: KV)
    requires TypedKv(kv) && Holds(data, off, WriteKv(kv))
    ensures ReadKv(data, off) == Ok(kv, off + |WriteKv(kv)|)
  {
    hide Span, Le, FromLe, Holds, Read, Write, Typed, WriteStr, ReadStr, ReadInt;
    HoldsBoth(data, off, WriteStr(kv.key) + Le(kv.tag, 4), Write(kv.value));
    HoldsBoth(data, off, WriteStr(kv.key), Le(kv.tag, 4));
    StrHeld(data, off, kv.key);
    IntHeld(data, off + |WriteStr(kv.key)|, kv.tag, 4);
    ReadUndoesWrite(data, off + |WriteStr(kv.key)| + 4, kv.tag, kv.value);
  }

  lemma {:induction false} ReadKvsUndoesWrite(data: Bytes, off: nat, kvs: seq<KV>)
    requires AllTypedKvs(kvs) && Holds(data, off, WriteKvs(kvs))
    ensures ReadKvs(data, off, |kvs|) == Ok(kvs, off + |WriteKvs(kvs)|)
    decreases |kvs|
  {
    hide Holds, WriteKv, TypedKv, ReadKv;
    if kvs == [] {
    } else {
      HoldsBoth(data, off, WriteKv(kvs[0]), WriteKvs(kvs[1..]));
      ReadKvUndoesWrite(data, off, kvs[0]);
      ReadKvsUndoesWrite(data, off + |WriteKv(kvs[0])|, kvs[1..]);
      assert kvs == [kvs[0]] + kvs[1..];
    }
  }

  lemma {:induction false} WriteUndoesReadKv(data: Bytes, off: nat)
    requires ReadKv(data, off).Ok? && ReadKv(data, off).end <= |data|
    ensures var r := ReadKv(data, off);
            TypedKv(r.value) && Holds(data, off, WriteKv(r.value)) && r.end == off + |WriteKv(r.value)|
  {
    hide Span, Le, FromLe, Holds, Read, Write, Typed, WriteStr, ReadStr, ReadInt;
    var kv := ReadKv(data, off).value;
    var at := ReadStr(data, off).end;
    HeldStr(data, off);
    HeldInt(data, at, 4);
    WriteUndoesRead(data, at + 4, kv.tag);
    HoldsBoth(data, off, WriteStr(kv.key), Le(kv.tag, 4));
    HoldsBoth(data, off, WriteStr(kv.key) + Le(kv.tag, 4), Write(kv.value));
  }

  lemma {:induction false} WriteUndoesReadKvs(data: Bytes, off: nat, n: nat)
    requires ReadKvs(data, off, n).Ok? && ReadKvs(data, off, n).end <= |data|
    ensures var r := ReadKvs(data, off, n);
            AllTypedKvs(r.value) && Holds(data, off, WriteKvs(r.value)) && r.end == off + |WriteKvs(r.value)|
    decreases n
  {
    hide Holds, WriteKv, TypedKv, ReadKv;
    if n == 0 {
      NothingHeld(data, off);
    } else {
      WriteUndoesReadKv(data, off);
      var kv, mid := ReadKv(data, off).value, ReadKv(data, off).end;
      WriteUndoesReadKvs(data, mid, n - 1);
      var kvs := ReadKvs(data, mid, n - 1).value;
      HoldsBoth(data, off, WriteKv(kv), WriteKvs(kvs));
      assert ([kv] + kvs)[1..] == kvs;
    }
  }

  // ---------------------------------------------------------------------------
  // Copied tensor infos
  // ---------------------------------------------------------------------------

  lemma IntMoved(data: Bytes, off: nat, out: Bytes, to: nat, len: nat, d: nat, k: nat)
    requires off + len <= |data| && Holds(out, to, data[off..off + len]) && d + k <= len
    ensures ReadInt(data, off + d, k).Ok? && ReadInt(out, to + d, k) == Ok(ReadInt(data, off + d, k).value, to + d + k)
  {
    hide FromLe;
    SliceOfSlice(out, to, len, d, k);
    SliceOfSlice(data, off, len, d, k);
    assert off + d + k <= |data| && to + d + k <= |out|;
  }

  lemma SliceOfSlice(s: Bytes, i: nat, len: nat, d: nat, k: nat)
    requires i + len <= |s| && d + k <= len
    ensures i + d + k <= |s| && s[i..i + len][d..d + k] == s[i + d..i + d + k]
  {
    var whole, a, b := s[i..i + len], s[i..i + len][d..d + k], s[i + d..i + d + k];
    forall m | 0 <= m < |a|
      ensures a[m] == b[m]
    {
      assert whole[d + m] == s[i + (d + m)];
    }
  }

  lemma TensorMoved(data: Bytes, off: nat, out: Bytes, to: nat, len: nat)
    requires off + len <= |data| && Holds(out, to, data[off..off + len])
    requires SkipTensor(data, off).Ok? && SkipTensor(data, off).end <= off + len
    ensures SkipTensor(out, to) == Ok((), to + (SkipTensor(data, off).end - off))
  {
    hide FromLe, Span, Holds;
    IntMoved(data, off, out, to, len, 0, 8);
    var d := ReadStr(data, off).end - off;
    IntMoved(data, off, out, to, len, d, 4);
  }

  /** Tensor infos take the same number of bytes wherever they are copied. */
  lemma {:induction false} TensorsMoved(data: Bytes, off: nat, out: Bytes, to: nat, n: nat)
    requires SkipTensors(data, off, n).Ok? && SkipTensors(data, off, n).end <= |data|
    requires Holds(out, to, data[off..SkipTensors(data, off, n).end])
    ensures SkipTensors(out, to, n) == Ok((), to + (SkipTensors(data, off, n).end - off))
    decreases n
  {
    hide SkipTensor;
    if n == 0 {
    } else {
      var mid, end := SkipTensor(data, off).end, SkipTensors(data, off, n).end;
      TensorMoved(data, off, out, to, end - off);
      assert data[off..end] == data[off..mid] + data[mid..end];
      HoldsBoth(out, to, data[off..mid], data[mid..end]);
      TensorsMoved(data, mid, out, to + (mid - off), n - 1);
    }
  }

  // ---------------------------------------------------------------------------
  // Rewriting
  // ---------------------------------------------------------------------------

  /** Keys to drop, and new values for string entries. */
  datatype Config = Config(remove: seq<Bytes>, replace: map<Bytes, Value>)

  function Edit(kvs: seq<KV>, cfg: Config): (r: seq<KV>)
    ensures |r| <= |kvs|
  {
    if kvs == [] then []
    else
      var front, kv := Edit(kvs[..|kvs| - 1], cfg), kvs[|kvs| - 1];
      if kv.key in cfg.remove then front
      else if kv.key in cfg.replace && kv.tag == StrTag then front + [KV(kv.key, kv.tag, cfg.replace[kv.key])]
      else front + [kv]
  }

  function Prelude(version: nat, nTensors: nat, nKv: nat): (r: Bytes)
    ensures |r| == 24
  {
    Magic + Le(version, 4) + Le(nTensors, 8) + Le(nKv, 8)
  }

  /** The new header up to and without the padding. */
  function Head(h: Header, kept: seq<KV>, tiRaw: Bytes): Bytes {
    Prelude(h.version, h.nTensors, |kept|) + WriteKvs(kept) + tiRaw
  }

  /** `Failed`: an exception; `Diverges`: the copy loop never ends. */
  datatype Outcome = Failed | Diverges | Written(out: Bytes)

  function Kept(h: Header, cfg: Config, fix: Bytes -> Bytes): seq<KV> { Edit(DecodedKvs(h.kvs, fix), cfg) }

  function FileAlignment(h: Header, fix: Bytes -> Bytes): int { Alignment(DecodedKvs(h.kvs, fix)) }

  function Rewrite(data: Bytes, cfg: Config, fix: Bytes -> Bytes): Outcome {
    match ReadHeader(data)
    case Err => Failed
    case Ok(h, _) =>
      var a, kept := FileAlignment(h, fix), Kept(h, cfg, fix);
      if a == 0 || !AllTypedKvs(kept) then Failed
      else if AlignUp(h.tiEnd, a) > |data| then Diverges
      else
        AlignUpNonNegative(h.tiEnd, a);
        var head := Head(h, kept, Clamped(data, h.kvEnd, h.tiEnd));
        Written(head + Zeros(Padding(|head|, a)) + data[AlignUp(h.tiEnd, a)..])
  }

  lemma PreludeHeld(out: Bytes, version: nat, nTensors: nat, nKv: nat)
    requires version < Span(4) && nTensors < Span(8) && nKv < Span(8)
    requires Holds(out, 0, Prelude(version, nTensors, nKv))
    ensures ReadInt(out, 4, 4) == Ok(version, 8) && ReadInt(out, 8, 8) == Ok(nTensors, 16)
    ensures ReadInt(out, 16, 8) == Ok(nKv, 24)
  {
    hide Span, Le, FromLe, Holds, ReadInt;
    HoldsBoth(out, 0, Magic + Le(version, 4) + Le(nTensors, 8), Le(nKv, 8));
    HoldsBoth(out, 0, Magic + Le(version, 4), Le(nTensors, 8));
    HoldsBoth(out, 0, Magic, Le(version, 4));
    IntHeld(out, 4, version, 4);
    IntHeld(out, 8, nTensors, 8);
    IntHeld(out, 16, nKv, 8);
  }

  predicate HeaderFits(h: Header) { h.version < Span(4) && h.nTensors < Span(8) && |h.kvs| < Span(8) }

  lemma ReadHeaderFits(data: Bytes)
    requires ReadHeader(data).Ok?
    ensures HeaderFits(ReadHeader(data).value)
  {
    hide Span, FromLe;
  }

  lemma WholeHeld(a: Bytes, b: Bytes)
    ensures Holds(a + b, 0, a) && (a + b)[|a|..] == b
  {}

  /** A file that starts with a new head reads as that head. */
  lemma HeadReads(data: Bytes, kept: seq<KV>, rest: Bytes)
    requires ReadHeader(data).Ok? && ReadHeader(data).value.tiEnd <= |data|
    requires AllTypedKvs(kept) && |kept| <= |ReadHeader(data).value.kvs|
    ensures var h := ReadHeader(data).value;
            var kvEnd := 24 + |WriteKvs(kept)|;
            var head := Head(h, kept, data[h.kvEnd..h.tiEnd]);
            ReadHeader(head + rest) == Ok(Header(h.version, h.nTensors, kept, kvEnd, |head|), |head|)
            && (head + rest)[kvEnd..|head|] == data[h.kvEnd..h.tiEnd]
  {
    hide Span, Holds, Prelude, ReadInt, ReadKvs, SkipTensors, WriteKvs, AllTypedKvs;
    var h := ReadHeader(data).value;
    ReadHeaderFits(data);
    var prelude, ti := Prelude(h.version, h.nTensors, |kept|), data[h.kvEnd..h.tiEnd];
    var head := Head(h, kept, ti);
    var out := head + rest;
    WholeHeld(head, rest);
    HoldsBoth(out, 0, prelude + WriteKvs(kept), ti);
    HoldsBoth(out, 0, prelude, WriteKvs(kept));
    PreludeHeld(out, h.version, h.nTensors, |kept|);
    ReadKvsUndoesWrite(out, 24, kept);
    TensorsMoved(data, h.kvEnd, out, 24 + |WriteKvs(kept)|, h.nTensors);
    ScalarHeld(out, 24 + |WriteKvs(kept)|, ti);
  }

  /**
   The rewritten file has the same version, tensor count and tensor infos, the edited entries, and
   the same tensor data from the next multiple of the old alignment.
   */
  lemma RewrittenParses(data: Bytes, cfg: Config, fix: Bytes -> Bytes)
    requires Rewrite(data, cfg, fix).Written? && FileAlignment(ReadHeader(data).value, fix) > 0
    ensures var h, out := ReadHeader(data).value, Rewrite(data, cfg, fix).out;
            var a := FileAlignment(h, fix);
            && h.tiEnd <= AlignUp(h.tiEnd, a) <= |data|
            && ReadHeader(out).Ok?
            && var g := ReadHeader(out).value;
               && g.version == h.version && g.nTensors == h.nTensors && g.kvs == Kept(h, cfg, fix)
               && g.tiEnd <= AlignUp(g.tiEnd, a) <= |out|
               && out[g.kvEnd..g.tiEnd] == data[h.kvEnd..h.tiEnd]
               && out[g.tiEnd..AlignUp(g.tiEnd, a)] == Zeros(Padding(g.tiEnd, a))
               && out[AlignUp(g.tiEnd, a)..] == data[AlignUp(h.tiEnd, a)..]
               && out[..g.tiEnd] == Head(h, g.kvs, data[h.kvEnd..h.tiEnd])
  {
    hide ReadHeader, AlignUp, Padding, Kept, FileAlignment, Head, AllTypedKvs, Zeros;
    var h := ReadHeader(data).value;
    var a, kept := FileAlignment(h, fix), Kept(h, cfg, fix);
    PaddedIsAligned(h.tiEnd, a);
    KeptIsShorter(h, cfg, fix);
    var head := Head(h, kept, data[h.kvEnd..h.tiEnd]);
    var zeros, body := Zeros(Padding(|head|, a)), data[AlignUp(h.tiEnd, a)..];
    HeadReads(data, kept, zeros + body);
    PaddedIsAligned(|head|, a);
    assert head + zeros + body == head + (zeros + body);
    ThreeParts(head, zeros, body);
  }

  lemma ThreeParts(a: Bytes, b: Bytes, c: Bytes)
    ensures (a + b + c)[..|a|] == a && (a + b + c)[|a|..|a| + |b|] == b && (a + b + c)[|a| + |b|..] == c
  {}

  lemma KeptIsShorter(h: Header, cfg: Config, fix: Bytes -> Bytes)
    ensures |Kept(h, cfg, fix)| <= |h.kvs|
  {}

  // ---------------------------------------------------------------------------
  // Rewriting again
  // ---------------------------------------------------------------------------

  /** Replacement texts are proper text. */
  ghost predicate ReplacesWithText(cfg: Config, fix: Bytes -> Bytes) {
    forall k :: k in cfg.replace ==> Decoded(cfg.replace[k], fix) == cfg.replace[k]
  }

  lemma {:induction false} EditTwice(kvs: seq<KV>, cfg: Config)
    ensures Edit(Edit(kvs, cfg), cfg) == Edit(kvs, cfg)
    decreases |kvs|
  {
    if kvs == [] {
    } else {
      var front := Edit(kvs[..|kvs| - 1], cfg);
      EditTwice(kvs[..|kvs| - 1], cfg);
      if |Edit(kvs, cfg)| > |front| {
        assert Edit(kvs, cfg)[..|front|] == front;
      }
    }
  }

  lemma {:induction false} EditedIsDecoded(kvs: seq<KV>, cfg: Config, fix: Bytes -> Bytes)
    requires FixesOnce(fix) && ReplacesWithText(cfg, fix)
    ensures DecodedKvs(Edit(DecodedKvs(kvs, fix), cfg), fix) == Edit(DecodedKvs(kvs, fix), cfg)
    decreases |kvs|
  {
    if kvs == [] {
    } else {
      var ds, kv := DecodedKvs(kvs, fix), DecodedKv(kvs[|kvs| - 1], fix);
      EditedIsDecoded(kvs[..|kvs| - 1], cfg, fix);
      DecodedTwice(kvs[|kvs| - 1].value, fix);
      assert ds[..|ds| - 1] == DecodedKvs(kvs[..|kvs| - 1], fix);
      var front, all := Edit(ds[..|ds| - 1], cfg), Edit(ds, cfg);
      if |all| > |front| {
        assert all[..|front|] == front;
      }
    }
  }

  /** Editing drops the alignment or leaves it alone. */
  lemma {:induction false} EditedAlignment(kvs: seq<KV>, cfg: Config)
    ensures Alignment(Edit(kvs, cfg)) == if AlignmentKey in cfg.remove then DefaultAlignment else Alignment(kvs)
    decreases |kvs|
  {
    hide Number;
    if kvs == [] {
    } else {
      var front := Edit(kvs[..|kvs| - 1], cfg);
      EditedAlignment(kvs[..|kvs| - 1], cfg);
      if |Edit(kvs, cfg)| > |front| {
        assert Edit(kvs, cfg)[..|front|] == front;
      }
    }
  }

  /** Where a reader of the rewritten file looks for the tensor data. */
  function ReaderStart(out: Bytes, fix: Bytes -> Bytes): int {
    if ReadHeader(out).Ok? && FileAlignment(ReadHeader(out).value, fix) != 0 then
      AlignUp(ReadHeader(out).value.tiEnd, FileAlignment(ReadHeader(out).value, fix))
    else -1
  }

  predicate DataFound(data: Bytes, out: Bytes, fix: Bytes -> Bytes) {
    && 0 <= ReaderStart(data, fix) <= |data| && 0 <= ReaderStart(out, fix) <= |out|
    && out[ReaderStart(out, fix)..] == data[ReaderStart(data, fix)..]
  }

  /**
   A reader of the new file finds the old tensor data exactly when dropping the alignment entry does
   not move the start: always if the entry is kept or says the default.
   */
  lemma DataIsFound(data: Bytes, cfg: Config, fix: Bytes -> Bytes)
    requires Rewrite(data, cfg, fix).Written? && FileAlignment(ReadHeader(data).value, fix) > 0
    requires FixesOnce(fix) && ReplacesWithText(cfg, fix)
    ensures var out, a := Rewrite(data, cfg, fix).out, FileAlignment(ReadHeader(data).value, fix);
            && ReadHeader(out).Ok?
            && var end := ReadHeader(out).value.tiEnd;
               && (DataFound(data, out, fix) <==>
                   AlignmentKey !in cfg.remove || AlignUp(end, a) == AlignUp(end, DefaultAlignment))
  {
    hide ReadHeader, AlignUp, Edit, Head, Zeros, Alignment;
    var h, out := ReadHeader(data).value, Rewrite(data, cfg, fix).out;
    RewrittenParses(data, cfg, fix);
    EditedIsDecoded(h.kvs, cfg, fix);
    EditedAlignment(DecodedKvs(h.kvs, fix), cfg);
    var end := ReadHeader(out).value.tiEnd;
    AlignUpNonNegative(end, FileAlignment(ReadHeader(out).value, fix));
    AlignUpNonNegative(h.tiEnd, FileAlignment(h, fix));
    LengthsTell(out, AlignUp(end, FileAlignment(h, fix)), ReaderStart(out, fix));
  }

  lemma LengthsTell(s: Bytes, i: nat, j: nat)
    requires i <= |s|
    ensures j <= |s| ==> (s[i..] == s[j..] <==> i == j)
  {
    if j <= |s| && s[i..] == s[j..] {
      assert |s[i..]| == |s| - i && |s[j..]| == |s| - j;
    }
  }

  const Entry64 := KV(AlignmentKey, 4, Scalar([64, 0, 0, 0]))

  /** No tensors, one entry that sets the alignment to 64, and one byte of data at offset 64. */
  function Aligned64(): Bytes { Prelude(3, 0, 1) + WriteKvs([Entry64]) + (Zeros(7) + [1]) }

  lemma Entry64Written()
    ensures |WriteKvs([Entry64])| == 33 && AllTypedKvs([Entry64])
  {
    Spans();
    hide Span, Le;
    assert [Entry64][1..] == [];
    assert WriteKvs([Entry64]) == WriteKv(Entry64) + [];
  }

  lemma Number64()
    ensures FromLe([64, 0, 0, 0]) == 64
  {
    assert [64, 0, 0, 0][1..] == [0, 0, 0] && [0, 0, 0][1..] == [0, 0] && [0, 0][1..] == [0];
    assert FromLe([0, 0, 0]) == 0 by {
      assert FromLe([0]) == 0;
    }
  }

  lemma SmallFits()
    ensures 3 < Span(4) && 1 < Span(8)
  {
    Spans();
  }

  lemma ReadAligned64()
    ensures ReadHeader(Aligned64()) == Ok(Header(3, 0, [Entry64], 57, 57), 57) && |Aligned64()| == 65
  {
    hide Span, Le, FromLe, Holds, WriteKvs, AllTypedKvs, ReadKvs, Prelude, ReadInt;
    var data, kvs := Aligned64(), [Entry64];
    Entry64Written();
    SmallFits();
    WholeHeld(Prelude(3, 0, 1) + WriteKvs(kvs), Zeros(7) + [1]);
    HoldsBoth(data, 0, Prelude(3, 0, 1), WriteKvs(kvs));
    PreludeHeld(data, 3, 0, 1);
    ReadKvsUndoesWrite(data, 24, kvs);
  }

  const Header64 := Header(3, 0, [Entry64], 57, 57)

  lemma Edit64(fix: Bytes -> Bytes)
    requires fix(AlignmentKey) == AlignmentKey
    ensures Kept(Header64, Config([AlignmentKey], map[]), fix) == [] && FileAlignment(Header64, fix) == 64
  {
    hide FromLe;
    assert [Entry64][..0] == [];
    Number64();
  }

  lemma Starts64()
    ensures AlignUp(57, 64) == 64 && AlignUp(24, 64) == 64 && AlignUp(24, DefaultAlignment) == 32
  {}

  lemma NoEntriesHead(h: Header, ti: Bytes)
    requires ti == []
    ensures |Head(h, [], ti)| == 24
  {}

  lemma Rewrite64(fix: Bytes -> Bytes)
    requires fix(AlignmentKey) == AlignmentKey
    ensures var r := Rewrite(Aligned64(), Config([AlignmentKey], map[]), fix);
            r.Written? && ReadHeader(r.out).Ok? && ReadHeader(r.out).value.tiEnd == 24
  {
    hide ReadHeader, Aligned64, Kept, FileAlignment, Zeros, Head, AlignUp, Padding;
    var data, cfg := Aligned64(), Config([AlignmentKey], map[]);
    ReadAligned64();
    Edit64(fix);
    Starts64();
    assert Rewrite(data, cfg, fix).Written?;
    RewrittenParses(data, cfg, fix);
    NoEntriesHead(Header64, data[57..57]);
    var out := Rewrite(data, cfg, fix).out;
    assert |out[..ReadHeader(out).value.tiEnd]| == 24;
  }

  /** With the entry dropped the data stays at 64, where a reader with the default does not look. */
  lemma DroppedAlignmentLosesData(fix: Bytes -> Bytes)
    requires FixesOnce(fix) && fix(AlignmentKey) == AlignmentKey
    ensures var r := Rewrite(Aligned64(), Config([AlignmentKey], map[]), fix);
            r.Written? && !DataFound(Aligned64(), r.out, fix)
  {
    hide ReadHeader, Aligned64, Kept, FileAlignment, Rewrite, AlignUp, DataFound, FixesOnce;
    ReadAligned64();
    Edit64(fix);
    Rewrite64(fix);
    Starts64();
    DataIsFound(Aligned64(), Config([AlignmentKey], map[]), fix);
  }

  lemma {:induction false} ZerosAre(n: nat, k: nat)
    requires k < n
    ensures Zeros(n)[k] == 0
    decreases n
  {
    if k < n - 1 {
      ZerosAre(n - 1, k);
    }
  }

  lemma OnlyZeros(s: Bytes)
    ensures s == Zeros(|s|) <==> forall k :: 0 <= k < |s| ==> s[k] == 0
  {
    hide Zeros;
    forall k | 0 <= k < |s|
      ensures Zeros(|s|)[k] == 0
    {
      ZerosAre(|s|, k);
    }
  }

  lemma ZerosPrefix(p: nat, body: Bytes, q: nat)
    requires q <= p + |body|
    ensures (Zeros(p) + body)[..q] == Zeros(q) <==> q <= p || body[..q - p] == Zeros(q - p)
  {
    hide Zeros;
    OnlyZeros(Zeros(p));
    OnlyZeros((Zeros(p) + body)[..q]);
    if q > p {
      var more := body[..q - p];
      OnlyZeros(more);
      assert (Zeros(p) + body)[..q] == Zeros(p) + more;
      assert (Zeros(p) + more)[p..] == more;
      OnlyZeros((Zeros(p) + more)[p..]);
    }
  }

  lemma MiddleReplaced(a: Bytes, b: Bytes, x: Bytes)
    requires |x| <= |b|
    ensures a + x + (a + b)[|a| + |x|..] == a + b <==> b[..|x|] == x
  {
    assert (a + b)[|a| + |x|..] == b[|x|..];
    assert b == b[..|x|] + b[|x|..];
    if a + x + b[|x|..] == a + b {
      assert (a + x + b[|x|..])[|a|..|a| + |x|] == x && (a + b)[|a|..|a| + |x|] == b[..|x|];
    }
  }

  /** Padding anew with `q` zeros changes nothing exactly if there were that many. */
  lemma PaddedAnew(head: Bytes, p: nat, body: Bytes, q: nat)
    requires q <= p + |body|
    ensures var out := head + Zeros(p) + body;
            out[..|head|] + Zeros(q) + out[|head| + q..] == out <==> q <= p || body[..q - p] == Zeros(q - p)
  {
    hide Zeros;
    var rest := Zeros(p) + body;
    assert head + Zeros(p) + body == head + rest && (head + rest)[..|head|] == head;
    MiddleReplaced(head, rest, Zeros(q));
    ZerosPrefix(p, body, q);
  }

  /** What rewriting the rewritten file does: only the padding can come out differently. */
  lemma SecondRewrite(data: Bytes, cfg: Config, fix: Bytes -> Bytes)
    requires Rewrite(data, cfg, fix).Written? && FileAlignment(ReadHeader(data).value, fix) > 0
    requires FixesOnce(fix) && ReplacesWithText(cfg, fix)
    ensures ReadHeader(Rewrite(data, cfg, fix).out).Ok?
    ensures var out, a := Rewrite(data, cfg, fix).out, FileAlignment(ReadHeader(data).value, fix);
            var end, b := ReadHeader(out).value.tiEnd, if AlignmentKey in cfg.remove then DefaultAlignment else a;
            && end <= |out| && AlignUp(end, b) == end + Padding(end, b)
            && Rewrite(out, cfg, fix) ==
               if end + Padding(end, b) > |out| then Diverges
               else Written(out[..end] + Zeros(Padding(end, b)) + out[end + Padding(end, b)..])
  {
    hide ReadHeader, AlignUp, Edit, Zeros, Alignment, Padding, AllTypedKvs, WriteKvs, Prelude;
    var h, out := ReadHeader(data).value, Rewrite(data, cfg, fix).out;
    RewrittenParses(data, cfg, fix);
    var g := ReadHeader(out).value;
    EditedIsDecoded(h.kvs, cfg, fix);
    EditTwice(DecodedKvs(h.kvs, fix), cfg);
    EditedAlignment(DecodedKvs(h.kvs, fix), cfg);
    PaddedIsAligned(g.tiEnd, FileAlignment(g, fix));
  }

  /**
   Rewriting a rewritten file changes nothing, exactly if the alignment entry is kept, or the default
   asks for no more padding than there is, or the tensor data starts with the zeros it asks for more.
   */
  lemma RewriteTwice(data: Bytes, cfg: Config, fix: Bytes -> Bytes)
    requires Rewrite(data, cfg, fix).Written? && FileAlignment(ReadHeader(data).value, fix) > 0
    requires FixesOnce(fix) && ReplacesWithText(cfg, fix)
    ensures ReadHeader(Rewrite(data, cfg, fix).out).Ok?
    ensures var h, out := ReadHeader(data).value, Rewrite(data, cfg, fix).out;
            var a, end := FileAlignment(h, fix), ReadHeader(out).value.tiEnd;
            var p, q := Padding(end, a), Padding(end, DefaultAlignment);
            && 0 <= AlignUp(h.tiEnd, a) <= |data|
            && var body := data[AlignUp(h.tiEnd, a)..];
               (Rewrite(out, cfg, fix) == Rewrite(data, cfg, fix) <==>
                 AlignmentKey !in cfg.remove || q <= p || (q - p <= |body| && body[..q - p] == Zeros(q - p)))
  {
    assert ReadHeader(data).Ok?;
    hide ReadHeader, AlignUp, Kept, FileAlignment, Zeros, Padding, Head, FixesOnce, ReplacesWithText, Rewrite;
    SecondRewrite(data, cfg, fix);
    RewrittenParses(data, cfg, fix);
    var h, out := ReadHeader(data).value, Rewrite(data, cfg, fix).out;
    var a, end := FileAlignment(h, fix), ReadHeader(out).value.tiEnd;
    PaddedIsAligned(end, a);
    var p, body := Padding(end, a), data[AlignUp(h.tiEnd, a)..];
    var q := if AlignmentKey in cfg.remove then Padding(end, DefaultAlignment) else p;
    assert out == out[..end] + Zeros(p) + body;
    if q <= p + |body| {
      PaddedAnew(out[..end], p, body, q);
    }
  }

  /**
   A file whose strings are text, whose magic is right and whose padding is zero is reproduced byte
   for byte when nothing is edited.
   */
  lemma NothingEdited(data: Bytes, fix: Bytes -> Bytes)
    requires ReadHeader(data).Ok?
    requires var h := ReadHeader(data).value;
             var a := FileAlignment(h, fix);
             && a > 0 && DecodedKvs(h.kvs, fix) == h.kvs && data[..4] == Magic
             && AlignUp(h.tiEnd, a) <= |data| && AlignUp(h.tiEnd, a) >= h.tiEnd
             && data[h.tiEnd..AlignUp(h.tiEnd, a)] == Zeros(Padding(h.tiEnd, a))
    ensures Rewrite(data, Config([], map[]), fix) == Written(data)
  {
    hide AlignUp, Zeros, Alignment, Padding, WriteKvs, ReadKvs, Holds, SkipTensors, Prelude, Span;
    var h := ReadHeader(data).value;
    var start := AlignUp(h.tiEnd, FileAlignment(h, fix));
    EditNothing(h.kvs);
    WriteUndoesReadKvs(data, 24, |h.kvs|);
    PreludeRebuilt(data);
    ScalarHeld(data, 24, WriteKvs(h.kvs));
    assert data[24..h.kvEnd] == WriteKvs(h.kvs);
    Reassembled(data, 24, h.kvEnd, h.tiEnd, start);
  }

  lemma Reassembled(s: Bytes, i: nat, j: nat, k: nat, l: nat)
    requires i <= j <= k <= l <= |s|
    ensures s[..i] + s[i..j] + s[j..k] + s[k..l] + s[l..] == s
    ensures |s[..i] + s[i..j] + s[j..k]| == k
  {}

  lemma {:induction false} EditNothing(kvs: seq<KV>)
    ensures Edit(kvs, Config([], map[])) == kvs
    decreases |kvs|
  {
    if kvs == [] {
    } else {
      EditNothing(kvs[..|kvs| - 1]);
    }
  }

  lemma PreludeRebuilt(data: Bytes)
    requires |data| >= 24 && data[..4] == Magic
    requires ReadInt(data, 4, 4).Ok? && ReadInt(data, 8, 8).Ok? && ReadInt(data, 16, 8).Ok?
    ensures Prelude(ReadInt(data, 4, 4).value, ReadInt(data, 8, 8).value, ReadInt(data, 16, 8).value) == data[..24]
  {
    hide Span, FromLe, Le;
    LeFromLe(data[4..8]);
    LeFromLe(data[8..16]);
    LeFromLe(data[16..24]);
    assert data[..24] == data[..4] + data[4..8] + data[8..16] + data[16..24];
  }

  // ---------------------------------------------------------------------------
  // The script
  // ---------------------------------------------------------------------------

  datatype Parse = Broken | Parse(
    version: nat, nTensors: nat, kvs: seq<KV>, tiRaw: Bytes, dataStart: int, alignment: int, total: nat)

  /** What the parser returns. */
  function Parsing(data: Bytes, fix: Bytes -> Bytes): Parse {
    match ReadHeader(data)
    case Err => Broken
    case Ok(h, _) =>
      var a := FileAlignment(h, fix);
      if a == 0 then Broken
      else
        Parse(h.version, h.nTensors, DecodedKvs(h.kvs, fix), Clamped(data, h.kvEnd, h.tiEnd),
              AlignUp(h.tiEnd, a), a, |data|)
  }

  lemma ReadKvsStep(data: Bytes, off: nat, n: nat, done: seq<KV>)
    requires n > 0
    ensures ReadKv(data, off).Err? ==> ReadKvs(data, off, n).Err?
    ensures ReadKv(data, off).Ok? ==>
              var r := ReadKv(data, off);
              Prepend(done, ReadKvs(data, off, n)) == Prepend(done + [r.value], ReadKvs(data, r.end, n - 1))
  {
    hide ReadKv;
    if ReadKv(data, off).Ok? {
      var kv, rest := ReadKv(data, off).value, ReadKvs(data, ReadKv(data, off).end, n - 1);
      if rest.Ok? {
        assert done + ([kv] + rest.value) == done + [kv] + rest.value;
      }
    }
  }

  method ReadEntry(r: Reader) returns (ok: bool, kv: KV)
    modifies r
    ensures match ReadKv(r.data, old(r.off))
            case Err => !ok
            case Ok(raw, end) => ok && kv == DecodedKv(raw, r.fix) && r.off == end
  {
    var key, tag, v;
    kv := KV([], 0, Scalar([]));
    ok, key := r.Rstr();
    if !ok {
      return;
    }
    ok, tag := r.Unpack(4);
    if !ok {
      return;
    }
    ok, v := r.Rt(tag);
    kv := KV(key, tag, v);
  }

  method ReadEntries(r: Reader, n: nat) returns (ok: bool, kvs: seq<KV>)
    modifies r
    ensures match ReadKvs(r.data, old(r.off), n)
            case Err => !ok
            case Ok(raws, end) => ok && kvs == DecodedKvs(raws, r.fix) && r.off == end
  {
    hide ReadKv, DecodedKv;
    ghost var all := ReadKvs(r.data, r.off, n);
    ghost var raws: seq<KV> := [];
    kvs := [];
    PrependNothing(all);
    for i := 0 to n
      invariant |raws| == i && kvs == DecodedKvs(raws, r.fix)
      invariant all == Prepend(raws, ReadKvs(r.data, r.off, n - i))
    {
      ReadKvsStep(r.data, r.off, n - i, raws);
      ghost var next := ReadKv(r.data, r.off);
      var kv;
      ok, kv := ReadEntry(r);
      if !ok {
        return;
      }
      assert (raws + [next.value])[..i] == raws;
      raws := raws + [next.value];
      kvs := kvs + [kv];
    }
    assert raws + [] == raws;
    ok := true;
  }

  method SkipInfo(r: Reader) returns (ok: bool)
    modifies r
    ensures match SkipTensor(r.data, old(r.off))
            case Err => !ok
            case Ok(_, end) => ok && r.off == end
  {
    hide FromLe, Span;
    var name, nd;
    ok, name := r.Rstr();
    if !ok {
      return;
    }
    ok, nd := r.Unpack(4);
    if !ok {
      return;
    }
    r.off := r.off + (nd * 8 + 4 + 8);
  }

  method SkipInfos(r: Reader, n: nat) returns (ok: bool)
    modifies r
    ensures match SkipTensors(r.data, old(r.off), n)
            case Err => !ok
            case Ok(_, end) => ok && r.off == end
  {
    hide SkipTensor;
    ghost var all := SkipTensors(r.data, r.off, n);
    for i := 0 to n
      invariant all == SkipTensors(r.data, r.off, n - i)
    {
      ok := SkipInfo(r);
      if !ok {
        return;
      }
    }
    ok := true;
  }

  method FindAlignment(kvs: seq<KV>) returns (alignment: int)
    ensures alignment == Alignment(kvs)
  {
    hide Number;
    alignment := DefaultAlignment;
    for i := 0 to |kvs|
      invariant alignment == Alignment(kvs[..i])
    {
      assert kvs[..i + 1][..i] == kvs[..i];
      if SetsAlignment(kvs[i]) {
        alignment := Number(kvs[i].tag, kvs[i].value.raw);
      }
    }
    assert kvs[..|kvs|] == kvs;
  }

  method ParseFile(data: Bytes, fix: Bytes -> Bytes) returns (r: Parse)
    ensures r == Parsing(data, fix)
  {
    hide ReadKvs, SkipTensors, FromLe, Span, Alignment, DecodedKvs, AlignUp;
    var reader := new Reader(data, fix, 4);
    var ok, version := reader.Unpack(4);
    if !ok {
      return Broken;
    }
    var nTensors, nKv, kvs;
    ok, nTensors := reader.Unpack(8);
    if !ok {
      return Broken;
    }
    ok, nKv := reader.Unpack(8);
    if !ok {
      return Broken;
    }
    ok, kvs := ReadEntries(reader, nKv);
    if !ok {
      return Broken;
    }
    var kvEnd := reader.off;
    ok := SkipInfos(reader, nTensors);
    if !ok {
      return Broken;
    }
    var tiEnd := reader.off;
    var alignment := FindAlignment(kvs);
    if alignment == 0 {
      return Broken;
    }
    r := Parse(version, nTensors, kvs, Clamped(data, kvEnd, tiEnd), AlignUp(tiEnd, alignment), alignment, |data|);
  }

  method EditEntries(kvs: seq<KV>, cfg: Config) returns (kept: seq<KV>)
    ensures kept == Edit(kvs, cfg)
  {
    kept := [];
    for i := 0 to |kvs|
      invariant kept == Edit(kvs[..i], cfg)
    {
      assert kvs[..i + 1][..i] == kvs[..i];
      var kv := kvs[i];
      if kv.key in cfg.remove {
        continue;
      }
      if kv.key in cfg.replace && kv.tag == StrTag {
        kv := kv.(value := cfg.replace[kv.key]);
      }
      kept := kept + [kv];
    }
    assert kvs[..|kvs|] == kvs;
  }

  method WriteEntries(buf: Bytes, kvs: seq<KV>) returns (ok: bool, out: Bytes)
    ensures ok <==> AllTypedKvs(kvs)
    ensures ok ==> out == buf + WriteKvs(kvs)
  {
    hide Typed, Write, WriteStr, Le, Span;
    out := buf;
    for i := 0 to |kvs|
      invariant AllTypedKvs(kvs[..i]) && out == buf + WriteKvs(kvs[..i])
    {
      WriteKvsAppend(kvs[..i], kvs[i]);
      assert kvs[..i + 1] == kvs[..i] + [kvs[i]];
      var start := out;
      ok, out := Wstr(out, kvs[i].key);
      if !ok || kvs[i].tag >= Span(4) {
        TypedKvsPrefix(kvs, i + 1);
        return false, out;
      }
      out := out + Le(kvs[i].tag, 4);
      ok, out := Wt(out, kvs[i].tag, kvs[i].value);
      if !ok {
        TypedKvsPrefix(kvs, i + 1);
        return;
      }
      assert out == start + WriteKv(kvs[i]);
    }
    assert kvs[..|kvs|] == kvs;
    ok := true;
  }

  lemma {:induction false} TypedKvsPrefix(kvs: seq<KV>, i: nat)
    requires i <= |kvs| && !AllTypedKvs(kvs[..i])
    ensures !AllTypedKvs(kvs)
    decreases |kvs| - i
  {
    hide TypedKv;
    if i == |kvs| {
      assert kvs[..i] == kvs;
    } else {
      WriteKvsAppend(kvs[..i], kvs[i]);
      assert kvs[..i + 1] == kvs[..i] + [kvs[i]];
      TypedKvsPrefix(kvs, i + 1);
    }
  }

  const ChunkSize := 0x100_0000

  /** Copies the rest of the input in chunks; started past the end it would never stop. */
  method CopyData(out: Bytes, data: Bytes, dataStart: nat) returns (r: Bytes)
    requires dataStart <= |data|
    ensures r == out + data[dataStart..]
  {
    r := out;
    var pos, remaining := dataStart, |data| - dataStart;
    while remaining != 0
      invariant 0 <= remaining && dataStart <= pos && pos + remaining == |data|
      invariant r == out + data[dataStart..pos]
      decreases remaining
    {
      var n := if ChunkSize < remaining then ChunkSize else remaining;
      assert data[dataStart..pos + n] == data[dataStart..pos] + data[pos..pos + n];
      r := r + data[pos..pos + n];
      pos := pos + n;
      remaining := remaining - n;
    }
  }

  /** Puts the number of entries in its place, behind magic, version and tensor count. */
  lemma CountPatched(version: nat, nTensors: nat, n: nat, kvs: Bytes, ti: Bytes, zeros: Bytes)
    ensures var out := Prelude(version, nTensors, 0) + kvs + ti + zeros;
            out[..16] + Le(n, 8) + out[24..] == Prelude(version, nTensors, n) + kvs + ti + zeros
  {
    hide Le;
    var front, rest := Magic + Le(version, 4) + Le(nTensors, 8), kvs + ti + zeros;
    assert Prelude(version, nTensors, 0) + kvs + ti + zeros == front + Le(0, 8) + rest;
    ThreeParts(front, Le(0, 8), rest);
    assert Prelude(version, nTensors, n) + kvs + ti + zeros == front + Le(n, 8) + rest;
  }

  /** The whole script on one file. */
  method Sanitize(data: Bytes, cfg: Config, fix: Bytes -> Bytes) returns (r: Outcome)
    ensures r == Rewrite(data, cfg, fix)
  {
    hide ReadHeader, AlignUp, Edit, Alignment, WriteKvs, DecodedKvs, AllTypedKvs, Zeros, Padding, Prelude, Clamped, Le;
    var parse := ParseFile(data, fix);
    if parse.Broken? {
      return Failed;
    }
    var out := Prelude(parse.version, parse.nTensors, 0);
    var kept := EditEntries(parse.kvs, cfg);
    var ok;
    ok, out := WriteEntries(out, kept);
    if !ok {
      return Failed;
    }
    out := out + parse.tiRaw;
    var pad := Padding(|out|, parse.alignment);
    out := out + Zeros(pad);
    CountPatched(parse.version, parse.nTensors, |kept|, WriteKvs(kept), parse.tiRaw, Zeros(pad));
    out := out[..16] + Le(|kept|, 8) + out[24..];
    if parse.dataStart > parse.total {
      return Diverges;
    }
    AlignUpNonNegative(ReadHeader(data).value.tiEnd, parse.alignment);
    out := CopyData(out, data, parse.dataStart);
    r := Written(out);
  }
}
