/**
 The values of a GGUF header as sanitize-gguf-v3.py reads and writes them: little-endian integers,
 length-prefixed strings and arrays of any depth, all found by moving one offset over the file.
 */
module GgufValues {
  import opened Utf8

  // ---------------------------------------------------------------------------
  // Little-endian integers
  // ---------------------------------------------------------------------------

  /** 256 to the power k. */
  function Span(k: nat): (r: nat)
    ensures r > 0
  {
    if k == 0 then 1 else 256 * Span(k - 1)
  }

  lemma Spans()
    ensures Span(4) == 0x1_0000_0000 && Span(8) == 0x1_0000_0000_0000_0000
  {
    assert Span(4) == 256 * 256 * 256 * 256;
    assert Span(8) == 256 * 256 * 256 * 256 * Span(4);
  }

  /** The k low bytes of `n`, lowest first. */
  function Le(n: nat, k: nat): (r: Bytes)
    ensures |r| == k
  {
    if k == 0 then [] else [n % 256] + Le(n / 256, k - 1)
  }

  function FromLe(s: Bytes): (n: nat)
    ensures n < Span(|s|)
  {
    if s == [] then 0 else s[0] + 256 * FromLe(s[1..])
  }

  lemma {:induction false} FromLeLe(n: nat, k: nat)
    requires n < Span(k)
    ensures FromLe(Le(n, k)) == n
    decreases k
  {
    if k == 0 {
    } else {
      FromLeLe(n / 256, k - 1);
      assert Le(n, k)[1..] == Le(n / 256, k - 1);
    }
  }

  lemma {:induction false} LeFromLe(s: Bytes)
    ensures Le(FromLe(s), |s|) == s
  {
    if s == [] {
    } else {
      LeFromLe(s[1..]);
      var b: nat := s[0];
      assert FromLe(s) % 256 == b && FromLe(s) / 256 == FromLe(s[1..]);
    }
  }

  // ---------------------------------------------------------------------------
  // Places in a file
  // ---------------------------------------------------------------------------

  datatype Parsed<+T> = Err | Ok(value: T, end: nat)

  /** The file holds `bytes` at `off`. */
  predicate Holds(data: Bytes, off: nat, bytes: Bytes) {
    off + |bytes| <= |data| && data[off..off + |bytes|] == bytes
  }

  lemma HoldsBoth(data: Bytes, off: nat, a: Bytes, b: Bytes)
    ensures Holds(data, off, a + b) <==> Holds(data, off, a) && Holds(data, off + |a|, b)
  {
    if off + |a| + |b| <= |data| {
      var d := data[off..off + |a| + |b|];
      assert d[..|a|] == data[off..off + |a|] && d[|a|..] == data[off + |a|..off + |a| + |b|];
      assert d == d[..|a|] + d[|a|..];
      assert (a + b)[..|a|] == a && (a + b)[|a|..] == b;
    }
  }

  /** Unpacking k bytes at `off`; past the end it fails. */
  function ReadInt(data: Bytes, off: nat, k: nat): (r: Parsed<nat>)
    ensures r.Ok? ==> r.end == off + k <= |data| && r.value < Span(k)
  {
    if off + k <= |data| then Ok(FromLe(data[off..off + k]), off + k) else Err
  }

  lemma IntHeld(data: Bytes, off: nat, n: nat, k: nat)
    requires n < Span(k) && Holds(data, off, Le(n, k))
    ensures ReadInt(data, off, k) == Ok(n, off + k)
  {
    FromLeLe(n, k);
  }

  lemma HeldInt(data: Bytes, off: nat, k: nat)
    requires ReadInt(data, off, k).Ok?
    ensures Holds(data, off, Le(ReadInt(data, off, k).value, k))
  {
    LeFromLe(data[off..off + k]);
  }

  /** A slice never fails: it stops at the end of the file. */
  function Clamped(data: Bytes, i: nat, j: nat): Bytes
    requires i <= j
  {
    if j <= |data| then data[i..j] else if i <= |data| then data[i..] else []
  }

  // ---------------------------------------------------------------------------
  // Values
  // ---------------------------------------------------------------------------

  /** Numbers and flags are kept as the bytes they are packed in. */
  datatype Value = Scalar(raw: Bytes) | Str(text: Bytes) | Arr(elem: nat, items: seq<Value>)

  const StrTag := 8
  const ArrTag := 9

  /** Width of a scalar type; none for an unknown tag. */
  function Width(t: nat): nat {
    if t == 0 || t == 1 || t == 7 then 1
    else if t == 2 || t == 3 then 2
    else if t == 4 || t == 5 || t == 6 then 4
    else if t == 10 || t == 11 || t == 12 then 8
    else 0
  }

  function ReadStr(data: Bytes, off: nat): (r: Parsed<Bytes>)
    ensures r.Ok? ==> off < r.end
  {
    match ReadInt(data, off, 8)
    case Err => Err
    case Ok(l, at) => Ok(Clamped(data, at, at + l), at + l)
  }

  function Left(data: Bytes, off: nat): nat { if off <= |data| then |data| - off else 0 }

  function Read(data: Bytes, off: nat, t: nat): (r: Parsed<Value>)
    ensures r.Ok? ==> off < r.end
    decreases Left(data, off), 0
  {
    if t == StrTag then
      match ReadStr(data, off)
      case Err => Err
      case Ok(s, end) => Ok(Str(s), end)
    else if t == ArrTag then
      var elem, count := ReadInt(data, off, 4), ReadInt(data, off + 4, 8);
      if elem.Err? || count.Err? then Err
      else
        match ReadItems(data, off + 12, elem.value, count.value)
        case Err => Err
        case Ok(items, end) => Ok(Arr(elem.value, items), end)
    else if Width(t) == 0 || off + Width(t) > |data| then Err
    else Ok(Scalar(data[off..off + Width(t)]), off + Width(t))
  }

  function ReadItems(data: Bytes, off: nat, t: nat, n: nat): (r: Parsed<seq<Value>>)
    ensures r.Ok? ==> off <= r.end && |r.value| == n
    decreases Left(data, off), n + 1
  {
    if n == 0 then Ok([], off)
    else
      match Read(data, off, t)
      case Err => Err
      case Ok(v, mid) =>
        match ReadItems(data, mid, t, n - 1)
        case Err => Err
        case Ok(vs, end) => Ok([v] + vs, end)
  }

  function WriteStr(s: Bytes): Bytes { Le(|s|, 8) + s }

  function Write(v: Value): Bytes
    decreases v, 0
  {
    match v
    case Scalar(raw) => raw
    case Str(s) => WriteStr(s)
    case Arr(elem, items) => Le(elem, 4) + Le(|items|, 8) + WriteItems(items)
  }

  function WriteItems(vs: seq<Value>): Bytes
    decreases vs, 1
  {
    if vs == [] then [] else Write(vs[0]) + WriteItems(vs[1..])
  }

  /** A value of type `t` whose lengths fit their fields. */
  predicate Typed(t: nat, v: Value)
    decreases v, 0
  {
    match v
    case Str(s) => t == StrTag && |s| < Span(8)
    case Arr(elem, items) => t == ArrTag && elem < Span(4) && |items| < Span(8) && AllTyped(elem, items)
    case Scalar(raw) => t != StrTag && t != ArrTag && Width(t) == |raw| > 0
  }

  predicate AllTyped(t: nat, vs: seq<Value>)
    decreases vs, 1
  {
    vs == [] || (Typed(t, vs[0]) && AllTyped(t, vs[1..]))
  }

  // ---------------------------------------------------------------------------
  // Reading undoes writing, and writing undoes reading
  // ---------------------------------------------------------------------------

  lemma StrHeld(data: Bytes, off: nat, s: Bytes)
    requires |s| < Span(8) && Holds(data, off, WriteStr(s))
    ensures ReadStr(data, off) == Ok(s, off + |WriteStr(s)|)
  {
    hide Span, Le, FromLe;
    HoldsBoth(data, off, Le(|s|, 8), s);
    IntHeld(data, off, |s|, 8);
  }

  /** A written value is read back, wherever it stands in the file and whatever follows. */
  lemma {:induction false} ReadUndoesWrite(data: Bytes, off: nat, t: nat, v: Value)
    requires Typed(t, v) && Holds(data, off, Write(v))
    ensures Read(data, off, t) == Ok(v, off + |Write(v)|)
    decreases v, 0
  {
    hide Span, Le, FromLe, Holds;
    match v {
      case Scalar(raw) =>
        ScalarHeld(data, off, raw);
      case Str(s) =>
        StrHeld(data, off, s);
      case Arr(elem, items) =>
        HoldsBoth(data, off, Le(elem, 4) + Le(|items|, 8), WriteItems(items));
        HoldsBoth(data, off, Le(elem, 4), Le(|items|, 8));
        IntHeld(data, off, elem, 4);
        IntHeld(data, off + 4, |items|, 8);
        ReadItemsUndoesWrite(data, off + 12, elem, items);
    }
  }

  lemma ScalarHeld(data: Bytes, off: nat, raw: Bytes)
    requires Holds(data, off, raw)
    ensures off + |raw| <= |data| && data[off..off + |raw|] == raw
  {}

  lemma {:induction false} ReadItemsUndoesWrite(data: Bytes, off: nat, t: nat, vs: seq<Value>)
    requires AllTyped(t, vs) && Holds(data, off, WriteItems(vs))
    ensures ReadItems(data, off, t, |vs|) == Ok(vs, off + |WriteItems(vs)|)
    decreases vs, 1
  {
    hide Span, Le, FromLe, Holds;
    if vs == [] {
    } else {
      HoldsBoth(data, off, Write(vs[0]), WriteItems(vs[1..]));
      ReadUndoesWrite(data, off, t, vs[0]);
      ReadItemsUndoesWrite(data, off + |Write(vs[0])|, t, vs[1..]);
      assert vs == [vs[0]] + vs[1..];
    }
  }

  lemma HeldStr(data: Bytes, off: nat)
    requires ReadStr(data, off).Ok? && ReadStr(data, off).end <= |data|
    ensures var r := ReadStr(data, off);
            |r.value| < Span(8) && Holds(data, off, WriteStr(r.value)) && r.end == off + |WriteStr(r.value)|
  {
    hide Span, Le, FromLe;
    HeldInt(data, off, 8);
    var s := ReadStr(data, off).value;
    HoldsBoth(data, off, Le(|s|, 8), s);
  }

  /** What was read inside the file is, written again, the bytes it was read from. */
  lemma {:induction false} WriteUndoesRead(data: Bytes, off: nat, t: nat)
    requires Read(data, off, t).Ok? && Read(data, off, t).end <= |data|
    ensures var r := Read(data, off, t);
            Typed(t, r.value) && Holds(data, off, Write(r.value)) && r.end == off + |Write(r.value)|
    decreases Left(data, off), 0
  {
    hide Span, Le, FromLe, Holds;
    if t == StrTag {
      HeldStr(data, off);
    } else if t == ArrTag {
      HeldInt(data, off, 4);
      HeldInt(data, off + 4, 8);
      var elem, count := ReadInt(data, off, 4).value, ReadInt(data, off + 4, 8).value;
      WriteUndoesReadItems(data, off + 12, elem, count);
      var items := ReadItems(data, off + 12, elem, count).value;
      HoldsBoth(data, off, Le(elem, 4), Le(count, 8));
      HoldsBoth(data, off, Le(elem, 4) + Le(count, 8), WriteItems(items));
    } else {
      HeldScalar(data, off, Width(t));
    }
  }

  lemma HeldScalar(data: Bytes, off: nat, k: nat)
    requires off + k <= |data|
    ensures Holds(data, off, data[off..off + k])
  {}

  lemma {:induction false} WriteUndoesReadItems(data: Bytes, off: nat, t: nat, n: nat)
    requires ReadItems(data, off, t, n).Ok? && ReadItems(data, off, t, n).end <= |data|
    ensures var r := ReadItems(data, off, t, n);
            AllTyped(t, r.value) && Holds(data, off, WriteItems(r.value)) && r.end == off + |WriteItems(r.value)|
    decreases Left(data, off), n + 1
  {
    hide Span, Le, FromLe, Holds;
    if n == 0 {
      NothingHeld(data, off);
    } else {
      WriteUndoesRead(data, off, t);
      var v, mid := Read(data, off, t).value, Read(data, off, t).end;
      WriteUndoesReadItems(data, mid, t, n - 1);
      var vs := ReadItems(data, mid, t, n - 1).value;
      HoldsBoth(data, off, Write(v), WriteItems(vs));
      assert ([v] + vs)[1..] == vs;
    }
  }

  lemma NothingHeld(data: Bytes, off: nat)
    requires off <= |data|
    ensures Holds(data, off, [])
  {}

  // ---------------------------------------------------------------------------
  // Decoded strings
  // ---------------------------------------------------------------------------

  /** The value with every string decoded; `fix` replaces what is not UTF-8. */
  function Decoded(v: Value, fix: Bytes -> Bytes): Value
    decreases v, 0
  {
    match v
    case Scalar(raw) => v
    case Str(s) => Str(fix(s))
    case Arr(elem, items) => Arr(elem, DecodedAll(items, fix))
  }

  function DecodedAll(vs: seq<Value>, fix: Bytes -> Bytes): (r: seq<Value>)
    ensures |r| == |vs|
    decreases vs, 1
  {
    if vs == [] then [] else [Decoded(vs[0], fix)] + DecodedAll(vs[1..], fix)
  }

  ghost predicate FixesOnce(fix: Bytes -> Bytes) { forall s: Bytes :: fix(fix(s)) == fix(s) }

  /** Decoding a second time finds nothing to replace. */
  lemma {:induction false} DecodedTwice(v: Value, fix: Bytes -> Bytes)
    requires FixesOnce(fix)
    ensures Decoded(Decoded(v, fix), fix) == Decoded(v, fix)
    decreases v, 0
  {
    if v.Arr? {
      DecodedAllTwice(v.items, fix);
    }
  }

  lemma {:induction false} DecodedAllTwice(vs: seq<Value>, fix: Bytes -> Bytes)
    requires FixesOnce(fix)
    ensures DecodedAll(DecodedAll(vs, fix), fix) == DecodedAll(vs, fix)
    decreases vs, 1
  {
    if vs == [] {
    } else {
      DecodedTwice(vs[0], fix);
      DecodedAllTwice(vs[1..], fix);
      assert DecodedAll(vs, fix)[1..] == DecodedAll(vs[1..], fix);
    }
  }

  lemma {:induction false} DecodedAppend(vs: seq<Value>, v: Value, fix: Bytes -> Bytes)
    ensures DecodedAll(vs + [v], fix) == DecodedAll(vs, fix) + [Decoded(v, fix)]
    decreases |vs|
  {
    hide Decoded;
    if vs == [] {
      assert [v][1..] == [];
      assert [] + [v] == [v];
    } else {
      DecodedAppend(vs[1..], v, fix);
      assert (vs + [v])[1..] == vs[1..] + [v];
    }
  }

  // ---------------------------------------------------------------------------
  // The reader and the writer
  // ---------------------------------------------------------------------------

  function Prepend<T>(xs: seq<T>, r: Parsed<seq<T>>): Parsed<seq<T>> {
    match r
    case Err => Err
    case Ok(ys, end) => Ok(xs + ys, end)
  }

  lemma PrependNothing<T>(r: Parsed<seq<T>>)
    ensures Prepend([], r) == r
  {
    if r.Ok? {
      assert [] + r.value == r.value;
    }
  }

  lemma ReadItemsStep(data: Bytes, off: nat, t: nat, n: nat, done: seq<Value>)
    requires n > 0
    ensures Read(data, off, t).Err? ==> ReadItems(data, off, t, n).Err?
    ensures Read(data, off, t).Ok? ==>
              var r := Read(data, off, t);
              Prepend(done, ReadItems(data, off, t, n)) ==
              Prepend(done + [r.value], ReadItems(data, r.end, t, n - 1))
  {
    hide Read;
    if Read(data, off, t).Ok? {
      var v, mid := Read(data, off, t).value, Read(data, off, t).end;
      if ReadItems(data, mid, t, n - 1).Ok? {
        var vs := ReadItems(data, mid, t, n - 1).value;
        assert done + ([v] + vs) == done + [v] + vs;
      }
    }
  }

  /** The parser's closures over the file and the shared offset. */
  class Reader {
    const data: Bytes
    const fix: Bytes -> Bytes
    var off: nat

    constructor (data: Bytes, fix: Bytes -> Bytes, off: nat)
      ensures this.data == data && this.fix == fix && this.off == off
    {
      this.data, this.fix, this.off := data, fix, off;
    }

    method Unpack(k: nat) returns (ok: bool, n: nat)
      modifies this
      ensures match ReadInt(data, old(off), k)
              case Err => !ok
              case Ok(m, end) => ok && n == m && off == end
    {
      if off + k > |data| {
        return false, 0;
      }
      ok, n := true, FromLe(data[off..off + k]);
      off := off + k;
    }

    method Rstr() returns (ok: bool, s: Bytes)
      modifies this
      ensures match ReadStr(data, old(off))
              case Err => !ok
              case Ok(raw, end) => ok && s == fix(raw) && off == end
    {
      var l;
      ok, l := Unpack(8);
      if !ok {
        return false, [];
      }
      s := fix(Clamped(data, off, off + l));
      off := off + l;
    }

    method Rt(t: nat) returns (ok: bool, v: Value)
      modifies this
      ensures match Read(data, old(off), t)
              case Err => !ok
              case Ok(raw, end) => ok && v == Decoded(raw, fix) && off == end
      decreases Left(data, off), 0
    {
      hide FromLe;
      v := Scalar([]);
      if t == StrTag {
        var s;
        ok, s := Rstr();
        return ok, Str(s);
      }
      if t == ArrTag {
        var elem, n;
        ok, elem := Unpack(4);
        if !ok {
          return;
        }
        ok, n := Unpack(8);
        if !ok {
          return;
        }
        var items;
        ok, items := RtItems(elem, n);
        return ok, Arr(elem, items);
      }
      if Width(t) == 0 || off + Width(t) > |data| {
        return false, v;
      }
      ok, v := true, Scalar(data[off..off + Width(t)]);
      off := off + Width(t);
    }

    method RtItems(elem: nat, n: nat) returns (ok: bool, items: seq<Value>)
      modifies this
      ensures match ReadItems(data, old(off), elem, n)
              case Err => !ok
              case Ok(raws, end) => ok && items == DecodedAll(raws, fix) && off == end
      decreases Left(data, off), 1
    {
      hide Read;
      ghost var all := ReadItems(data, off, elem, n);
      ghost var raws: seq<Value> := [];
      items := [];
      PrependNothing(all);
      for i := 0 to n
        invariant |raws| == i && items == DecodedAll(raws, fix)
        invariant off >= old(off)
        invariant all == Prepend(raws, ReadItems(data, off, elem, n - i))
      {
        ReadItemsStep(data, off, elem, n - i, raws);
        ghost var r := Read(data, off, elem);
        var x;
        ok, x := Rt(elem);
        if !ok {
          return;
        }
        DecodedAppend(raws, r.value, fix);
        raws := raws + [r.value];
        items := items + [x];
      }
      assert raws + [] == raws;
      ok := true;
    }
  }

  lemma {:induction false} WriteItemsAppend(vs: seq<Value>, v: Value, t: nat)
    ensures WriteItems(vs + [v]) == WriteItems(vs) + Write(v)
    ensures AllTyped(t, vs + [v]) <==> AllTyped(t, vs) && Typed(t, v)
    decreases |vs|
  {
    hide Write, Typed;
    if vs == [] {
      assert [v][1..] == [];
      assert [] + [v] == [v];
    } else {
      WriteItemsAppend(vs[1..], v, t);
      assert (vs + [v])[1..] == vs[1..] + [v];
    }
  }

  lemma {:induction false} TypedPrefix(t: nat, vs: seq<Value>, i: nat)
    requires i <= |vs| && !AllTyped(t, vs[..i])
    ensures !AllTyped(t, vs)
    decreases |vs| - i
  {
    if i == |vs| {
      assert vs[..i] == vs;
    } else {
      WriteItemsAppend(vs[..i], vs[i], t);
      assert vs[..i + 1] == vs[..i] + [vs[i]];
      TypedPrefix(t, vs, i + 1);
    }
  }

  method Wstr(buf: Bytes, s: Bytes) returns (ok: bool, r: Bytes)
    ensures ok <==> |s| < Span(8)
    ensures ok ==> r == buf + WriteStr(s)
  {
    ok, r := |s| < Span(8), buf + (Le(|s|, 8) + s);
  }

  /** Appends a value to the buffer; a value that is not of type `t` or too long cannot be packed. */
  method Wt(buf: Bytes, t: nat, v: Value) returns (ok: bool, r: Bytes)
    ensures ok <==> Typed(t, v)
    ensures ok ==> r == buf + Write(v)
    decreases v
  {
    hide Span, Le;
    r := buf;
    if t == StrTag {
      if !v.Str? {
        return false, buf;
      }
      ok, r := Wstr(buf, v.text);
    } else if t == ArrTag {
      if !v.Arr? || v.elem >= Span(4) || |v.items| >= Span(8) {
        return false, buf;
      }
      r := r + (Le(v.elem, 4) + Le(|v.items|, 8));
      ghost var front := r;
      for i := 0 to |v.items|
        invariant AllTyped(v.elem, v.items[..i])
        invariant r == front + WriteItems(v.items[..i])
      {
        WriteItemsAppend(v.items[..i], v.items[i], v.elem);
        assert v.items[..i + 1] == v.items[..i] + [v.items[i]];
        var before := r;
        ok, r := Wt(r, v.elem, v.items[i]);
        if !ok {
          TypedPrefix(v.elem, v.items, i + 1);
          return;
        }
        assert r == front + (WriteItems(v.items[..i]) + Write(v.items[i]));
      }
      assert v.items[..|v.items|] == v.items;
      ok := true;
    } else {
      if !v.Scalar? || Width(t) != |v.raw| || |v.raw| == 0 {
        return false, buf;
      }
      ok, r := true, buf + v.raw;
    }
  }
}
