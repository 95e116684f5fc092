/**
 base64.hpp: encoding with either alphabet, and decoding with a given or detected alphabet, out of
 place or over the input (sections 4 and 5 of RFC 4648).
 */
module Base64 {
  import opened Utf8
  import opened Wrappers

  datatype Alphabet = Standard | UrlSafe | Auto

  datatype Behavior = Moderate | Loose

  const Pad := 61

  // ---------------------------------------------------------------------------
  // Symbols
  // ---------------------------------------------------------------------------

  /** The symbol of a six-bit value; only the URL-safe alphabet differs, in the last two. */
  function Symbol(a: Alphabet, v: nat): Byte
    requires v < 64
  {
    if v < 26 then 65 + v
    else if v < 52 then 97 + (v - 26)
    else if v < 62 then 48 + (v - 52)
    else if v == 62 then (if a.UrlSafe? then 45 else 43)
    else (if a.UrlSafe? then 95 else 47)
  }

  predicate IsStandard(c: Byte) { c == 43 || c == 47 }

  predicate IsUrlSafe(c: Byte) { c == 45 || c == 95 }

  /** The value of a symbol and the alphabet from there on: a special character settles it. */
  function ValueOf(a: Alphabet, c: Byte): (r: Option<(nat, Alphabet)>)
    ensures r.Some? ==> r.value.0 < 64
  {
    var n: nat := c;
    if 65 <= n <= 90 then Some((n - 65, a))
    else if 97 <= n <= 122 then Some((n - 97 + 26, a))
    else if 48 <= n <= 57 then Some((n - 48 + 52, a))
    else if IsStandard(c) && !a.UrlSafe? then Some((if n == 43 then 62 else 63, Standard))
    else if IsUrlSafe(c) && !a.Standard? then Some((if n == 45 then 62 else 63, UrlSafe))
    else None
  }

  predicate Sixes(vs: seq<nat>) { forall i :: 0 <= i < |vs| ==> vs[i] < 64 }

  function Symbols(a: Alphabet, vs: seq<nat>): (r: Bytes)
    requires Sixes(vs)
    ensures |r| == |vs| && forall i :: 0 <= i < |vs| ==> r[i] == Symbol(a, vs[i])
  {
    if vs == [] then [] else Symbols(a, vs[..|vs| - 1]) + [Symbol(a, vs[|vs| - 1])]
  }

  /** The values of a text, read from left to right. */
  function Values(a: Alphabet, s: Bytes): (r: Option<seq<nat>>)
    ensures r.Some? ==> |r.value| == |s| && Sixes(r.value)
    decreases |s|
  {
    if s == [] then Some([])
    else
      match ValueOf(a, s[0])
      case None => None
      case Some((v, b)) =>
        match Values(b, s[1..])
        case None => None
        case Some(vs) => Some([v] + vs)
  }

  // ---------------------------------------------------------------------------
  // Bytes as groups of six bits
  // ---------------------------------------------------------------------------

  /** The six-bit values of one group of up to three bytes. */
  function Split(x: Bytes): (r: seq<nat>)
    requires |x| <= 3
    ensures Sixes(r) && |r| == if x == [] then 0 else |x| + 1
  {
    if x == [] then []
    else
      var i0: nat := x[0];
      if |x| == 1 then [i0 / 4, i0 % 4 * 16]
      else
        var i1: nat := x[1];
        if |x| == 2 then [i0 / 4, i0 % 4 * 16 + i1 / 16, i1 % 16 * 4]
        else
          var i2: nat := x[2];
          [i0 / 4, i0 % 4 * 16 + i1 / 16, i1 % 16 * 4 + i2 / 64, i2 % 64]
  }

  function Sextets(x: Bytes): (r: seq<nat>)
    ensures Sixes(r) && |r| == |x| / 3 * 4 + (if |x| % 3 == 0 then 0 else |x| % 3 + 1)
    decreases |x|
  {
    if |x| < 3 then Split(x) else Split(x[..3]) + Sextets(x[3..])
  }

  /** The whole bytes in one group of up to four values; what is left of the last value is dropped. */
  function Merge(vs: seq<nat>): (r: Bytes)
    requires Sixes(vs) && |vs| <= 4
    ensures |r| == 3 * |vs| / 4
  {
    if |vs| < 2 then []
    else
      var o0 := vs[0] * 4 + vs[1] / 16;
      if |vs| == 2 then [o0]
      else
        var o1 := vs[1] % 16 * 16 + vs[2] / 4;
        if |vs| == 3 then [o0, o1] else [o0, o1, vs[2] % 4 * 64 + vs[3]]
  }

  function Octets(vs: seq<nat>): (r: Bytes)
    requires Sixes(vs)
    ensures |r| == 3 * |vs| / 4
    decreases |vs|
  {
    if |vs| < 4 then Merge(vs) else Merge(vs[..4]) + Octets(vs[4..])
  }

  lemma Bits(i0: nat, i1: nat, i2: nat)
    requires i0 < 256 && i1 < 256 && i2 < 256
    ensures i0 / 4 * 4 + i0 % 4 == i0 && (i0 % 4 * 16 + i1 / 16) / 16 == i0 % 4
    ensures (i0 % 4 * 16 + i1 / 16) % 16 * 16 + (i1 % 16 * 4 + i2 / 64) / 4 == i1
    ensures (i0 % 4 * 16 + i1 / 16) % 16 * 16 + i1 % 16 * 4 / 4 == i1
    ensures (i1 % 16 * 4 + i2 / 64) % 4 * 64 + i2 % 64 == i2
  {}

  lemma MergeSplit(x: Bytes)
    requires |x| <= 3
    ensures Merge(Split(x)) == x
  {
    if x != [] {
      var i0: nat := x[0];
      var i1: nat := if |x| > 1 then x[1] else 0;
      var i2: nat := if |x| > 2 then x[2] else 0;
      Bits(i0, i1, i2);
    }
  }

  lemma {:induction false} OctetsOfSextets(x: Bytes)
    ensures Octets(Sextets(x)) == x
    decreases |x|
  {
    hide Merge, Split;
    if |x| < 3 {
      MergeSplit(x);
      if |x| == 2 {
        assert Split(x)[..3] == Split(x);
      }
    } else {
      MergeSplit(x[..3]);
      OctetsOfSextets(x[3..]);
      assert Sextets(x)[4..] == Sextets(x[3..]) && Sextets(x)[..4] == Split(x[..3]);
      assert x == x[..3] + x[3..];
    }
  }

  function Pads(n: nat): (r: Bytes)
    ensures |r| == n && forall i :: 0 <= i < n ==> r[i] == Pad
  {
    if n == 0 then [] else Pads(n - 1) + [Pad]
  }

  function PadCount(n: nat): nat { (3 - n % 3) % 3 }

  /** The encoding: its symbols, and padding up to a multiple of four. */
  function Encoded(x: Bytes, a: Alphabet): Bytes { Symbols(a, Sextets(x)) + Pads(PadCount(|x|)) }

  // ---------------------------------------------------------------------------
  // Decoding
  // ---------------------------------------------------------------------------

  /** Where the symbols stop: at the first padding character or at the end. */
  function Stop(s: Bytes): (p: nat)
    ensures p <= |s| && (p < |s| ==> s[p] == Pad)
    ensures forall i :: 0 <= i < p ==> s[i] != Pad
    decreases |s|
  {
    if s == [] || s[0] == Pad then 0
    else
      var p := Stop(s[1..]);
      assert forall i :: 1 <= i < p + 1 ==> s[i] == s[1..][i - 1];
      p + 1
  }

  predicate OnlyPads(s: Bytes) { forall i :: 0 <= i < |s| ==> s[i] == Pad }

  /** The bytes of a text, or nothing if it is rejected. */
  function Decoded(s: Bytes, a: Alphabet, behavior: Behavior): Option<Bytes> {
    var p := Stop(s);
    match Values(a, s[..p])
    case None => None
    case Some(vs) => if behavior.Loose? || OnlyPads(s[p..]) then Some(Octets(vs)) else None
  }

  function RequiredEncodeSize(n: nat): nat { (n / 3 + if n % 3 != 0 then 1 else 0) * 4 }

  function MaxDecodeSize(n: nat): nat { (n / 4 + if n % 4 != 0 then 1 else 0) * 3 }

  lemma EncodedSize(x: Bytes, a: Alphabet)
    ensures |Encoded(x, a)| == RequiredEncodeSize(|x|)
  {}

  lemma DecodedSize(s: Bytes, a: Alphabet, behavior: Behavior)
    ensures Decoded(s, a, behavior).Some? ==> |Decoded(s, a, behavior).value| <= MaxDecodeSize(|s|)
  {
    var p := Stop(s);
    assert 3 * p / 4 <= 3 * |s| / 4;
  }

  /** The sizes for whole groups, and for what is left of one. */
  lemma SizesInFull(k: nat, r: nat)
    requires 1 <= r <= 3
    ensures RequiredEncodeSize(3 * k) == 4 * k && RequiredEncodeSize(3 * k + r) == 4 * k + 4
    ensures MaxDecodeSize(4 * k) == 3 * k && MaxDecodeSize(4 * k + r) == 3 * k + 3
  {}

  // ---------------------------------------------------------------------------
  // Round trips
  // ---------------------------------------------------------------------------

  /** The alphabets that read what `a` wrote. */
  predicate Reads(b: Alphabet, a: Alphabet) { b.Auto? || (b.UrlSafe? <==> a.UrlSafe?) }

  lemma SymbolRead(a: Alphabet, b: Alphabet, v: nat)
    requires v < 64 && Reads(b, a)
    ensures Symbol(a, v) != Pad
    ensures ValueOf(b, Symbol(a, v)).Some? && ValueOf(b, Symbol(a, v)).value.0 == v
    ensures Reads(ValueOf(b, Symbol(a, v)).value.1, a)
  {}

  /** No character is read but the 64 that an alphabet writes. */
  lemma SymbolsKnown(a: Alphabet, c: Byte)
    ensures !a.Auto? ==> (ValueOf(a, c).Some? <==> exists v: nat :: v < 64 && Symbol(a, v) == c)
    ensures ValueOf(Auto, c).Some? <==> ValueOf(Standard, c).Some? || ValueOf(UrlSafe, c).Some?
  {
    if !a.Auto? && ValueOf(a, c).Some? {
      assert Symbol(a, ValueOf(a, c).value.0) == c;
    }
    if v: nat :| v < 64 && Symbol(a, v) == c {
      if !a.Auto? {
        SymbolRead(a, a, v);
      }
    }
  }

  lemma {:induction false} SymbolsRead(a: Alphabet, b: Alphabet, vs: seq<nat>)
    requires Sixes(vs) && Reads(b, a)
    ensures Values(b, Symbols(a, vs)) == Some(vs)
    decreases |vs|
  {
    hide Symbol, ValueOf;
    if vs == [] {
    } else {
      SymbolRead(a, b, vs[0]);
      assert Symbols(a, vs)[1..] == Symbols(a, vs[1..]);
      SymbolsRead(a, ValueOf(b, Symbol(a, vs[0])).value.1, vs[1..]);
      assert vs == [vs[0]] + vs[1..];
    }
  }

  lemma {:induction false} StopAfter(s: Bytes, n: nat)
    requires forall i :: 0 <= i < |s| ==> s[i] != Pad
    ensures Stop(s + Pads(n)) == |s|
    decreases |s|
  {
    if s == [] {
      assert s + Pads(n) == Pads(n);
    } else {
      assert (s + Pads(n))[1..] == s[1..] + Pads(n);
      StopAfter(s[1..], n);
    }
  }

  /** Decoding inverts encoding, with the alphabet given or detected, with any number of padding characters. */
  lemma RoundTrip(x: Bytes, a: Alphabet, b: Alphabet, behavior: Behavior, n: nat)
    requires Reads(b, a)
    ensures Decoded(Symbols(a, Sextets(x)) + Pads(n), b, behavior) == Some(x)
    ensures Decoded(Encoded(x, a), b, behavior) == Some(x)
  {
    RoundTripPads(x, a, b, behavior, n);
    RoundTripPads(x, a, b, behavior, PadCount(|x|));
  }

  lemma RoundTripPads(x: Bytes, a: Alphabet, b: Alphabet, behavior: Behavior, n: nat)
    requires Reads(b, a)
    ensures Decoded(Symbols(a, Sextets(x)) + Pads(n), b, behavior) == Some(x)
  {
    hide Symbol, ValueOf, Values, Symbols, Sextets, Octets, Stop, Pads;
    var s := Symbols(a, Sextets(x));
    forall i | 0 <= i < |s|
      ensures s[i] != Pad
    {
      SymbolRead(a, b, Sextets(x)[i]);
    }
    StopAfter(s, n);
    assert (s + Pads(n))[..|s|] == s && (s + Pads(n))[|s|..] == Pads(n);
    SymbolsRead(a, b, Sextets(x));
    OctetsOfSextets(x);
  }

  // ---------------------------------------------------------------------------
  // Detection
  // ---------------------------------------------------------------------------

  /** The alphabet of the first special character. */
  function Detected(s: Bytes): (a: Alphabet)
    ensures !a.Auto?
    decreases |s|
  {
    if s == [] || IsStandard(s[0]) then Standard
    else if IsUrlSafe(s[0]) then UrlSafe
    else Detected(s[1..])
  }

  lemma {:induction false} ValuesDetected(s: Bytes)
    ensures Values(Auto, s) == Values(Detected(s), s)
    decreases |s|
  {
    if s != [] && !IsStandard(s[0]) && !IsUrlSafe(s[0]) {
      ValuesDetected(s[1..]);
    }
  }

  /** Detecting the alphabet is decoding with that of the first special character. */
  lemma AutoDetects(s: Bytes, behavior: Behavior)
    ensures Decoded(s, Auto, behavior) == Decoded(s, Detected(s[..Stop(s)]), behavior)
  {
    hide Values, Octets;
    ValuesDetected(s[..Stop(s)]);
  }

  predicate AllKnown(a: Alphabet, s: Bytes) { forall i :: 0 <= i < |s| ==> ValueOf(a, s[i]).Some? }

  lemma {:induction false} ValuesKnown(a: Alphabet, s: Bytes)
    requires !a.Auto?
    ensures Values(a, s).Some? <==> AllKnown(a, s)
    decreases |s|
  {
    if s == [] {
    } else {
      ValuesKnown(a, s[1..]);
      assert forall i :: 0 < i < |s| ==> s[i] == s[1..][i - 1];
    }
  }

  lemma {:induction false} DetectedKnows(s: Bytes)
    ensures AllKnown(Detected(s), s) <==> AllKnown(Standard, s) || AllKnown(UrlSafe, s)
    decreases |s|
  {
    if s != [] && !IsStandard(s[0]) && !IsUrlSafe(s[0]) {
      DetectedKnows(s[1..]);
      KnownTail(Standard, s);
      KnownTail(UrlSafe, s);
    }
  }

  lemma KnownTail(a: Alphabet, s: Bytes)
    requires s != []
    ensures AllKnown(a, s) <==> ValueOf(a, s[0]).Some? && AllKnown(a, s[1..])
  {
    hide ValueOf;
    assert forall i :: 0 < i < |s| ==> s[i] == s[1..][i - 1];
  }

  /** What is accepted: one alphabet up to the first padding character and, unless loose, only padding after it. */
  lemma Accepts(s: Bytes, a: Alphabet, behavior: Behavior)
    ensures Decoded(s, a, behavior).Some? <==>
            && (if a.Auto? then AllKnown(Standard, s[..Stop(s)]) || AllKnown(UrlSafe, s[..Stop(s)])
                else AllKnown(a, s[..Stop(s)]))
            && (behavior.Loose? || OnlyPads(s[Stop(s)..]))
  {
    hide Values, Octets, AllKnown, Stop;
    var body := s[..Stop(s)];
    ValuesDetected(body);
    DetectedKnows(body);
    ValuesKnown(if a.Auto? then Detected(body) else a, body);
  }

  // ---------------------------------------------------------------------------
  // The encoder
  // ---------------------------------------------------------------------------

  lemma {:induction false} SextetsAppend(x: Bytes, y: Bytes)
    requires |x| % 3 == 0
    ensures Sextets(x + y) == Sextets(x) + Sextets(y)
    decreases |x|
  {
    hide Split;
    if x == [] {
      assert x + y == y && Split(x) == [];
    } else {
      SextetsAppend(x[3..], y);
      assert (x + y)[3..] == x[3..] + y && (x + y)[..3] == x[..3];
    }
  }

  lemma SymbolsAppend(a: Alphabet, vs: seq<nat>, ws: seq<nat>)
    requires Sixes(vs) && Sixes(ws)
    ensures Symbols(a, vs + ws) == Symbols(a, vs) + Symbols(a, ws)
  {
    hide Symbol, Symbols;
  }

  /** The symbols of one group, as the loop writes them. */
  lemma GroupWritten(x: Bytes, i: nat, n: nat, a: Alphabet)
    requires i % 3 == 0 && 1 <= n <= 3 && i + n <= |x| && (n < 3 ==> i + n == |x|)
    ensures Symbols(a, Sextets(x[..i + n])) == Symbols(a, Sextets(x[..i])) + Symbols(a, Sextets(x[i..i + n]))
  {
    hide Symbol, Symbols, Sextets;
    assert x[..i + n] == x[..i] + x[i..i + n];
    SextetsAppend(x[..i], x[i..i + n]);
    SymbolsAppend(a, Sextets(x[..i]), Sextets(x[i..i + n]));
  }

  lemma OneByte(a: Alphabet, i0: nat)
    requires i0 < 256
    ensures Symbols(a, Sextets([i0])) == [Symbol(a, i0 / 4), Symbol(a, i0 % 4 * 16)]
  {
    hide Symbol, Symbols;
  }

  lemma TwoBytes(a: Alphabet, i0: nat, i1: nat)
    requires i0 < 256 && i1 < 256
    ensures Symbols(a, Sextets([i0, i1])) ==
            [Symbol(a, i0 / 4), Symbol(a, i0 % 4 * 16 + i1 / 16), Symbol(a, i1 % 16 * 4)]
  {
    hide Symbol, Symbols;
  }

  lemma ThreeBytes(a: Alphabet, i0: nat, i1: nat, i2: nat)
    requires i0 < 256 && i1 < 256 && i2 < 256
    ensures Symbols(a, Sextets([i0, i1, i2])) ==
            [Symbol(a, i0 / 4), Symbol(a, i0 % 4 * 16 + i1 / 16), Symbol(a, i1 % 16 * 4 + i2 / 64), Symbol(a, i2 % 64)]
  {
    hide Symbol, Symbols;
    var x: Bytes := [i0, i1, i2];
    assert x[..3] == x && x[3..] == [];
    assert Sextets(x) == Split(x) + [];
  }

  /** One turn of the encoder's loop: the symbols of up to three bytes, and padding for the missing ones. */
  method EncodeGroup(x: Bytes, i: nat, a: Alphabet) returns (part: Bytes, n: nat)
    requires i < |x|
    ensures n == (if i + 3 <= |x| then 3 else |x| - i)
    ensures part == Symbols(a, Sextets(x[i..i + n])) + Pads(3 - n)
  {
    hide Symbol, Symbols, Sextets, Split;
    var i0: nat := x[i];
    part := [Symbol(a, i0 / 4)];
    if i + 1 == |x| {
      part := part + [Symbol(a, i0 % 4 * 16)];
      assert x[i..i + 1] == [x[i]];
      OneByte(a, i0);
      part := part + [Pad];
      part := part + [Pad];
      assert Pads(2) == [Pad, Pad];
      return part, 1;
    }
    var i1: nat := x[i + 1];
    part := part + [Symbol(a, i0 % 4 * 16 + i1 / 16)];
    if i + 2 == |x| {
      part := part + [Symbol(a, i1 % 16 * 4)];
      assert x[i..i + 2] == [x[i], x[i + 1]];
      TwoBytes(a, i0, i1);
      part := part + [Pad];
      assert Pads(1) == [Pad];
      return part, 2;
    }
    var i2: nat := x[i + 2];
    part := part + [Symbol(a, i1 % 16 * 4 + i2 / 64)];
    part := part + [Symbol(a, i2 % 64)];
    assert x[i..i + 3] == [x[i], x[i + 1], x[i + 2]];
    ThreeBytes(a, i0, i1, i2);
    assert Pads(0) == [];
    n := 3;
  }

  method Encode(x: Bytes, a: Alphabet) returns (out: Bytes)
    ensures out == Encoded(x, a)
  {
    hide Symbol, Symbols, Sextets, Split, Pads, PadCount;
    out := [];
    var i := 0;
    NothingWritten(a);
    while i < |x|
      invariant i <= |x| && (i % 3 == 0 || i == |x|)
      invariant out == Symbols(a, Sextets(x[..i])) + Pads(PadCount(i))
    {
      var part, n := EncodeGroup(x, i, a);
      GroupWritten(x, i, n, a);
      PadStep(i, n);
      out := out + part;
      i := i + n;
    }
    assert x[..|x|] == x;
  }

  lemma PadStep(i: nat, n: nat)
    requires i % 3 == 0 && 1 <= n <= 3
    ensures PadCount(i + n) == 3 - n && PadCount(i) == 0 && (n == 3 ==> (i + n) % 3 == 0)
  {}

  lemma NothingWritten(a: Alphabet)
    ensures Symbols(a, Sextets([])) + Pads(PadCount(0)) == []
  {}

  // ---------------------------------------------------------------------------
  // The decoder
  // ---------------------------------------------------------------------------

  function Pow2(n: nat): (r: nat)
    ensures r > 0
  {
    if n == 0 then 1 else 2 * Pow2(n - 1)
  }

  /** The low byte of the last value shifted left, joined with the next one shifted right. */
  function Join(last: nat, part: nat, bits: nat): (r: Byte)
    requires last < 64 && part < 64 && (bits == 2 || bits == 4 || bits == 6)
  {
    JoinFits(last, part, bits);
    last * Pow2(8 - bits) % 256 + part / Pow2(bits - 2)
  }

  lemma Shifts(last: nat)
    requires last < 64
    ensures last * 4 % 256 == last * 4 && last * 16 % 256 == last % 16 * 16 && last * 64 % 256 == last % 4 * 64
  {}

  lemma JoinFits(last: nat, part: nat, bits: nat)
    requires last < 64 && part < 64 && (bits == 2 || bits == 4 || bits == 6)
    ensures last * Pow2(8 - bits) % 256 + part / Pow2(bits - 2) ==
            if bits == 6 then last * 4 + part / 16
            else if bits == 4 then last % 16 * 16 + part / 4
            else last % 4 * 64 + part
    ensures last * Pow2(8 - bits) % 256 + part / Pow2(bits - 2) < 256
  {
    assert Pow2(0) == 1 && Pow2(2) == 4 && Pow2(4) == 16 && Pow2(6) == 64;
    hide Pow2;
    Shifts(last);
  }

  /** Bits that are waiting after k symbols. */
  function Waiting(k: nat): (r: nat)
    ensures r == 0 || r == 2 || r == 4 || r == 6
  {
    assert 6 * k % 8 % 2 == 0;
    6 * k % 8
  }

  lemma WaitingRepeats(k: nat)
    ensures Waiting(k + 4) == Waiting(k)
  {}

  lemma WaitingStarts(k: nat)
    ensures k < 4 ==> (Waiting(k) == 0 <==> k == 0)
  {}

  lemma WaitingNext(k: nat)
    ensures Waiting(k + 1) == (if Waiting(k) >= 2 then Waiting(k) - 2 else Waiting(k) + 6) && Waiting(0) == 0
  {}

  lemma MergeSnoc(vs: seq<nat>, v: nat)
    requires Sixes(vs) && v < 64 && |vs| < 4
    ensures Sixes(vs + [v])
    ensures |vs| == 0 ==> Merge(vs + [v]) == Merge(vs)
    ensures |vs| != 0 ==> Merge(vs + [v]) == Merge(vs) + [Join(vs[|vs| - 1], v, Waiting(|vs|))]
  {
    if |vs| > 0 {
      JoinFits(vs[|vs| - 1], v, Waiting(|vs|));
      hide Pow2;
      assert (vs + [v])[|vs| - 1] == vs[|vs| - 1];
    }
  }

  /** One symbol more: a byte is complete except at the start of a group. */
  lemma {:induction false} OctetsSnoc(vs: seq<nat>, v: nat)
    requires Sixes(vs) && v < 64
    ensures Sixes(vs + [v])
    ensures Waiting(|vs|) == 0 ==> Octets(vs + [v]) == Octets(vs)
    ensures Waiting(|vs|) != 0 ==>
              vs != [] && Octets(vs + [v]) == Octets(vs) + [Join(vs[|vs| - 1], v, Waiting(|vs|))]
    decreases |vs|
  {
    hide Merge, Join, Waiting;
    var ws := vs + [v];
    if |vs| >= 4 {
      WaitingRepeats(|vs| - 4);
      OctetsSnoc(vs[4..], v);
      assert ws[4..] == vs[4..] + [v] && ws[..4] == vs[..4];
    } else {
      WaitingStarts(|vs|);
      MergeSnoc(vs, v);
      if |vs| == 3 {
        assert ws[..4] == ws && ws[4..] == [];
      }
    }
  }

  lemma FirstValue(a: Alphabet, s: Bytes)
    requires s != []
    ensures match ValueOf(a, s[0])
            case None => Values(a, [s[0]]) == None && Values(a, s) == None
            case Some((v, c)) => Values(a, [s[0]]) == Some([v]) && Alphabets(a, s, 1) == Some(c)
  {
    hide ValueOf;
    assert [s[0]][1..] == [];
    if ValueOf(a, s[0]).Some? {
      var (v, c) := ValueOf(a, s[0]).value;
      assert Values(c, []) == Some([]);
      assert [v] + [] == [v];
    }
  }

  /** Values of a text by its first part. */
  lemma {:induction false} ValuesSnoc(a: Alphabet, b: Alphabet, s: Bytes, k: nat)
    requires k < |s| && Alphabets(a, s, k) == Some(b)
    ensures Values(a, s[..k]).Some?
    ensures match ValueOf(b, s[k])
            case None => Values(a, s[..k + 1]) == None && Values(a, s) == None
            case Some((v, c)) =>
              Values(a, s[..k + 1]) == Some(Values(a, s[..k]).value + [v]) && Alphabets(a, s, k + 1) == Some(c)
    decreases k
  {
    hide ValueOf;
    if k == 0 {
      assert s[..1] == [s[0]] && s[..0] == [];
      assert forall v: nat :: [] + [v] == [v];
      FirstValue(a, s);
    } else {
      var (v, c) := ValueOf(a, s[0]).value;
      ValuesSnoc(c, b, s[1..], k - 1);
      assert s[..k][1..] == s[1..][..k - 1] && s[..k + 1][1..] == s[1..][..k];
      if ValueOf(b, s[k]).Some? {
        var w, vs := ValueOf(b, s[k]).value.0, Values(c, s[1..][..k - 1]).value;
        assert [v] + (vs + [w]) == [v] + vs + [w];
      }
    }
  }

  /** The alphabet after the first k symbols. */
  function Alphabets(a: Alphabet, s: Bytes, k: nat): Option<Alphabet>
    requires k <= |s|
    decreases k
  {
    if k == 0 then Some(a)
    else
      match ValueOf(a, s[0])
      case None => None
      case Some((_, b)) => Alphabets(b, s[1..], k - 1)
  }

  method CheckPadding(s: Bytes, from: nat) returns (ok: bool)
    requires from <= |s|
    ensures ok == OnlyPads(s[from..])
  {
    var i := from;
    while i < |s|
      invariant from <= i <= |s| && OnlyPads(s[from..i])
    {
      if s[i] != Pad {
        assert s[from..][i - from] == s[i];
        return false;
      }
      assert s[from..i + 1] == s[from..i] + [s[i]];
      i := i + 1;
    }
    assert s[from..i] == s[from..];
    ok := true;
  }

  /** The bytes complete after the first k symbols. */
  function Written(a: Alphabet, body: Bytes, k: nat): Bytes
    requires k <= |body| && Values(a, body[..k]).Some?
  {
    Octets(Values(a, body[..k]).value)
  }

  /** One symbol of the decoder: what is written, and how many bits wait after it. */
  lemma SymbolDecoded(a: Alphabet, b: Alphabet, body: Bytes, k: nat)
    requires k < |body| && Alphabets(a, body, k) == Some(b)
    ensures Values(a, body[..k]).Some?
    ensures match ValueOf(b, body[k])
            case None => Values(a, body) == None
            case Some((v, c)) =>
              && Values(a, body[..k + 1]).Some? && Alphabets(a, body, k + 1) == Some(c)
              && Values(a, body[..k + 1]).value[k] == v
              && Waiting(k + 1) == (if Waiting(k) >= 2 then Waiting(k) - 2 else Waiting(k) + 6)
              && (Waiting(k) < 2 ==> Waiting(k) == 0 && Written(a, body, k + 1) == Written(a, body, k))
              && (Waiting(k) >= 2 ==>
                   k > 0 && Written(a, body, k + 1) ==
                            Written(a, body, k) + [Join(Values(a, body[..k]).value[k - 1], v, Waiting(k))])
  {
    hide ValueOf, Values, Octets, Join, Alphabets, Waiting;
    ValuesSnoc(a, b, body, k);
    WaitingStarts(k);
    WaitingNext(k);
    if ValueOf(b, body[k]).Some? {
      OctetsSnoc(Values(a, body[..k]).value, ValueOf(b, body[k]).value.0);
    }
  }

  /** Decoding to a fresh buffer. */
  method Decode(s: Bytes, a: Alphabet, behavior: Behavior) returns (ok: bool, out: Bytes)
    ensures ok == Decoded(s, a, behavior).Some?
    ensures ok ==> out == Decoded(s, a, behavior).value
  {
    hide ValueOf, Values, Octets, Join, Alphabets, Waiting, Stop;
    ghost var body := s[..Stop(s)];
    var last, bits, alphabet, k := 0, 0, a, 0;
    out := [];
    StartOfText(a, body);
    while k < |s|
      invariant k <= |body| && Alphabets(a, body, k) == Some(alphabet) && Values(a, body[..k]).Some?
      invariant out == Written(a, body, k) && bits == Waiting(k)
      invariant last < 64 && (k > 0 ==> last == Values(a, body[..k]).value[k - 1])
    {
      var c := s[k];
      if c == Pad {
        break;
      }
      assert k < |body| && body[k] == c;
      SymbolDecoded(a, alphabet, body, k);
      WaitingStarts(k);
      var value := ValueOf(alphabet, c);
      if value.None? {
        return false, out;
      }
      var part := value.value.0;
      alphabet := value.value.1;
      if bits + 6 >= 8 {
        out := out + [Join(last, part, bits)];
        bits := bits - 2;
      } else {
        bits := bits + 6;
      }
      last := part;
      k := k + 1;
    }
    assert k == |body| && body[..k] == body;
    if !behavior.Loose? {
      ok := CheckPadding(s, k);
      return ok, out;
    }
    ok := true;
  }

  lemma StartOfText(a: Alphabet, body: Bytes)
    ensures body[..0] == [] && Alphabets(a, body, 0) == Some(a) && Values(a, body[..0]) == Some([])
    ensures Written(a, body, 0) == [] && Waiting(0) == 0
  {}

  /**
   Decoding over the input. The write position stays behind the read position, so every symbol is
   read before it is overwritten, and the result is that of decoding to a fresh buffer.
   */
  method DecodeInPlace(str: array<Byte>, a: Alphabet, behavior: Behavior) returns (ok: bool, n: nat)
    modifies str
    ensures ok == Decoded(old(str[..]), a, behavior).Some?
    ensures ok ==> n <= str.Length && str[..n] == Decoded(old(str[..]), a, behavior).value
  {
    hide ValueOf, Values, Octets, Join, Alphabets, Waiting, Stop;
    ghost var s := str[..];
    ghost var body := s[..Stop(s)];
    var last, bits, alphabet, k := 0, 0, a, 0;
    n := 0;
    StartOfText(a, body);
    while k < str.Length
      invariant k <= |body| && Alphabets(a, body, k) == Some(alphabet) && Values(a, body[..k]).Some?
      invariant n <= k && n == 3 * k / 4 && str[..n] == Written(a, body, k)
      invariant forall i :: k <= i < |s| ==> str[i] == s[i]
      invariant bits == Waiting(k)
      invariant last < 64 && (k > 0 ==> last == Values(a, body[..k]).value[k - 1])
    {
      var c := str[k];
      if c == Pad {
        break;
      }
      assert k < |body| && body[k] == c;
      SymbolDecoded(a, alphabet, body, k);
      WaitingStarts(k);
      var value := ValueOf(alphabet, c);
      if value.None? {
        return false, n;
      }
      var part := value.value.0;
      alphabet := value.value.1;
      if bits + 6 >= 8 {
        str[n] := Join(last, part, bits);
        n := n + 1;
        bits := bits - 2;
      } else {
        bits := bits + 6;
      }
      last := part;
      k := k + 1;
    }
    assert k == |body| && body[..k] == body;
    if !behavior.Loose? {
      assert str[..][k..] == str[k..] == s[k..];
      ok := CheckPadding(str[..], k);
      return ok, n;
    }
    ok := true;
  }

  // ---------------------------------------------------------------------------
  // The alphabets and the test vectors of RFC 4648
  // ---------------------------------------------------------------------------

  const UpperLetters := "ABCDEFGHIJKLMNOPQRSTUVWXYZ"
  const LowerLetters := "abcdefghijklmnopqrstuvwxyz"
  const Digits := "0123456789"

  /** Tables 1 and 2 of RFC 4648: letters, digits, and the two characters that differ. */
  lemma AlphabetTables(a: Alphabet, v: nat)
    ensures v < 26 ==> Symbol(a, v) as char == UpperLetters[v]
    ensures v < 26 ==> Symbol(a, 26 + v) as char == LowerLetters[v]
    ensures v < 10 ==> Symbol(a, 52 + v) as char == Digits[v]
    ensures Symbol(Standard, 62) as char == '+' && Symbol(Standard, 63) as char == '/'
    ensures Symbol(UrlSafe, 62) as char == '-' && Symbol(UrlSafe, 63) as char == '_'
  {
    LettersInOrder(v);
  }

  lemma LettersInOrder(v: nat)
    ensures v < 26 ==> UpperLetters[v] as int == 65 + v && LowerLetters[v] as int == 97 + v
    ensures v < 10 ==> Digits[v] as int == 48 + v
  {}

  /** The vectors "", "f", "fo", "foo" and "foobar" of RFC 4648, section 10. */
  lemma TestVectors(a: Alphabet)
    ensures Encoded([], a) == []
    ensures Encoded([102], a) == [90, 103, 61, 61]
    ensures Encoded([102, 111], a) == [90, 109, 56, 61]
    ensures Encoded([102, 111, 111], a) == [90, 109, 57, 118]
    ensures Encoded([102, 111, 111, 98, 97, 114], a) == [90, 109, 57, 118, 89, 109, 70, 121]
  {
    VectorF(a);
    VectorFo(a);
    VectorFoo(a);
    VectorFoobar(a);
  }

  lemma VectorF(a: Alphabet)
    ensures Encoded([], a) == []
    ensures Encoded([102], a) == [90, 103, 61, 61]
  {
    assert Sextets([102]) == [25, 32];
    assert Symbols(a, [25, 32]) == [90, 103];
    assert PadCount(1) == 2 && Pads(2) == [61, 61];
  }

  lemma VectorFo(a: Alphabet)
    ensures Encoded([102, 111], a) == [90, 109, 56, 61]
  {
    assert Sextets([102, 111]) == [25, 38, 60];
    assert Symbols(a, [25, 38, 60]) == [90, 109, 56];
    assert PadCount(2) == 1 && Pads(1) == [61];
  }

  lemma FullGroup(x: Bytes, vs: seq<nat>)
    requires |x| == 3 && vs == Split(x)
    ensures Sextets(x) == vs
  {
    assert x[..3] == x && x[3..] == [] && Sextets([]) == [] && vs + [] == vs;
  }

  lemma VectorFoo(a: Alphabet)
    ensures Encoded([102, 111, 111], a) == [90, 109, 57, 118]
  {
    var x := [102, 111, 111];
    FullGroup(x, [25, 38, 61, 47]);
    assert Symbols(a, [25, 38, 61, 47]) == [90, 109, 57, 118];
    assert PadCount(3) == 0 && Pads(0) == [];
  }

  lemma EightSymbols(a: Alphabet, vs: seq<nat>)
    requires vs == [25, 38, 61, 47] + [24, 38, 5, 50]
    ensures Sixes(vs) && Symbols(a, vs) == [90, 109, 57, 118, 89, 109, 70, 121]
  {}

  lemma VectorFoobar(a: Alphabet)
    ensures Encoded([102, 111, 111, 98, 97, 114], a) == [90, 109, 57, 118, 89, 109, 70, 121]
  {
    var x, y := [102, 111, 111], [98, 97, 114];
    FullGroup(x, [25, 38, 61, 47]);
    FullGroup(y, [24, 38, 5, 50]);
    SextetsAppend(x, y);
    assert [102, 111, 111, 98, 97, 114] == x + y;
    EightSymbols(a, [25, 38, 61, 47] + [24, 38, 5, 50]);
    assert PadCount(6) == 0 && Pads(0) == [];
    hide Sextets, Symbols, Pads, Split;
    var r := [90, 109, 57, 118, 89, 109, 70, 121];
    assert r + [] == r;
  }

  /** Two bytes whose symbols differ between the alphabets: "+/8=" and "-_8=". */
  lemma AlphabetsDiffer()
    ensures Encoded([0xFB, 0xFF], Standard) == [43, 47, 56, 61]
    ensures Encoded([0xFB, 0xFF], UrlSafe) == [45, 95, 56, 61]
  {
    assert Sextets([0xFB, 0xFF]) == [62, 63, 60];
    assert Symbols(Standard, [62, 63, 60]) == [43, 47, 56];
    assert Symbols(UrlSafe, [62, 63, 60]) == [45, 95, 56];
    assert PadCount(2) == 1 && Pads(1) == [61];
  }
}
