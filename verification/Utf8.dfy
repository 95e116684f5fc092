/**
 The UTF-8 helpers of console.cpp on byte strings, and what they compute on texts that are
 encodings (section 3 of RFC 3629).
 */
module Utf8 {
  import opened Wrappers

  type Byte = b: int | 0 <= b < 256
  type Bytes = seq<Byte>

  /** The bytes of an ASCII text. */
  function Ascii(s: string): (r: Bytes)
    requires forall i :: 0 <= i < |s| ==> s[i] as int < 128
    ensures |r| == |s| && forall i :: 0 <= i < |s| ==> r[i] as int == s[i] as int
  {
    seq(|s|, i requires 0 <= i < |s| && s[i] as int < 128 => s[i] as int as Byte)
  }

  const MaxCodePoint := 0x10FFFF
  const Replacement := 0xFFFD

  predicate IsContinuation(b: Byte) { 0x80 <= b < 0xC0 }

  predicate IsCode(c: nat) { c <= MaxCodePoint }

  predicate AreCodes(cs: seq<nat>) { forall i :: 0 <= i < |cs| ==> IsCode(cs[i]) }

  // ---------------------------------------------------------------------------
  // Encoding
  // ---------------------------------------------------------------------------

  /** The bytes of one code point; none if it is out of range. */
  function Encode(c: nat): (r: Bytes)
    ensures IsCode(c) ==> 1 <= |r| <= 4 && !IsContinuation(r[0])
    ensures forall i :: 1 <= i < |r| ==> IsContinuation(r[i])
    ensures !IsCode(c) ==> r == []
  {
    if c <= 0x7F then [c]
    else if c <= 0x7FF then [0xC0 + c / 64, 0x80 + c % 64]
    else if c <= 0xFFFF then [0xE0 + c / 4096, 0x80 + c / 64 % 64, 0x80 + c % 64]
    else if c <= MaxCodePoint then [0xF0 + c / 262144, 0x80 + c / 4096 % 64, 0x80 + c / 64 % 64, 0x80 + c % 64]
    else []
  }

  function EncodeAll(cs: seq<nat>): Bytes {
    if cs == [] then [] else EncodeAll(cs[..|cs| - 1]) + Encode(cs[|cs| - 1])
  }

  lemma {:induction false} EncodeConcat(a: seq<nat>, b: seq<nat>)
    ensures EncodeAll(a + b) == EncodeAll(a) + EncodeAll(b)
    decreases |b|
  {
    hide Encode;
    if b == [] {
      assert a + b == a;
    } else {
      EncodeConcat(a, b[..|b| - 1]);
      assert (a + b)[..|a + b| - 1] == a + b[..|b| - 1];
    }
  }

  lemma EncodeOne(c: nat)
    ensures EncodeAll([c]) == Encode(c)
  {
    assert [c][..0] == [];
  }

  // ---------------------------------------------------------------------------
  // Decoding one character
  // ---------------------------------------------------------------------------

  /** The six payload bits of a continuation byte. */
  function Payload(s: Bytes, i: nat): nat
    requires i < |s|
  {
    s[i] % 64
  }

  predicate Continues(s: Bytes, pos: nat, n: nat) {
    pos + n <= |s| && forall i :: pos < i < pos + n ==> IsContinuation(s[i])
  }

  /** The code point at `pos` and the number of bytes it takes; malformed bytes count singly. */
  function Decode(s: Bytes, pos: nat): (r: (nat, nat))
    requires pos < |s|
    ensures 1 <= r.1 && pos + r.1 <= |s|
  {
    var c: nat := s[pos];
    if c < 0x80 then (c, 1)
    else if 0xC0 <= c < 0xE0 && Continues(s, pos, 2) then (c % 32 * 64 + Payload(s, pos + 1), 2)
    else if 0xE0 <= c < 0xF0 && Continues(s, pos, 3) then
      (c % 16 * 4096 + Payload(s, pos + 1) * 64 + Payload(s, pos + 2), 3)
    else if 0xF0 <= c < 0xF8 && Continues(s, pos, 4) then
      (c % 8 * 262144 + Payload(s, pos + 1) * 4096 + Payload(s, pos + 2) * 64 + Payload(s, pos + 3), 4)
    else (Replacement, 1)
  }

  method DecodeUtf8(s: Bytes, pos: nat) returns (cp: nat, advance: nat)
    requires pos < |s|
    ensures (cp, advance) == Decode(s, pos)
  {
    var c: nat := s[pos];
    advance := 1;
    if c < 0x80 {
      return c, advance;
    }
    if 0xC0 <= c < 0xE0 && pos + 1 < |s| {
      if !IsContinuation(s[pos + 1]) {
        return Replacement, advance;
      }
      advance := 2;
      return c % 32 * 64 + Payload(s, pos + 1), advance;
    }
    if 0xE0 <= c < 0xF0 && pos + 2 < |s| {
      if !IsContinuation(s[pos + 1]) || !IsContinuation(s[pos + 2]) {
        return Replacement, advance;
      }
      advance := 3;
      return c % 16 * 4096 + Payload(s, pos + 1) * 64 + Payload(s, pos + 2), advance;
    }
    if 0xF0 <= c < 0xF8 && pos + 3 < |s| {
      if !IsContinuation(s[pos + 1]) || !IsContinuation(s[pos + 2]) || !IsContinuation(s[pos + 3]) {
        return Replacement, advance;
      }
      advance := 4;
      return c % 8 * 262144 + Payload(s, pos + 1) * 4096 + Payload(s, pos + 2) * 64 + Payload(s, pos + 3), advance;
    }
    return Replacement, advance;
  }

  lemma DecodeFrom(s: Bytes, pos: nat)
    requires pos < |s|
    ensures Decode(s, pos) == Decode(s[pos..], 0)
  {
    var t := s[pos..];
    assert forall i :: 0 <= i < |t| ==> t[i] == s[pos + i];
    SameContinues(s, t, pos, 2);
    SameContinues(s, t, pos, 3);
    SameContinues(s, t, pos, 4);
  }

  lemma SameContinues(s: Bytes, t: Bytes, pos: nat, n: nat)
    requires pos < |s| && t == s[pos..]
    ensures Continues(s, pos, n) == Continues(t, 0, n)
  {
    if pos + n <= |s| {
      assert forall i :: pos < i < pos + n ==> s[i] == t[i - pos];
      assert forall i :: 0 < i < n ==> t[i] == s[pos + i];
    }
  }

  lemma Split2(c: nat)
    requires 0x80 <= c <= 0x7FF
    ensures 2 <= c / 64 < 32 && c / 64 % 32 * 64 + c % 64 == c
  {}

  lemma Split3(c: nat)
    requires 0x800 <= c <= 0xFFFF
    ensures c / 4096 < 16 && c / 64 == c / 4096 * 64 + c / 64 % 64
    ensures c / 4096 * 4096 + c / 64 % 64 * 64 + c % 64 == c
  {
    assert c / 64 / 64 == c / 4096;
  }

  lemma Split4(c: nat)
    requires 0x10000 <= c <= MaxCodePoint
    ensures c / 262144 < 5
    ensures c / 262144 * 262144 + c / 4096 % 64 * 4096 + c / 64 % 64 * 64 + c % 64 == c
  {
    assert c / 64 / 64 == c / 4096 && c / 4096 / 64 == c / 262144;
  }

  lemma Decode2(c: nat, t: Bytes)
    requires 0x80 <= c <= 0x7FF
    ensures Decode(Encode(c) + t, 0) == (c, 2)
  {
    Split2(c);
    var s := Encode(c) + t;
    assert s[0] == 0xC0 + c / 64 && s[1] == 0x80 + c % 64;
  }

  lemma Decode3(c: nat, t: Bytes)
    requires 0x800 <= c <= 0xFFFF
    ensures Decode(Encode(c) + t, 0) == (c, 3)
  {
    Split3(c);
    var s := Encode(c) + t;
    assert s[0] == 0xE0 + c / 4096 && s[1] == 0x80 + c / 64 % 64 && s[2] == 0x80 + c % 64;
  }

  lemma Decode4(c: nat, t: Bytes)
    requires 0x10000 <= c <= MaxCodePoint
    ensures Decode(Encode(c) + t, 0) == (c, 4)
  {
    Split4(c);
    var s := Encode(c) + t;
    assert s[0] == 0xF0 + c / 262144 && s[1] == 0x80 + c / 4096 % 64;
    assert s[2] == 0x80 + c / 64 % 64 && s[3] == 0x80 + c % 64;
  }

  /** Decoding inverts encoding, wherever the character stands. */
  lemma DecodeEncode(c: nat, t: Bytes)
    requires IsCode(c)
    ensures Decode(Encode(c) + t, 0) == (c, |Encode(c)|)
  {
    if c <= 0x7F {
    } else if c <= 0x7FF {
      Decode2(c, t);
    } else if c <= 0xFFFF {
      Decode3(c, t);
    } else {
      Decode4(c, t);
    }
  }

  // ---------------------------------------------------------------------------
  // Known characters and broken ones
  // ---------------------------------------------------------------------------

  /** Three characters of section 7 of RFC 3629, the ends of every range, and what is out of range. */
  lemma KnownCharacters()
    ensures Encode(0x391) == [0xCE, 0x91] && Encode(0x2262) == [0xE2, 0x89, 0xA2]
    ensures Encode(0x233B4) == [0xF0, 0xA3, 0x8E, 0xB4]
    ensures Encode(0) == [0] && Encode(0x7F) == [0x7F] && Encode(0x80) == [0xC2, 0x80] && Encode(0x7FF) == [0xDF, 0xBF]
    ensures Encode(0x800) == [0xE0, 0xA0, 0x80] && Encode(0xFFFF) == [0xEF, 0xBF, 0xBF]
    ensures Encode(0x10000) == [0xF0, 0x90, 0x80, 0x80] && Encode(0x10FFFF) == [0xF4, 0x8F, 0xBF, 0xBF]
    ensures Encode(0x110000) == []
  {}

  /** How many more bytes the first byte of a character asks for; none of the others starts one. */
  function Asked(c: Byte): Option<nat> {
    if c < 0x80 then Some(0)
    else if c < 0xC0 then None
    else if c < 0xE0 then Some(1)
    else if c < 0xF0 then Some(2)
    else if c < 0xF8 then Some(3)
    else None
  }

  /** All bytes asked for are there and are between 0x80 and 0xBF. */
  predicate Complete(s: Bytes, pos: nat)
    requires pos < |s|
  {
    Asked(s[pos]).Some? && pos + Asked(s[pos]).value < |s|
    && forall i :: pos < i <= pos + Asked(s[pos]).value ==> 0x80 <= s[i] <= 0xBF
  }

  /** A byte that starts no complete character counts as one replacement character. */
  lemma BrokenCharacters(s: Bytes, pos: nat)
    requires pos < |s|
    ensures !Complete(s, pos) ==> Decode(s, pos) == (0xFFFD, 1)
    ensures Complete(s, pos) ==> Decode(s, pos).1 == 1 + Asked(s[pos]).value
  {}

  /** Longer spellings than needed, surrogates and values out of range are decoded all the same. */
  lemma LooseCharacters()
    ensures Decode([0xC0, 0x80], 0) == (0, 2) && Decode([0xE0, 0x80, 0x80], 0) == (0, 3)
    ensures Decode([0xED, 0xA0, 0x80], 0) == (0xD800, 3) && Decode([0xF7, 0xBF, 0xBF, 0xBF], 0) == (0x1FFFFF, 4)
  {}

  // ---------------------------------------------------------------------------
  // Decoding a text
  // ---------------------------------------------------------------------------

  function DecodeAll(s: Bytes): seq<nat>
    decreases |s|
  {
    if s == [] then [] else [Decode(s, 0).0] + DecodeAll(s[Decode(s, 0).1..])
  }

  /** The text decodes to code points that encode to it. */
  predicate IsText(s: Bytes) { AreCodes(DecodeAll(s)) && EncodeAll(DecodeAll(s)) == s }

  lemma {:induction false} DecodeAllEncodeAll(cs: seq<nat>)
    requires AreCodes(cs)
    ensures DecodeAll(EncodeAll(cs)) == cs && IsText(EncodeAll(cs))
    decreases |cs|
  {
    if cs == [] {
    } else {
      var c, rest := cs[0], cs[1..];
      assert cs == [c] + rest;
      DecodeAllEncodeAll(rest);
      EncodeConcat([c], rest);
      EncodeOne(c);
      DecodeEncode(c, EncodeAll(rest));
      hide Encode, Decode;
      assert (Encode(c) + EncodeAll(rest))[|Encode(c)|..] == EncodeAll(rest);
    }
  }

  // ---------------------------------------------------------------------------
  // Stepping over characters
  // ---------------------------------------------------------------------------

  /** Length in bytes of the first `k` characters. */
  function Offset(cs: seq<nat>, k: nat): (n: nat)
    requires k <= |cs|
  {
    |EncodeAll(cs[..k])|
  }

  lemma OffsetStep(cs: seq<nat>, k: nat)
    requires k < |cs|
    ensures Offset(cs, k + 1) == Offset(cs, k) + |Encode(cs[k])|
  {
    assert cs[..k + 1][..k] == cs[..k];
  }

  lemma OffsetEnds(cs: seq<nat>)
    ensures Offset(cs, 0) == 0 && Offset(cs, |cs|) == |EncodeAll(cs)|
  {
    assert cs[..|cs|] == cs && cs[..0] == [];
  }

  lemma DropFirst(x: Bytes, y: Bytes, z: Bytes)
    ensures (x + y + z)[|x|..] == y + z && |x + y| <= |x + y + z|
  {}

  /** The line around character `k`. */
  lemma Around(cs: seq<nat>, k: nat)
    requires k < |cs|
    ensures EncodeAll(cs) == EncodeAll(cs[..k]) + Encode(cs[k]) + EncodeAll(cs[k + 1..])
    ensures Offset(cs, k + 1) == Offset(cs, k) + |Encode(cs[k])| <= |EncodeAll(cs)|
    ensures EncodeAll(cs)[Offset(cs, k)..] == Encode(cs[k]) + EncodeAll(cs[k + 1..])
  {
    hide EncodeAll, Encode;
    var a, b, d := cs[..k], [cs[k]], cs[k + 1..];
    assert cs == (a + b) + d;
    EncodeConcat(a + b, d);
    EncodeConcat(a, b);
    EncodeOne(cs[k]);
    OffsetStep(cs, k);
    DropFirst(EncodeAll(a), Encode(cs[k]), EncodeAll(d));
  }

  lemma BoundaryByte(cs: seq<nat>, k: nat)
    requires AreCodes(cs) && k < |cs|
    ensures Offset(cs, k) < |EncodeAll(cs)| && !IsContinuation(EncodeAll(cs)[Offset(cs, k)])
  {
    hide EncodeAll, Encode;
    Around(cs, k);
    assert IsCode(cs[k]);
    assert EncodeAll(cs)[Offset(cs, k)] == EncodeAll(cs)[Offset(cs, k)..][0];
  }

  lemma InnerByte(cs: seq<nat>, k: nat, p: nat)
    requires AreCodes(cs) && k < |cs|
    ensures Offset(cs, k) < p < Offset(cs, k + 1) ==> p < |EncodeAll(cs)| && IsContinuation(EncodeAll(cs)[p])
  {
    hide EncodeAll, Encode;
    Around(cs, k);
    if Offset(cs, k) < p < Offset(cs, k + 1) {
      var i := p - Offset(cs, k);
      assert EncodeAll(cs)[p] == EncodeAll(cs)[Offset(cs, k)..][i] == Encode(cs[k])[i];
    }
  }

  method PrevPos(line: Bytes, pos: nat) returns (r: nat)
    requires pos <= |line|
    ensures pos == 0 ==> r == 0
    ensures pos > 0 ==> r < pos && (r == 0 || !IsContinuation(line[r]))
    ensures forall i :: r < i < pos ==> IsContinuation(line[i])
  {
    if pos == 0 { return 0; }
    r := pos - 1;
    while r > 0 && IsContinuation(line[r])
      invariant r < pos
      invariant forall i :: r < i < pos ==> IsContinuation(line[i])
    {
      r := r - 1;
    }
  }

  method NextPos(line: Bytes, pos: nat) returns (r: nat)
    ensures pos >= |line| ==> r == |line|
    ensures pos < |line| ==> pos < r <= |line| && (r == |line| || !IsContinuation(line[r]))
    ensures forall i :: pos < i < r && i < |line| ==> IsContinuation(line[i])
  {
    if pos >= |line| { return |line|; }
    r := pos + 1;
    while r < |line| && IsContinuation(line[r])
      invariant pos < r <= |line|
      invariant forall i :: pos < i < r ==> IsContinuation(line[i])
    {
      r := r + 1;
    }
  }

  /** Stepping back over continuation bytes from a boundary reaches the boundary before. */
  lemma PrevBoundary(cs: seq<nat>, k: nat, r: nat)
    requires AreCodes(cs) && 0 < k <= |cs|
    requires r < Offset(cs, k) <= |EncodeAll(cs)| && (r == 0 || !IsContinuation(EncodeAll(cs)[r]))
    requires forall i :: r < i < Offset(cs, k) ==> IsContinuation(EncodeAll(cs)[i])
    ensures r == Offset(cs, k - 1)
  {
    var o := Offset(cs, k - 1);
    Around(cs, k - 1);
    BoundaryByte(cs, k - 1);
    assert !(r < o) by { assert |Encode(cs[k - 1])| > 0 by { assert IsCode(cs[k - 1]); } }
    hide EncodeAll, Encode, Offset;
    InnerByte(cs, k - 1, r);
  }

  lemma NextBoundary(cs: seq<nat>, k: nat, r: nat)
    requires AreCodes(cs) && k < |cs|
    requires Offset(cs, k) < r <= |EncodeAll(cs)|
    requires r == |EncodeAll(cs)| || !IsContinuation(EncodeAll(cs)[r])
    requires forall i :: Offset(cs, k) < i < r ==> IsContinuation(EncodeAll(cs)[i])
    ensures r == Offset(cs, k + 1)
  {
    Around(cs, k);
    EndOrBoundary(cs, k + 1);
    hide EncodeAll, Encode, Offset;
    InnerByte(cs, k, r);
  }

  lemma EndOrBoundary(cs: seq<nat>, k: nat)
    requires AreCodes(cs) && k <= |cs|
    ensures Offset(cs, k) <= |EncodeAll(cs)|
    ensures Offset(cs, k) == |EncodeAll(cs)| || !IsContinuation(EncodeAll(cs)[Offset(cs, k)])
  {
    if k < |cs| {
      BoundaryByte(cs, k);
    } else {
      OffsetEnds(cs);
    }
  }

  lemma DecodeAt(cs: seq<nat>, k: nat)
    requires AreCodes(cs) && k < |cs|
    ensures Offset(cs, k) < |EncodeAll(cs)|
    ensures Decode(EncodeAll(cs), Offset(cs, k)) == (cs[k], |Encode(cs[k])|)
  {
    BoundaryByte(cs, k);
    Around(cs, k);
    DecodeEncode(cs[k], EncodeAll(cs[k + 1..]));
    hide Decode, Encode, EncodeAll;
    DecodeFrom(EncodeAll(cs), Offset(cs, k));
  }
}
