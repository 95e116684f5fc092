/** `string_process_escapes` of common.cpp: backslash escapes replaced inside one buffer. */
module Escapes {
  import opened Utf8
  import opened Wrappers

  const Backslash := 92

  // ---------------------------------------------------------------------------
  // What a text stands for
  // ---------------------------------------------------------------------------

  function HexDigit(c: Byte): (r: Option<nat>)
    ensures r.Some? ==> r.value < 16
  {
    var n: nat := c;
    if 48 <= n <= 57 then Some(n - 48)
    else if 65 <= n <= 70 then Some(n - 55)
    else if 97 <= n <= 102 then Some(n - 87)
    else None
  }

  predicate IsBlank(c: Byte) { c == 32 || 9 <= c <= 13 }

  /**
   The number `strtol` reads from two characters in base 16 if it reads them both, as a byte. A blank
   or a sign may stand for the first digit; a minus sign wraps around.
   */
  function HexPair(a: Byte, b: Byte): Option<Byte> {
    match HexDigit(b)
    case None => None
    case Some(d) =>
      if HexDigit(a).Some? then Some(16 * HexDigit(a).value + d)
      else if IsBlank(a) || a == 43 then Some(d)
      else if a == 45 then Some((256 - d) % 256)
      else None
  }

  /** The character of a one-letter escape. */
  function Simple(c: Byte): Option<Byte> {
    if c == 110 then Some(10)
    else if c == 114 then Some(13)
    else if c == 116 then Some(9)
    else if c == 39 || c == 34 || c == Backslash then Some(c)
    else None
  }

  /** How many bytes the first character of the text takes, and the bytes it stands for. */
  function First(s: Bytes): (r: (nat, Bytes))
    requires s != []
    ensures 1 <= r.0 <= |s| && 1 <= |r.1| <= r.0
  {
    if s[0] != Backslash || |s| == 1 then (1, [s[0]])
    else if Simple(s[1]).Some? then (2, [Simple(s[1]).value])
    else if s[1] == 120 && |s| > 3 && HexPair(s[2], s[3]).Some? then (4, [HexPair(s[2], s[3]).value])
    else (2, [Backslash, s[1]])
  }

  /** The text from left to right. */
  function Unescaped(s: Bytes): (r: Bytes)
    ensures |r| <= |s|
    decreases |s|
  {
    if s == [] then [] else First(s).1 + Unescaped(s[First(s).0..])
  }

  // ---------------------------------------------------------------------------
  // Laws
  // ---------------------------------------------------------------------------

  function Doubled(t: Bytes): Bytes {
    if t == [] then []
    else (if t[0] == Backslash then [Backslash, Backslash] else [t[0]]) + Doubled(t[1..])
  }

  /** Doubling every backslash protects any text. */
  lemma {:induction false} DoublingProtects(t: Bytes)
    ensures Unescaped(Doubled(t)) == t
    decreases |t|
  {
    if t == [] {
    } else {
      DoublingProtects(t[1..]);
      var s := Doubled(t);
      var n := if t[0] == Backslash then 2 else 1;
      assert s[n..] == Doubled(t[1..]);
      assert First(s) == (n, [t[0]]);
    }
  }

  /** Whether the text contains an escape that is replaced. */
  predicate Replaces(s: Bytes)
    decreases |s|
  {
    s != [] && (|First(s).1| < First(s).0 || Replaces(s[First(s).0..]))
  }

  lemma FirstIsText(s: Bytes)
    requires s != [] && |First(s).1| == First(s).0
    ensures First(s).1 == s[..First(s).0]
  {}

  /** A text stays as it is exactly if it contains no escape, and otherwise gets shorter. */
  lemma {:induction false} UnchangedExactly(s: Bytes)
    ensures Unescaped(s) == s <==> !Replaces(s)
    ensures |Unescaped(s)| == |s| <==> !Replaces(s)
    decreases |s|
  {
    hide First;
    if s == [] {
    } else {
      var n := First(s).0;
      UnchangedExactly(s[n..]);
      assert s == s[..n] + s[n..];
      if |First(s).1| == n {
        FirstIsText(s);
      }
    }
  }

  /** Texts are replaced one after the other unless the first one ends inside an escape. */
  lemma {:induction false} Appended(s: Bytes, t: Bytes)
    requires Closed(s)
    ensures Unescaped(s + t) == Unescaped(s) + Unescaped(t)
    decreases |s|
  {
    if s == [] {
      assert s + t == t;
    } else {
      hide First, Pending, Unescaped;
      var n := First(s).0;
      Appended(s[n..], t);
      FirstOf(s, t);
      FromTheFront(s + t);
      FromTheFront(s);
      TailAppended(s, t, n);
      Glue(First(s).1, Unescaped(s[n..]), Unescaped(t));
    }
  }

  lemma FromTheFront(s: Bytes)
    requires s != []
    ensures Unescaped(s) == First(s).1 + Unescaped(s[First(s).0..])
  {
    hide First;
  }

  lemma TailAppended(s: Bytes, t: Bytes, n: nat)
    requires n <= |s|
    ensures (s + t)[n..] == s[n..] + t
  {}

  /** No escape at the end could still take up more characters. */
  predicate Closed(s: Bytes)
    decreases |s|
  {
    s == [] || (!Pending(s) && Closed(s[First(s).0..]))
  }

  /** A backslash at the end, or an x escape without its two digits. */
  predicate Pending(s: Bytes)
    requires s != []
  {
    s[0] == Backslash && (|s| == 1 || (s[1] == 120 && |s| <= 3))
  }

  lemma FirstOf(s: Bytes, t: Bytes)
    requires s != [] && !Pending(s)
    ensures First(s + t) == First(s)
  {}

  // ---------------------------------------------------------------------------
  // Every escape
  // ---------------------------------------------------------------------------

  lemma FirstFrom(x: Bytes, t: Bytes, out: Bytes)
    requires x != [] && First(x + t) == (|x|, out)
    ensures Unescaped(x + t) == out + Unescaped(t)
  {
    hide First;
    FromTheFront(x + t);
    assert (x + t)[|x|..] == t;
  }

  /** Newline, return, tab, the two quotes and the backslash, in front of any text. */
  lemma LetterEscapes(t: Bytes)
    ensures Unescaped([92, 110] + t) == [10] + Unescaped(t)
    ensures Unescaped([92, 114] + t) == [13] + Unescaped(t)
    ensures Unescaped([92, 116] + t) == [9] + Unescaped(t)
    ensures Unescaped([92, 39] + t) == [39] + Unescaped(t)
    ensures Unescaped([92, 34] + t) == [34] + Unescaped(t)
    ensures Unescaped([92, 92] + t) == [92] + Unescaped(t)
  {
    FirstFrom([92, 110], t, [10]);
    FirstFrom([92, 114], t, [13]);
    FirstFrom([92, 116], t, [9]);
    FirstFrom([92, 39], t, [39]);
    FirstFrom([92, 34], t, [34]);
    FirstFrom([92, 92], t, [92]);
  }

  predicate IsHex(c: Byte, n: nat) {
    (n < 10 && c == 48 + n) || (10 <= n < 16 && (c == 65 + (n - 10) || c == 97 + (n - 10)))
  }

  /** An x and two hexadecimal digits in either case; a blank or a sign may stand for the first one. */
  lemma HexEscapes(a: Byte, b: Byte, m: nat, n: nat, t: Bytes)
    requires m < 16 && n < 16 && IsHex(b, n)
    ensures IsHex(a, m) ==> Unescaped([92, 120, a, b] + t) == [16 * m + n] + Unescaped(t)
    ensures a == 32 || 9 <= a <= 13 || a == 43 ==> Unescaped([92, 120, a, b] + t) == [n] + Unescaped(t)
    ensures a == 45 ==> Unescaped([92, 120, a, b] + t) == [(256 - n) % 256] + Unescaped(t)
  {
    var s := [92, 120, a, b] + t;
    assert s[0] == 92 && s[1] == 120 && s[2] == a && s[3] == b;
    if HexPair(a, b).Some? {
      FirstFrom([92, 120, a, b], t, [HexPair(a, b).value]);
    }
    hide Unescaped;
  }

  /** A hexadecimal digit in either case. */
  predicate HexLetter(c: Byte) { 48 <= c < 58 || 65 <= c < 71 || 97 <= c < 103 }

  /** An x without two characters that can be read stays, and what is behind it is read on its own. */
  lemma UnreadableHex(a: Byte, b: Byte, t: Bytes)
    requires !HexLetter(b) || !(HexLetter(a) || a == 32 || 9 <= a < 14 || a == 43 || a == 45)
    ensures Unescaped([92, 120, a, b] + t) == [92, 120] + Unescaped([a, b] + t)
    ensures Unescaped([92, 120, a]) == [92, 120] + Unescaped([a]) && Unescaped([92, 120]) == [92, 120]
  {
    var s := [92, 120, a, b] + t;
    assert s[0] == 92 && s[1] == 120 && s[2] == a && s[3] == b;
    assert s == [92, 120] + ([a, b] + t);
    FirstFrom([92, 120], [a, b] + t, [92, 120]);
    assert [92, 120, a] == [92, 120] + [a] && [92, 120] == [92, 120] + [];
    FirstFrom([92, 120], [a], [92, 120]);
    FirstFrom([92, 120], [], [92, 120]);
  }

  /** Everything else stays: other letters with their backslash, characters, a backslash at the end. */
  lemma OtherTexts(c: Byte, t: Bytes)
    ensures c != 92 ==> Unescaped([c] + t) == [c] + Unescaped(t)
    ensures c != 110 && c != 114 && c != 116 && c != 39 && c != 34 && c != 92 && c != 120 ==>
              Unescaped([92, c] + t) == [92, c] + Unescaped(t)
    ensures Unescaped([92]) == [92]
  {
    if c != 92 {
      FirstFrom([c], t, [c]);
    }
    if c != 110 && c != 114 && c != 116 && c != 39 && c != 34 && c != 92 && c != 120 {
      FirstFrom([92, c], t, [92, c]);
    }
    FirstFrom([92], [], [92]);
    assert [92] + [] == [92] && [92] + Unescaped([]) == [92];
  }

  // ---------------------------------------------------------------------------
  // The loop
  // ---------------------------------------------------------------------------

  lemma Step(s: Bytes, i: nat)
    requires i < |s|
    ensures Unescaped(s[i..]) == First(s[i..]).1 + Unescaped(s[i + First(s[i..]).0..])
  {
    hide First;
    assert s[i..][First(s[i..]).0..] == s[i + First(s[i..]).0..];
  }

  lemma FirstAt(s: Bytes, i: nat)
    requires i < |s|
    ensures First(s[i..]) ==
            if s[i] != Backslash || i + 1 == |s| then (1, [s[i]])
            else if Simple(s[i + 1]).Some? then (2, [Simple(s[i + 1]).value])
            else if s[i + 1] == 120 && i + 3 < |s| && HexPair(s[i + 2], s[i + 3]).Some? then
              (4, [HexPair(s[i + 2], s[i + 3]).value])
            else (2, [Backslash, s[i + 1]])
  {
    hide Simple, HexPair;
  }

  lemma Glue(a: Bytes, b: Bytes, c: Bytes)
    ensures a + (b + c) == a + b + c
  {}

  /**
   Replaces the escapes inside the buffer. The write position never passes the read position, so no
   character is overwritten before it is read.
   */
  method ProcessEscapes(input: array<Byte>) returns (outputLen: nat)
    modifies input
    ensures outputLen <= input.Length && input[..outputLen] == Unescaped(old(input[..]))
  {
    hide HexPair, Unescaped, First, Simple;
    ghost var s := input[..];
    var i := 0;
    outputLen := 0;
    assert s[0..] == s;
    while i < input.Length
      invariant outputLen <= i <= input.Length
      invariant forall k :: i <= k < |s| ==> input[k] == s[k]
      invariant input[..outputLen] + Unescaped(s[i..]) == Unescaped(s)
      decreases input.Length - i
    {
      ghost var written := input[..outputLen];
      ghost var first := First(s[i..]);
      Step(s, i);
      FirstAt(s, i);
      Glue(written, first.1, Unescaped(s[i + first.0..]));
      if input[i] == Backslash && i + 1 < input.Length {
        i := i + 1;
        var c := input[i];
        var done := false;
        if Simple(c).Some? {
          input[outputLen] := Simple(c).value;
          outputLen := outputLen + 1;
          done := true;
        } else if c == 120 && i + 2 < input.Length {
          var val := HexPair(input[i + 1], input[i + 2]);
          if val.Some? {
            i := i + 2;
            input[outputLen] := val.value;
            outputLen := outputLen + 1;
            done := true;
          }
        }
        if !done {
          input[outputLen] := Backslash;
          outputLen := outputLen + 1;
          input[outputLen] := input[i];
          outputLen := outputLen + 1;
        }
      } else {
        input[outputLen] := input[i];
        outputLen := outputLen + 1;
      }
      assert input[..outputLen] == written + first.1;
      i := i + 1;
    }
    Rest(s);
  }

  lemma Rest(s: Bytes)
    ensures Unescaped(s[|s|..]) == []
  {}
}
