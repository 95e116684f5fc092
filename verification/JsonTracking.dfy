/**
 How JSON texts look to the two lexers of the chat parser: every value the reader accepts is
 balanced for the brace counter, closes its strings, and is left alone by the quote rewriter.
 */
module JsonTracking {
  import opened Json
  import QN = QuoteNormalizer
  import QL = QuoteLaws
  import opened Text

  /** Brace depth, quote state, and whether no character outside strings could be rewritten. */
  datatype Track = Track(depth: int, lex: QN.Lex, plain: bool)

  function Bare(depth: int): Track { Track(depth, QN.Start, true) }

  function InString(depth: int): Track { Track(depth, QN.Lex(QN.Double, false), true) }

  predicate IsPlain(c: char) { c != '\'' && c != 'T' && c != 'F' && c != 'N' }

  function TrackChar(t: Track, c: char): Track {
    Track(
      t.depth + (if t.lex.mode != QN.Bare then 0 else if c == '{' then 1 else if c == '}' then -1 else 0),
      QN.Advance(t.lex, c),
      t.plain && (t.lex.mode == QN.Bare ==> IsPlain(c)))
  }

  function TrackText(t: Track, s: string): Track {
    if s == "" then t else TrackChar(TrackText(t, s[..|s| - 1]), s[|s| - 1])
  }

  lemma {:induction false} TrackConcat(t: Track, a: string, b: string)
    ensures TrackText(t, a + b) == TrackText(TrackText(t, a), b)
    decreases |b|
  {
    hide TrackChar;
    if b == "" {
      assert a + b == a;
    } else {
      TrackConcat(t, a, b[..|b| - 1]);
      assert (a + b)[..|a + b| - 1] == a + b[..|b| - 1];
    }
  }

  /** Reading from `s` down to its suffix `r` takes the tracker from `a` to `b`. */
  ghost predicate Moves(a: Track, s: string, r: string, b: Track) {
    && |r| <= |s|
    && s == s[..|s| - |r|] + r
    && TrackText(a, s[..|s| - |r|]) == b
  }

  lemma MovesThen(a: Track, s: string, r: string, b: Track, q: string, c: Track)
    requires Moves(a, s, r, b) && Moves(b, r, q, c)
    ensures Moves(a, s, q, c)
  {
    hide TrackText;
    var x, y := s[..|s| - |r|], r[..|r| - |q|];
    assert s == (x + y) + q;
    assert s[..|s| - |q|] == x + y;
    TrackConcat(a, x, y);
  }

  lemma MovesChar(a: Track, s: string)
    requires s != ""
    ensures Moves(a, s, s[1..], TrackChar(a, s[0]))
  {
    assert s[..1] == [s[0]] && [s[0]][..0] == "";
  }

  lemma MovesNowhere(a: Track, s: string)
    ensures Moves(a, s, s, a)
  {
    assert s[..0] == "";
  }

  /** One structural character followed by something already understood. */
  lemma CharThen(a: Track, s: string, r: string, b: Track)
    requires s != "" && Moves(TrackChar(a, s[0]), s[1..], r, b)
    ensures Moves(a, s, r, b)
  {
    MovesChar(a, s);
    MovesThen(a, s, s[1..], TrackChar(a, s[0]), r, b);
  }

  lemma {:induction false} SkipMoves(d: int, s: string)
    ensures Moves(Bare(d), s, Skip(s), Bare(d))
    decreases |s|
  {
    hide Moves;
    if s != "" && IsBlank(s[0]) {
      SkipMoves(d, s[1..]);
      CharThen(Bare(d), s, Skip(s), Bare(d));
    } else {
      MovesNowhere(Bare(d), s);
    }
  }

  /** After an escape sequence inside a string the tracker is back inside the string. */
  lemma EscapeMoves(d: int, s: string)
    requires |s| > 0 && s[0] == '\\' && ReadEscape(s).1 != 0
    ensures Moves(InString(d), s, s[ReadEscape(s).1..], InString(d))
  {
    var n := ReadEscape(s).1;
    assert n == 2 || n == 6 || n == 12;
    EscapedCharMoves(d, s);
    if n == 6 || n == 12 {
      HexMoves(d, s, 2);
      MovesThen(InString(d), s, s[2..], InString(d), s[6..], InString(d));
    }
    if n == 12 {
      EscapedCharMoves(d, s[6..]);
      assert s[6..][2..] == s[8..];
      MovesThen(InString(d), s, s[6..], InString(d), s[8..], InString(d));
      HexMoves(d, s, 8);
      MovesThen(InString(d), s, s[8..], InString(d), s[12..], InString(d));
    }
  }

  lemma EscapedCharMoves(d: int, s: string)
    requires |s| >= 2 && s[0] == '\\'
    ensures Moves(InString(d), s, s[2..], InString(d))
  {
    MovesChar(InString(d), s);
    var t := TrackChar(InString(d), '\\');
    MovesChar(t, s[1..]);
    assert s[1..][1..] == s[2..];
    MovesThen(InString(d), s, s[1..], t, s[2..], InString(d));
  }

  lemma HexMoves(d: int, s: string, k: nat)
    requires k + 4 <= |s| && HexCode(s, k) >= 0
    ensures Moves(InString(d), s[k..], s[k + 4..], InString(d))
  {
    hide Moves;
    HexCharMoves(d, s, k);
    HexCharMoves(d, s, k + 1);
    HexCharMoves(d, s, k + 2);
    HexCharMoves(d, s, k + 3);
    MovesThen(InString(d), s[k..], s[k + 1..], InString(d), s[k + 2..], InString(d));
    MovesThen(InString(d), s[k..], s[k + 2..], InString(d), s[k + 3..], InString(d));
    MovesThen(InString(d), s[k..], s[k + 3..], InString(d), s[k + 4..], InString(d));
  }

  lemma HexCharMoves(d: int, s: string, k: nat)
    requires k < |s| && IsHex(s[k])
    ensures Moves(InString(d), s[k..], s[k + 1..], InString(d))
  {
    MovesChar(InString(d), s[k..]);
    assert s[k..][1..] == s[k + 1..];
  }

  lemma {:induction false} BodyMoves(d: int, s: string)
    requires ReadBody(s).Got?
    ensures Moves(InString(d), s, ReadBody(s).rest, Bare(d))
    decreases |s|
  {
    hide Moves, ReadEscape;
    if s[0] == '"' {
      MovesChar(InString(d), s);
    } else if s[0] == '\\' {
      var n := ReadEscape(s).1;
      EscapeMoves(d, s);
      BodyMoves(d, s[n..]);
      MovesThen(InString(d), s, s[n..], InString(d), ReadBody(s).rest, Bare(d));
    } else {
      BodyMoves(d, s[1..]);
      CharThen(InString(d), s, ReadBody(s).rest, Bare(d));
    }
  }

  // Numbers and the three names.

  predicate IsAtomChar(c: char) {
    IsDigit(c) || 'a' <= c <= 'z' || c == '-' || c == '+' || c == '.' || c == 'E'
  }

  lemma {:induction false} AtomCharsMove(d: int, s: string, n: nat)
    requires n <= |s| && forall i :: 0 <= i < n ==> IsAtomChar(s[i])
    ensures Moves(Bare(d), s, s[n..], Bare(d))
    decreases n
  {
    hide Moves;
    if n == 0 {
      assert s[0..] == s;
      MovesNowhere(Bare(d), s);
    } else {
      AtomCharsMove(d, s[1..], n - 1);
      assert s[1..][n - 1..] == s[n..];
      CharThen(Bare(d), s, s[n..], Bare(d));
    }
  }

  lemma {:induction false} DigitsAreAtomChars(s: string, k: nat)
    requires k <= |s|
    ensures forall i :: k <= i < k + Digits(s, k) ==> IsDigit(s[i])
    decreases |s| - k
  {
    if k < |s| && IsDigit(s[k]) {
      DigitsAreAtomChars(s, k + 1);
    }
  }

  lemma NumberChars(s: string)
    ensures forall i :: 0 <= i < NumberLength(s) ==> IsAtomChar(s[i])
  {
    var k := if s != "" && s[0] == '-' then 1 else 0;
    var i := IntegerEnd(s, k);
    if i != 0 {
      DigitsAreAtomChars(s, k);
      FractionChars(s, i);
      var f := FractionEnd(s, i);
      if f != 0 {
        ExponentChars(s, f);
      }
    }
  }

  lemma FractionChars(s: string, k: nat)
    requires k <= |s|
    ensures forall i :: k <= i < FractionEnd(s, k) ==> IsAtomChar(s[i])
  {
    if k < |s| && s[k] == '.' {
      DigitsAreAtomChars(s, k + 1);
    }
  }

  lemma ExponentChars(s: string, k: nat)
    requires k <= |s|
    ensures forall i :: k <= i < ExponentEnd(s, k) ==> IsAtomChar(s[i])
  {
    if k < |s| && (s[k] == 'e' || s[k] == 'E') {
      var j := if k + 1 < |s| && (s[k + 1] == '+' || s[k + 1] == '-') then k + 2 else k + 1;
      DigitsAreAtomChars(s, j);
    }
  }

  lemma AtomMoves(d: int, s: string)
    requires ReadAtom(s).Got?
    ensures Moves(Bare(d), s, ReadAtom(s).rest, Bare(d))
  {
    var n := if "true" <= s then 4 else if "false" <= s then 5 else if "null" <= s then 4 else NumberLength(s);
    assert ReadAtom(s).rest == s[n..];
    if n == NumberLength(s) {
      NumberChars(s);
    } else {
      assert forall i :: 0 <= i < 4 ==> IsAtomChar("true"[i]) && IsAtomChar("null"[i]);
      assert forall i :: 0 <= i < 5 ==> IsAtomChar("false"[i]);
    }
    AtomCharsMove(d, s, n);
  }

  // Values.

  lemma {:induction false} ValueMoves(d: int, s: string)
    requires ReadValue(s).Got?
    ensures Moves(Bare(d), s, ReadValue(s).rest, Bare(d))
    decreases |s|, 2
  {
    hide Moves, ReadAtom, ReadBody, ReadItems, ReadMembers, Skip;
    var t, r := Skip(s), ReadValue(s).rest;
    SkipMoves(d, s);
    if t[0] == '"' {
      BodyMoves(d, t[1..]);
      CharThen(Bare(d), t, r, Bare(d));
    } else if t[0] == '[' {
      if Skip(t[1..]) != "" && Skip(t[1..])[0] == ']' {
        SkipMoves(d, t[1..]);
        ThenChar(Bare(d), t[1..], Skip(t[1..]), Bare(d));
      } else {
        ItemsMove(d, t[1..]);
      }
      CharThen(Bare(d), t, r, Bare(d));
    } else if t[0] == '{' {
      if Skip(t[1..]) != "" && Skip(t[1..])[0] == '}' {
        SkipMoves(d + 1, t[1..]);
        ThenChar(Bare(d + 1), t[1..], Skip(t[1..]), Bare(d + 1));
      } else {
        MembersMove(d, t[1..]);
      }
      CharThen(Bare(d), t, r, Bare(d));
    } else {
      AtomMoves(d, t);
    }
    MovesThen(Bare(d), s, t, Bare(d), r, Bare(d));
  }

  lemma ThenChar(a: Track, s: string, r: string, b: Track)
    requires Moves(a, s, r, b) && r != ""
    ensures Moves(a, s, r[1..], TrackChar(b, r[0]))
  {
    MovesChar(b, r);
    MovesThen(a, s, r, b, r[1..], TrackChar(b, r[0]));
  }

  lemma {:induction false} ItemsMove(d: int, s: string)
    requires ReadItems(s).Got?
    ensures Moves(Bare(d), s, ReadItems(s).rest, Bare(d))
    decreases |s|, 3
  {
    hide Moves, ReadValue, Skip;
    var r := ReadValue(s).rest;
    ValueMoves(d, s);
    SkipMoves(d, r);
    MovesThen(Bare(d), s, r, Bare(d), Skip(r), Bare(d));
    ThenChar(Bare(d), s, Skip(r), Bare(d));
    if Skip(r)[0] == ',' {
      ItemsMove(d, Skip(r)[1..]);
      MovesThen(Bare(d), s, Skip(r)[1..], Bare(d), ReadItems(s).rest, Bare(d));
    }
  }

  lemma {:induction false} MemberMoves(d: int, s: string)
    requires ReadMember(s).Got?
    ensures Moves(Bare(d), s, ReadMember(s).rest, Bare(d))
    decreases |s|, 3
  {
    hide Moves, ReadValue, ReadBody, Skip;
    var t := Skip(s);
    var k := ReadBody(t[1..]).rest;
    SkipMoves(d, s);
    ThenChar(Bare(d), s, t, Bare(d));
    BodyMoves(d, t[1..]);
    MovesThen(Bare(d), s, t[1..], InString(d), k, Bare(d));
    SkipMoves(d, k);
    MovesThen(Bare(d), s, k, Bare(d), Skip(k), Bare(d));
    ThenChar(Bare(d), s, Skip(k), Bare(d));
    ValueMoves(d, Skip(k)[1..]);
    MovesThen(Bare(d), s, Skip(k)[1..], Bare(d), ReadMember(s).rest, Bare(d));
  }

  /** Members are read one level inside the braces and end on the outer level. */
  lemma {:induction false} MembersMove(d: int, s: string)
    requires ReadMembers(s).Got?
    ensures Moves(Bare(d + 1), s, ReadMembers(s).rest, Bare(d))
    decreases |s|, 4
  {
    hide Moves, ReadMember, Skip;
    var r := ReadMember(s).rest;
    MemberMoves(d + 1, s);
    SkipMoves(d + 1, r);
    MovesThen(Bare(d + 1), s, r, Bare(d + 1), Skip(r), Bare(d + 1));
    ThenChar(Bare(d + 1), s, Skip(r), Bare(d + 1));
    if Skip(r)[0] == ',' {
      MembersMove(d, Skip(r)[1..]);
      MovesThen(Bare(d + 1), s, Skip(r)[1..], Bare(d + 1), ReadMembers(s).rest, Bare(d));
    }
  }

  // ---------------------------------------------------------------------------
  // What the tracker says about the two lexers
  // ---------------------------------------------------------------------------

  function ScanOf(t: Track): QL.Scan {
    QL.Scan(t.depth, t.lex.mode != QN.Bare, t.lex.escaped)
  }

  lemma {:induction false} TrackScans(t: Track, s: string)
    requires t.lex.mode != QN.Single && (t.lex.mode == QN.Bare ==> !t.lex.escaped)
    requires TrackText(t, s).plain
    ensures var u := TrackText(t, s);
            && u.lex.mode != QN.Single && (u.lex.mode == QN.Bare ==> !u.lex.escaped)
            && QL.ScanText(ScanOf(t), s) == ScanOf(u)
    decreases |s|
  {
    if s == "" {
    } else {
      TrackScans(t, s[..|s| - 1]);
    }
  }

  lemma {:induction false} TrackLexes(s: string, k: nat)
    requires k <= |s|
    ensures TrackText(Bare(0), s[..k]).lex == QN.At(s, k)
    decreases k
  {
    if k == 0 {
    } else {
      TrackLexes(s, k - 1);
      assert s[..k][..k - 1] == s[..k - 1];
    }
  }

  lemma {:induction false} PlainPrefix(s: string, k: nat)
    requires k < |s| && TrackText(Bare(0), s).plain
    ensures QN.At(s, k).mode == QN.Bare ==> IsPlain(s[k])
    decreases |s|
  {
    TrackLexes(s, |s| - 1);
    if k < |s| - 1 {
      PlainPrefix(s[..|s| - 1], k);
      TrackLexes(s, k);
      TrackLexes(s[..|s| - 1], k);
      assert s[..|s| - 1][..k] == s[..k];
    }
  }

  lemma LiteralIsNotPlain(s: string, k: nat)
    requires k < |s| && QN.At(s, k) == QN.Start
    requires IsWord(s[k]) && QN.IsLiteral(QN.WordAround(s, k))
    ensures var j := QN.WordStart(s, k); QN.At(s, j) == QN.Start && !IsPlain(s[j])
  {
    var j := QN.WordStart(s, k);
    QL.StartOfWord(s, j, k);
    assert QN.WordAround(s, k)[0] == s[j];
  }

  /** A text whose bare characters are plain is left alone by the quote rewriter. */
  lemma PlainIsFixed(s: string)
    requires TrackText(Bare(0), s).plain
    ensures QN.Normalize(s) == s
  {
    forall k | 0 <= k < |s| ensures QL.SettledAt(s, k) {
      PlainPrefix(s, k);
      if QN.At(s, k) == QN.Start && QN.IsLiteral(QN.WordAround(s, k)) && IsWord(s[k]) {
        LiteralIsNotPlain(s, k);
        PlainPrefix(s, QN.WordStart(s, k));
      }
    }
    QL.FixedPoints(s);
  }

  /**
   JSON is left alone: the rewriter is the identity on every JSON text, and the brace counter
   finds every JSON text balanced with its strings closed.
   */
  lemma JsonIsNeutral(s: string, v: Value, d: int)
    requires Denotes(s, v)
    ensures QN.Normalize(s) == s
    ensures QL.ScanText(QL.Scan(d, false, false), s) == QL.Scan(d, false, false)
  {
    TextMoves(s, v, d);
    TextMoves(s, v, 0);
    PlainIsFixed(s);
    TrackScans(Bare(d), s);
  }

  lemma TextMoves(s: string, v: Value, d: int)
    requires Denotes(s, v)
    ensures TrackText(Bare(d), s) == Bare(d)
  {
    hide ReadValue, Skip;
    var r := ReadValue(s).rest;
    ValueMoves(d, s);
    SkipMoves(d, r);
    MovesThen(Bare(d), s, r, Bare(d), "", Bare(d));
    assert s[..|s|] == s;
  }
}
