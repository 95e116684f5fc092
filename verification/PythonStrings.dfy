/**
 Rewriting in parts, and the strings of the Python literals that the repository's grammar takes: in
 either kind of quotes they become the same string in double quotes, which JSON reads exactly if they
 hold no raw control character and no surrogate without its partner.
 */
module PythonStrings {
  import opened Text
  import opened Json
  import QN = QuoteNormalizer
  import QL = QuoteLaws

  // ---------------------------------------------------------------------------
  // Rewriting a text in parts
  // ---------------------------------------------------------------------------

  /** Outside strings at its end. */
  predicate Outside(s: string) { QN.At(s, |s|) == QN.Start }

  predicate StartsOff(s: string) { s == "" || !IsWord(s[0]) }

  predicate EndsOff(s: string) { s == "" || !IsWord(s[|s| - 1]) }

  /** No word runs over the border. */
  predicate Border(a: string, b: string) { EndsOff(a) || StartsOff(b) }

  lemma {:induction false} AtFront(a: string, b: string, k: nat)
    requires k <= |a|
    ensures QN.At(a + b, k) == QN.At(a, k)
    decreases k
  {
    if k == 0 {
    } else {
      AtFront(a, b, k - 1);
    }
  }

  lemma {:induction false} AtBack(a: string, b: string, k: nat)
    requires Outside(a) && k <= |b|
    ensures QN.At(a + b, |a| + k) == QN.At(b, k)
    decreases k
  {
    if k == 0 {
      AtFront(a, b, |a|);
    } else {
      AtBack(a, b, k - 1);
      assert (a + b)[|a| + k - 1] == b[k - 1];
    }
  }

  lemma {:induction false} BracesFront(a: string, b: string, k: nat)
    requires k <= |a|
    ensures QN.OpenBraces(a + b, k) == QN.OpenBraces(a, k)
    decreases k
  {
    hide QN.At;
    if k == 0 {
    } else {
      BracesFront(a, b, k - 1);
      AtFront(a, b, k - 1);
    }
  }

  lemma {:induction false} BracesBack(a: string, b: string, k: nat)
    requires Outside(a) && k <= |b|
    ensures QN.OpenBraces(a + b, |a| + k) == QN.OpenBraces(a, |a|) + QN.OpenBraces(b, k)
    decreases k
  {
    hide QN.At;
    if k == 0 {
      BracesFront(a, b, |a|);
    } else {
      BracesBack(a, b, k - 1);
      AtBack(a, b, k - 1);
      assert (a + b)[|a| + k - 1] == b[k - 1];
    }
  }

  /** A stretch of word characters that nothing extends is the word around each of its positions. */
  lemma WordIs(s: string, i: nat, k: nat, j: nat)
    requires i <= k < j <= |s| && forall x :: i <= x < j ==> IsWord(s[x])
    requires (i == 0 || !IsWord(s[i - 1])) && (j == |s| || !IsWord(s[j]))
    ensures QN.WordStart(s, k) == i && QN.WordEnd(s, k) == j && QN.WordAround(s, k) == s[i..j]
  {
    QN.WordBounds(s, i, k);
    var e := QN.WordEnd(s, k);
    assert e <= j && j <= e;
  }

  lemma WordFront(a: string, b: string, k: nat)
    requires k < |a| && Border(a, b) && IsWord(a[k])
    ensures QN.WordStart(a + b, k) == QN.WordStart(a, k) && QN.WordAround(a + b, k) == QN.WordAround(a, k)
  {
    var s, i, j := a + b, QN.WordStart(a, k), QN.WordEnd(a, k);
    hide IsWord;
    assert j > k;
    assert j == |a| ==> EndsOff(a) || StartsOff(b);
    assert forall x :: 0 <= x < |a| ==> s[x] == a[x];
    assert j == |a| && b != "" ==> s[j] == b[0];
    WordIs(s, i, k, j);
    assert s[i..j] == a[i..j];
  }

  lemma ShiftedWord(s: string, n: nat, b: string, i: nat, k: nat, j: nat)
    requires |s| == n + |b| && i <= k < j <= |b|
    requires forall x :: n <= x < |s| ==> s[x] == b[x - n]
    requires forall x :: i <= x < j ==> IsWord(b[x])
    requires i > 0 ==> !IsWord(b[i - 1])
    requires i == 0 && n > 0 ==> !IsWord(s[n - 1])
    requires j < |b| ==> !IsWord(b[j])
    ensures QN.WordStart(s, n + k) == n + i && QN.WordAround(s, n + k) == b[i..j]
  {
    hide IsWord, QN.WordAround;
    var p, q := n + i, n + j;
    assert i > 0 ==> s[p - 1] == b[i - 1];
    assert j < |b| ==> s[q] == b[j];
    WordIs(s, p, n + k, q);
    SameRange(s, n, b, i, j);
  }

  lemma SameRange(s: string, n: nat, b: string, i: nat, j: nat)
    requires |s| == n + |b| && i <= j <= |b| && forall x :: n <= x < |s| ==> s[x] == b[x - n]
    ensures s[n + i..n + j] == b[i..j]
  {
    var c, d := s[n + i..n + j], b[i..j];
    forall x | 0 <= x < |c|
      ensures c[x] == d[x]
    {
      assert c[x] == s[n + i + x];
    }
  }

  lemma WordBack(a: string, b: string, k: nat)
    requires k < |b| && Border(a, b) && IsWord(b[k])
    ensures QN.WordStart(a + b, |a| + k) == |a| + QN.WordStart(b, k)
    ensures QN.WordAround(a + b, |a| + k) == QN.WordAround(b, k)
  {
    hide IsWord, QN.WordStart, QN.WordEnd, QN.WordAround;
    WordBounded(b, k);
    TwoParts(a, b);
    ShiftedWord(a + b, |a|, b, QN.WordStart(b, k), k, QN.WordEnd(b, k));
  }

  lemma TwoParts(a: string, b: string)
    ensures (forall x :: |a| <= x < |a + b| ==> (a + b)[x] == b[x - |a|]) && (a != "" ==> (a + b)[|a| - 1] == a[|a| - 1])
  {}

  lemma WordBounded(s: string, k: nat)
    requires k < |s| && IsWord(s[k])
    ensures var i, j := QN.WordStart(s, k), QN.WordEnd(s, k);
            && i <= k < j <= |s| && QN.WordAround(s, k) == s[i..j]
            && (forall x :: i <= x < j ==> IsWord(s[x]))
            && (i > 0 ==> !IsWord(s[i - 1])) && (j < |s| ==> !IsWord(s[j]))
  {
    hide IsWord;
  }

  lemma EmitFront(a: string, b: string, k: nat)
    requires k < |a| && Border(a, b) && Outside(a)
    ensures QN.Emit(a + b, k) == QN.Emit(a, k)
  {
    hide QN.WordStart, QN.WordAround, QN.IsLiteral, QN.Spelling, IsWord;
    AtFront(a, b, k);
    assert QN.At(a, k + 1) == QN.Advance(QN.At(a, k), a[k]);
    hide QN.At;
    if IsWord(a[k]) {
      WordFront(a, b, k);
    }
    assert k + 1 < |a| ==> (a + b)[k + 1] == a[k + 1];
  }

  lemma EmitBack(a: string, b: string, k: nat)
    requires k < |b| && Border(a, b) && Outside(a)
    ensures QN.Emit(a + b, |a| + k) == QN.Emit(b, k)
  {
    hide QN.WordStart, QN.WordAround, QN.IsLiteral, QN.Spelling, IsWord, QN.At;
    AtBack(a, b, k);
    assert (a + b)[|a| + k] == b[k];
    if IsWord(b[k]) {
      WordBack(a, b, k);
    }
    assert k + 1 < |b| ==> (a + b)[|a| + k + 1] == b[k + 1];
  }

  lemma {:induction false} RewrittenFront(a: string, b: string, k: nat)
    requires k <= |a| && Border(a, b) && Outside(a)
    ensures QN.NormalizeTo(a + b, k) == QN.NormalizeTo(a, k)
    decreases k
  {
    hide QN.Emit, QN.At, IsWord;
    if k == 0 {
    } else {
      RewrittenFront(a, b, k - 1);
      EmitFront(a, b, k - 1);
    }
  }

  lemma Associate(x: string, y: string, z: string)
    ensures x + y + z == x + (y + z)
  {}

  lemma {:induction false} RewrittenBack(a: string, b: string, k: nat)
    requires k <= |b| && Border(a, b) && Outside(a)
    ensures QN.NormalizeTo(a + b, |a| + k) == QN.Normalize(a) + QN.NormalizeTo(b, k)
    decreases k
  {
    hide QN.Emit, QN.At, IsWord;
    if k == 0 {
      RewrittenFront(a, b, |a|);
      assert QN.Normalize(a) + "" == QN.Normalize(a);
    } else {
      RewrittenBack(a, b, k - 1);
      EmitBack(a, b, k - 1);
      QL.OneEmission(a + b, |a| + k - 1);
      QL.OneEmission(b, k - 1);
      hide QN.NormalizeTo;
      Associate(QN.Normalize(a), QN.NormalizeTo(b, k - 1), QN.Emit(b, k - 1));
    }
  }

  /** `x` is rewritten to `y`, ends outside strings and opens `d` braces. */
  predicate Token(x: string, y: string, d: int) {
    Outside(x) && QN.Normalize(x) == y && QN.OpenBraces(x, |x|) == d
  }

  /** Texts that meet at a border outside strings and words are rewritten one after the other. */
  lemma Tokens(x: string, y: string, d: int, x2: string, y2: string, d2: int)
    requires Token(x, y, d) && Token(x2, y2, d2) && Border(x, x2)
    ensures Token(x + x2, y + y2, d + d2)
  {
    hide QN.At, QN.NormalizeTo, QN.OpenBraces, IsWord;
    AtBack(x, x2, |x2|);
    RewrittenBack(x, x2, |x2|);
    BracesBack(x, x2, |x2|);
  }

  /** Characters that no lexer reacts to. */
  predicate Inert(c: char) {
    c != '\'' && c != '"' && c != '{' && c != '}' && c != 'T' && c != 'F' && c != 'N'
  }

  lemma {:induction false} InertLexes(x: string, k: nat)
    requires k <= |x| && forall i :: 0 <= i < |x| ==> Inert(x[i])
    ensures QN.At(x, k) == QN.Start && QN.OpenBraces(x, k) == 0
    decreases k
  {
    if k == 0 {
    } else {
      InertLexes(x, k - 1);
    }
  }

  lemma InertToken(x: string)
    requires forall i :: 0 <= i < |x| ==> Inert(x[i])
    ensures Token(x, x, 0)
  {
    InertLexes(x, |x|);
    forall k | 0 <= k < |x|
      ensures QL.SettledAt(x, k)
    {
      if IsWord(x[k]) {
        assert QN.WordAround(x, k)[0] == x[QN.WordStart(x, k)];
      }
    }
    hide Inert, QN.At, QN.OpenBraces, QN.NormalizeTo;
    QL.FixedPoints(x);
  }

  // ---------------------------------------------------------------------------
  // Strings
  // ---------------------------------------------------------------------------

  /** A character as it stands, an escaped one, or one by its four hexadecimal digits. */
  datatype Piece = Chr(c: char) | Esc(c: char) | Uni(h0: char, h1: char, h2: char, h3: char)

  predicate IsQuote(q: char) { q == '"' || q == '\'' }

  /** What the grammar takes inside quotes `q`: any character at all, control characters included. */
  predicate Fits(q: char, p: Piece) {
    match p
    case Chr(c) => c != q && c != '\\'
    case Esc(c) => c == q || c == '\\' || c == '/' || c == 'b' || c == 'f' || c == 'n' || c == 'r' || c == 't'
    case Uni(a, b, c, d) => IsHex(a) && IsHex(b) && IsHex(c) && IsHex(d)
  }

  predicate AllFit(q: char, ps: seq<Piece>) { forall i :: 0 <= i < |ps| ==> Fits(q, ps[i]) }

  function PieceText(p: Piece): (r: string)
    ensures r != ""
  {
    match p
    case Chr(c) => [c]
    case Esc(c) => ['\\', c]
    case Uni(a, b, c, d) => ['\\', 'u', a, b, c, d]
  }

  function BodyText(ps: seq<Piece>): string {
    if ps == [] then "" else PieceText(ps[0]) + BodyText(ps[1..])
  }

  /** The same piece inside double quotes. */
  function Converted(q: char, p: Piece): Piece {
    if q != '\'' then p
    else if p == Chr('"') then Esc('"')
    else if p == Esc('\'') then Chr('\'')
    else p
  }

  function ConvertedAll(q: char, ps: seq<Piece>): (r: seq<Piece>)
    ensures |r| == |ps|
  {
    if ps == [] then [] else [Converted(q, ps[0])] + ConvertedAll(q, ps[1..])
  }

  function ModeOf(q: char): QN.Mode { if q == '\'' then QN.Single else QN.Double }

  predicate Holds(s: string, i: nat, x: string) { i + |x| <= |s| && s[i..i + |x|] == x }

  /** Inside a string: where the lexer, the output and the braces stand after a piece. */
  predicate Steps(s: string, i: nat, j: nat, q: char, out: string) {
    && i <= j <= |s|
    && QN.At(s, j) == QN.Lex(ModeOf(q), false)
    && QN.NormalizeTo(s, j) == QN.NormalizeTo(s, i) + out
    && QN.OpenBraces(s, j) == QN.OpenBraces(s, i)
  }

  lemma CharSteps(s: string, i: nat, q: char)
    requires i < |s| && QN.At(s, i) == QN.Lex(ModeOf(q), false) && IsQuote(q) && Fits(q, Chr(s[i]))
    ensures Steps(s, i, i + 1, q, PieceText(Converted(q, Chr(s[i]))))
  {
    QN.QuotedStep(s, i);
    hide QN.NormalizeTo, QN.At;
  }

  lemma EscapeSteps(s: string, i: nat, q: char)
    requires i + 1 < |s| && s[i] == '\\' && QN.At(s, i) == QN.Lex(ModeOf(q), false) && IsQuote(q)
    requires s[i + 1] == '"' ==> q == '"'
    ensures Steps(s, i, i + 2, q, if q == '\'' && s[i + 1] == '\'' then "'" else ['\\', s[i + 1]])
  {
    QN.EscapePair(s, i);
    assert QN.At(s, i + 1) == QN.Lex(ModeOf(q), true);
    assert QN.OpenBraces(s, i + 2) == QN.OpenBraces(s, i + 1) == QN.OpenBraces(s, i);
    hide QN.NormalizeTo, QN.At, QN.OpenBraces;
  }

  lemma StepsThen(s: string, i: nat, j: nat, k: nat, q: char, a: string, b: string)
    requires Steps(s, i, j, q, a) && Steps(s, j, k, q, b)
    ensures Steps(s, i, k, q, a + b)
  {
    hide QN.NormalizeTo, QN.At, QN.OpenBraces;
  }

  lemma HexSteps(s: string, i: nat, q: char)
    requires i < |s| && QN.At(s, i) == QN.Lex(ModeOf(q), false) && IsQuote(q) && IsHex(s[i])
    ensures Steps(s, i, i + 1, q, [s[i]])
  {
    CharSteps(s, i, q);
    hide Steps;
  }

  lemma UniSteps(s: string, i: nat, q: char)
    requires i + 6 <= |s| && s[i] == '\\' && s[i + 1] == 'u' && QN.At(s, i) == QN.Lex(ModeOf(q), false) && IsQuote(q)
    requires IsHex(s[i + 2]) && IsHex(s[i + 3]) && IsHex(s[i + 4]) && IsHex(s[i + 5])
    ensures Steps(s, i, i + 6, q, ['\\', 'u', s[i + 2], s[i + 3], s[i + 4], s[i + 5]])
  {
    hide QN.NormalizeTo, QN.At, QN.OpenBraces, IsHex;
    EscapeSteps(s, i, q);
    HexSteps(s, i + 2, q);
    HexSteps(s, i + 3, q);
    HexSteps(s, i + 4, q);
    HexSteps(s, i + 5, q);
    StepsThen(s, i, i + 2, i + 3, q, "\\u", [s[i + 2]]);
    StepsThen(s, i, i + 3, i + 4, q, "\\u" + [s[i + 2]], [s[i + 3]]);
    StepsThen(s, i, i + 4, i + 5, q, "\\u" + [s[i + 2]] + [s[i + 3]], [s[i + 4]]);
    StepsThen(s, i, i + 5, i + 6, q, "\\u" + [s[i + 2]] + [s[i + 3]] + [s[i + 4]], [s[i + 5]]);
  }

  lemma PieceSteps(s: string, i: nat, q: char, p: Piece)
    requires Holds(s, i, PieceText(p)) && QN.At(s, i) == QN.Lex(ModeOf(q), false) && IsQuote(q) && Fits(q, p)
    ensures Steps(s, i, i + |PieceText(p)|, q, PieceText(Converted(q, p)))
  {
    hide Steps, QN.At;
    var x := PieceText(p);
    assert forall k :: 0 <= k < |x| ==> s[i + k] == s[i..i + |x|][k] == x[k];
    match p {
      case Chr(c) =>
        assert s[i] == x[0];
        CharSteps(s, i, q);
      case Esc(c) =>
        assert s[i] == x[0] && s[i + 1] == x[1];
        EscapeSteps(s, i, q);
      case Uni(a, b, c, d) =>
        assert s[i] == x[0] && s[i + 1] == x[1] && s[i + 2] == x[2] && s[i + 3] == x[3] && s[i + 4] == x[4] && s[i + 5] == x[5];
        UniSteps(s, i, q);
    }
  }

  lemma HoldsParts(s: string, i: nat, x: string, y: string)
    requires Holds(s, i, x + y)
    ensures Holds(s, i, x) && Holds(s, i + |x|, y)
  {
    assert (x + y)[..|x|] == x && (x + y)[|x|..] == y;
  }

  lemma {:induction false} BodySteps(s: string, i: nat, q: char, ps: seq<Piece>)
    requires Holds(s, i, BodyText(ps)) && QN.At(s, i) == QN.Lex(ModeOf(q), false) && IsQuote(q) && AllFit(q, ps)
    ensures Steps(s, i, i + |BodyText(ps)|, q, BodyText(ConvertedAll(q, ps)))
    decreases |ps|
  {
    hide PieceText, QN.At, Holds, Converted, QN.NormalizeTo, QN.OpenBraces, Fits;
    if ps == [] {
      HoldsInside(s, i, "");
      assert QN.NormalizeTo(s, i) + "" == QN.NormalizeTo(s, i);
    } else {
      var x := PieceText(ps[0]);
      HoldsParts(s, i, x, BodyText(ps[1..]));
      PieceSteps(s, i, q, ps[0]);
      BodySteps(s, i + |x|, q, ps[1..]);
      StepsThen(s, i, i + |x|, i + |BodyText(ps)|, q, PieceText(Converted(q, ps[0])), BodyText(ConvertedAll(q, ps[1..])));
      assert ConvertedAll(q, ps)[1..] == ConvertedAll(q, ps[1..]);
    }
  }

  lemma HoldsInside(s: string, i: nat, x: string)
    requires Holds(s, i, x)
    ensures i + |x| <= |s|
  {}

  function StringText(q: char, ps: seq<Piece>): string { [q] + BodyText(ps) + [q] }

  /** A string in either kind of quotes is rewritten to the same string in double quotes. */
  lemma StringToken(q: char, ps: seq<Piece>)
    requires IsQuote(q) && AllFit(q, ps)
    ensures Token(StringText(q, ps), StringText('"', ConvertedAll(q, ps)), 0)
  {
    hide QN.At, QN.NormalizeTo, QN.OpenBraces, BodyText, AllFit, Holds;
    var s, n := StringText(q, ps), |BodyText(ps)|;
    QuotedParts(q, BodyText(ps));
    QuoteOpens(s);
    BodySteps(s, 1, q, ps);
    QuoteCloses(s, n + 1, q);
  }

  lemma QuotedParts(q: char, x: string)
    ensures var s := [q] + x + [q]; |s| == |x| + 2 && s[0] == q && s[1 + |x|] == q && Holds(s, 1, x)
  {}

  lemma QuoteOpens(s: string)
    requires s != "" && IsQuote(s[0])
    ensures QN.At(s, 1) == QN.Lex(ModeOf(s[0]), false) && QN.NormalizeTo(s, 1) == "\"" && QN.OpenBraces(s, 1) == 0
  {
    assert QN.At(s, 0) == QN.Start && QN.NormalizeTo(s, 0) == "";
    assert QN.Emit(s, 0) == "\"";
  }

  lemma QuoteCloses(s: string, i: nat, q: char)
    requires i < |s| && IsQuote(q) && s[i] == q && QN.At(s, i) == QN.Lex(ModeOf(q), false)
    ensures QN.At(s, i + 1) == QN.Start && QN.NormalizeTo(s, i + 1) == QN.NormalizeTo(s, i) + "\""
    ensures QN.OpenBraces(s, i + 1) == QN.OpenBraces(s, i)
  {
    QN.QuotedStep(s, i);
  }

  // ---------------------------------------------------------------------------
  // What a string holds
  // ---------------------------------------------------------------------------

  function Code(p: Piece): (n: nat)
    requires p.Uni?
    ensures n < 0x10000
  {
    if !Fits('"', p) then 0
    else ((HexDigit(p.h0) * 16 + HexDigit(p.h1)) * 16 + HexDigit(p.h2)) * 16 + HexDigit(p.h3)
  }

  predicate IsHigh(p: Piece) { p.Uni? && 0xD800 <= Code(p) < 0xDC00 }

  predicate IsLow(p: Piece) { p.Uni? && 0xDC00 <= Code(p) < 0xE000 }

  function Escaped(c: char): char {
    match c
    case 'b' => 8 as char
    case 'f' => 12 as char
    case 'n' => '\n'
    case 'r' => '\r'
    case 't' => '\t'
    case _ => c
  }

  /** No raw control character, and surrogates only in pairs. */
  predicate CleanBody(ps: seq<Piece>)
    decreases |ps|
  {
    if ps == [] then true
    else if ps[0].Chr? then ps[0].c >= ' ' && CleanBody(ps[1..])
    else if IsHigh(ps[0]) then |ps| > 1 && IsLow(ps[1]) && CleanBody(ps[2..])
    else !IsLow(ps[0]) && CleanBody(ps[1..])
  }

  /** The characters of a string. */
  function Content(ps: seq<Piece>): string
    requires CleanBody(ps)
    decreases |ps|
  {
    if ps == [] then ""
    else if ps[0].Chr? then [ps[0].c] + Content(ps[1..])
    else if ps[0].Esc? then [Escaped(ps[0].c)] + Content(ps[1..])
    else if IsHigh(ps[0]) then
      [(0x10000 + (Code(ps[0]) - 0xD800) * 0x400 + (Code(ps[1]) - 0xDC00)) as char] + Content(ps[2..])
    else [Code(ps[0]) as char] + Content(ps[1..])
  }

  /** Inside double quotes a string is as clean, and holds the same characters. */
  lemma {:induction false} ConvertedBody(q: char, ps: seq<Piece>)
    requires IsQuote(q) && AllFit(q, ps)
    ensures AllFit('"', ConvertedAll(q, ps)) && CleanBody(ConvertedAll(q, ps)) == CleanBody(ps)
    ensures CleanBody(ps) ==> Content(ConvertedAll(q, ps)) == Content(ps)
    decreases |ps|
  {
    hide Code;
    var cs := ConvertedAll(q, ps);
    if ps == [] {
    } else {
      ConvertedPiece(q, ps[0]);
      ConvertedBody(q, ps[1..]);
      assert cs[1..] == ConvertedAll(q, ps[1..]);
      if |ps| > 1 {
        ConvertedPiece(q, ps[1]);
        ConvertedBody(q, ps[2..]);
        assert cs[1] == ConvertedAll(q, ps[1..])[0];
        assert cs[2..] == ConvertedAll(q, ps[1..])[1..] == ConvertedAll(q, ps[2..]);
      }
      hide Fits, Converted;
    }
  }

  lemma ConvertedPiece(q: char, p: Piece)
    requires IsQuote(q) && Fits(q, p)
    ensures var c := Converted(q, p);
            && Fits('"', c) && (c.Uni? <==> p.Uni?) && (p.Uni? ==> c == p)
            && (c.Chr? && c.c < ' ' <==> p.Chr? && p.c < ' ')
            && (!p.Uni? ==> (if c.Chr? then c.c else Escaped(c.c)) == (if p.Chr? then p.c else Escaped(p.c)))
  {}

  // Reading it back.

  lemma ChrReads(c: char, u: string)
    requires c != '"' && c != '\\'
    ensures ReadBody([c] + u) == if c < ' ' then Fail else Prepend(c, ReadBody(u))
  {
    assert ([c] + u)[1..] == u;
  }

  lemma EscReads(c: char, u: string)
    requires Fits('"', Esc(c))
    ensures ReadBody(['\\', c] + u) == Prepend(Escaped(c), ReadBody(u))
  {
    assert ReadEscape(['\\', c] + u) == (Escaped(c), 2);
    assert (['\\', c] + u)[2..] == u;
    EscapeReads(['\\', c] + u);
    hide ReadBody;
  }

  lemma HexCodeIs(p: Piece, s: string, k: nat)
    requires p.Uni? && Fits('"', p) && k + 4 <= |s|
    requires s[k] == p.h0 && s[k + 1] == p.h1 && s[k + 2] == p.h2 && s[k + 3] == p.h3
    ensures HexCode(s, k) == Code(p)
  {}

  lemma EscapeReads(s: string)
    requires s != "" && s[0] == '\\'
    ensures var (c, n) := ReadEscape(s); ReadBody(s) == if n == 0 then Fail else Prepend(c, ReadBody(s[n..]))
  {
    hide ReadEscape, Prepend;
  }

  lemma UnicodeReads(s: string)
    requires |s| >= 2 && s[0] == '\\' && s[1] == 'u'
    ensures var (c, n) := ReadUnicode(s); ReadBody(s) == if n == 0 then Fail else Prepend(c, ReadBody(s[n..]))
  {
    assert ReadEscape(s) == ReadUnicode(s) by {
      hide ReadUnicode;
    }
    EscapeReads(s);
    hide ReadUnicode, ReadBody, ReadEscape;
  }

  lemma UniFront(p: Piece, u: string)
    requires p.Uni? && Fits('"', p)
    ensures var s := PieceText(p) + u;
            && |s| == 6 + |u| && s[0] == '\\' && s[1] == 'u' && HexCode(s, 2) == Code(p) && s[6..] == u
            && (|u| > 0 ==> s[6] == u[0]) && (|u| > 1 ==> s[7] == u[1])
  {
    hide HexCode, Code;
    HexCodeIs(p, PieceText(p) + u, 2);
  }

  lemma UniReads(p: Piece, u: string)
    requires p.Uni? && Fits('"', p) && !IsHigh(p)
    ensures ReadBody(PieceText(p) + u) == if IsLow(p) then Fail else Prepend(Code(p) as char, ReadBody(u))
  {
    UniFront(p, u);
    UnicodeReads(PieceText(p) + u);
    hide HexCode, Code, ReadBody, PieceText, Fits;
  }

  lemma PairFront(p: Piece, r: Piece, u: string)
    requires p.Uni? && Fits('"', p) && r.Uni? && Fits('"', r)
    ensures var s := PieceText(p) + (PieceText(r) + u);
            |s| == 12 + |u| && s[6] == '\\' && s[7] == 'u' && HexCode(s, 8) == Code(r) && s[12..] == u
  {
    hide HexCode, Code;
    HexCodeIs(r, PieceText(p) + (PieceText(r) + u), 8);
  }

  lemma PairReads(p: Piece, r: Piece, u: string)
    requires p.Uni? && Fits('"', p) && IsHigh(p) && r.Uni? && Fits('"', r)
    ensures ReadBody(PieceText(p) + (PieceText(r) + u)) ==
            if !IsLow(r) then Fail
            else Prepend((0x10000 + (Code(p) - 0xD800) * 0x400 + (Code(r) - 0xDC00)) as char, ReadBody(u))
  {
    UniFront(p, PieceText(r) + u);
    PairFront(p, r, u);
    UnicodeReads(PieceText(p) + (PieceText(r) + u));
    hide HexCode, Code, ReadBody, PieceText, Fits;
  }

  lemma LonelyReads(p: Piece, u: string)
    requires p.Uni? && Fits('"', p) && IsHigh(p) && (|u| < 2 || u[0] != '\\' || u[1] != 'u')
    ensures ReadBody(PieceText(p) + u) == Fail
  {
    UniFront(p, u);
    UnicodeReads(PieceText(p) + u);
    hide HexCode, Code, ReadBody, PieceText, Fits;
  }

  lemma NotUnicode(p: Piece, u: string)
    requires Fits('"', p) && !p.Uni?
    ensures var s := PieceText(p) + u; |s| < 2 || s[0] != '\\' || s[1] != 'u'
  {}

  /** A string in double quotes is read up to its end with its characters, exactly if it is clean. */
  lemma {:induction false} BodyReads(ps: seq<Piece>, u: string)
    requires AllFit('"', ps)
    ensures ReadBody(BodyText(ps) + "\"" + u) == if CleanBody(ps) then Got(Content(ps), u) else Fail
    decreases |ps|
  {
    hide Code, PieceText, Fits, Escaped, ReadBody;
    if ps == [] {
      EndReads(u);
      assert BodyText(ps) + "\"" + u == "\"" + u;
    } else {
      var p, rest := ps[0], ps[1..];
      assert Fits('"', p);
      var t := BodyText(rest) + "\"" + u;
      BodySplits(PieceText(p), BodyText(rest), u);
      if IsHigh(p) {
        if rest != [] && rest[0].Uni? {
          assert Fits('"', rest[0]) && rest[0] == ps[1] && rest[1..] == ps[2..];
          BodySplits(PieceText(rest[0]), BodyText(rest[1..]), u);
          PairReads(p, rest[0], BodyText(rest[1..]) + "\"" + u);
          BodyReads(rest[1..], u);
        } else {
          LonelyEnd(rest, u);
          LonelyReads(p, t);
        }
      } else {
        BodyReads(rest, u);
        if p.Uni? { UniReads(p, t); } else { PlainReads(p, t); }
      }
    }
  }

  lemma EndReads(u: string)
    ensures ReadBody("\"" + u) == Got("", u)
  {
    assert ("\"" + u)[1..] == u;
  }

  lemma BodySplits(x: string, y: string, u: string)
    ensures x + y + "\"" + u == x + (y + "\"" + u)
  {}

  lemma PlainReads(p: Piece, u: string)
    requires Fits('"', p) && !p.Uni?
    ensures ReadBody(PieceText(p) + u) ==
            if p.Chr? && p.c < ' ' then Fail else Prepend(if p.Chr? then p.c else Escaped(p.c), ReadBody(u))
  {
    if p.Chr? { ChrReads(p.c, u); } else { EscReads(p.c, u); }
  }

  lemma LonelyEnd(rest: seq<Piece>, u: string)
    requires AllFit('"', rest) && (rest == [] || !rest[0].Uni?)
    ensures var t := BodyText(rest) + "\"" + u; |t| < 2 || t[0] != '\\' || t[1] != 'u'
  {
    if rest == [] {
      assert (BodyText(rest) + "\"" + u)[0] == '"';
    } else {
      assert Fits('"', rest[0]);
      NotUnicode(rest[0], BodyText(rest[1..]) + "\"" + u);
      BodySplits(PieceText(rest[0]), BodyText(rest[1..]), u);
    }
  }
}
