/**
 What the quote rewriter guarantees: its output drives the brace counter exactly as the
 quote-aware lexer reads the input, rewriting is idempotent with known fixed points, and
 rewriting a growing text only ever appends, with one exactly described exception.
 */
module QuoteLaws {
  import opened Text
  import opened QuoteNormalizer

  // ---------------------------------------------------------------------------
  // The brace counter
  // ---------------------------------------------------------------------------

  datatype Scan = Scan(depth: int, inString: bool, escaped: bool)

  const Clean := Scan(0, false, false)

  function ScanChar(st: Scan, c: char): Scan {
    if st.escaped then st.(escaped := false)
    else if c == '\\' && st.inString then st.(escaped := true)
    else if c == '"' then st.(inString := !st.inString)
    else if st.inString then st
    else if c == '{' then st.(depth := st.depth + 1)
    else if c == '}' then st.(depth := st.depth - 1)
    else st
  }

  function ScanText(st: Scan, s: string): Scan {
    if s == "" then st else ScanChar(ScanText(st, s[..|s| - 1]), s[|s| - 1])
  }

  lemma {:induction false} ScanConcat(st: Scan, a: string, b: string)
    ensures ScanText(st, a + b) == ScanText(ScanText(st, a), b)
    decreases |b|
  {
    if b == "" {
      assert a + b == a;
    } else {
      ScanConcat(st, a, b[..|b| - 1]);
      assert (a + b)[..|a + b| - 1] == a + b[..|b| - 1];
    }
  }

  lemma ScanTwo(st: Scan, c: char, d: char)
    ensures ScanText(st, [c]) == ScanChar(st, c)
    ensures ScanText(st, [c, d]) == ScanChar(ScanChar(st, c), d)
  {
    assert [c][..0] == "";
    assert [c, d][..1] == [c];
  }

  method JsonBraceDepth(s: string) returns (depth: int)
    ensures depth == ScanText(Clean, s).depth
  {
    depth := 0;
    var inString, escaped := false, false;
    for i := 0 to |s|
      invariant ScanText(Clean, s[..i]) == Scan(depth, inString, escaped)
    {
      var c := s[i];
      assert s[..i + 1][..i] == s[..i];
      if escaped {
        escaped := false;
      } else if c == '\\' && inString {
        escaped := true;
      } else if c == '"' {
        inString := !inString;
      } else if !inString {
        if c == '{' {
          depth := depth + 1;
        } else if c == '}' {
          depth := depth - 1;
        }
      }
    }
    assert s[..|s|] == s;
  }

  // ---------------------------------------------------------------------------
  // The output simulates the input lexer
  // ---------------------------------------------------------------------------

  /** An escape whose backslash the rewriter has swallowed. */
  predicate Swallowed(s: string, k: nat)
    requires k <= |s|
  {
    At(s, k) == Lex(Single, true) && k < |s| && s[k] == '\''
  }

  function Image(s: string, k: nat): Scan
    requires k <= |s|
  {
    Scan(OpenBraces(s, k), At(s, k).mode != Bare, At(s, k).escaped && !Swallowed(s, k))
  }

  lemma SpellingIsWord(w: string, i: nat)
    requires IsLiteral(w) && i < |w|
    ensures IsWord(Spelling(w)[i])
  {}

  lemma EmitSimulates(s: string, k: nat)
    requires k < |s|
    ensures ScanText(Image(s, k), Emit(s, k)) == Image(s, k + 1)
  {
    var e := Emit(s, k);
    if |e| == 1 { ScanTwo(Image(s, k), e[0], e[0]); }
    if |e| == 2 { ScanTwo(Image(s, k), e[0], e[1]); }
    if At(s, k) == Start && IsWord(s[k]) && IsLiteral(WordAround(s, k)) {
      SpellingIsWord(WordAround(s, k), k - WordStart(s, k));
    }
  }

  lemma {:induction false} Simulates(s: string, k: nat)
    requires k <= |s|
    ensures ScanText(Clean, NormalizeTo(s, k)) == Image(s, k)
    decreases k
  {
    hide Emit, ScanChar, Swallowed;
    if k == 0 {
    } else {
      Simulates(s, k - 1);
      EmitSimulates(s, k - 1);
      ScanConcat(Clean, NormalizeTo(s, k - 1), Emit(s, k - 1));
    }
  }

  /**
   The brace counter reads the rewritten text exactly as the quote-aware lexer reads the
   original: same open braces, in a string exactly when the original is inside either kind of
   quote.
   */
  lemma OutputSimulatesInput(s: string)
    ensures ScanText(Clean, Normalize(s)) ==
              Scan(OpenBraces(s, |s|), At(s, |s|).mode != Bare, At(s, |s|).escaped)
  {
    Simulates(s, |s|);
  }

  // ---------------------------------------------------------------------------
  // Fixed points and idempotence
  // ---------------------------------------------------------------------------

  /** Nothing to rewrite at `k`: no bare single quote and no bare Python literal. */
  predicate SettledAt(s: string, k: nat)
    requires k < |s|
  {
    At(s, k) == Start ==> s[k] != '\'' && !(IsWord(s[k]) && IsLiteral(WordAround(s, k)))
  }

  ghost predicate Settled(s: string) {
    forall k :: 0 <= k < |s| ==> SettledAt(s, k)
  }

  lemma {:induction false} SettledPrefix(s: string, k: nat)
    requires k <= |s|
    requires forall i :: 0 <= i < k ==> SettledAt(s, i)
    ensures At(s, k).mode != Single
    ensures NormalizeTo(s, k) == s[..k]
    decreases k
  {
    if k == 0 {
    } else {
      SettledPrefix(s, k - 1);
      SettledEmit(s, k - 1);
      hide Emit, At, SettledAt;
      assert s[..k] == s[..k - 1] + [s[k - 1]];
    }
  }

  lemma SettledEmit(s: string, k: nat)
    requires k < |s| && SettledAt(s, k) && At(s, k).mode != Single
    ensures Emit(s, k) == [s[k]] && At(s, k + 1).mode != Single
  {
    hide WordAround, IsLiteral, Spelling, WordStart, IsWord;
    assert At(s, k + 1) == Advance(At(s, k), s[k]);
  }

  /** The first character of a literal, or a quote, comes out as another one. */
  lemma UnsettledEmit(s: string, k: nat)
    requires k < |s| && !SettledAt(s, k) && (s[k] == '\'' || WordStart(s, k) == k)
    ensures |Emit(s, k)| == 1 && Emit(s, k)[0] != s[k]
  {
    if s[k] != '\'' {
      WordBounds(s, k, k);
      var w := WordAround(s, k);
      assert w != "" && w[0] == s[k];
    }
  }

  lemma {:induction false} NormalizeToGrows(s: string, j: nat, k: nat)
    requires j <= k <= |s|
    ensures NormalizeTo(s, j) <= NormalizeTo(s, k)
    decreases k
  {
    if j == k {
    } else {
      NormalizeToGrows(s, j, k - 1);
    }
  }

  /** Every position of an unsettled word is unsettled. */
  lemma WordUnsettled(s: string, k: nat)
    requires 0 < k < |s| && !SettledAt(s, k) && s[k] != '\'' && WordStart(s, k) < k
    ensures !SettledAt(s, k - 1)
  {
    var j := WordStart(s, k);
    WordBounds(s, j, k - 1);
    WordBounds(s, j, k);
  }

  /** The rewriter changes the first position that is not settled. */
  lemma {:induction false} FirstUnsettled(s: string, k: nat)
    requires k < |s| && !SettledAt(s, k)
    ensures Normalize(s) != s
    decreases k
  {
    hide Emit, SettledAt, WordStart;
    if s[k] != '\'' && WordStart(s, k) < k {
      WordUnsettled(s, k);
      FirstUnsettled(s, k - 1);
    } else if i :| 0 <= i < k && !SettledAt(s, i) {
      FirstUnsettled(s, i);
    } else {
      SettledPrefix(s, k);
      UnsettledEmit(s, k);
      NormalizeToGrows(s, k + 1, |s|);
      assert Normalize(s)[k] == NormalizeTo(s, k + 1)[k];
    }
  }

  /** The fixed points of the rewriter are the texts with nothing to rewrite. */
  lemma FixedPoints(s: string)
    ensures Normalize(s) == s <==> Settled(s)
  {
    if Settled(s) {
      SettledPrefix(s, |s|);
    } else {
      var k :| 0 <= k < |s| && !SettledAt(s, k);
      FirstUnsettled(s, k);
    }
  }

  // The lexer on the output.

  function LexText(st: Lex, s: string): Lex {
    if s == "" then st else Advance(LexText(st, s[..|s| - 1]), s[|s| - 1])
  }

  lemma {:induction false} LexConcat(st: Lex, a: string, b: string)
    ensures LexText(st, a + b) == LexText(LexText(st, a), b)
    decreases |b|
  {
    if b == "" {
      assert a + b == a;
    } else {
      LexConcat(st, a, b[..|b| - 1]);
      assert (a + b)[..|a + b| - 1] == a + b[..|b| - 1];
    }
  }

  lemma LexTwo(st: Lex, c: char, d: char)
    ensures LexText(st, [c]) == Advance(st, c)
    ensures LexText(st, [c, d]) == Advance(Advance(st, c), d)
  {
    assert [c][..0] == "";
    assert [c, d][..1] == [c];
  }

  lemma {:induction false} AtIsLexText(s: string, k: nat)
    requires k <= |s|
    ensures At(s, k) == LexText(Start, s[..k])
    decreases k
  {
    if k == 0 {
    } else {
      AtIsLexText(s, k - 1);
      assert s[..k][..k - 1] == s[..k - 1];
    }
  }

  /** Lexer state of the output where the input lexer is in front of `k`. */
  function OutState(s: string, k: nat): Lex
    requires k <= |s|
  {
    if At(s, k).mode == Bare then Start else Lex(Double, At(s, k).escaped && !Swallowed(s, k))
  }

  lemma EmitLexes(s: string, k: nat)
    requires k < |s|
    ensures LexText(OutState(s, k), Emit(s, k)) == OutState(s, k + 1)
  {
    var e := Emit(s, k);
    if |e| == 1 { LexTwo(OutState(s, k), e[0], e[0]); }
    if |e| == 2 { LexTwo(OutState(s, k), e[0], e[1]); }
    if At(s, k) == Start && IsWord(s[k]) && IsLiteral(WordAround(s, k)) {
      SpellingIsWord(WordAround(s, k), k - WordStart(s, k));
    }
  }

  lemma {:induction false} OutputLexes(s: string, k: nat)
    requires k <= |s|
    ensures LexText(Start, NormalizeTo(s, k)) == OutState(s, k)
    decreases k
  {
    hide Emit, Advance, Swallowed;
    if k == 0 {
    } else {
      OutputLexes(s, k - 1);
      EmitLexes(s, k - 1);
      LexConcat(Start, NormalizeTo(s, k - 1), Emit(s, k - 1));
    }
  }

  /** The output position written by input position `k`, and the lexer state there. */
  lemma OutputPosition(s: string, k: nat)
    requires k <= |s|
    ensures |NormalizeTo(s, k)| <= |Normalize(s)|
    ensures Normalize(s)[..|NormalizeTo(s, k)|] == NormalizeTo(s, k)
    ensures At(Normalize(s), |NormalizeTo(s, k)|) == OutState(s, k)
  {
    NormalizeToGrows(s, k, |s|);
    OutputLexes(s, k);
    AtIsLexText(Normalize(s), |NormalizeTo(s, k)|);
  }

  lemma EmittedChar(s: string, k: nat, i: nat)
    requires k < |s| && i < |Emit(s, k)|
    ensures |NormalizeTo(s, k)| + i < |Normalize(s)|
    ensures Normalize(s)[|NormalizeTo(s, k)| + i] == Emit(s, k)[i]
  {
    NormalizeToGrows(s, k + 1, |s|);
    var n := |NormalizeTo(s, k)| + i;
    assert NormalizeTo(s, k + 1)[n] == Emit(s, k)[i];
  }

  lemma BareWordChar(s: string, k: nat)
    requires k < |s| && At(s, k) == Start
    ensures |Emit(s, k)| == 1
    ensures IsWord(s[k]) <==> IsWord(Emit(s, k)[0])
    ensures Emit(s, k) != "'"
  {
    if IsWord(s[k]) && IsLiteral(WordAround(s, k)) {
      SpellingIsWord(WordAround(s, k), k - WordStart(s, k));
    }
  }

  /** Bare word characters are copied one for one. */
  lemma {:induction false} BareWordLength(s: string, j: nat, k: nat)
    requires j <= k <= |s| && At(s, j) == Start
    requires forall i :: j <= i < k ==> IsWord(s[i])
    ensures |NormalizeTo(s, k)| == |NormalizeTo(s, j)| + (k - j)
    decreases k
  {
    hide Emit, At;
    if j == k {
    } else {
      BareWordLength(s, j, k - 1);
      BareRun(s, j, k - 1);
      BareWordChar(s, k - 1);
    }
  }

  /** In front of a bare word the output, like the input, has no word character. */
  lemma BeforeWord(s: string, j: nat)
    requires 0 < j <= |s| && At(s, j) == Start && !IsWord(s[j - 1])
    ensures |NormalizeTo(s, j)| > 0 && !IsWord(NormalizeTo(s, j)[|NormalizeTo(s, j)| - 1])
  {
    if At(s, j - 1) == Start {
      BareWordChar(s, j - 1);
    }
    EmitBeforeBare(s, j - 1);
    hide Emit, At, IsWord;
    OneEmission(s, j - 1);
  }

  /** In front of a word stands one character that is none of it. */
  lemma EmitBeforeBare(s: string, k: nat)
    requires k < |s| && At(s, k + 1) == Start && !IsWord(s[k])
    ensures |Emit(s, k)| == 1 && !IsWord(Emit(s, k)[0])
  {
    hide WordAround, IsLiteral, Spelling;
    assert At(s, k + 1) == Advance(At(s, k), s[k]);
    hide At;
  }

  lemma {:induction false} StartOfWord(s: string, j: nat, k: nat)
    requires j <= k <= |s| && At(s, k) == Start
    requires forall i :: j <= i < k ==> IsWord(s[i])
    ensures At(s, j) == Start
    decreases k
  {
    if j == k {
    } else {
      StartOfWord(s, j, k - 1);
    }
  }

  /** Which input position wrote output position `p`. */
  lemma {:induction false} Writer(s: string, p: nat, n: nat) returns (k: nat, i: nat)
    requires n <= |s| && p < |NormalizeTo(s, n)|
    ensures k < |s| && i < |Emit(s, k)| && p == |NormalizeTo(s, k)| + i
    decreases n
  {
    if p < |NormalizeTo(s, n - 1)| {
      k, i := Writer(s, p, n - 1);
    } else {
      k, i := n - 1, p - |NormalizeTo(s, n - 1)|;
    }
  }

  lemma SpellingIsNotLiteral(w: string)
    requires IsLiteral(w)
    ensures !IsLiteral(Spelling(w))
  {
    assert Spelling(w)[0] == Json(StartingWith(w[0]))[0];
  }

  /** The text that replaces a bare word. */
  function Rewritten(w: string): (r: string)
    ensures |r| == |w|
  {
    if IsLiteral(w) then Spelling(w) else w
  }

  lemma RewrittenIsWord(w: string, i: nat)
    requires i < |w| && IsWord(w[i])
    ensures IsWord(Rewritten(w)[i])
  {
    if IsLiteral(w) {
      SpellingIsWord(w, i);
    }
  }

  lemma WordEmits(s: string, j: nat, i: nat)
    requires j <= i < |s| && i < WordEnd(s, j) && At(s, j) == Start
    requires j == 0 || !IsWord(s[j - 1])
    ensures Emit(s, i) == [Rewritten(s[j..WordEnd(s, j)])[i - j]]
  {
    BareRun(s, j, i);
    WordBounds(s, j, i);
    if IsLiteral(s[j..WordEnd(s, j)]) {
      LiteralEmit(s, j, i);
    }
  }

  lemma WordEmission(s: string, j: nat, w: string)
    requires j <= |s| && At(s, j) == Start
    requires j == 0 || !IsWord(s[j - 1])
    requires w == s[j..WordEnd(s, j)]
    ensures NormalizeTo(s, j + |w|) == NormalizeTo(s, j) + Rewritten(w)
  {
    hide Emit, Rewritten;
    forall i | j <= i < j + |w| ensures Emit(s, i) == [Rewritten(w)[i - j]] {
      WordEmits(s, j, i);
    }
    RunEmission(s, j, j + |w|, Rewritten(w));
  }

  /** The output around a bare word: no word character on either side. */
  lemma OutputAround(s: string, j: nat, w: string)
    requires j <= |s| && At(s, j) == Start
    requires j == 0 || !IsWord(s[j - 1])
    requires w == s[j..WordEnd(s, j)]
    ensures var y, q := Normalize(s), |NormalizeTo(s, j)|;
            && q + |w| <= |y| && y[q..q + |w|] == Rewritten(w)
            && (q == 0 || !IsWord(y[q - 1]))
            && (q + |w| == |y| || !IsWord(y[q + |w|]))
  {
    hide Emit, Rewritten, NormalizeTo, At, IsWord, WordEnd;
    var y, q := Normalize(s), |NormalizeTo(s, j)|;
    var e := j + |w|;
    WordEmission(s, j, w);
    OutputPosition(s, e);
    assert y[q..q + |w|] == NormalizeTo(s, e)[q..];
    if j > 0 {
      BeforeWord(s, j);
      OutputPosition(s, j);
      assert y[q - 1] == NormalizeTo(s, j)[q - 1];
    }
    if e < |s| {
      BareRun(s, j, e);
      BareWordChar(s, e);
      EmittedChar(s, e, 0);
    } else {
      assert |NormalizeTo(s, e)| == |y|;
    }
    Beginning(s);
  }

  lemma WordIn(y: string, q: nat, v: string, p: nat)
    requires q <= p < q + |v| <= |y| && v == y[q..q + |v|]
    requires forall i :: 0 <= i < |v| ==> IsWord(v[i])
    requires (q == 0 || !IsWord(y[q - 1])) && (q + |v| == |y| || !IsWord(y[q + |v|]))
    ensures WordAround(y, p) == v
  {
    forall i | q <= i < q + |v| ensures IsWord(y[i]) {
      assert y[i] == v[i - q];
    }
    WordBounds(y, q, p);
    WordBounds(y, q, q + |v|);
  }

  lemma OutputWordIs(s: string, k: nat)
    requires k < |s| && At(s, k) == Start && IsWord(s[k])
    ensures var p := |NormalizeTo(s, k)|;
            p < |Normalize(s)| && WordAround(Normalize(s), p) == Rewritten(WordAround(s, k))
  {
    hide NormalizeTo, Emit, IsLiteral, Spelling, Rewritten, At, WordStart, WordEnd, IsWord;
    var j := WordStart(s, k);
    WordBounds(s, j, k);
    StartOfWord(s, j, k);
    BareWordLength(s, j, k);
    var w := s[j..WordEnd(s, j)];
    assert forall i :: 0 <= i < |w| ==> IsWord(w[i]);
    OutputAround(s, j, w);
    forall i | 0 <= i < |w| ensures IsWord(Rewritten(w)[i]) {
      RewrittenIsWord(w, i);
    }
    WordIn(Normalize(s), |NormalizeTo(s, j)|, Rewritten(w), |NormalizeTo(s, k)|);
  }

  lemma OutputWordNotLiteral(s: string, k: nat)
    requires k < |s| && At(s, k) == Start && IsWord(s[k])
    ensures var p := |NormalizeTo(s, k)|; p < |Normalize(s)| && !IsLiteral(WordAround(Normalize(s), p))
  {
    hide NormalizeTo, Emit;
    OutputWordIs(s, k);
    if IsLiteral(WordAround(s, k)) {
      SpellingIsNotLiteral(WordAround(s, k));
    }
  }

  lemma OutputSettledAt(s: string, k: nat, i: nat)
    requires k < |s| && i < |Emit(s, k)|
    ensures |NormalizeTo(s, k)| + i < |Normalize(s)| && SettledAt(Normalize(s), |NormalizeTo(s, k)| + i)
  {
    hide NormalizeTo, WordAround, IsLiteral, Spelling, IsWord, WordStart, WordEnd;
    EmittedChar(s, k, i);
    OutputPosition(s, k);
    var y, p := Normalize(s), |NormalizeTo(s, k)|;
    if At(s, k) == Start {
      BareWordChar(s, k);
      if IsWord(s[k]) {
        OutputWordNotLiteral(s, k);
      }
    } else if i == 1 {
      EmittedChar(s, k, 0);
      assert At(y, p + 1) == Advance(At(y, p), y[p]);
    }
  }

  lemma OutputSettled(s: string)
    ensures Settled(Normalize(s))
  {
    forall p | 0 <= p < |Normalize(s)| ensures SettledAt(Normalize(s), p) {
      var k, i := Writer(s, p, |s|);
      OutputSettledAt(s, k, i);
    }
  }

  lemma Idempotent(s: string)
    ensures Normalize(Normalize(s)) == Normalize(s)
  {
    OutputSettled(s);
    FixedPoints(Normalize(s));
  }

  // ---------------------------------------------------------------------------
  // Streaming: rewriting a growing text
  // ---------------------------------------------------------------------------

  /** `p` stops between a backslash and the single quote it escapes. */
  predicate SplitsQuoteEscape(p: string, s: string) {
    p < s && At(p, |p|) == Lex(Single, true) && s[|p|] == '\''
  }

  /** `p` stops inside a bare word that looks like a Python literal so far but is none in `s`. */
  predicate SplitsFalseLiteral(p: string, s: string) {
    && p < s && At(p, |p|) == Start
    && var j := WordStart(p, |p|);
    && IsLiteral(p[j..]) && !IsLiteral(s[j..WordEnd(s, |p|)])
  }

  lemma {:induction false} SharedLexing(p: string, s: string, k: nat)
    requires k <= |p| && p <= s
    ensures At(p, k) == At(s, k) && WordStart(p, k) == WordStart(s, k)
    decreases k
  {
    if k == 0 {
    } else {
      SharedLexing(p, s, k - 1);
    }
  }

  lemma {:induction false} SharedWordEnd(p: string, s: string, k: nat)
    requires k <= |p| && p <= s
    ensures WordEnd(p, k) < |p| ==> WordEnd(p, k) == WordEnd(s, k)
    ensures WordEnd(p, k) == |p| ==> WordEnd(s, k) == WordEnd(s, |p|)
    decreases |p| - k
  {
    if k < |p| && IsWord(p[k]) {
      SharedWordEnd(p, s, k + 1);
    }
  }

  lemma SharedWord(p: string, s: string, k: nat)
    requires k <= |p| && p <= s && WordEnd(p, k) < |p|
    ensures WordAround(p, k) == WordAround(s, k)
  {
    SharedLexing(p, s, k);
    SharedWordEnd(p, s, k);
    var a, b := WordStart(p, k), WordEnd(p, k);
    assert p[a..b] == s[a..b];
  }

  lemma SharedQuotedEmission(p: string, s: string, k: nat)
    requires k < |p| && p <= s && At(p, k).mode != Bare && At(s, k) == At(p, k)
    requires !(k + 1 == |p| && At(p, |p|) == Lex(Single, true))
    ensures Emit(p, k) == Emit(s, k)
  {
    hide IsLiteral, Spelling, WordStart, WordEnd, IsWord, WordAround;
    assert At(p, k + 1) == Advance(At(p, k), p[k]);
    hide At;
    assert k + 1 < |p| ==> p[k + 1] == s[k + 1];
  }

  lemma SharedBareEmission(p: string, s: string, k: nat)
    requires k < |p| && p <= s && At(p, k) == Start && At(s, k) == Start
    requires WordStart(p, k) == WordStart(s, k)
    requires IsWord(p[k]) ==> WordAround(p, k) == WordAround(s, k)
    ensures Emit(p, k) == Emit(s, k)
  {
    hide IsLiteral, Spelling, At, WordEnd, IsWord, WordAround;
  }

  /** Emission only looks past the end of `p` at a pending backslash or in an unfinished word. */
  lemma SharedEmission(p: string, s: string, k: nat)
    requires k < |p| && p <= s
    requires !(k + 1 == |p| && At(p, |p|) == Lex(Single, true))
    requires !(At(p, k) == Start && IsWord(p[k]) && WordEnd(p, k) == |p|)
    ensures Emit(p, k) == Emit(s, k)
  {
    hide Emit, WordAround;
    SharedLexing(p, s, k);
    if At(p, k).mode == Bare {
      if IsWord(p[k]) {
        SharedWord(p, s, k);
      }
      SharedBareEmission(p, s, k);
    } else {
      SharedQuotedEmission(p, s, k);
    }
  }

  lemma {:induction false} SharedOutput(p: string, s: string, cut: nat)
    requires cut <= |p| && p <= s
    requires forall k :: 0 <= k < cut ==> Emit(p, k) == Emit(s, k)
    ensures NormalizeTo(p, cut) == NormalizeTo(s, cut)
    decreases cut
  {
    hide Emit;
    if cut == 0 {
    } else {
      SharedOutput(p, s, cut - 1);
    }
  }

  lemma RunReaches(p: string, k: nat)
    requires k <= |p| && At(p, k) == Start && WordEnd(p, k) == |p|
    ensures At(p, |p|) == Start && WordStart(p, |p|) <= k
  {
    BareRun(p, k, |p|);
    WordBounds(p, WordStart(p, k), |p|);
  }

  /** Up to its last, possibly unfinished, word or escape, `p` is rewritten as in `s`. */
  lemma SharedUpTo(p: string, s: string, cut: nat)
    requires p <= s && cut <= |p|
    requires At(p, |p|) == Lex(Single, true) ==> cut < |p|
    requires At(p, |p|) == Start ==> cut <= WordStart(p, |p|)
    ensures NormalizeTo(p, cut) == NormalizeTo(s, cut)
  {
    forall k | 0 <= k < cut ensures Emit(p, k) == Emit(s, k) {
      if At(p, k) == Start && IsWord(p[k]) && WordEnd(p, k) == |p| {
        RunReaches(p, k);
      }
      SharedEmission(p, s, k);
    }
    SharedOutput(p, s, cut);
  }

  /** Texts that differ at some position both have: growth of the longer one cannot mend that. */
  predicate Apart(a: string, b: string) { !(a <= b) && !(b <= a) }

  lemma PrefixByCut(a: string, b: string, x: string, u: string, v: string)
    requires a == x + u && x + v <= b
    ensures u <= v ==> a <= b
    ensures |u| > 0 && |v| > 0 && u[0] != v[0] ==> Apart(a, b)
  {
    if u <= v {
      assert x + u <= x + v;
    }
    if |u| > 0 && |v| > 0 && u[0] != v[0] {
      assert a[|x|] == u[0] && (x + v)[|x|] == v[0];
    }
  }

  lemma OneEmission(s: string, n: nat)
    requires n < |s|
    ensures NormalizeTo(s, n + 1) == NormalizeTo(s, n) + Emit(s, n)
  {}

  lemma PendingOutput(s: string, n: nat)
    requires n < |s| && At(s, n + 1) == Lex(Single, true)
    ensures n + 1 == |s| ==> Emit(s, n) == "\\"
    ensures n + 1 < |s| ==> Emit(s, n) + Emit(s, n + 1) == if s[n + 1] == '\'' then "'" else ['\\', s[n + 1]]
  {}

  lemma PendingEnd(p: string, n: nat)
    requires |p| == n + 1 && At(p, |p|) == Lex(Single, true)
    ensures Normalize(p) == NormalizeTo(p, n) + "\\"
  {
    PendingOutput(p, n);
    hide Emit, At, NormalizeTo;
    OneEmission(p, n);
  }

  lemma PendingMiddle(s: string, n: nat)
    requires n + 1 < |s| && At(s, n + 1) == Lex(Single, true)
    ensures NormalizeTo(s, n) + (if s[n + 1] == '\'' then "'" else ['\\', s[n + 1]]) <= Normalize(s)
  {
    PendingOutput(s, n);
    hide Emit, At, NormalizeTo;
    OneEmission(s, n);
    OneEmission(s, n + 1);
    var x, u, v := NormalizeTo(s, n), Emit(s, n), Emit(s, n + 1);
    assert (x + u) + v == x + (u + v);
    NormalizeToGrows(s, n + 2, |s|);
  }

  lemma PendingBackslash(p: string, s: string)
    requires p < s && At(p, |p|) == Lex(Single, true)
    ensures Normalize(p) <= Normalize(s) <==> s[|p|] != '\''
    ensures s[|p|] == '\'' ==> Apart(Normalize(p), Normalize(s))
  {
    assert |p| > 0;
    hide At, Emit, NormalizeTo;
    var n := |p| - 1;
    SharedLexing(p, s, |p|);
    SharedUpTo(p, s, n);
    PendingEnd(p, n);
    PendingMiddle(s, n);
    PrefixByCut(Normalize(p), Normalize(s), NormalizeTo(p, n), "\\", if s[n + 1] == '\'' then "'" else ['\\', s[n + 1]]);
  }

  lemma LiteralPrefix(a: string, b: string)
    requires a <= b && a != ""
    ensures IsLiteral(b) ==> IsLiteral(a)
    ensures IsLiteral(a) == IsLiteral(b) ==> Rewritten(a) <= Rewritten(b)
    ensures IsLiteral(a) && !IsLiteral(b) ==> Rewritten(a)[0] != Rewritten(b)[0]
  {
    assert a[0] == b[0];
  }

  lemma UnfinishedWord(p: string, s: string, j: nat)
    requires p < s && At(p, |p|) == Start && j == WordStart(p, |p|) && j < |p|
    ensures Normalize(p) <= Normalize(s) <==> !(IsLiteral(p[j..]) && !IsLiteral(s[j..WordEnd(s, |p|)]))
    ensures Normalize(p) <= Normalize(s) || Apart(Normalize(p), Normalize(s))
  {
    hide Emit, NormalizeTo, IsLiteral, Rewritten, At, IsWord, WordEnd, WordStart;
    StartOfWord(p, j, |p|);
    SharedUpTo(p, s, j);
    SharedLexing(p, s, j);
    WordBounds(p, j, |p|);
    SharedWordEnd(p, s, j);
    var a, b := p[j..], s[j..WordEnd(s, |p|)];
    WordEmission(p, j, a);
    WordEmission(s, j, b);
    NormalizeToGrows(s, j + |b|, |s|);
    LiteralPrefix(a, b);
    PrefixByCut(Normalize(p), Normalize(s), NormalizeTo(p, j), Rewritten(a), Rewritten(b));
  }

  /**
   Streaming law. Rewriting a longer text extends what was already sent, except in exactly two
   situations: the shorter text stops between a backslash and the single quote it escapes, or
   inside a bare word that the longer text shows not to be a Python literal after all. Then the two
   outputs differ at a position both have.
   */
  lemma StreamingLaw(p: string, s: string)
    requires p <= s
    ensures Normalize(p) <= Normalize(s) <==> !SplitsQuoteEscape(p, s) && !SplitsFalseLiteral(p, s)
    ensures Normalize(p) <= Normalize(s) || Apart(Normalize(p), Normalize(s))
  {
    hide Emit, NormalizeTo, IsLiteral;
    if p != s {
      var j := WordStart(p, |p|);
      if At(p, |p|) == Lex(Single, true) {
        PendingBackslash(p, s);
      } else if At(p, |p|) == Start && j < |p| {
        UnfinishedWord(p, s, j);
      } else {
        SharedUpTo(p, s, |p|);
        NormalizeToGrows(s, |p|, |s|);
        EmptyIsNoLiteral(p[j..]);
      }
    }
  }

  lemma EmptyIsNoLiteral(w: string)
    ensures w == "" ==> !IsLiteral(w)
  {}
}
