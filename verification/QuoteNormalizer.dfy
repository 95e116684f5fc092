/**
 The Python-literal to JSON rewriter and the brace counter of chat-peg-parser.cpp.

 `Normalize` describes the rewriter one input position at a time; the method below it is the
 scanning loop of the source.
 */
module QuoteNormalizer {
  import opened Text

  // ---------------------------------------------------------------------------
  // The quote-aware lexer of the input
  // ---------------------------------------------------------------------------

  datatype Mode = Bare | Single | Double
  datatype Lex = Lex(mode: Mode, escaped: bool)

  const Start := Lex(Bare, false)

  function Advance(st: Lex, c: char): Lex {
    if st.escaped then st.(escaped := false)
    else match st.mode
      case Bare => if c == '\'' then Lex(Single, false) else if c == '"' then Lex(Double, false) else st
      case Single => if c == '\\' then Lex(Single, true) else if c == '\'' then Start else st
      case Double => if c == '\\' then Lex(Double, true) else if c == '"' then Start else st
  }

  /** Lexer state in front of position `k`. */
  function At(s: string, k: nat): (st: Lex)
    requires k <= |s|
    ensures st.mode == Bare ==> !st.escaped
  {
    if k == 0 then Start else Advance(At(s, k - 1), s[k - 1])
  }

  /** Number of braces open in front of `k`, not counting those inside quotes. */
  function OpenBraces(s: string, k: nat): int
    requires k <= |s|
  {
    if k == 0 then 0
    else
      OpenBraces(s, k - 1) +
      (if At(s, k - 1).mode != Bare then 0 else if s[k - 1] == '{' then 1 else if s[k - 1] == '}' then -1 else 0)
  }

  function WordStart(s: string, k: nat): (j: nat)
    requires k <= |s|
    ensures j <= k
    ensures forall i :: j <= i < k ==> IsWord(s[i])
    ensures j == 0 || !IsWord(s[j - 1])
  {
    if k == 0 || !IsWord(s[k - 1]) then k else WordStart(s, k - 1)
  }

  function WordEnd(s: string, k: nat): (e: nat)
    requires k <= |s|
    ensures k <= e <= |s|
    ensures forall i :: k <= i < e ==> IsWord(s[i])
    ensures e == |s| || !IsWord(s[e])
    decreases |s| - k
  {
    if k == |s| || !IsWord(s[k]) then k else WordEnd(s, k + 1)
  }

  /** The maximal run of word characters around position `k`. */
  function WordAround(s: string, k: nat): string
    requires k <= |s|
  {
    s[WordStart(s, k)..WordEnd(s, k)]
  }

  datatype Literal = PyTrue | PyFalse | PyNone

  function Python(l: Literal): string {
    match l case PyTrue => "True" case PyFalse => "False" case PyNone => "None"
  }

  function Json(l: Literal): (r: string)
    ensures |r| == |Python(l)|
  {
    match l case PyTrue => "true" case PyFalse => "false" case PyNone => "null"
  }

  /** The one literal a word with first letter `c` can begin. */
  function StartingWith(c: char): Literal {
    if c == 'T' then PyTrue else if c == 'F' then PyFalse else PyNone
  }

  /** A nonempty beginning of one of the three Python literals. */
  predicate IsLiteral(w: string) {
    w != "" && w <= Python(StartingWith(w[0]))
  }

  function Spelling(w: string): (r: string)
    requires IsLiteral(w)
    ensures |r| == |w|
  {
    Json(StartingWith(w[0]))[..|w|]
  }

  // ---------------------------------------------------------------------------
  // What each input position contributes to the output
  // ---------------------------------------------------------------------------

  function Emit(s: string, k: nat): (r: string)
    requires k < |s|
    ensures |r| <= 2
  {
    var st, c := At(s, k), s[k];
    if st.escaped then [c]
    else match st.mode
      case Single =>
        if c == '\\' then (if k + 1 < |s| && s[k + 1] == '\'' then "" else "\\")
        else if c == '"' then "\\\""
        else if c == '\'' then "\""
        else [c]
      case Double => [c]
      case Bare =>
        if c == '\'' then "\""
        else if IsWord(c) && IsLiteral(WordAround(s, k)) then [Spelling(WordAround(s, k))[k - WordStart(s, k)]]
        else [c]
  }

  function NormalizeTo(s: string, k: nat): string
    requires k <= |s|
  {
    if k == 0 then "" else NormalizeTo(s, k - 1) + Emit(s, k - 1)
  }

  function Normalize(s: string): string { NormalizeTo(s, |s|) }

  // ---------------------------------------------------------------------------
  // The scanning loop
  // ---------------------------------------------------------------------------

  function ModeOf(inSingle: bool, inDouble: bool): Mode {
    if inSingle then Single else if inDouble then Double else Bare
  }

  lemma {:induction false} WordBounds(s: string, j: nat, k: nat)
    requires j <= k <= |s|
    requires forall i :: j <= i < k ==> IsWord(s[i])
    requires j == 0 || !IsWord(s[j - 1])
    ensures WordStart(s, k) == j
    ensures WordEnd(s, j) == WordEnd(s, k)
  {
    var a := WordStart(s, k);
    assert a <= j && j <= a;
    var b, e := WordEnd(s, j), WordEnd(s, k);
    assert e <= b && b <= e;
  }

  /** A run of bare word characters leaves the lexer where it was. */
  lemma {:induction false} BareRun(s: string, j: nat, k: nat)
    requires j <= k <= |s|
    requires At(s, j) == Start
    requires forall i :: j <= i < k ==> IsWord(s[i])
    ensures At(s, k) == Start
    decreases k
  {
    if j == k {
    } else {
      BareRun(s, j, k - 1);
    }
  }

  lemma {:induction false} LiteralEmit(s: string, j: nat, k: nat)
    requires j <= k < |s| && k < WordEnd(s, j) && At(s, j) == Start
    requires j == 0 || !IsWord(s[j - 1])
    requires IsLiteral(s[j..WordEnd(s, j)])
    ensures Emit(s, k) == [Spelling(s[j..WordEnd(s, j)])[k - j]]
  {
    BareRun(s, j, k);
    WordBounds(s, j, k);
  }

  /** Positions that each contribute one character spell those characters out. */
  lemma {:induction false} RunEmission(s: string, j: nat, k: nat, w: string)
    requires j <= k <= |s| && |w| == k - j
    requires forall i :: j <= i < k ==> Emit(s, i) == [w[i - j]]
    ensures NormalizeTo(s, k) == NormalizeTo(s, j) + w
    decreases k
  {
    if j == k {
    } else {
      RunEmission(s, j, k - 1, w[..k - 1 - j]);
      assert w == w[..k - 1 - j] + [w[k - 1 - j]];
    }
  }

  /** A recognised literal is spelled out as a whole. */
  lemma {:induction false} LiteralEmission(s: string, j: nat, w: string)
    requires j <= |s| && At(s, j) == Start
    requires j == 0 || !IsWord(s[j - 1])
    requires w == s[j..WordEnd(s, j)] && IsLiteral(w)
    ensures NormalizeTo(s, j + |w|) == NormalizeTo(s, j) + Spelling(w)
  {
    forall i | j <= i < j + |w| ensures Emit(s, i) == [Spelling(w)[i - j]] {
      LiteralEmit(s, j, i);
    }
    RunEmission(s, j, j + |w|, Spelling(w));
  }

  /** The scan never stops inside a word that it is going to rewrite. */
  ghost predicate Ready(s: string, i: nat)
    requires i <= |s|
  {
    At(s, i) == Start && WordStart(s, i) < i < |s| && IsWord(s[i]) ==> !IsLiteral(WordAround(s, i))
  }

  lemma Beginning(s: string)
    ensures At(s, 0) == Start && Ready(s, 0) && NormalizeTo(s, 0) == ""
  {}

  predicate AtLiteral(s: string, i: nat)
    requires i < |s|
  {
    IsWord(s[i]) && WordStart(s, i) == i && IsLiteral(s[i..WordEnd(s, i)])
  }

  lemma PlainStep(s: string, i: nat)
    requires i < |s| && At(s, i) == Start && Ready(s, i) && !AtLiteral(s, i)
    ensures s[i] != '\'' ==> NormalizeTo(s, i + 1) == NormalizeTo(s, i) + [s[i]]
    ensures s[i] == '\'' ==> NormalizeTo(s, i + 1) == NormalizeTo(s, i) + "\""
    ensures At(s, i + 1) == Advance(At(s, i), s[i])
    ensures Ready(s, i + 1)
  {
    assert NormalizeTo(s, i + 1) == NormalizeTo(s, i) + Emit(s, i);
    if IsWord(s[i]) {
      WordBounds(s, WordStart(s, i), i);
      WordBounds(s, WordStart(s, i), i + 1);
    }
  }

  lemma QuotedStep(s: string, i: nat)
    requires i < |s| && At(s, i).mode != Bare && !At(s, i).escaped
    requires s[i] == '\\' ==> i + 1 == |s|
    ensures NormalizeTo(s, i + 1) == NormalizeTo(s, i) +
              (if At(s, i).mode == Double then [s[i]]
               else if s[i] == '"' then "\\\"" else if s[i] == '\'' then "\"" else [s[i]])
    ensures At(s, i + 1) == Advance(At(s, i), s[i])
    ensures Ready(s, i + 1)
  {
    assert NormalizeTo(s, i + 1) == NormalizeTo(s, i) + Emit(s, i);
    assert i + 1 < |s| && At(s, i + 1) == Start ==> WordStart(s, i + 1) == i + 1;
  }

  lemma EscapePair(s: string, i: nat)
    requires i + 1 < |s| && s[i] == '\\' && At(s, i).mode != Bare && !At(s, i).escaped
    ensures At(s, i + 2) == At(s, i) && Ready(s, i + 2)
    ensures NormalizeTo(s, i + 2) == NormalizeTo(s, i) +
              (if At(s, i).mode == Single && s[i + 1] == '\'' then "'" else [s[i], s[i + 1]])
  {
    assert NormalizeTo(s, i + 2) == NormalizeTo(s, i) + Emit(s, i) + Emit(s, i + 1);
  }

  lemma LiteralStart(s: string, i: nat, n: nat)
    requires i + n <= |s| && n > 0 && At(s, i) == Start
    requires i == 0 || !IsWord(s[i - 1])
    requires forall k :: i <= k < i + n ==> IsWord(s[k])
    requires i + n == |s| || !IsWord(s[i + n])
    ensures WordStart(s, i) == i && WordEnd(s, i) == i + n
    ensures IsLiteral(s[i..i + n]) ==>
              && At(s, i + n) == Start && Ready(s, i + n)
              && NormalizeTo(s, i + n) == NormalizeTo(s, i) + Spelling(s[i..i + n])
  {
    hide Emit, NormalizeTo, Spelling;
    WordBounds(s, i, i);
    WordBounds(s, i, i + n);
    if IsLiteral(s[i..i + n]) {
      LiteralEmission(s, i, s[i..i + n]);
      BareRun(s, i, i + n);
    }
  }

  lemma NoLiteralHere(s: string, i: nat)
    requires i < |s|
    requires !(s[i] == 'T' || s[i] == 'F' || s[i] == 'N') || !(i == 0 || !IsWord(s[i - 1]))
    ensures !AtLiteral(s, i)
  {}

  method NormalizeQuotesToJson(input: string) returns (result: string)
    ensures result == Normalize(input)
  {
    hide NormalizeTo, Emit, IsLiteral, Spelling, Ready, At, WordStart, WordEnd;
    Beginning(input);
    result := "";
    var inSingle, inDouble := false, false;
    var i := 0;
    while i < |input|
      invariant i <= |input|
      invariant !(inSingle && inDouble)
      invariant At(input, i).mode == ModeOf(inSingle, inDouble)
      invariant i < |input| ==> !At(input, i).escaped
      invariant Ready(input, i)
      invariant result == NormalizeTo(input, i)
    {
      var c := input[i];
      if c == '\\' && i + 1 < |input| {
        var next := input[i + 1];
        if inSingle {
          EscapePair(input, i);
          if next == '\'' {
            result := result + "'";
          } else if next == '"' {
            result := result + "\\\"";
          } else {
            result := result + [c, next];
          }
          i := i + 2;
        } else if inDouble {
          EscapePair(input, i);
          result := result + [c, next];
          i := i + 2;
        } else {
          PlainStep(input, i);
          result := result + [c];
          i := i + 1;
        }
      } else if c == '"' {
        if inSingle {
          QuotedStep(input, i);
          result := result + "\\\"";
        } else {
          if inDouble {
            QuotedStep(input, i);
          } else {
            PlainStep(input, i);
          }
          inDouble := !inDouble;
          result := result + [c];
        }
        i := i + 1;
      } else if c == '\'' {
        if inDouble {
          QuotedStep(input, i);
          result := result + [c];
        } else if inSingle {
          QuotedStep(input, i);
          inSingle := false;
          result := result + "\"";
        } else {
          PlainStep(input, i);
          inSingle := true;
          result := result + "\"";
        }
        i := i + 1;
      } else if !inSingle && !inDouble && (c == 'T' || c == 'F' || c == 'N') && (i == 0 || !IsWord(input[i - 1])) {
        var n := 0;
        while i + n < |input| && IsWord(input[i + n])
          invariant i + n <= |input|
          invariant forall k :: i <= k < i + n ==> IsWord(input[k])
        {
          n := n + 1;
        }
        LiteralStart(input, i, n);
        var token := input[i..i + n];
        if IsLiteral(token) {
          result := result + Spelling(token);
          i := i + n;
        } else {
          PlainStep(input, i);
          result := result + [c];
          i := i + 1;
        }
      } else {
        if !inSingle && !inDouble {
          NoLiteralHere(input, i);
          PlainStep(input, i);
        } else {
          QuotedStep(input, i);
        }
        result := result + [c];
        i := i + 1;
      }
    }
  }
}
