/** The file-name patterns of common.cpp: `?`, `*`, `**` and bracket classes. */
module Glob {
  import opened Utf8

  const Star := 42
  const Query := 63
  const Slash := 47
  const Open := 91
  const Close := 93
  const Dash := 45
  const Bang := 33

  // ---------------------------------------------------------------------------
  // The language of a pattern
  // ---------------------------------------------------------------------------

  /** One element of a bracket class. */
  datatype Element = One(c: Byte) | Range(low: Byte, high: Byte)

  datatype Token =
    | Lit(c: Byte)
    | AnyChar
    | AnyName
    | AnyPath
    | Class(negated: bool, elements: seq<Element>)

  /** Characters compare as signed bytes. */
  function Signed(c: Byte): int {
    var n: int := c;
    if n < 128 then n else n - 256
  }

  predicate InElement(c: Byte, e: Element) {
    match e
    case One(d) => c == d
    case Range(low, high) => Signed(low) <= Signed(c) <= Signed(high)
  }

  predicate InElements(c: Byte, es: seq<Element>) {
    exists i :: 0 <= i < |es| && InElement(c, es[i])
  }

  /** The texts a token stands for. */
  predicate Denotes(t: Token, s: Bytes) {
    match t
    case Lit(c) => s == [c]
    case AnyChar => |s| == 1 && s[0] != Slash
    case AnyName => Slash !in s
    case AnyPath => true
    case Class(negated, es) => |s| == 1 && (negated <==> !InElements(s[0], es))
  }

  function Flatten(pieces: seq<Bytes>): Bytes {
    if pieces == [] then [] else pieces[0] + Flatten(pieces[1..])
  }

  ghost predicate Divides(pieces: seq<Bytes>, ts: seq<Token>, s: Bytes) {
    |pieces| == |ts| && Flatten(pieces) == s && forall i :: 0 <= i < |ts| ==> Denotes(ts[i], pieces[i])
  }

  /** The text can be cut into one piece for each token. */
  ghost predicate InLanguage(ts: seq<Token>, s: Bytes) { exists pieces :: Divides(pieces, ts, s) }

  // ---------------------------------------------------------------------------
  // Reading a pattern
  // ---------------------------------------------------------------------------

  /** The elements of a class, from left to right. */
  function Elements(b: Bytes): seq<Element>
    decreases |b|
  {
    if b == [] then []
    else if |b| > 2 && b[1] == Dash && b[2] != Close then [Range(b[0], b[2])] + Elements(b[3..])
    else [One(b[0])] + Elements(b[1..])
  }

  /** The class between the brackets: a bang negates it, a bracket or dash in front stands for itself. */
  function ClassOf(body: Bytes): (t: Token)
    ensures t.Class?
  {
    var negated := body != [] && body[0] == Bang;
    var rest := if negated then body[1..] else body;
    if rest != [] && (rest[0] == Close || rest[0] == Dash) then Class(negated, [One(rest[0])] + Elements(rest[1..]))
    else Class(negated, Elements(rest))
  }

  function FindClose(p: Bytes, i: nat): (j: nat)
    requires i <= |p|
    ensures i <= j <= |p| && (j < |p| ==> p[j] == Close)
    decreases |p| - i
  {
    if i == |p| || p[i] == Close then i else FindClose(p, i + 1)
  }

  /** Where the class that starts the pattern ends; the length of the pattern if it does not. */
  function ClassEnd(p: Bytes): (j: nat)
    requires p != []
    ensures 1 <= j <= |p| && (j < |p| ==> p[j] == Close)
  {
    FindClose(p, if |p| > 1 && (p[1] == Close || p[1] == Dash) then 2 else 1)
  }

  /** The first token and how many characters it takes. */
  function First(p: Bytes): (r: (Token, nat))
    requires p != []
    ensures 1 <= r.1 <= |p|
  {
    if p[0] == Star && |p| > 1 && p[1] == Star then (AnyPath, 2)
    else if p[0] == Star then (AnyName, 1)
    else if p[0] == Query then (AnyChar, 1)
    else if p[0] == Open && ClassEnd(p) < |p| then (ClassOf(p[1..ClassEnd(p)]), ClassEnd(p) + 1)
    else (Lit(p[0]), 1)
  }

  function Tokens(p: Bytes): seq<Token>
    decreases |p|
  {
    if p == [] then [] else [First(p).0] + Tokens(p[First(p).1..])
  }

  // ---------------------------------------------------------------------------
  // Cutting off the first piece
  // ---------------------------------------------------------------------------

  /** The text is a piece for the first token and a text for the others. */
  ghost predicate Cut(t: Token, ts: seq<Token>, s: Bytes, k: nat) {
    k <= |s| && Denotes(t, s[..k]) && InLanguage(ts, s[k..])
  }

  lemma ConsCut(t: Token, ts: seq<Token>, s: Bytes, k: nat)
    requires Cut(t, ts, s, k)
    ensures InLanguage([t] + ts, s)
  {
    hide Denotes;
    var rest :| Divides(rest, ts, s[k..]);
    var pieces := [s[..k]] + rest;
    assert pieces[1..] == rest && s == s[..k] + s[k..];
    assert Divides(pieces, [t] + ts, s);
  }

  lemma CutCons(t: Token, ts: seq<Token>, s: Bytes)
    requires InLanguage([t] + ts, s)
    ensures exists k: nat :: Cut(t, ts, s, k)
  {
    hide Denotes;
    var pieces :| Divides(pieces, [t] + ts, s);
    var k := |pieces[0]|;
    assert s[..k] == pieces[0] && s[k..] == Flatten(pieces[1..]);
    assert Denotes(([t] + ts)[0], pieces[0]);
    assert Divides(pieces[1..], ts, s[k..]) by {
      assert forall i :: 0 <= i < |ts| ==> ([t] + ts)[i + 1] == ts[i];
    }
    assert Cut(t, ts, s, k);
  }

  lemma EmptyLanguage(s: Bytes)
    ensures InLanguage([], s) <==> s == []
  {
    if s == [] {
      assert Divides([], [], s);
    }
  }

  /** Tokens for one character. */
  lemma OneCharacter(t: Token, ts: seq<Token>, s: Bytes)
    requires t.Lit? || t.AnyChar? || t.Class?
    ensures InLanguage([t] + ts, s) <==> s != [] && Denotes(t, [s[0]]) && InLanguage(ts, s[1..])
  {
    if InLanguage([t] + ts, s) {
      CutCons(t, ts, s);
      var k: nat :| Cut(t, ts, s, k);
      assert k == 1 && s[..1] == [s[0]];
    }
    if s != [] && Denotes(t, [s[0]]) && InLanguage(ts, s[1..]) {
      assert s[..1] == [s[0]];
      assert Cut(t, ts, s, 1);
      ConsCut(t, ts, s, 1);
    }
  }

  /** Nothing, or one character more. */
  lemma PathStep(ts: seq<Token>, s: Bytes)
    ensures InLanguage([AnyPath] + ts, s) <==>
            InLanguage(ts, s) || (s != [] && InLanguage([AnyPath] + ts, s[1..]))
  {
    StarStep(AnyPath, ts, s);
  }

  lemma NameStep(ts: seq<Token>, s: Bytes)
    ensures InLanguage([AnyName] + ts, s) <==>
            InLanguage(ts, s) || (s != [] && s[0] != Slash && InLanguage([AnyName] + ts, s[1..]))
  {
    StarStep(AnyName, ts, s);
  }

  lemma OneMore(s: Bytes, k: nat)
    requires k < |s|
    ensures s[..k + 1] == [s[0]] + s[1..][..k] && s[k + 1..] == s[1..][k..]
  {}

  lemma StarStep(t: Token, ts: seq<Token>, s: Bytes)
    requires t.AnyPath? || t.AnyName?
    ensures InLanguage([t] + ts, s) <==>
            InLanguage(ts, s) || (s != [] && (t.AnyName? ==> s[0] != Slash) && InLanguage([t] + ts, s[1..]))
  {
    if InLanguage([t] + ts, s) {
      CutCons(t, ts, s);
      var k: nat :| Cut(t, ts, s, k);
      if k == 0 {
        assert s[0..] == s;
      } else {
        assert s[1..][..k - 1] == s[..k][1..] && s[1..][k - 1..] == s[k..] && s[..k][0] == s[0];
        assert Cut(t, ts, s[1..], k - 1);
        ConsCut(t, ts, s[1..], k - 1);
      }
    }
    if InLanguage(ts, s) {
      assert s[..0] == [] && s[0..] == s;
      assert Cut(t, ts, s, 0);
      ConsCut(t, ts, s, 0);
    }
    if s != [] && (t.AnyName? ==> s[0] != Slash) && InLanguage([t] + ts, s[1..]) {
      CutCons(t, ts, s[1..]);
      var k: nat :| Cut(t, ts, s[1..], k);
      OneMore(s, k);
      assert Cut(t, ts, s, k + 1);
      ConsCut(t, ts, s, k + 1);
    }
  }

  // ---------------------------------------------------------------------------
  // Slashes
  // ---------------------------------------------------------------------------

  function Slashes(s: Bytes): nat {
    if s == [] then 0 else (if s[0] == Slash then 1 else 0) + Slashes(s[1..])
  }

  function SlashTokens(ts: seq<Token>): nat {
    if ts == [] then 0 else (if ts[0] == Lit(Slash) then 1 else 0) + SlashTokens(ts[1..])
  }

  lemma {:induction false} SlashesAppend(a: Bytes, b: Bytes)
    ensures Slashes(a + b) == Slashes(a) + Slashes(b)
    decreases |a|
  {
    if a == [] {
      assert a + b == b;
    } else {
      SlashesAppend(a[1..], b);
      assert (a + b)[1..] == a[1..] + b;
    }
  }

  lemma {:induction false} NoSlashes(s: Bytes)
    requires Slash !in s
    ensures Slashes(s) == 0
    decreases |s|
  {
    if s == [] {
    } else {
      NoSlashes(s[1..]);
    }
  }

  /** Without `**` and classes a pattern only matches names with as many slashes as it spells out. */
  lemma {:induction false} SlashesMatch(ts: seq<Token>, s: Bytes)
    requires InLanguage(ts, s) && forall i :: 0 <= i < |ts| ==> !ts[i].AnyPath? && !ts[i].Class?
    ensures Slashes(s) == SlashTokens(ts)
    decreases |ts|
  {
    if ts == [] {
      EmptyLanguage(s);
    } else {
      assert ts == [ts[0]] + ts[1..];
      CutCons(ts[0], ts[1..], s);
      var k: nat :| Cut(ts[0], ts[1..], s, k);
      SlashesMatch(ts[1..], s[k..]);
      assert s == s[..k] + s[k..];
      SlashesAppend(s[..k], s[k..]);
      if ts[0] != Lit(Slash) {
        NoSlashes(s[..k]);
      } else {
        assert s[..k][1..] == [];
      }
    }
  }

  // ---------------------------------------------------------------------------
  // The matcher
  // ---------------------------------------------------------------------------

  lemma ElementsStep(c: Byte, b: Bytes)
    requires b != []
    ensures var e := Elements(b)[0];
            var n := if |b| > 2 && b[1] == Dash && b[2] != Close then 3 else 1;
            Elements(b) != [] && (InElements(c, Elements(b)) <==> InElement(c, e) || InElements(c, Elements(b[n..])))
  {
    hide InElement;
    var n := if |b| > 2 && b[1] == Dash && b[2] != Close then 3 else 1;
    var es, rest := Elements(b), Elements(b[n..]);
    assert es == [es[0]] + rest;
    ConsElements(c, es[0], rest);
  }

  lemma ConsElements(c: Byte, e: Element, es: seq<Element>)
    ensures InElements(c, [e] + es) <==> InElement(c, e) || InElements(c, es)
  {
    hide InElement;
    if InElements(c, es) {
      var i :| 0 <= i < |es| && InElement(c, es[i]);
      assert ([e] + es)[i + 1] == es[i];
    }
    if InElement(c, e) {
      assert ([e] + es)[0] == e;
    }
  }

  /** Whether a character is in the class whose text is `body`. */
  method ClassMatch(c: Byte, body: Bytes) returns (r: bool)
    ensures r == Denotes(ClassOf(body), [c])
  {
    hide InElement, InElements, Elements;
    var start, negated := 0, false;
    if start < |body| && body[start] == Bang {
      negated := true;
      start := start + 1;
    }
    ghost var rest := body[start..];
    if start < |body| && (body[start] == Close || body[start] == Dash) {
      ConsElements(c, One(body[start]), Elements(rest[1..]));
      OneElement(c, body[start]);
      if body[start] == c {
        return !negated;
      }
      start := start + 1;
    }
    ghost var es := Elements(body[start..]);
    assert Denotes(ClassOf(body), [c]) == (negated <==> !InElements(c, es));
    var matched := false;
    while start < |body|
      invariant start <= |body| && !matched
      invariant InElements(c, es) <==> InElements(c, Elements(body[start..]))
    {
      ghost var b := body[start..];
      ElementsStep(c, b);
      FirstElement(c, b);
      if start + 2 < |body| && body[start + 1] == Dash && body[start + 2] != Close {
        if Signed(body[start]) <= Signed(c) <= Signed(body[start + 2]) {
          matched := true;
          break;
        }
        assert b[3..] == body[start + 3..];
        start := start + 3;
      } else {
        if body[start] == c {
          matched := true;
          break;
        }
        assert b[1..] == body[start + 1..];
        start := start + 1;
      }
    }
    NoElements(c);
    assert matched <==> InElements(c, es);
    r := if negated then !matched else matched;
  }

  lemma OneElement(c: Byte, d: Byte)
    ensures InElement(c, One(d)) <==> c == d
  {}

  lemma FirstElement(c: Byte, b: Bytes)
    requires b != []
    ensures Elements(b) != []
    ensures InElement(c, Elements(b)[0]) <==>
            if |b| > 2 && b[1] == Dash && b[2] != Close then Signed(b[0]) <= Signed(c) <= Signed(b[2]) else c == b[0]
  {}

  lemma NoElements(c: Byte)
    ensures !InElements(c, Elements([]))
  {}

  method FindClassEnd(pattern: Bytes, p: nat) returns (end: nat)
    requires p < |pattern|
    ensures end == p + ClassEnd(pattern[p..])
  {
    ghost var q := pattern[p..];
    end := p + 1;
    if end < |pattern| && (pattern[end] == Close || pattern[end] == Dash) {
      end := end + 1;
    }
    while end < |pattern| && pattern[end] != Close
      invariant p < end <= |pattern| && ClassEnd(q) == FindClose(q, end - p)
    {
      end := end + 1;
    }
  }

  lemma TokensStep(pattern: Bytes, p: nat)
    requires p < |pattern|
    ensures var (t, n) := First(pattern[p..]);
            p + n <= |pattern| && Tokens(pattern[p..]) == [t] + Tokens(pattern[p + n..])
  {
    hide First;
    var n := First(pattern[p..]).1;
    assert pattern[p..][n..] == pattern[p + n..];
  }

  /** The matcher accepts exactly the language of the pattern. */
  method GlobMatch(pattern: Bytes, p: nat, str: Bytes, q: nat) returns (r: bool)
    requires p <= |pattern| && q <= |str|
    ensures r <==> InLanguage(Tokens(pattern[p..]), str[q..])
    decreases |pattern| - p + (|str| - q)
  {
    hide InLanguage, ClassOf, ClassEnd, Tokens;
    ghost var s := str[q..];
    if p == |pattern| {
      NoTokens(pattern);
      EmptyLanguage(s);
      return q == |str|;
    }
    TokensStep(pattern, p);
    ghost var (t, n) := First(pattern[p..]);
    ghost var ts := Tokens(pattern[p + n..]);
    assert q < |str| ==> s[1..] == str[q + 1..];
    if pattern[p] == Star && p + 1 < |pattern| && pattern[p + 1] == Star {
      PathStep(ts, s);
      r := GlobMatch(pattern, p + 2, str, q);
      if r {
        return;
      }
      if q < |str| {
        r := GlobMatch(pattern, p, str, q + 1);
        return;
      }
      return false;
    }
    if pattern[p] == Star {
      var i := q;
      while i < |str| && str[i] != Slash
        invariant q <= i <= |str|
        invariant InLanguage([AnyName] + ts, s) <==> InLanguage([AnyName] + ts, str[i..])
      {
        NameStep(ts, str[i..]);
        assert str[i..][1..] == str[i + 1..];
        r := GlobMatch(pattern, p + 1, str, i);
        if r {
          return;
        }
        i := i + 1;
      }
      NameStep(ts, str[i..]);
      r := GlobMatch(pattern, p + 1, str, i);
      return;
    }
    OneCharacter(t, ts, s);
    if pattern[p] == Query && q < |str| && str[q] != Slash {
      r := GlobMatch(pattern, p + 1, str, q + 1);
      return;
    }
    if pattern[p] == Open {
      var end := FindClassEnd(pattern, p);
      if end < |pattern| {
        if q == |str| {
          return false;
        }
        assert pattern[p..][1..end - p] == pattern[p + 1..end];
        var matched := ClassMatch(str[q], pattern[p + 1..end]);
        if !matched {
          return false;
        }
        r := GlobMatch(pattern, end + 1, str, q + 1);
        return;
      } else {
        if q < |str| && str[q] == Open {
          r := GlobMatch(pattern, p + 1, str, q + 1);
          return;
        }
        return false;
      }
    }
    if q < |str| && pattern[p] == str[q] {
      r := GlobMatch(pattern, p + 1, str, q + 1);
      return;
    }
    r := false;
  }

  lemma NoTokens(pattern: Bytes)
    ensures Tokens(pattern[|pattern|..]) == []
  {}

  /** A C string ends at the first zero. */
  function CString(s: Bytes): (r: Bytes)
    ensures r <= s && 0 !in r
    decreases |s|
  {
    if s == [] || s[0] == 0 then [] else [s[0]] + CString(s[1..])
  }

  method Glob(pattern: Bytes, str: Bytes) returns (r: bool)
    ensures r <==> InLanguage(Tokens(CString(pattern)), CString(str))
  {
    var p, s := CString(pattern), CString(str);
    assert p[0..] == p && s[0..] == s;
    r := GlobMatch(p, 0, s, 0);
  }

  // ---------------------------------------------------------------------------
  // The language on pattern texts
  // ---------------------------------------------------------------------------

  /** The texts a pattern stands for. */
  ghost predicate Stands(p: Bytes, s: Bytes) { InLanguage(Tokens(p), s) }

  lemma AfterFirst(t: Token, p: Bytes, head: Bytes)
    requires head != [] && First(head + p) == (t, |head|)
    ensures Tokens(head + p) == [t] + Tokens(p)
  {
    hide First;
    assert (head + p)[|head|..] == p;
  }

  lemma CutStands(t: Token, p: Bytes, head: Bytes, s: Bytes)
    requires head != [] && First(head + p) == (t, |head|)
    ensures Stands(head + p, s) <==> exists k: nat :: k <= |s| && Denotes(t, s[..k]) && Stands(p, s[k..])
  {
    hide First, Tokens, Denotes, InLanguage;
    AfterFirst(t, p, head);
    if Stands(head + p, s) {
      CutCons(t, Tokens(p), s);
      var k: nat :| Cut(t, Tokens(p), s, k);
      assert Stands(p, s[k..]);
    }
    if k: nat :| k <= |s| && Denotes(t, s[..k]) && Stands(p, s[k..]) {
      ConsCut(t, Tokens(p), s, k);
    }
  }

  /** An empty pattern stands for the empty text, and `**` for any text. */
  lemma EmptyPattern(s: Bytes)
    ensures Stands([], s) <==> s == []
  {
    EmptyLanguage(s);
  }

  lemma AnyPathPattern(p: Bytes, s: Bytes)
    ensures Stands([42, 42] + p, s) <==> exists k: nat :: k <= |s| && Stands(p, s[k..])
  {
    CutStands(AnyPath, p, [42, 42], s);
  }

  /** A single star stands for any text without a slash. */
  lemma AnyNamePattern(p: Bytes, s: Bytes)
    requires p == [] || p[0] != 42
    ensures Stands([42] + p, s) <==> exists k: nat :: k <= |s| && 47 !in s[..k] && Stands(p, s[k..])
  {
    CutStands(AnyName, p, [42], s);
  }

  lemma OneStands(t: Token, p: Bytes, head: Bytes, s: Bytes)
    requires head != [] && First(head + p) == (t, |head|)
    requires t.Lit? || t.AnyChar? || t.Class?
    ensures Stands(head + p, s) <==> s != [] && Denotes(t, [s[0]]) && Stands(p, s[1..])
  {
    hide First, Tokens, Denotes, InLanguage;
    AfterFirst(t, p, head);
    OneCharacter(t, Tokens(p), s);
  }

  /** A question mark stands for any character but a slash. */
  lemma AnyCharPattern(p: Bytes, s: Bytes)
    ensures Stands([63] + p, s) <==> s != [] && s[0] != 47 && Stands(p, s[1..])
  {
    OneStands(AnyChar, p, [63], s);
  }

  /** A plain character, or a bracket without an end, stands for itself. */
  lemma PlainPattern(c: Byte, p: Bytes, s: Bytes)
    requires c != 42 && c != 63
    requires c == 91 ==> p == [] || 93 !in p[if p[0] == 93 then 1 else 0..]
    ensures Stands([c] + p, s) <==> s != [] && s[0] == c && Stands(p, s[1..])
  {
    if c == 91 {
      NoClose(p);
    }
    OneStands(Lit(c), p, [c], s);
  }

  lemma NoClose(p: Bytes)
    requires p == [] || 93 !in p[if p[0] == 93 then 1 else 0..]
    ensures ClassEnd([91] + p) == |p| + 1
  {
    var q := [91] + p;
    var n := if p != [] && p[0] == 93 then 1 else 0;
    assert forall i :: 1 + n <= i < |q| ==> q[i] == p[n..][i - 1 - n];
  }

  /** Characters that have no meaning of their own in a class. */
  predicate PlainBody(b: Bytes) { forall i :: 0 <= i < |b| ==> b[i] != 33 && b[i] != 45 && b[i] != 93 }

  lemma {:induction false} PlainElements(b: Bytes, c: Byte)
    requires PlainBody(b)
    ensures InElements(c, Elements(b)) <==> c in b
    decreases |b|
  {
    hide InElements, Elements;
    if b == [] {
      NoElements(c);
    } else {
      ElementsStep(c, b);
      FirstElement(c, b);
      PlainElements(b[1..], c);
      assert b == [b[0]] + b[1..];
    }
  }

  lemma {:induction false} ClosesAt(p: Bytes, i: nat, j: nat)
    requires i <= j < |p| && p[j] == Close && forall k :: i <= k < j ==> p[k] != Close
    ensures FindClose(p, i) == j
    decreases j - i
  {
    if i < j {
      ClosesAt(p, i + 1, j);
    }
  }

  /** A class of plain characters stands for one of them, and with a bang for any other character. */
  lemma ClassPattern(b: Bytes, p: Bytes, s: Bytes)
    requires b != [] && PlainBody(b)
    ensures Stands([91] + b + [93] + p, s) <==> s != [] && s[0] in b && Stands(p, s[1..])
    ensures Stands([91, 33] + b + [93] + p, s) <==> s != [] && s[0] !in b && Stands(p, s[1..])
  {
    ClassRead([91] + b + [93], p, b);
    ClassRead([91, 33] + b + [93], p, [33] + b);
    OneStands(ClassOf(b), p, [91] + b + [93], s);
    OneStands(ClassOf([33] + b), p, [91, 33] + b + [93], s);
    if s != [] {
      assert ([33] + b)[1..] == b;
      PlainElements(b, s[0]);
    }
  }

  /** A bracket or dash in front of the others stands for itself, the bracket not behind a bang. */
  lemma LeadPattern(c: Byte, b: Bytes, p: Bytes, s: Bytes)
    requires PlainBody(b)
    ensures c == 93 || c == 45 ==>
              (Stands([91, c] + b + [93] + p, s) <==> s != [] && (s[0] == c || s[0] in b) && Stands(p, s[1..]))
    ensures c == 45 ==>
              (Stands([91, 33, c] + b + [93] + p, s) <==> s != [] && s[0] != c && s[0] !in b && Stands(p, s[1..]))
    ensures Stands([91, 33, 93] + p, s) <==> s != [] && Stands(p, s[1..])
  {
    if c == 93 || c == 45 {
      ClassRead([91, c] + b + [93], p, [c] + b);
      OneStands(ClassOf([c] + b), p, [91, c] + b + [93], s);
    }
    if c == 45 {
      ClassRead([91, 33, c] + b + [93], p, [33, c] + b);
      OneStands(ClassOf([33, c] + b), p, [91, 33, c] + b + [93], s);
    }
    ClassRead([91, 33, 93], p, [33]);
    OneStands(ClassOf([33]), p, [91, 33, 93], s);
    if s != [] {
      LeadElements(c, b, s[0]);
    }
  }

  lemma LeadElements(c: Byte, b: Bytes, x: Byte)
    requires PlainBody(b)
    ensures c == 93 || c == 45 ==> (Denotes(ClassOf([c] + b), [x]) <==> x == c || x in b)
    ensures c == 45 ==> (Denotes(ClassOf([33, c] + b), [x]) <==> x != c && x !in b)
    ensures Denotes(ClassOf([33]), [x])
  {
    hide InElements, Elements;
    PlainElements(b, x);
    ConsElements(x, One(c), Elements(b));
    NoElements(x);
    assert ([c] + b)[1..] == b && [33 as Byte][1..] == [];
    var all := [33, c] + b;
    assert all == [33] + ([c] + b) && all[1..] == [c] + b;
  }

  lemma ClassRead(head: Bytes, p: Bytes, body: Bytes)
    requires body != [] && head == [91] + body + [93] && 93 !in body[1..]
    ensures First(head + p) == (ClassOf(body), |head|)
  {
    hide ClassOf;
    var q := head + p;
    var j := |body| + 1;
    var i := if body[0] == 93 || body[0] == 45 then 2 else 1;
    assert forall k :: 1 <= k < j ==> q[k] == body[k - 1];
    assert forall k :: 2 <= k < j ==> q[k] == body[1..][k - 2];
    ClosesAt(q, i, j);
    assert q[1..j] == body;
  }

  /** A range stands for the characters between its ends, with those above 127 in front of the others. */
  lemma RangePattern(low: Byte, high: Byte, p: Bytes, s: Bytes)
    requires low != 33 && low != 45 && low != 93 && high != 93
    ensures Stands([91, low, 45, high, 93] + p, s) <==>
            s != [] && (low + 128) % 256 <= (s[0] + 128) % 256 <= (high + 128) % 256 && Stands(p, s[1..])
  {
    var body: Bytes := [low, 45, high];
    assert [91, low, 45, high, 93] == [91] + body + [93];
    ClassRead([91, low, 45, high, 93], p, body);
    OneStands(ClassOf(body), p, [91, low, 45, high, 93], s);
    if s != [] {
      RangeElements(low, high, s[0]);
    }
  }

  lemma RangeElements(low: Byte, high: Byte, x: Byte)
    requires low != 33 && low != 45 && low != 93 && high != 93
    ensures Denotes(ClassOf([low, 45, high]), [x]) <==>
            (low + 128) % 256 <= (x + 128) % 256 <= (high + 128) % 256
  {
    var body: Bytes := [low, 45, high];
    ElementsStep(x, body);
    FirstElement(x, body);
    assert body[3..] == [];
    NoElements(x);
  }

  /** Only what is in front of the first zero counts. */
  lemma {:induction false} UpToZero(s: Bytes, t: Bytes)
    requires 0 !in s
    ensures CString(s) == s && CString(s + [0] + t) == s
    decreases |s|
  {
    if s == [] {
    } else {
      UpToZero(s[1..], t);
      assert (s + [0] + t)[1..] == s[1..] + [0] + t;
    }
  }
}
