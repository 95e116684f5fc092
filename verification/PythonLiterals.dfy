/**
 The Python literals of the repository's grammar and what the rewriter makes of them: JSON of the same
 structure with the same strings, exactly if neither strings nor blanks hold what JSON refuses.
 */
module PythonLiterals {
  import opened Text
  import opened Json
  import opened PythonStrings
  import JL = JsonLaws
  import JT = JsonTracking
  import QN = QuoteNormalizer
  import QL = QuoteLaws

  // ---------------------------------------------------------------------------
  // The grammar
  // ---------------------------------------------------------------------------

  datatype WordName = PyTrue | PyFalse | PyNone | LowTrue | LowFalse | LowNull

  /** A literal; `inner` is the space inside empty brackets. */
  datatype Py =
    | Word(name: WordName)
    | Num(text: string)
    | Quoted(q: char, body: seq<Piece>)
    | Array(inner: string, items: Items)
    | Dict(inner: string, members: Fields)

  /** Elements with the space in front of and behind each. */
  datatype Items = NoItems | Item(before: string, value: Py, after: string, rest: Items)

  datatype Fields =
    | NoMembers
    | Member(before: string, q: char, key: seq<Piece>, mid: string, mid2: string, value: Py, after: string, rest: Fields)

  predicate AllSpace(s: string) { forall i :: 0 <= i < |s| ==> IsSpace(s[i]) }

  predicate InGrammar(p: Py) {
    match p
    case Word(_) => true
    case Num(text) => text != "" && NumberLength(text) == |text|
    case Quoted(q, body) => IsQuote(q) && AllFit(q, body)
    case Array(inner, items) => AllSpace(inner) && ItemsInGrammar(items)
    case Dict(inner, members) => AllSpace(inner) && MembersInGrammar(members)
  }

  predicate ItemsInGrammar(items: Items) {
    match items
    case NoItems => true
    case Item(before, value, after, rest) =>
      AllSpace(before) && InGrammar(value) && AllSpace(after) && ItemsInGrammar(rest)
  }

  predicate MembersInGrammar(members: Fields) {
    match members
    case NoMembers => true
    case Member(before, q, key, mid, mid2, value, after, rest) =>
      && AllSpace(before) && IsQuote(q) && AllFit(q, key) && AllSpace(mid) && AllSpace(mid2)
      && InGrammar(value) && AllSpace(after) && MembersInGrammar(rest)
  }

  function PyName(name: WordName): string {
    match name
    case PyTrue => "True"
    case PyFalse => "False"
    case PyNone => "None"
    case _ => JsonName(name)
  }

  function JsonName(name: WordName): string {
    match name
    case PyTrue => "true"
    case LowTrue => "true"
    case PyFalse => "false"
    case LowFalse => "false"
    case _ => "null"
  }

  /** The text of a literal; with `json` in JSON's spelling and quotes. */
  function TextOf(p: Py, json: bool): string {
    match p
    case Word(name) => if json then JsonName(name) else PyName(name)
    case Num(text) => text
    case Quoted(q, body) => QuotedText(q, body, json)
    case Array(inner, items) => "[" + (if items.NoItems? then inner + "]" else ItemsText(items, json))
    case Dict(inner, members) => "{" + (if members.NoMembers? then inner + "}" else MembersText(members, json))
  }

  function QuotedText(q: char, body: seq<Piece>, json: bool): string {
    if json then StringText('"', ConvertedAll(q, body)) else StringText(q, body)
  }

  /** The elements up to and including the closing bracket. */
  function ItemsText(items: Items, json: bool): string {
    match items
    case NoItems => "]"
    case Item(before, value, after, rest) =>
      before + (TextOf(value, json) + (after + (if rest.NoItems? then "]" else "," + ItemsText(rest, json))))
  }

  function MembersText(members: Fields, json: bool): string {
    match members
    case NoMembers => "}"
    case Member(before, q, key, mid, mid2, value, after, rest) =>
      before + (QuotedText(q, key, json) + (mid + (":" + (mid2 + (TextOf(value, json) +
        (after + (if rest.NoMembers? then "}" else "," + MembersText(rest, json))))))))
  }

  // ---------------------------------------------------------------------------
  // Rewriting
  // ---------------------------------------------------------------------------

  lemma SpaceToken(s: string)
    requires AllSpace(s)
    ensures Token(s, s, 0) && StartsOff(s) && EndsOff(s)
  {
    InertToken(s);
  }

  lemma MarkToken(c: char)
    requires c == '[' || c == ']' || c == ',' || c == ':'
    ensures Token([c], [c], 0) && StartsOff([c]) && EndsOff([c])
  {
    InertToken([c]);
  }

  lemma BraceTokens()
    ensures Token("{", "{", 1) && Token("}", "}", -1)
  {
    BraceToken('{', 1);
    BraceToken('}', -1);
  }

  lemma BraceToken(c: char, d: int)
    requires (c == '{' && d == 1) || (c == '}' && d == -1)
    ensures Token([c], [c], d)
  {
    assert QN.At([c], 0) == QN.Start && QN.Emit([c], 0) == [c] && QN.NormalizeTo([c], 0) == "";
    assert QN.OpenBraces([c], 0) == 0;
  }

  lemma NameToken(name: WordName)
    ensures Token(PyName(name), JsonName(name), 0)
  {
    var w := PyName(name);
    if name == LowTrue || name == LowFalse || name == LowNull {
      InertToken(w);
    } else {
      WordIs(w, 0, 0, |w|);
      assert w[0..|w|] == w && QN.IsLiteral(w) && QN.Spelling(w) == JsonName(name);
      assert QN.NormalizeTo(w, 0) == "" && QN.At(w, 0) == QN.Start;
      assert '{' !in w && '}' !in w;
      hide QN.Emit, QN.IsLiteral, QN.Spelling, QN.NormalizeTo, QN.At, QN.OpenBraces, IsWord, PyName, JsonName;
      QN.LiteralEmission(w, 0, w);
      QN.BareRun(w, 0, |w|);
      NoBraces(w, |w|);
    }
  }

  lemma {:induction false} NoBraces(s: string, k: nat)
    requires k <= |s| && '{' !in s && '}' !in s
    ensures QN.OpenBraces(s, k) == 0
    decreases k
  {
    hide QN.At;
    if k == 0 {
    } else {
      NoBraces(s, k - 1);
    }
  }

  lemma NumberToken(text: string)
    requires NumberLength(text) == |text|
    ensures Token(text, text, 0)
  {
    JT.NumberChars(text);
    InertToken(text);
  }

  /** Two parts that meet at a space or a mark. */
  lemma Parts(x: string, y: string, d: int, x2: string, y2: string, d2: int)
    requires Token(x, y, d) && Token(x2, y2, d2) && (EndsOff(x) || StartsOff(x2))
    ensures Token(x + x2, y + y2, d + d2)
  {
    Tokens(x, y, d, x2, y2, d2);
  }

  lemma StartsJoined(x: string, y: string)
    requires StartsOff(x) && StartsOff(y)
    ensures StartsOff(x + y)
  {
    if x != "" {
      assert (x + y)[0] == x[0];
    } else {
      assert x + y == y;
    }
  }

  /** Every literal is rewritten to the same literal in JSON's spelling. */
  lemma {:induction false} LiteralToken(p: Py)
    requires InGrammar(p)
    ensures Token(TextOf(p, false), TextOf(p, true), 0)
    decreases p
  {
    hide Token, StartsOff, EndsOff, AllSpace, NumberLength, QN.OpenBraces;
    match p {
      case Word(name) => NameToken(name);
      case Num(text) => NumberToken(text);
      case Quoted(q, body) => StringToken(q, body);
      case Array(inner, items) =>
        MarkToken('[');
        if items.NoItems? {
          SpaceToken(inner);
          MarkToken(']');
          Parts(inner, inner, 0, "]", "]", 0);
          Parts("[", "[", 0, inner + "]", inner + "]", 0);
        } else {
          ItemsToken(items);
          Parts("[", "[", 0, ItemsText(items, false), ItemsText(items, true), 0);
        }
      case Dict(inner, members) =>
        BraceTokens();
        BracesOff();
        if members.NoMembers? {
          SpaceToken(inner);
          Parts(inner, inner, 0, "}", "}", -1);
          Parts("{", "{", 1, inner + "}", inner + "}", -1);
        } else {
          MembersToken(members);
          Parts("{", "{", 1, MembersText(members, false), MembersText(members, true), -1);
        }
    }
  }

  lemma BracesOff()
    ensures StartsOff("{") && EndsOff("{") && StartsOff("}") && EndsOff("}")
  {}

  /** A value between spaces, and what follows. */
  lemma ValueToken(before: string, x: string, y: string, after: string, t: string, u: string, d: int)
    requires AllSpace(before) && AllSpace(after) && Token(x, y, 0) && Token(t, u, d) && StartsOff(t)
    ensures Token(before + (x + (after + t)), before + (y + (after + u)), d)
  {
    hide Token, StartsOff, EndsOff;
    SpaceToken(before);
    SpaceToken(after);
    Parts(after, after, 0, t, u, d);
    StartsJoined(after, t);
    Parts(x, y, 0, after + t, after + u, d);
    Parts(before, before, 0, x + (after + t), y + (after + u), d);
  }

  /** A mark in front of anything. */
  lemma MarkThen(c: char, t: string, u: string, d: int)
    requires (c == ',' || c == ':') && Token(t, u, d)
    ensures Token([c] + t, [c] + u, d) && StartsOff([c] + t)
  {
    hide Token, EndsOff;
    MarkToken(c);
    Parts([c], [c], 0, t, u, d);
    assert ([c] + t)[0] == c;
  }

  lemma {:induction false} ItemsToken(items: Items)
    requires ItemsInGrammar(items) && items.Item?
    ensures Token(ItemsText(items, false), ItemsText(items, true), 0)
    decreases items
  {
    hide Token, StartsOff, EndsOff, AllSpace, TextOf;
    var Item(before, value, after, rest) := items;
    LiteralToken(value);
    if rest.NoItems? {
      MarkToken(']');
      ValueToken(before, TextOf(value, false), TextOf(value, true), after, "]", "]", 0);
    } else {
      ItemsToken(rest);
      MarkThen(',', ItemsText(rest, false), ItemsText(rest, true), 0);
      ValueToken(before, TextOf(value, false), TextOf(value, true), after,
        "," + ItemsText(rest, false), "," + ItemsText(rest, true), 0);
    }
  }

  lemma {:induction false} MembersToken(members: Fields)
    requires MembersInGrammar(members) && members.Member?
    ensures Token(MembersText(members, false), MembersText(members, true), -1)
    decreases members
  {
    hide Token, StartsOff, EndsOff, AllSpace, TextOf, StringText, ConvertedAll, AllFit;
    var Member(before, q, key, mid, mid2, value, after, rest) := members;
    LiteralToken(value);
    StringToken(q, key);
    BraceTokens();
    BracesOff();
    var t, u := "}", "}";
    if !rest.NoMembers? {
      MembersToken(rest);
      t, u := "," + MembersText(rest, false), "," + MembersText(rest, true);
      MarkThen(',', MembersText(rest, false), MembersText(rest, true), -1);
    }
    ValueToken(mid2, TextOf(value, false), TextOf(value, true), after, t, u, -1);
    var t2, u2 := mid2 + (TextOf(value, false) + (after + t)), mid2 + (TextOf(value, true) + (after + u));
    MarkThen(':', t2, u2, -1);
    ValueToken(before, QuotedText(q, key, false), QuotedText(q, key, true), mid, ":" + t2, ":" + u2, -1);
  }

  // ---------------------------------------------------------------------------
  // What JSON refuses
  // ---------------------------------------------------------------------------

  /** No vertical tab and no form feed, which are space for the grammar but not for JSON. */
  predicate JsonSpace(s: string) { forall i :: 0 <= i < |s| ==> IsBlank(s[i]) }

  predicate Clean(p: Py) {
    match p
    case Word(_) => true
    case Num(_) => true
    case Quoted(_, body) => CleanBody(body)
    case Array(inner, items) => if items.NoItems? then JsonSpace(inner) else CleanItems(items)
    case Dict(inner, members) => if members.NoMembers? then JsonSpace(inner) else CleanMembers(members)
  }

  predicate CleanItems(items: Items) {
    match items
    case NoItems => true
    case Item(before, value, after, rest) => JsonSpace(before) && Clean(value) && JsonSpace(after) && CleanItems(rest)
  }

  predicate CleanMembers(members: Fields) {
    match members
    case NoMembers => true
    case Member(before, _, key, mid, mid2, value, after, rest) =>
      && JsonSpace(before) && CleanBody(key) && JsonSpace(mid) && JsonSpace(mid2)
      && Clean(value) && JsonSpace(after) && CleanMembers(rest)
  }

  /** The structure of a literal, with the characters of its strings. */
  function Meaning(p: Py): Value
    requires Clean(p)
  {
    match p
    case Word(name) =>
      if JsonName(name) == "true" then Bool(true) else if JsonName(name) == "false" then Bool(false) else Null
    case Num(text) => Number(text)
    case Quoted(_, body) => Str(Content(body))
    case Array(_, items) => Arr(if items.NoItems? then [] else Elements(items))
    case Dict(_, members) => Obj(if members.NoMembers? then [] else Entries(members))
  }

  function Elements(items: Items): seq<Value>
    requires CleanItems(items)
  {
    match items
    case NoItems => []
    case Item(_, value, _, rest) => [Meaning(value)] + Elements(rest)
  }

  function Entries(members: Fields): seq<(string, Value)>
    requires CleanMembers(members)
  {
    match members
    case NoMembers => []
    case Member(_, _, key, _, _, value, _, rest) => [(Content(key), Meaning(value))] + Entries(rest)
  }

  // ---------------------------------------------------------------------------
  // Reading
  // ---------------------------------------------------------------------------

  /** What no JSON text continues with. */
  predicate Refused(s: string) { s != "" && (s[0] == 11 as char || s[0] == 12 as char) }

  lemma {:induction false} SpaceSkipped(b: string, u: string)
    requires AllSpace(b) && u != "" && !IsSpace(u[0])
    ensures if JsonSpace(b) then Skip(b + u) == u else Refused(Skip(b + u))
    decreases |b|
  {
    if b == "" {
      assert b + u == u;
    } else {
      SpaceSkipped(b[1..], u);
      assert (b + u)[0] == b[0] && (b + u)[1..] == b[1..] + u;
      assert JsonSpace(b) <==> IsBlank(b[0]) && JsonSpace(b[1..]);
    }
  }

  lemma RefusedFails(s: string)
    requires Refused(Skip(s))
    ensures ReadValue(s) == Fail
  {
    var t := Skip(s);
    assert Digits(t, 0) == 0;
    hide Digits, Skip;
  }

  lemma {:induction false} SkipTwice(s: string)
    ensures Skip(Skip(s)) == Skip(s)
  {}

  lemma ReadsSkipped(s: string)
    ensures ReadValue(s) == ReadValue(Skip(s))
  {
    SkipTwice(s);
    hide Skip, ReadBody, ReadItems, ReadMembers, ReadAtom;
  }

  lemma SpaceOrMark(after: string, t: string)
    requires AllSpace(after) && t != "" && !IsSpace(t[0]) && JL.Stops(t)
    ensures JL.Stops(after + t) && after + t != ""
  {
    if after != "" {
      assert (after + t)[0] == after[0];
    } else {
      assert after + t == t;
    }
  }

  lemma FirstChar(p: Py)
    requires InGrammar(p)
    ensures TextOf(p, true) != "" && !IsSpace(TextOf(p, true)[0]) && TextOf(p, true)[0] != ']'
  {
    if p.Num? {
      JL.NumberStart(p.text);
    }
    hide ItemsText, MembersText, BodyText, ConvertedAll, NumberLength;
  }

  /** A value between spaces. */
  lemma ValueReads(before: string, p: Py, after: string, t: string)
    requires AllSpace(before) && InGrammar(p) && AllSpace(after) && t != "" && !IsSpace(t[0]) && JL.Stops(t)
    requires ReadValue(TextOf(p, true) + (after + t)) == if Clean(p) then Got(Meaning(p), after + t) else Fail
    ensures ReadValue(before + (TextOf(p, true) + (after + t))) ==
            if JsonSpace(before) && Clean(p) then Got(Meaning(p), after + t) else Fail
    ensures if JsonSpace(after) then Skip(after + t) == t else Refused(Skip(after + t))
  {
    hide ReadValue, TextOf, InGrammar, Clean, Meaning, Skip, AllSpace, JsonSpace, Refused, IsSpace;
    var x := TextOf(p, true) + (after + t);
    FirstChar(p);
    assert x[0] == TextOf(p, true)[0];
    SpaceSkipped(before, x);
    SpaceSkipped(after, t);
    if JsonSpace(before) {
      ReadsSkipped(before + x);
    } else {
      RefusedFails(before + x);
    }
  }

  lemma NameReads(name: WordName, u: string)
    ensures ReadValue(JsonName(name) + u) == Got(Meaning(Word(name)), u)
  {
    var w := JsonName(name);
    assert Skip(w + u) == w + u;
    assert w <= w + u && (w + u)[|w|..] == u;
    assert (w + u)[0] == w[0];
    hide ReadBody, ReadItems, ReadMembers, NumberLength;
  }

  lemma NumberReads(text: string, u: string)
    requires text != "" && NumberLength(text) == |text| && JL.Stops(u)
    ensures ReadValue(text + u) == Got(Number(text), u)
  {
    JL.NumberStart(text);
    JL.NumberExtends(text, u);
    hide NumberLength, ReadBody, ReadItems, ReadMembers;
    assert (text + u)[0] == text[0];
    assert Skip(text + u) == text + u;
    assert (text + u)[..|text|] == text && (text + u)[|text|..] == u;
  }

  lemma QuotedReads(q: char, body: seq<Piece>, u: string)
    requires IsQuote(q) && AllFit(q, body)
    ensures var t := QuotedText(q, body, true) + u;
            && t[0] == '"' && Skip(t) == t
            && ReadBody(t[1..]) == (if CleanBody(body) then Got(Content(body), u) else Fail)
            && ReadValue(t) == if CleanBody(body) then Got(Str(Content(body)), u) else Fail
  {
    var cs := ConvertedAll(q, body);
    hide BodyText, ConvertedAll, CleanBody, Content, AllFit, ReadBody;
    ConvertedBody(q, body);
    BodyReads(cs, u);
    var t := QuotedText(q, body, true) + u;
    assert t[1..] == BodyText(cs) + "\"" + u;
    assert Skip(t) == t;
  }

  lemma EmptyReads(open: char, inner: string, close: char, u: string)
    requires AllSpace(inner) && ((open == '[' && close == ']') || (open == '{' && close == '}'))
    ensures ReadValue([open] + (inner + [close]) + u) ==
            if JsonSpace(inner) then Got(if open == '[' then Arr([]) else Obj([]), u) else Fail
  {
    var s := [open] + (inner + [close]) + u;
    assert s[1..] == inner + ([close] + u) && s[0] == open && Skip(s) == s;
    SpaceSkipped(inner, [close] + u);
    assert ([close] + u)[1..] == u;
    if !JsonSpace(inner) {
      InnerFails(s[1..]);
    }
    hide Skip, ReadItems, ReadMembers, ReadBody, JsonSpace;
  }

  lemma InnerFails(s: string)
    requires Refused(Skip(s))
    ensures ReadItems(s) == Fail && ReadMembers(s) == Fail
  {
    RefusedFails(s);
    hide ReadValue, Skip;
  }

  /** JSON's spelling of a literal is read as its meaning, exactly if the literal is clean. */
  lemma {:induction false} LiteralReads(p: Py, u: string)
    requires InGrammar(p) && JL.Stops(u)
    ensures ReadValue(TextOf(p, true) + u) == if Clean(p) then Got(Meaning(p), u) else Fail
    decreases p, 1
  {
    hide ReadValue, AllSpace, JsonSpace, NumberLength, CleanBody, Content, QuotedText, AllFit, JL.Stops;
    match p {
      case Word(name) => NameReads(name, u);
      case Num(text) => NumberReads(text, u);
      case Quoted(q, body) => QuotedReads(q, body, u);
      case Array(inner, items) =>
        if items.NoItems? {
          EmptyReads('[', inner, ']', u);
        } else {
          ItemsRead(items, u);
          ItemsOpen(items, u);
          OpenReads('[', ItemsText(items, true), u);
        }
      case Dict(inner, members) =>
        if members.NoMembers? {
          EmptyReads('{', inner, '}', u);
        } else {
          MembersRead(members, u);
          MembersOpen(members, u);
          OpenReads('{', MembersText(members, true), u);
        }
    }
  }

  lemma OpenReads(open: char, t: string, u: string)
    requires (open == '[' && Skip(t + u) != "" && Skip(t + u)[0] != ']') || (open == '{' && Skip(t + u) != "" && Skip(t + u)[0] != '}')
    ensures ReadValue([open] + t + u) ==
            if open == '[' then (var r := ReadItems(t + u); if r.Fail? then Fail else Got(Arr(r.value), r.rest))
            else (var r := ReadMembers(t + u); if r.Fail? then Fail else Got(Obj(r.value), r.rest))
  {
    hide ReadValue, ReadItems, ReadMembers, Skip;
    var s := [open] + t + u;
    assert s[1..] == t + u && s[0] == open;
    if open == '[' { ArrayOpens(s); } else { ObjectOpens(s); }
  }

  lemma ArrayOpens(s: string)
    requires s != "" && s[0] == '[' && Skip(s[1..]) != "" && Skip(s[1..])[0] != ']'
    ensures ReadValue(s) == var r := ReadItems(s[1..]); if r.Fail? then Fail else Got(Arr(r.value), r.rest)
  {
    assert Skip(s) == s;
    hide Skip, ReadItems, ReadMembers, ReadBody, ReadAtom;
  }

  lemma ObjectOpens(s: string)
    requires s != "" && s[0] == '{' && Skip(s[1..]) != "" && Skip(s[1..])[0] != '}'
    ensures ReadValue(s) == var r := ReadMembers(s[1..]); if r.Fail? then Fail else Got(Obj(r.value), r.rest)
  {
    assert Skip(s) == s;
    hide Skip, ReadItems, ReadMembers, ReadBody, ReadAtom;
  }

  lemma SkippedStart(before: string, x: string)
    requires AllSpace(before) && x != "" && !IsSpace(x[0])
    ensures Skip(before + x) != "" && (Skip(before + x)[0] == x[0] || Refused(Skip(before + x)))
  {
    SpaceSkipped(before, x);
  }

  lemma ItemsOpen(items: Items, u: string)
    requires ItemsInGrammar(items) && items.Item?
    ensures Skip(ItemsText(items, true) + u) != "" && Skip(ItemsText(items, true) + u)[0] != ']'
  {
    hide Skip, AllSpace, TextOf, InGrammar;
    var x := TextOf(items.value, true);
    FirstChar(items.value);
    var t := if items.rest.NoItems? then "]" else "," + ItemsText(items.rest, true);
    hide ItemsText;
    var tail := items.after + t;
    assert items.before + (x + tail) + u == items.before + (x + tail + u);
    assert (x + tail + u)[0] == x[0];
    SkippedStart(items.before, x + tail + u);
  }

  lemma MembersOpen(members: Fields, u: string)
    requires MembersInGrammar(members) && members.Member?
    ensures Skip(MembersText(members, true) + u) != "" && Skip(MembersText(members, true) + u)[0] != '}'
  {
    hide Skip, AllSpace, TextOf, InGrammar, AllFit, BodyText, ConvertedAll;
    var Member(before, q, key, mid, mid2, value, after, rest) := members;
    var x := QuotedText(q, key, true);
    var tail := MembersText(members, true)[|before| + |x|..];
    assert MembersText(members, true) == before + (x + tail);
    hide MembersText;
    assert before + (x + tail) + u == before + (x + tail + u);
    assert (x + tail + u)[0] == x[0] == '"';
    SkippedStart(before, x + tail + u);
  }

  lemma ReadItemsOne(s: string, t: string)
    requires ReadValue(s).Got? ==> Skip(ReadValue(s).rest) == t || Refused(Skip(ReadValue(s).rest))
    requires t != "" && (t[0] == ']' || t[0] == ',')
    ensures ReadItems(s) ==
            if ReadValue(s).Fail? || Skip(ReadValue(s).rest) != t then Fail
            else if t[0] == ']' then Got([ReadValue(s).value], t[1..])
            else (var r := ReadItems(t[1..]); if r.Fail? then Fail else Got([ReadValue(s).value] + r.value, r.rest))
  {
    hide ReadValue, Skip;
  }

  lemma LastElement(items: Items)
    requires items.Item? && items.rest.NoItems?
    ensures CleanItems(items) <==> JsonSpace(items.before) && Clean(items.value) && JsonSpace(items.after)
    ensures CleanItems(items) ==> Elements(items) == [Meaning(items.value)]
  {
    hide Clean, Meaning, JsonSpace;
  }

  lemma LastEntry(members: Fields)
    requires members.Member? && members.rest.NoMembers?
    ensures CleanMembers(members) ==> Entries(members) == [(Content(members.key), Meaning(members.value))]
  {
    hide Clean, Meaning, JsonSpace, CleanBody, Content;
  }

  lemma {:induction false} ItemsRead(items: Items, u: string)
    requires ItemsInGrammar(items) && items.Item?
    ensures ReadItems(ItemsText(items, true) + u) == if CleanItems(items) then Got(Elements(items), u) else Fail
    decreases items, 2
  {
    hide ReadValue, ReadItems, TextOf, InGrammar, Clean, Meaning, Skip, AllSpace, JsonSpace;
    var Item(before, value, after, rest) := items;
    var t := if rest.NoItems? then "]" else "," + ItemsText(rest, true);
    var x := TextOf(value, true);
    assert ItemsText(items, true) + u == before + (x + (after + (t + u)));
    assert t[0] == ']' || t[0] == ',';
    SpaceOrMark(after, t + u);
    LiteralReads(value, after + (t + u));
    ValueReads(before, value, after, t + u);
    ReadItemsOne(before + (x + (after + (t + u))), t + u);
    assert (t + u)[1..] == t[1..] + u;
    if !rest.NoItems? {
      assert t[1..] == ItemsText(rest, true);
      ItemsRead(rest, u);
    } else {
      assert t[1..] + u == u;
      LastElement(items);
    }
  }

  lemma {:induction false} MembersRead(members: Fields, u: string)
    requires MembersInGrammar(members) && members.Member?
    ensures ReadMembers(MembersText(members, true) + u) == if CleanMembers(members) then Got(Entries(members), u) else Fail
    decreases members, 2
  {
    hide ReadMember, ReadMembers, TextOf, InGrammar, Clean, Meaning, Skip, AllSpace, JsonSpace, QuotedText, CleanBody, Content, AllFit;
    var Member(before, q, key, mid, mid2, value, after, rest) := members;
    var t := if rest.NoMembers? then "}" else "," + MembersText(rest, true);
    var x := TextOf(value, true);
    var tail := mid + (":" + (mid2 + (x + (after + (t + u)))));
    assert MembersText(members, true) + u == before + (QuotedText(q, key, true) + tail);
    assert t[0] == '}' || t[0] == ',';
    SpaceOrMark(after, t + u);
    LiteralReads(value, after + (t + u));
    ValueReads(mid2, value, after, t + u);
    MemberRead(before, q, key, mid, mid2 + (x + (after + (t + u))));
    ReadMembersOne(before + (QuotedText(q, key, true) + tail), t + u);
    assert (t + u)[1..] == t[1..] + u;
    if !rest.NoMembers? {
      assert t[1..] == MembersText(rest, true);
      MembersRead(rest, u);
    } else {
      assert t[1..] + u == u;
      LastEntry(members);
    }
  }

  /** The name of a member, the colon, and a value to come. */
  lemma MemberRead(before: string, q: char, key: seq<Piece>, mid: string, v: string)
    requires AllSpace(before) && IsQuote(q) && AllFit(q, key) && AllSpace(mid)
    ensures ReadMember(before + (QuotedText(q, key, true) + (mid + (":" + v)))) ==
            if JsonSpace(before) && CleanBody(key) && JsonSpace(mid) then
              (var r := ReadValue(v); if r.Fail? then Fail else Got((Content(key), r.value), r.rest))
            else Fail
  {
    hide ReadValue, ReadBody, Skip, AllSpace, JsonSpace, QuotedText, CleanBody, Content, AllFit;
    var rest := mid + (":" + v);
    var x := QuotedText(q, key, true) + rest;
    QuotedReads(q, key, rest);
    SpaceSkipped(before, x);
    SpaceSkipped(mid, ":" + v);
    assert (":" + v)[1..] == v;
  }

  lemma ReadMembersOne(s: string, t: string)
    requires ReadMember(s).Got? ==> Skip(ReadMember(s).rest) == t || Refused(Skip(ReadMember(s).rest))
    requires t != "" && (t[0] == '}' || t[0] == ',')
    ensures ReadMembers(s) ==
            if ReadMember(s).Fail? || Skip(ReadMember(s).rest) != t then Fail
            else if t[0] == '}' then Got([ReadMember(s).value], t[1..])
            else (var r := ReadMembers(t[1..]); if r.Fail? then Fail else Got([ReadMember(s).value] + r.value, r.rest))
  {
    hide ReadMember, Skip;
  }

  // ---------------------------------------------------------------------------
  // The purpose of the rewriter
  // ---------------------------------------------------------------------------

  /**
   Every literal of the grammar, with the space behind it, is rewritten to JSON of the same structure
   and the same strings, exactly if it is clean; otherwise the result is no JSON at all.
   */
  lemma PythonBecomesJson(p: Py, tail: string)
    requires InGrammar(p) && AllSpace(tail)
    ensures var y := QN.Normalize(TextOf(p, false) + tail);
            && y == TextOf(p, true) + tail
            && (Clean(p) && JsonSpace(tail) ==> Denotes(y, Meaning(p)))
            && (!(Clean(p) && JsonSpace(tail)) ==> forall v :: !Denotes(y, v))
  {
    hide Token, ReadValue, TextOf, InGrammar, Clean, Meaning, StartsOff, EndsOff;
    LiteralToken(p);
    SpaceToken(tail);
    Parts(TextOf(p, false), TextOf(p, true), 0, tail, tail, 0);
    TokenRewrites(TextOf(p, false) + tail, TextOf(p, true) + tail, 0);
    assert JL.Stops(tail);
    LiteralReads(p, tail);
    SpaceLeft(tail);
  }

  lemma TokenRewrites(x: string, y: string, d: int)
    requires Token(x, y, d)
    ensures QN.Normalize(x) == y
    ensures QL.ScanText(QL.Clean, y) == QL.Scan(d, false, false)
  {
    QL.OutputSimulatesInput(x);
  }

  lemma {:induction false} SpaceLeft(tail: string)
    requires AllSpace(tail)
    ensures Skip(tail) == "" <==> JsonSpace(tail)
    decreases |tail|
  {
    if tail == "" {
    } else {
      SpaceLeft(tail[1..]);
      assert JsonSpace(tail) <==> IsBlank(tail[0]) && JsonSpace(tail[1..]);
    }
  }

  lemma {:induction false} ScanFrom(d: int, s: string)
    ensures var r := QL.ScanText(QL.Clean, s);
            QL.ScanText(QL.Scan(d, false, false), s) == QL.Scan(r.depth + d, r.inString, r.escaped)
    decreases |s|
  {
    if s == "" {
    } else {
      ScanFrom(d, s[..|s| - 1]);
    }
  }

  /** What the rewriter makes of a literal closes its strings and its braces, clean or not. */
  lemma PythonIsBalanced(p: Py, tail: string, d: int)
    requires InGrammar(p) && AllSpace(tail)
    ensures QL.ScanText(QL.Scan(d, false, false), QN.Normalize(TextOf(p, false) + tail)) == QL.Scan(d, false, false)
  {
    hide Token, TextOf, InGrammar, StartsOff, EndsOff, QL.ScanText;
    LiteralToken(p);
    SpaceToken(tail);
    Parts(TextOf(p, false), TextOf(p, true), 0, tail, tail, 0);
    TokenRewrites(TextOf(p, false) + tail, TextOf(p, true) + tail, 0);
    ScanFrom(d, TextOf(p, true) + tail);
  }
}
