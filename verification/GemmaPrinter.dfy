/**
 The printer of Gemma 4 tool arguments in chat-peg-parser.cpp: it turns a possibly partial syntax
 tree into JSON text, leaving open whatever the tree leaves open.
 */
module GemmaPrinter {
  import opened Json
  import JsonLaws

  datatype Rule =
    | NumberRule | BoolRule | NullRule
    | StringContent | StringRule
    | ArrayRule
    | DictKeyName | DictKey | DictKv | DictRule
    | ValueRule
    | OtherRule

  datatype Ast = Ast(rule: Rule, text: string, isPartial: bool, children: seq<Ast>)

  /** `close` unless the node is still being written. */
  function Unless(partial: bool, close: string): string { if partial then "" else close }

  function Print(n: Ast): string
    decreases n, 0
  {
    if n.text == "" then ""
    else match n.rule
      case NumberRule => n.text
      case BoolRule => n.text
      case NullRule => n.text
      case StringContent => Escape(n.text)
      case StringRule =>
        if n.children == [] then "\"" else "\"" + Print(n.children[0]) + Unless(n.isPartial, "\"")
      case ArrayRule => "[" + PrintList(n.children) + Unless(n.isPartial, "]")
      case DictKeyName => n.text
      case DictKey =>
        "\"" + (if n.children == [] then "" else Escape(Print(n.children[0]))) + Unless(n.isPartial, "\":")
      case DictKv => PrintAll(n.children)
      case DictRule => "{" + PrintList(n.children) + Unless(n.isPartial, "}")
      case ValueRule => if n.children == [] then "" else Print(n.children[0])
      case OtherRule => ""
  }

  /** The children in order with commas between them. */
  function PrintList(cs: seq<Ast>): string
    decreases cs, 1
  {
    if cs == [] then ""
    else (if |cs| == 1 then "" else PrintList(cs[..|cs| - 1]) + ",") + Print(cs[|cs| - 1])
  }

  /** The children in order with nothing between them. */
  function PrintAll(cs: seq<Ast>): string
    decreases cs, 1
  {
    if cs == [] then "" else PrintAll(cs[..|cs| - 1]) + Print(cs[|cs| - 1])
  }

  method PrintChildren(cs: seq<Ast>, commas: bool) returns (result: string)
    ensures result == if commas then PrintList(cs) else PrintAll(cs)
  {
    result := "";
    var addComma := false;
    for i := 0 to |cs|
      invariant addComma == (commas && i > 0)
      invariant result == if commas then PrintList(cs[..i]) else PrintAll(cs[..i])
    {
      assert cs[..i + 1][..i] == cs[..i];
      if addComma {
        result := result + ",";
      }
      addComma := commas;
      result := result + Print(cs[i]);
    }
    assert cs[..|cs|] == cs;
  }

  // ---------------------------------------------------------------------------
  // Printing a growing tree
  // ---------------------------------------------------------------------------

  /** `b` differs from `a` only along the unfinished right edge of `a`. */
  predicate Extends(a: Ast, b: Ast)
    decreases a
  {
    a == b
    || (
      && a.isPartial && a.rule == b.rule && a.text <= b.text
      && (a.children != [] ==>
            var k := |a.children| - 1;
            |a.children| <= |b.children| && a.children[..k] == b.children[..k]
            && Extends(a.children[k], b.children[k])))
  }

  lemma {:induction false} ListGrows(cs: seq<Ast>, n: nat)
    requires n <= |cs|
    ensures PrintList(cs[..n]) <= PrintList(cs)
    ensures PrintAll(cs[..n]) <= PrintAll(cs)
    decreases |cs|
  {
    hide Print;
    if n < |cs| {
      var m := |cs| - 1;
      ListGrows(cs[..m], n);
      assert cs[..m][..n] == cs[..n];
      if m == 0 {
        assert cs[..n] == [];
      }
    } else {
      assert cs[..n] == cs;
    }
  }

  /** What is printed in front of the last child. */
  function Front(cs: seq<Ast>): string { if cs == [] then "" else PrintList(cs) + "," }

  lemma SnocList(cs: seq<Ast>, c: Ast)
    ensures PrintList(cs + [c]) == Front(cs) + Print(c)
    ensures PrintAll(cs + [c]) == PrintAll(cs) + Print(c)
  {
    hide Print;
    assert (cs + [c])[..|cs|] == cs;
  }

  lemma PrefixUnder(x: string, p: string, q: string)
    requires p <= q
    ensures x + p <= x + q
  {}

  /** Replacing the last child by one that prints more, and adding children, prints more. */
  lemma LastGrows(a: seq<Ast>, b: seq<Ast>)
    requires a != [] && |a| <= |b| && a[..|a| - 1] == b[..|a| - 1]
    requires Print(a[|a| - 1]) <= Print(b[|a| - 1])
    ensures PrintList(a) <= PrintList(b)
    ensures PrintAll(a) <= PrintAll(b)
  {
    hide Print, PrintList, PrintAll;
    var n := |a|;
    var front, x, y := a[..n - 1], a[n - 1], b[n - 1];
    assert a == front + [x] && b[..n] == front + [y];
    SnocList(front, x);
    SnocList(front, y);
    PrefixUnder(Front(front), Print(x), Print(y));
    PrefixUnder(PrintAll(front), Print(x), Print(y));
    ListGrows(b, n);
  }

  lemma ConcatGrows(x: string, p: string, q: string, y: string)
    requires p <= q
    ensures x + p <= x + q + y
    ensures x + p + "" <= x + q + y
  {}

  /**
   Printing is append-only: a tree that extends another along its unfinished right edge prints
   the other's text first.
   */
  lemma {:induction false} PrintMonotone(a: Ast, b: Ast)
    requires Extends(a, b)
    ensures Print(a) <= Print(b)
    decreases a
  {
    if a != b && a.text != "" {
      if a.children != [] {
        PrintMonotone(a.children[|a.children| - 1], b.children[|a.children| - 1]);
        LastGrows(a.children, b.children);
      } else {
        assert PrintList(a.children) == "" && PrintAll(a.children) == "";
      }
      FirstChild(a, b);
      match a.rule {
        case StringContent =>
          EscapeMonotone(a.text, b.text);
        case ArrayRule =>
          ConcatGrows("[", PrintList(a.children), PrintList(b.children), Unless(b.isPartial, "]"));
        case DictRule =>
          ConcatGrows("{", PrintList(a.children), PrintList(b.children), Unless(b.isPartial, "}"));
        case StringRule =>
          if a.children != [] {
            ConcatGrows("\"", Print(a.children[0]), Print(b.children[0]), Unless(b.isPartial, "\""));
          }
        case DictKey =>
          if a.children != [] {
            EscapeMonotone(Print(a.children[0]), Print(b.children[0]));
            ConcatGrows("\"", Escape(Print(a.children[0])), Escape(Print(b.children[0])), Unless(b.isPartial, "\":"));
          }
        case _ =>
      }
    }
  }

  lemma FirstChild(a: Ast, b: Ast)
    requires Extends(a, b)
    requires a.children != [] ==> b.children != [] && |a.children| <= |b.children|
    requires a.children != [] ==> Print(a.children[|a.children| - 1]) <= Print(b.children[|a.children| - 1])
    ensures a.children != [] ==> Print(a.children[0]) <= Print(b.children[0])
  {
    hide Print;
    if |a.children| > 1 && a != b {
      assert a.children[..|a.children| - 1][0] == b.children[..|a.children| - 1][0];
    }
  }

  // ---------------------------------------------------------------------------
  // Printing a finished tree
  // ---------------------------------------------------------------------------

  /** A finished value: every string has its content child, every member its key and value. */
  predicate IsValueTree(n: Ast)
    decreases n, 0
  {
    && !n.isPartial && n.text != ""
    && match n.rule
       case NumberRule => NumberLength(n.text) == |n.text|
       case BoolRule => n.text == "true" || n.text == "false"
       case NullRule => n.text == "null"
       case StringRule => |n.children| == 1 && n.children[0].rule == StringContent
       case ArrayRule => AreValueTrees(n.children)
       case DictRule => AreMembers(n.children)
       case ValueRule => |n.children| == 1 && IsValueTree(n.children[0])
       case _ => false
  }

  predicate AreValueTrees(cs: seq<Ast>)
    decreases cs, 1
  {
    forall i :: 0 <= i < |cs| ==> IsValueTree(cs[i])
  }

  predicate IsKey(n: Ast) {
    && n.rule == DictKey && !n.isPartial && n.text != ""
    && |n.children| == 1 && n.children[0].rule == DictKeyName
  }

  predicate AreMembers(cs: seq<Ast>)
    decreases cs, 1
  {
    forall i :: 0 <= i < |cs| ==>
      && cs[i].rule == DictKv && cs[i].text != "" && |cs[i].children| == 2
      && IsKey(cs[i].children[0])
      && IsValueTree(cs[i].children[1])
  }

  /** The JSON value a finished tree stands for. */
  function Meaning(n: Ast): Value
    requires IsValueTree(n)
    decreases n, 0
  {
    match n.rule
    case NumberRule => Number(n.text)
    case BoolRule => Bool(n.text == "true")
    case NullRule => Null
    case StringRule => Str(n.children[0].text)
    case ArrayRule => Arr(Meanings(n.children))
    case DictRule => Obj(MemberMeanings(n.children))
    case ValueRule => Meaning(n.children[0])
  }

  function Meanings(cs: seq<Ast>): seq<Value>
    requires AreValueTrees(cs)
    decreases cs, 1
  {
    if cs == [] then [] else [Meaning(cs[0])] + Meanings(cs[1..])
  }

  function MemberMeanings(cs: seq<Ast>): seq<(string, Value)>
    requires AreMembers(cs)
    decreases cs, 1
  {
    if cs == [] then []
    else [(cs[0].children[0].children[0].text, Meaning(cs[0].children[1]))] + MemberMeanings(cs[1..])
  }

  lemma {:induction false} ConsList(c: Ast, cs: seq<Ast>)
    ensures PrintList([c] + cs) == Print(c) + (if cs == [] then "" else "," + PrintList(cs))
    decreases |cs|
  {
    hide Print;
    if cs == [] {
      assert [c] + cs == [] + [c];
      SnocList([], c);
    } else {
      hide PrintList;
      var n := |cs| - 1;
      assert [c] + cs == ([c] + cs[..n]) + [cs[n]] && cs == cs[..n] + [cs[n]];
      ConsList(c, cs[..n]);
      SnocList([c] + cs[..n], cs[n]);
      SnocList(cs[..n], cs[n]);
    }
  }

  lemma StartsValue(s: string)
    requires ReadValue(s).Got?
    ensures Skip(s) != "" && Skip(s)[0] != ']'
  {}

  lemma AtomReads(n: Ast, u: string)
    requires IsValueTree(n) && n.rule in {NumberRule, BoolRule, NullRule} && JsonLaws.Stops(u)
    ensures ReadValue(n.text + u) == Got(Meaning(n), u)
  {
    assert ReadAtom(n.text) == Got(Meaning(n), "") by {
      assert n.text[..|n.text|] == n.text && n.text[|n.text|..] == "";
      if n.rule == NumberRule {
        JsonLaws.NumberStart(n.text);
      }
    }
    assert Skip(n.text) == n.text && n.text[0] !in {'"', '[', '{'} by {
      if n.rule == NumberRule {
        JsonLaws.NumberStart(n.text);
      }
    }
    JsonLaws.ValueExtends(n.text, u);
    assert "" + u == u;
  }

  lemma StringReads(x: string, u: string)
    ensures ReadValue("\"" + Escape(x) + "\"" + u) == Got(Str(x), u)
  {
    var s := "\"" + Escape(x) + "\"" + u;
    assert s[1..] == Escape(x) + "\"" + u by { hide ReadBody, Escape; }
    JsonLaws.StringRoundTrip(x, u);
    hide Escape, ReadBody;
    assert s[0] == '"';
    assert Skip(s) == s;
  }

  /** A finished tree prints the JSON text of its meaning, readable inside any longer text. */
  lemma {:induction false} PrintReads(n: Ast, u: string)
    requires IsValueTree(n) && JsonLaws.Stops(u)
    ensures ReadValue(Print(n) + u) == Got(Meaning(n), u)
    decreases n, 2
  {
    match n.rule {
      case NumberRule => AtomReads(n, u);
      case BoolRule => AtomReads(n, u);
      case NullRule => AtomReads(n, u);
      case StringRule =>
        assert Print(n.children[0]) == Escape(n.children[0].text);
        StringReads(n.children[0].text, u);
      case ArrayRule =>
        ArrayReads(n, u);
      case DictRule =>
        DictReads(n, u);
      case ValueRule =>
        PrintReads(n.children[0], u);
    }
  }

  lemma {:induction false} ArrayReads(n: Ast, u: string)
    requires IsValueTree(n) && n.rule == ArrayRule
    ensures ReadValue(Print(n) + u) == Got(Meaning(n), u)
    decreases n, 1
  {
    var cs := n.children;
    var s := "[" + (PrintList(cs) + "]" + u);
    assert Print(n) + u == s && s[1..] == PrintList(cs) + "]" + u;
    if cs == [] {
      assert s[1..] == "]" + u && (("]" + u)[1..] == u);
      hide PrintList, Print;
    } else {
      ItemsRead(cs, u);
      hide PrintList, Print, ReadItems;
      assert ReadValue(s[1..]).Got? by { ItemsStart(s[1..]); }
      StartsValue(s[1..]);
    }
  }

  lemma ItemsStart(s: string)
    requires ReadItems(s).Got?
    ensures ReadValue(s).Got?
  {}

  lemma LastItem(s: string, v: Value, u: string)
    requires ReadValue(s) == Got(v, u) && u != "" && u[0] == ']'
    ensures ReadItems(s) == Got([v], u[1..])
  {
    hide ReadValue;
    assert Skip(u) == u;
  }

  lemma NextItem(s: string, v: Value, u: string)
    requires ReadValue(s) == Got(v, u) && u != "" && u[0] == ',' && ReadItems(u[1..]).Got?
    ensures ReadItems(s) == Got([v] + ReadItems(u[1..]).value, ReadItems(u[1..]).rest)
  {
    hide ReadValue;
    assert Skip(u) == u;
  }

  lemma {:induction false} ItemsRead(cs: seq<Ast>, u: string)
    requires cs != [] && AreValueTrees(cs)
    ensures ReadItems(PrintList(cs) + "]" + u) == Got(Meanings(cs), u)
    decreases cs, 3
  {
    hide Print, PrintList, ReadValue, ReadItems, IsValueTree, Meaning;
    var c, rest := cs[0], cs[1..];
    assert cs == [c] + rest;
    ConsList(c, rest);
    var s := PrintList(cs) + "]" + u;
    if rest == [] {
      var t := "]" + u;
      assert s == Print(c) + t && t[1..] == u;
      PrintReads(c, t);
      LastItem(s, Meaning(c), t);
      assert [Meaning(c)] + Meanings(rest) == [Meaning(c)];
    } else {
      var t := "," + (PrintList(rest) + "]" + u);
      assert s == Print(c) + t && t[1..] == PrintList(rest) + "]" + u;
      PrintReads(c, t);
      ItemsRead(rest, u);
      NextItem(s, Meaning(c), t);
    }
  }

  lemma {:induction false} DictReads(n: Ast, u: string)
    requires IsValueTree(n) && n.rule == DictRule
    ensures ReadValue(Print(n) + u) == Got(Meaning(n), u)
    decreases n, 1
  {
    var cs := n.children;
    var s := "{" + (PrintList(cs) + "}" + u);
    assert Print(n) + u == s && s[1..] == PrintList(cs) + "}" + u;
    if cs == [] {
      assert s[1..] == "}" + u && (("}" + u)[1..] == u);
      hide PrintList, Print;
    } else {
      MembersRead(cs, u);
      hide PrintList, Print, ReadMembers;
      MembersStart(s[1..]);
    }
  }

  lemma MembersStart(s: string)
    requires ReadMembers(s).Got?
    ensures Skip(s) != "" && Skip(s)[0] == '"'
  {
    assert ReadMember(s).Got?;
  }

  function MemberText(m: Ast): string
    requires |m.children| == 2 && IsKey(m.children[0])
  {
    "\"" + Escape(m.children[0].children[0].text) + "\":" + Print(m.children[1])
  }

  lemma TwoChildren(cs: seq<Ast>)
    requires |cs| == 2
    ensures PrintAll(cs) == Print(cs[0]) + Print(cs[1])
  {
    hide Print;
    assert cs == [cs[0]] + [cs[1]] && [cs[0]] == [] + [cs[0]];
    SnocList([cs[0]], cs[1]);
    SnocList([], cs[0]);
  }

  lemma MemberPrints(m: Ast)
    requires m.rule == DictKv && m.text != "" && |m.children| == 2 && IsKey(m.children[0])
    ensures Print(m) == MemberText(m)
  {
    var k, v := m.children[0], m.children[1];
    assert Print(k) == "\"" + Escape(k.children[0].text) + "\":" by {
      assert Print(k.children[0]) == k.children[0].text;
    }
    assert Print(m) == PrintAll(m.children);
    hide Escape, PrintList, Print;
    TwoChildren(m.children);
  }

  lemma MemberReads(m: Ast, v: Value, u: string)
    requires |m.children| == 2 && IsKey(m.children[0])
    requires ReadValue(Print(m.children[1]) + u) == Got(v, u)
    ensures ReadMember(MemberText(m) + u) == Got((m.children[0].children[0].text, v), u)
  {
    hide Print, ReadValue, Escape, ReadBody;
    var x := m.children[0].children[0].text;
    var w := ":" + (Print(m.children[1]) + u);
    var s := MemberText(m) + u;
    assert s[0] == '"' && s[1..] == Escape(x) + "\"" + w;
    JsonLaws.StringRoundTrip(x, w);
    assert w[1..] == Print(m.children[1]) + u;
    assert Skip(s) == s && Skip(w) == w;
  }

  lemma LastMember(s: string, m: (string, Value), u: string)
    requires ReadMember(s) == Got(m, u) && u != "" && u[0] == '}'
    ensures ReadMembers(s) == Got([m], u[1..])
  {
    hide ReadMember;
    assert Skip(u) == u;
  }

  lemma NextMember(s: string, m: (string, Value), u: string)
    requires ReadMember(s) == Got(m, u) && u != "" && u[0] == ',' && ReadMembers(u[1..]).Got?
    ensures ReadMembers(s) == Got([m] + ReadMembers(u[1..]).value, ReadMembers(u[1..]).rest)
  {
    hide ReadMember;
    assert Skip(u) == u;
  }

  lemma {:induction false} MembersRead(cs: seq<Ast>, u: string)
    requires cs != [] && AreMembers(cs)
    ensures ReadMembers(PrintList(cs) + "}" + u) == Got(MemberMeanings(cs), u)
    decreases cs, 3
  {
    hide Print, PrintList, ReadMember, ReadMembers, IsValueTree, Meaning, MemberText, ReadValue;
    var c, rest := cs[0], cs[1..];
    assert cs == [c] + rest;
    ConsList(c, rest);
    MemberPrints(c);
    var s := PrintList(cs) + "}" + u;
    var m := (c.children[0].children[0].text, Meaning(c.children[1]));
    if rest == [] {
      var t := "}" + u;
      assert s == MemberText(c) + t && t[1..] == u;
      PrintReads(c.children[1], t);
      MemberReads(c, m.1, t);
      LastMember(s, m, t);
      assert [m] + MemberMeanings(rest) == [m];
    } else {
      var t := "," + (PrintList(rest) + "}" + u);
      assert s == MemberText(c) + t && t[1..] == PrintList(rest) + "}" + u;
      PrintReads(c.children[1], t);
      MemberReads(c, m.1, t);
      MembersRead(rest, u);
      NextMember(s, m, t);
    }
  }

  /** The finished arguments of a Gemma 4 call are JSON for the tree that was parsed. */
  lemma FinishedTreeIsJson(n: Ast)
    requires IsValueTree(n)
    ensures Denotes(Print(n), Meaning(n))
  {
    PrintReads(n, "");
    assert Print(n) + "" == Print(n);
  }

  /** A finished string node prints a JSON string exactly if it has its content child. */
  lemma StringNeedsContent(n: Ast)
    requires n.rule == StringRule && !n.isPartial && n.text != ""
    requires n.children == [] || (|n.children| == 1 && n.children[0].rule == StringContent)
    ensures (exists v :: Denotes(Print(n), v)) <==> n.children != []
  {
    if n.children == [] {
      assert Print(n) == "\"" && ReadBody("") == Fail;
      assert "\""[1..] == "";
      assert ReadValue(Print(n)).Fail?;
      forall v ensures !Denotes(Print(n), v) {
        hide ReadValue, Print;
      }
    } else {
      FinishedTreeIsJson(n);
      assert Denotes(Print(n), Meaning(n));
    }
  }

  /** Two such strings in an array even print valid JSON for something else. */
  lemma MissingContentMisprints(t: string)
    requires t != ""
    ensures var e := Ast(StringRule, t, false, []);
            Denotes(Print(Ast(ArrayRule, t, false, [e, e])), Arr([Str(",")]))
  {
    var e := Ast(StringRule, t, false, []);
    var a := Ast(ArrayRule, t, false, [e, e]);
    assert [e, e] == ([] + [e]) + [e];
    SnocList([] + [e], e);
    SnocList([], e);
    var s := "[\",\"]";
    assert Print(a) == s;
    assert Escape(",") == "," by { assert ","[..0] == ""; assert Escape("") + EscapeChar(',') == ","; }
    StringReads(",", "]");
    assert "\"" + Escape(",") + "\"" + "]" == s[1..];
    LastItem(s[1..], Str(","), "]");
    assert Skip(s) == s && Skip(s[1..]) == s[1..];
  }

  // ---------------------------------------------------------------------------
  // Printing a partial tree
  // ---------------------------------------------------------------------------

  /** The tree as if every node along its unfinished right edge had been finished. */
  function Closed(n: Ast): Ast
    decreases n
  {
    if !n.isPartial then n
    else
      var k := |n.children| - 1;
      n.(isPartial := false, children := if n.children == [] then [] else n.children[..k] + [Closed(n.children[k])])
  }

  /** The quotes, brackets, braces and colons that the right edge still owes. */
  function Owed(n: Ast): (r: string)
    ensures forall i :: 0 <= i < |r| ==> r[i] in {'"', ':', ']', '}'}
    ensures !n.isPartial ==> r == ""
    decreases n
  {
    if n.text == "" || !n.isPartial then ""
    else
      var inner := if n.children == [] then "" else Owed(n.children[|n.children| - 1]);
      match n.rule
      case StringRule => if n.children == [] then "" else "\""
      case ArrayRule => inner + "]"
      case DictRule => inner + "}"
      case DictKey => "\":"
      case DictKv => inner
      case ValueRule => inner
      case _ => ""
  }

  /** Along the right edge, strings and keys hold nothing but their text, and values one node. */
  predicate Regular(n: Ast)
    decreases n
  {
    !n.isPartial || n.children == []
    || (var last := n.children[|n.children| - 1];
        match n.rule
        case StringRule => |n.children| == 1 && last.rule == StringContent
        case DictKey => |n.children| == 1 && last.rule == DictKeyName
        case ValueRule => |n.children| == 1 && Regular(last)
        case ArrayRule => Regular(last)
        case DictRule => Regular(last)
        case DictKv => Regular(last)
        case _ => true)
  }

  lemma ListOwed(cs: seq<Ast>, c: Ast, owed: string)
    requires cs != [] && Print(c) == Print(cs[|cs| - 1]) + owed
    ensures PrintList(cs[..|cs| - 1] + [c]) == PrintList(cs) + owed
    ensures PrintAll(cs[..|cs| - 1] + [c]) == PrintAll(cs) + owed
  {
    hide Print, PrintList, PrintAll;
    var front, last := cs[..|cs| - 1], cs[|cs| - 1];
    assert cs == front + [last];
    SnocList(front, last);
    SnocList(front, c);
  }

  lemma ClosedParent(n: Ast)
    requires n.isPartial && n.children != []
    ensures var k := |n.children| - 1;
            Closed(n) == n.(isPartial := false, children := n.children[..k] + [Closed(n.children[k])])
  {}

  lemma LeafCloses(n: Ast)
    requires n.rule == StringContent || n.rule == DictKeyName
    ensures Print(Closed(n)) == Print(n) && Owed(n) == ""
  {}

  lemma TextCloses(n: Ast)
    requires n.isPartial && n.rule in {StringRule, DictKey} && Regular(n)
    ensures Print(Closed(n)) == Print(n) + Owed(n)
  {
    if n.children != [] {
      ClosedParent(n);
      LeafCloses(n.children[0]);
    }
    hide Escape;
  }

  lemma ParentCloses(n: Ast)
    requires n.isPartial && n.rule in {ArrayRule, DictRule, DictKv, ValueRule} && Regular(n) && n.children != []
    requires var last := n.children[|n.children| - 1]; Print(Closed(last)) == Print(last) + Owed(last)
    ensures Print(Closed(n)) == Print(n) + Owed(n)
  {
    var last := n.children[|n.children| - 1];
    ClosedParent(n);
    ListOwed(n.children, Closed(last), Owed(last));
    hide Escape, PrintList, PrintAll, Closed, Regular;
  }

  /** A partial tree prints what the finished one prints, except for what its right edge owes. */
  lemma {:induction false} PartialPrints(n: Ast)
    requires Regular(n)
    ensures Print(Closed(n)) == Print(n) + Owed(n)
    decreases n
  {
    if !n.isPartial || n.text == "" {
    } else if n.rule in {StringRule, DictKey} {
      TextCloses(n);
    } else if n.children == [] {
      hide Escape;
    } else if n.rule in {ArrayRule, DictRule, DictKv, ValueRule} {
      PartialPrints(n.children[|n.children| - 1]);
      ParentCloses(n);
    } else {
      hide PrintList, PrintAll;
    }
  }

  lemma {:induction false} ValuesAreRegular(n: Ast)
    requires IsValueTree(Closed(n))
    ensures Regular(n)
    decreases n
  {
    if n.isPartial && n.children != [] {
      var k := |n.children| - 1;
      var last := n.children[k];
      ClosedParent(n);
      assert Closed(n).children[k] == Closed(last);
      if n.rule == ArrayRule || n.rule == ValueRule {
        ValuesAreRegular(last);
      } else if n.rule == DictRule && last.isPartial && last.children != [] {
        ClosedParent(last);
        assert Closed(last).children[1] == Closed(last.children[1]);
        ValuesAreRegular(last.children[1]);
      }
    }
  }

  /**
   The text printed for a partial tree, with what it owes added, is JSON for the tree closed where it
   stands.
   */
  lemma PartialTreeIsJson(n: Ast)
    requires IsValueTree(Closed(n))
    ensures Denotes(Print(n) + Owed(n), Meaning(Closed(n)))
  {
    ValuesAreRegular(n);
    PartialPrints(n);
    FinishedTreeIsJson(Closed(n));
  }
}
