/**
 Tool calls whose raw values come from the Python grammar: their arguments are an object exactly if
 every argument has a value and every literal is clean. Two calls on which they are not.
 */
module PythonCalls {
  import opened ChatTypes
  import opened PegMapper
  import opened ToolArguments
  import TM = ToolMessages
  import opened PythonStrings
  import opened PythonLiterals
  import opened Text
  import opened Wrappers
  import Json
  import QN = QuoteNormalizer
  import QL = QuoteLaws

  /** Where the text of a raw value comes from: a literal and the space behind it. */
  datatype Origin = Origin(literal: Py, tail: string)

  predicate Grammatical(a: Arg, o: Origin) {
    a.val.Raw? ==> InGrammar(o.literal) && AllSpace(o.tail) && a.val.text == TextOf(o.literal, false) + o.tail
  }

  /** There is a value, and JSON can hold it. */
  predicate Sound(a: Arg, o: Origin) {
    match a.val
    case Missing => false
    case Literal(_) => true
    case Raw(_) => Clean(o.literal) && JsonSpace(o.tail)
  }

  predicate AllGrammatical(args: seq<Arg>, origins: seq<Origin>) {
    |args| == |origins| && forall i :: 0 <= i < |args| ==> Grammatical(args[i], origins[i])
  }

  predicate AllSound(args: seq<Arg>, origins: seq<Origin>)
    requires |args| == |origins|
  {
    forall i :: 0 <= i < |args| ==> Sound(args[i], origins[i])
  }

  /** The value of an argument; of no interest where there is none. */
  function ValueOf(a: Arg, o: Origin): Json.Value {
    if a.val.Literal? then Json.Str(a.val.text)
    else if a.val.Raw? && Clean(o.literal) then Meaning(o.literal)
    else Json.Null
  }

  function ValuesOf(args: seq<Arg>, origins: seq<Origin>): (r: seq<Json.Value>)
    requires |args| == |origins|
    ensures |r| == |args| && forall i :: 0 <= i < |r| ==> r[i] == ValueOf(args[i], origins[i])
  {
    seq(|args|, i requires 0 <= i < |args| && i < |origins| => ValueOf(args[i], origins[i]))
  }

  /** A literal that JSON cannot hold stops every reader. */
  lemma UncleanIsStuck(p: Py, tail: string)
    requires InGrammar(p) && AllSpace(tail) && !(Clean(p) && JsonSpace(tail))
    ensures Stuck(TextOf(p, true) + tail)
  {
    hide TextOf, InGrammar, Clean, Meaning, Json.ReadValue, Json.Skip, AllSpace, JsonSpace;
    forall u: string | u != "" && (u[0] == ',' || u[0] == '}')
      ensures var r := Json.ReadValue(TextOf(p, true) + tail + u);
              r.Fail? || Json.Skip(r.rest) == "" || (Json.Skip(r.rest)[0] != ',' && Json.Skip(r.rest)[0] != '}')
    {
      SpaceOrMark(tail, u);
      LiteralReads(p, tail + u);
      SpaceSkipped(tail, u);
      assert TextOf(p, true) + tail + u == TextOf(p, true) + (tail + u);
    }
  }

  lemma ArgumentSettled(a: Arg, o: Origin)
    requires Grammatical(a, o)
    ensures Settled(a, ValueOf(a, o))
    ensures HasValue(a, ValueOf(a, o)) <==> Sound(a, o)
  {
    hide TextOf, InGrammar, Clean, Meaning, Json.Denotes, AllSpace, JsonSpace, Stuck, Balanced, QN.Normalize;
    match a.val {
      case Missing =>
        EmptyIsStuck("");
      case Literal(_) =>
      case Raw(text) =>
        PythonBecomesJson(o.literal, o.tail);
        if !Sound(a, o) {
          UncleanIsStuck(o.literal, o.tail);
        }
        assert Balanced(ValText(a.val)) by { BalancedLiteral(o.literal, o.tail); }
    }
  }

  lemma BalancedLiteral(p: Py, tail: string)
    requires InGrammar(p) && AllSpace(tail)
    ensures Balanced(QN.Normalize(TextOf(p, false) + tail))
  {
    hide TextOf, InGrammar, AllSpace, QN.Normalize, QL.ScanText;
    forall d: int
      ensures QL.ScanText(QL.Scan(d, false, false), QN.Normalize(TextOf(p, false) + tail)) == QL.Scan(d, false, false)
    {
      PythonIsBalanced(p, tail, d);
    }
  }

  /**
   A complete tagged call over the Python grammar, with strings, literals and missing values in any
   order: the arguments are the object of the (name, value) events exactly if every argument has a
   value and every literal is clean, and otherwise no JSON; and the check accepts exactly if nothing
   is required, or if they are and every required name occurred.
   */
  lemma PythonCallLaw(st: State, nodes: seq<Node>, args: seq<Arg>, origins: seq<Origin>, required: map<string, seq<string>>)
    requires Valid(st) && Visitable(st, nodes) && TaggedCall(nodes, args) && AllGrammatical(args, origins)
    ensures Run(st, nodes).current == InResult
    ensures var call := Tool(Run(st, nodes));
            && (if AllSound(args, origins) then
                  Json.Denotes(call.arguments, Json.Obj(Members(args, ValuesOf(args, origins))))
                else Json.ReadValue(call.arguments) == Json.Fail)
            && (CallAccepted(required, call) <==>
                  (call.name in required && required[call.name] != [] ==>
                     AllSound(args, origins) && AllIn(required[call.name], Names(args))))
  {
    var vals := ValuesOf(args, origins);
    hide Grammatical, Sound, Settled, HasValue, ValueOf, ValuesOf, Run, TaggedCall, CallAccepted, Json.Denotes, Json.ReadValue, Visitable;
    forall i | 0 <= i < |args|
      ensures Settled(args[i], vals[i]) && (HasValue(args[i], vals[i]) <==> Sound(args[i], origins[i]))
    {
      ArgumentSettled(args[i], origins[i]);
    }
    assert HaveValues(args, vals) <==> AllSound(args, origins);
    TaggedCallIsObject(st, nodes, args, vals);
    RequiredAccepted(st, nodes, args, vals, required);
  }

  // ---------------------------------------------------------------------------
  // Two calls that fail
  // ---------------------------------------------------------------------------

  /** A call of `f` with one argument `x` whose value node has the text `value`. */
  function OneArgument(value: string): seq<Node> {
    [Node(ToolOpen, ""), Node(ToolName, "f"), Node(ArgOpen, ""), Node(ArgName, "x"), Node(ArgValue, value),
     Node(ArgClose, ""), Node(ToolClose, "")]
  }

  lemma ShapeOne(sh: Shape, node: Node, next: Shape, rest: seq<Node>)
    requires !sh.Broken? && ShapeStep(sh, node) == next
    ensures ShapeRun(sh, [node] + rest) == ShapeRun(next, rest)
  {
    hide ShapeStep;
    assert ([node] + rest)[1..] == rest;
  }

  lemma OneArgumentSteps(value: string)
    ensures var a := Arg("x", Raw(value));
            && ShapeStep(Opened, Node(ToolName, "f")) == InCall(true, [], Between)
            && ShapeStep(InCall(true, [], Between), Node(ArgOpen, "")) == InCall(true, [], InArg)
            && ShapeStep(InCall(true, [], InArg), Node(ArgName, "x")) == InCall(true, [], Named("x"))
            && ShapeStep(InCall(true, [], Named("x")), Node(ArgValue, value)) == InCall(true, [], Valued(a))
            && ShapeStep(InCall(true, [], Valued(a)), Node(ArgClose, "")) == InCall(true, [a], Between)
            && ShapeStep(InCall(true, [a], Between), Node(ToolClose, "")) == Closed([a])
  {
    assert TrimTrailing("f") == "f" && Trim("x") == "x";
    assert [] + [Arg("x", Raw(value))] == [Arg("x", Raw(value))];
  }

  lemma OneArgumentCall(value: string)
    ensures TaggedCall(OneArgument(value), [Arg("x", Raw(value))])
  {
    var name, open, key := Node(ToolName, "f"), Node(ArgOpen, ""), Node(ArgName, "x");
    var val, close, end := Node(ArgValue, value), Node(ArgClose, ""), Node(ToolClose, "");
    var a := Arg("x", Raw(value));
    OneArgumentSteps(value);
    assert OneArgument(value)[1..] == [name] + ([open] + ([key] + ([val] + ([close] + ([end] + [])))));
    assert ShapeRun(Closed([a]), []) == Closed([a]);
    hide ShapeStep, ShapeRun;
    ShapeOne(InCall(true, [a], Between), end, Closed([a]), []);
    ShapeOne(InCall(true, [], Valued(a)), close, InCall(true, [a], Between), [end] + []);
    ShapeOne(InCall(true, [], Named("x")), val, InCall(true, [], Valued(a)), [close] + ([end] + []));
    ShapeOne(InCall(true, [], InArg), key, InCall(true, [], Named("x")), [val] + ([close] + ([end] + [])));
    ShapeOne(InCall(true, [], Between), open, InCall(true, [], InArg), [key] + ([val] + ([close] + ([end] + []))));
    ShapeOne(Opened, name, InCall(true, [], Between), [open] + ([key] + ([val] + ([close] + ([end] + [])))));
  }

  const WantsX: map<string, seq<string>> := map["f" := ["x"]]

  lemma OneArgumentRun(value: string)
    ensures Visitable(Initial, OneArgument(value)) && Run(Initial, OneArgument(value)).current == InResult
    ensures Tool(Run(Initial, OneArgument(value))).name == "f"
    ensures Tool(Run(Initial, OneArgument(value))).arguments == CloseBraces("{" + Pairs([Arg("x", Raw(value))]))
  {
    var nodes, args := OneArgument(value), [Arg("x", Raw(value))];
    OneArgumentCall(value);
    OneName(value);
    hide Pairs, CloseBraces, QN.Normalize, ShapeRun, Run, OneArgument, Visitable, TrimTrailing;
    TM.CallAppends(Initial, nodes, "{" + Pairs(args));
    var r := Run(Initial, nodes);
    assert r.message.calls == [TM.CallOf(nodes, "{" + Pairs(args))];
  }

  lemma OnePairText(value: string)
    ensures "{" + Pairs([Arg("x", Raw(value))]) == "{\"x\":" + QN.Normalize(value)
  {
    OnePair(Arg("x", Raw(value)));
    assert Json.Quote("x") == "\"x\"" by { assert "x"[..0] == ""; assert Json.Escape("") == ""; }
    hide QN.Normalize, Pairs;
  }

  lemma OnePair(a: Arg)
    ensures Pairs([a]) == MemberText(a)
  {
    assert [a][..0] == [];
  }

  lemma {:induction false} NoName(nodes: seq<Node>)
    requires forall i :: 0 <= i < |nodes| ==> nodes[i].tag != ToolName
    ensures TM.LastText(ToolName, nodes) == None
    decreases |nodes|
  {
    if nodes == [] {
    } else {
      NoName(nodes[1..]);
    }
  }

  lemma OneName(value: string)
    ensures TM.NameAfter("", OneArgument(value)) == "f"
  {
    var nodes := OneArgument(value);
    assert TrimTrailing("f") == "f";
    NoName(nodes[2..]);
    assert nodes[1..][1..] == nodes[2..] && nodes[1..][0] == nodes[1];
    assert TM.LastText(ToolName, nodes[1..]) == Some("f");
  }

  /**
   An argument whose value node is empty or blank, as a grammar that takes any text up to the closing
   tag allows: for "" the arguments are `{"x":}`. They are no JSON, and the check rejects the call
   although its one required name occurred.
   */
  lemma EmptyValueFails(value: string)
    requires AllBlank(value)
    ensures TaggedCall(OneArgument(value), [Arg("x", Raw(value))]) && Visitable(Initial, OneArgument(value))
    ensures Run(Initial, OneArgument(value)).current == InResult
    ensures var call := Tool(Run(Initial, OneArgument(value)));
            && call.arguments == "{\"x\":" + value + "}"
            && Json.ReadValue(call.arguments) == Json.Fail
            && !CallAccepted(WantsX, call) && AllIn(WantsX["f"], Names([Arg("x", Raw(value))]))
  {
    hide OneArgument, Run, Visitable, TaggedCall, CloseBraces, Pairs, Names, AllSettled, HaveValues, CallAccepted, QN.Normalize;
    hide Json.ReadValue, AllBlank, Json.Denotes;
    var args, vals := [Arg("x", Raw(value))], [Json.Null];
    OneArgumentCall(value);
    OneArgumentRun(value);
    BlankArgument(value);
    OnePairText(value);
    OneNamed(args[0]);
    ClosedText(args, vals);
    TaggedCallIsObject(Initial, OneArgument(value), args, vals);
    RequiredAccepted(Initial, OneArgument(value), args, vals, WantsX);
    Wanted(Names(args));
  }

  lemma Wanted(names: set<string>)
    ensures WantsX["f"] == ["x"] && (AllIn(WantsX["f"], names) <==> "x" in names)
  {
    assert ["x"][0] == "x";
  }

  lemma BlankArgument(value: string)
    requires AllBlank(value)
    ensures AllSettled([Arg("x", Raw(value))], [Json.Null]) && !HaveValues([Arg("x", Raw(value))], [Json.Null])
    ensures QN.Normalize(value) == value
  {
    InertToken(value);
    EmptyIsStuck(value);
    OneStuck(Arg("x", Raw(value)));
  }

  lemma OneStuck(a: Arg)
    requires Balanced(ValText(a.val)) && Stuck(ValText(a.val)) && !HasValue(a, Json.Null)
    ensures AllSettled([a], [Json.Null]) && !HaveValues([a], [Json.Null])
  {
    hide Balanced, Stuck, HasValue, ValText;
    assert [a][0] == a;
  }

  lemma OneNamed(a: Arg)
    ensures Names([a]) == {a.name}
  {
    assert [a][1..] == [];
  }

  /** A string with a raw line break, which the grammar takes: rewritten to a string JSON refuses. */
  lemma RawBreakFails()
    ensures var p := Quoted('\'', [Chr('a'), Chr('\n')]);
            && InGrammar(p) && TextOf(p, false) == "'a\n'" && TextOf(p, true) == "\"a\n\""
            && QN.Normalize(TextOf(p, false)) == TextOf(p, true)
            && forall v :: !Json.Denotes(TextOf(p, true), v)
  {
    var body := [Chr('a'), Chr('\n')];
    var p := Quoted('\'', body);
    assert body[1..] == [Chr('\n')] && body[1..][1..] == [];
    BodyOfTwo(body[0], body[1]);
    assert ConvertedAll('\'', body) == body;
    assert !CleanBody(body);
    hide TextOf;
    PythonBecomesJson(p, "");
    assert TextOf(p, false) + "" == TextOf(p, false) && TextOf(p, true) + "" == TextOf(p, true);
  }

  lemma BodyOfTwo(a: Piece, b: Piece)
    ensures BodyText([a, b]) == PieceText(a) + PieceText(b)
  {
    assert [a, b][1..] == [b] && [b][1..] == [];
    assert BodyText([b]) == PieceText(b) + "";
  }
}
