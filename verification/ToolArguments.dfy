/**
 The arguments text of a tool call. For every well-bracketed sequence of events with separately tagged
 arguments it is the JSON object whose members are the (name, value) events in order, exactly if every
 argument has a value that JSON can read; and the check of required arguments made after parsing then
 accepts exactly the calls that named every required argument.
 */
module ToolArguments {
  import opened ChatTypes
  import opened PegMapper
  import opened Text
  import Json
  import JsonLaws
  import JsonTracking
  import QN = QuoteNormalizer
  import QL = QuoteLaws

  // ---------------------------------------------------------------------------
  // Well-bracketed calls
  // ---------------------------------------------------------------------------

  datatype ArgVal = Missing | Raw(text: string) | Literal(text: string)
  datatype Arg = Arg(name: string, val: ArgVal)

  /** Where the reading of a call stands. */
  datatype Stage =
    | Between
    | InArg
    | Named(name: string)
    | Valued(last: Arg)
    | Whole(text: string)

  /** How far a call has been read: whether it has its name, and the arguments read so far. */
  datatype Shape =
    | InCall(named: bool, args: seq<Arg>, stage: Stage)
    | Closed(args: seq<Arg>)
    | ClosedWhole(text: string)
    | Broken

  const Opened := InCall(false, [], Between)

  /**
   The name comes once, at any time before the call is closed. Each argument is opened, named once,
   given at most one value, and closed; or all arguments come as one text, the last of which counts.
   */
  function ShapeStep(sh: Shape, node: Node): Shape {
    match node.tag
    case Reasoning => sh
    case Content => sh
    case Other => sh
    case _ => if sh.InCall? then CallStep(sh, node) else Broken
  }

  function CallStep(sh: Shape, node: Node): Shape
    requires sh.InCall?
  {
    match node.tag
    case ToolId => sh
    case ToolArgs =>
      var t := TrimTrailing(node.text);
      if t == "" || t[0] != '{' then sh
      else if sh.args == [] && (sh.stage.Between? || sh.stage.Whole?) then sh.(stage := Whole(t))
      else Broken
    case ToolName => if !sh.named && TrimTrailing(node.text) != "" then sh.(named := true) else Broken
    case ArgOpen => if sh.stage.Between? then sh.(stage := InArg) else Broken
    case ArgName => if sh.stage.InArg? then sh.(stage := Named(Trim(node.text))) else Broken
    case ArgValue => if sh.stage.Named? then sh.(stage := Valued(Arg(sh.stage.name, Raw(node.text)))) else Broken
    case ArgStringValue =>
      if sh.stage.Named? then sh.(stage := Valued(Arg(sh.stage.name, Literal(node.text)))) else Broken
    case ArgClose =>
      if sh.stage.Named? then sh.(args := sh.args + [Arg(sh.stage.name, Missing)], stage := Between)
      else if sh.stage.Valued? then sh.(args := sh.args + [sh.stage.last], stage := Between)
      else Broken
    case ToolClose =>
      if !sh.named then Broken
      else if sh.stage.Between? then Closed(sh.args)
      else if sh.stage.Whole? then ClosedWhole(sh.stage.text)
      else Broken
    case _ => Broken
  }

  function ShapeRun(sh: Shape, nodes: seq<Node>): Shape
    decreases |nodes|
  {
    if nodes == [] || sh.Broken? then sh else ShapeRun(ShapeStep(sh, nodes[0]), nodes[1..])
  }

  /** `nodes` is one complete tagged call with arguments `args`. */
  predicate TaggedCall(nodes: seq<Node>, args: seq<Arg>) {
    nodes != [] && nodes[0].tag == ToolOpen && ShapeRun(Opened, nodes[1..]) == Closed(args)
  }

  /** `nodes` is one complete call whose arguments came as the text `text`. */
  predicate WholeCall(nodes: seq<Node>, text: string) {
    nodes != [] && nodes[0].tag == ToolOpen && ShapeRun(Opened, nodes[1..]) == ClosedWhole(text)
  }

  // ---------------------------------------------------------------------------
  // The text that belongs to a shape
  // ---------------------------------------------------------------------------

  function ValText(val: ArgVal): string {
    match val
    case Missing => ""
    case Raw(t) => QN.Normalize(t)
    case Literal(t) => Json.Quote(t)
  }

  function PairOf(name: string, value: string): string { Json.Quote(name) + ":" + value }

  function MemberText(a: Arg): string { PairOf(a.name, ValText(a.val)) }

  function Pairs(args: seq<Arg>): (r: string)
    ensures args != [] ==> r != ""
    decreases |args|, 0
  {
    if args == [] then "" else Separated(args[..|args| - 1]) + MemberText(args[|args| - 1])
  }

  /** The members so far and, if there are any, the comma in front of the next one. */
  function Separated(args: seq<Arg>): string
    decreases |args|, 1
  {
    if args == [] then "" else Pairs(args) + ","
  }

  /** The value text before the string has been closed. */
  function OpenText(val: ArgVal): string {
    if val.Literal? then "\"" + Json.Escape(val.text) else ValText(val)
  }

  /** The text of the arguments; before the name and the first argument there is none. */
  function Render(sh: Shape): string {
    match sh
    case InCall(named, args, stage) =>
      (match stage
       case Between => if named || args != [] then "{" + Pairs(args) else ""
       case InArg => if named || args != [] then "{" + Pairs(args) else ""
       case Named(name) => "{" + Separated(args) + PairOf(name, "")
       case Valued(last) => "{" + Separated(args) + PairOf(last.name, OpenText(last.val))
       case Whole(text) => text)
    case Closed(args) => CloseBraces("{" + Pairs(args))
    case ClosedWhole(text) => CloseBraces(text)
    case Broken => ""
  }

  predicate InString(sh: Shape) { sh.InCall? && sh.stage.Valued? && sh.stage.last.val.Literal? }

  /** The mapper is where the shape says it is. */
  predicate Follows(st: State, sh: Shape) {
    && Valid(st)
    && (!sh.Broken? ==>
          && HasTool(st) && Target(st) == Render(sh)
          && (st.closingQuotePending <==> InString(sh))
          && (if sh.InCall? && !sh.named then st.current == InPending && Tool(st).arguments == ""
              else st.current == InResult && Tool(st).name != "")
          && (sh.InCall? && sh.stage.Whole? ==> sh.args == [] && sh.stage.text != ""))
  }

  lemma NameText(args: seq<Arg>, name: string)
    ensures PairText("{" + Pairs(args), name) == "{" + Separated(args) + PairOf(name, "")
    ensures args == [] ==> PairText("", name) == "{" + Separated(args) + PairOf(name, "")
  {
    var t := "{" + Pairs(args);
    var sep := if args == [] then "" else ",";
    assert t + sep == "{" + Separated(args);
    hide Pairs, Separated;
    assert t + sep + Json.Quote(name) + ":" == t + sep + (Json.Quote(name) + ":" + "");
  }

  /** Writing the target changes nothing else that a shape speaks of. */
  lemma TargetWritten(st: State, text: string)
    requires Valid(st) && HasTool(st)
    ensures var r := WithTarget(st, text);
            && Valid(r) && HasTool(r) && Target(r) == text && r.current == st.current
            && Tool(r).name == Tool(st).name && r.closingQuotePending == st.closingQuotePending
            && (st.current == InPending ==> Tool(r).arguments == Tool(st).arguments)
  {}

  lemma ArgNameFollows(st: State, sh: Shape, node: Node)
    requires Follows(st, sh) && sh.InCall? && sh.stage.InArg? && node.tag == ArgName
    ensures Follows(ToolStep(st, node), ShapeStep(sh, node))
  {
    hide Trim, PairText, Pairs, Separated, Target, WithTarget;
    NameText(sh.args, Trim(node.text));
    TargetWritten(st, PairText(Target(st), Trim(node.text)));
    TargetOnly(WithTarget(st, PairText(Target(st), Trim(node.text))), ToolStep(st, node));
  }

  /** The target, the call and validity do not depend on the other fields. */
  lemma TargetOnly(st: State, r: State)
    requires Valid(st) && HasTool(st) && r.message == st.message && r.pending == st.pending
    requires r.current == st.current && r.argsBuffer == st.argsBuffer
    ensures Valid(r) && HasTool(r) && Target(r) == Target(st) && Tool(r) == Tool(st)
  {}

  lemma ArgValueFollows(st: State, sh: Shape, node: Node)
    requires Follows(st, sh) && sh.InCall? && sh.stage.Named? && (node.tag == ArgValue || node.tag == ArgStringValue)
    ensures Follows(ToolStep(st, node), ShapeStep(sh, node))
  {
    hide Separated, Target, WithTarget;
    var v := ValueText(node.tag, node.text, false);
    assert Render(sh) + v == "{" + Separated(sh.args) + PairOf(sh.stage.name, v);
    TargetWritten(st, Target(st) + v);
    TargetOnly(WithTarget(st, Target(st) + v), ToolStep(st, node));
  }

  lemma SnocPairs(args: seq<Arg>, a: Arg)
    ensures Pairs(args + [a]) == Separated(args) + MemberText(a)
  {
    assert (args + [a])[..|args|] == args;
  }

  lemma NamedCloses(st: State, sh: Shape, node: Node)
    requires Follows(st, sh) && sh.InCall? && sh.stage.Named? && node.tag == ArgClose
    ensures Follows(ToolStep(st, node), ShapeStep(sh, node))
  {
    hide Separated, Pairs;
    var a := Arg(sh.stage.name, Missing);
    SnocPairs(sh.args, a);
    assert Render(sh) == "{" + (Separated(sh.args) + MemberText(a));
    assert Render(sh) == Render(ShapeStep(sh, node));
  }

  lemma ValuedText(sh: Shape, tail: string)
    requires sh.InCall? && sh.stage.Valued? && tail == if sh.stage.last.val.Literal? then "\"" else ""
    ensures Render(sh) + tail == Render(sh.(args := sh.args + [sh.stage.last], stage := Between))
  {
    var args, last := sh.args, sh.stage.last;
    var x, y := Separated(args), PairOf(last.name, OpenText(last.val));
    assert Render(sh) == "{" + x + y;
    assert Render(sh.(args := args + [last], stage := Between)) == "{" + Pairs(args + [last]);
    hide Render, Pairs, Separated, OpenText, ValText, PairOf, MemberText;
    SnocPairs(args, last);
    LiteralClosed(last, tail);
    Reassociated(x, y, tail);
  }

  lemma Reassociated(x: string, y: string, z: string)
    ensures "{" + x + y + z == "{" + (x + (y + z))
  {}

  lemma LiteralClosed(last: Arg, tail: string)
    requires tail == if last.val.Literal? then "\"" else ""
    ensures PairOf(last.name, OpenText(last.val)) + tail == MemberText(last)
  {
    hide Json.Escape, QN.Normalize;
    var q := Json.Quote(last.name) + ":";
    assert q + OpenText(last.val) + tail == q + (OpenText(last.val) + tail);
  }

  lemma ValuedCloses(st: State, sh: Shape, node: Node)
    requires Follows(st, sh) && sh.InCall? && sh.stage.Valued? && node.tag == ArgClose
    ensures Follows(ToolStep(st, node), ShapeStep(sh, node))
  {
    hide Render, Target, WithTarget;
    var tail := if sh.stage.last.val.Literal? then "\"" else "";
    ValuedText(sh, tail);
    assert Render(sh) + "" == Render(sh);
    TargetWritten(st, Target(st) + tail);
    if InString(sh) {
      TargetOnly(WithTarget(st, Target(st) + tail), ToolStep(st, node));
    }
  }

  lemma ToolNameFollows(st: State, sh: Shape, node: Node)
    requires Follows(st, sh) && sh.InCall? && !sh.named && node.tag == ToolName && TrimTrailing(node.text) != ""
    ensures Follows(ToolStep(st, node), sh.(named := true))
  {
    RenderNamed(sh);
    hide Render, TrimTrailing;
  }

  /** The name only adds the opening brace that the first argument would have added. */
  lemma RenderNamed(sh: Shape)
    requires sh.InCall? && !sh.named && (sh.stage.Whole? ==> sh.stage.text != "")
    ensures Render(sh.(named := true)) == if Render(sh) == "" then "{" else Render(sh)
  {}

  lemma WholeFollows(st: State, sh: Shape, node: Node)
    requires Follows(st, sh) && sh.InCall? && node.tag == ToolArgs && !CallStep(sh, node).Broken?
    ensures Follows(ToolStep(st, node), CallStep(sh, node))
  {
    hide TrimTrailing, Target, WithTarget, Pairs;
    TargetWritten(st, TrimTrailing(node.text));
  }

  lemma ToolCloseFollows(st: State, sh: Shape, node: Node)
    requires Follows(st, sh) && sh.InCall? && node.tag == ToolClose && !CallStep(sh, node).Broken?
    ensures Follows(ToolStep(st, node), CallStep(sh, node))
  {
    hide Pairs, CloseBraces;
  }

  lemma IdFollows(st: State, sh: Shape, node: Node)
    requires Follows(st, sh) && sh.InCall? && node.tag == ToolId
    ensures Follows(ToolStep(st, node), sh)
  {
    hide IdText, Render;
  }

  /** Events that do not touch the call. */
  lemma AsideFollows(st: State, sh: Shape, node: Node)
    requires Follows(st, sh) && !sh.Broken? && Defined(st, node)
    requires node.tag in {Reasoning, Content, Other} || (node.tag == ArgOpen && sh.InCall? && sh.stage.Between?)
    ensures Follows(Step(st, node), ShapeStep(sh, node))
  {
    hide Pairs, Separated, CloseBraces;
  }

  /** Every event keeps mapper and shape together. */
  lemma StepFollows(st: State, sh: Shape, node: Node)
    requires Follows(st, sh) && Defined(st, node)
    ensures Follows(Step(st, node), ShapeStep(sh, node))
  {
    assert Valid(st);
    hide Follows, ToolStep, Trim, TrimTrailing;
    StepKeepsValid(st, node);
    if ShapeStep(sh, node).Broken? || sh.Broken? {
      BrokenFollows(Step(st, node), ShapeStep(sh, node));
    } else {
      FollowsHasTool(st, sh);
      match node.tag {
        case ToolId => IdFollows(st, sh, node);
        case ToolName => ToolNameFollows(st, sh, node);
        case ToolArgs => WholeFollows(st, sh, node);
        case ArgName => ArgNameFollows(st, sh, node);
        case ArgValue => ArgValueFollows(st, sh, node);
        case ArgStringValue => ArgValueFollows(st, sh, node);
        case ArgClose => if sh.stage.Named? { NamedCloses(st, sh, node); } else { ValuedCloses(st, sh, node); }
        case ToolClose => ToolCloseFollows(st, sh, node);
        case _ => AsideFollows(st, sh, node);
      }
    }
  }

  lemma BrokenFollows(st: State, sh: Shape)
    requires Valid(st)
    ensures sh.Broken? ==> Follows(st, sh)
  {}

  lemma FollowsHasTool(st: State, sh: Shape)
    requires Follows(st, sh) && !sh.Broken?
    ensures Valid(st) && HasTool(st) && (!sh.InCall? || sh.named ==> st.current == InResult)
  {
    hide Render;
  }

  lemma {:induction false} RunFollows(st: State, sh: Shape, nodes: seq<Node>)
    requires Follows(st, sh) && Visitable(st, nodes)
    ensures !ShapeRun(sh, nodes).Broken? ==> Follows(Run(st, nodes), ShapeRun(sh, nodes))
    decreases |nodes|
  {
    hide Step, ShapeStep, Render;
    if nodes != [] && !sh.Broken? {
      StepFollows(st, sh, nodes[0]);
      RunFollows(Step(st, nodes[0]), ShapeStep(sh, nodes[0]), nodes[1..]);
    }
  }

  /**
   A complete tagged call, visited from any mapper state, leaves a named call at the end of the
   message whose arguments are the rendered pairs with every open brace closed.
   */
  lemma TaggedCallText(st: State, nodes: seq<Node>, args: seq<Arg>)
    requires Valid(st) && Visitable(st, nodes) && TaggedCall(nodes, args)
    ensures var r := Run(st, nodes);
            && r.current == InResult && Tool(r).name != "" && !r.closingQuotePending
            && Tool(r).arguments == CloseBraces("{" + Pairs(args))
  {
    hide ShapeRun, Pairs, CloseBraces;
    StepKeepsValid(st, nodes[0]);
    RunFollows(Step(st, nodes[0]), Opened, nodes[1..]);
  }

  /**
   A complete call whose arguments came as one text leaves that text as it came, with every open
   brace closed; whether the name came before or after it makes no difference.
   */
  lemma WholeCallText(st: State, nodes: seq<Node>, text: string)
    requires Valid(st) && Visitable(st, nodes) && WholeCall(nodes, text)
    ensures var r := Run(st, nodes);
            && r.current == InResult && Tool(r).name != "" && !r.closingQuotePending
            && Tool(r).arguments == CloseBraces(text)
  {
    hide ShapeRun, Pairs, CloseBraces;
    StepKeepsValid(st, nodes[0]);
    RunFollows(Step(st, nodes[0]), Opened, nodes[1..]);
  }

  // ---------------------------------------------------------------------------
  // The arguments are a JSON object
  // ---------------------------------------------------------------------------

  /** Each argument has a value: a string, or raw text that the rewriter turns into JSON for `vals[i]`. */
  predicate HasValue(a: Arg, v: Json.Value) {
    match a.val
    case Missing => false
    case Raw(t) => Json.Denotes(QN.Normalize(t), v)
    case Literal(t) => v == Json.Str(t)
  }

  predicate HaveValues(args: seq<Arg>, vals: seq<Json.Value>) {
    |args| == |vals| && forall i :: 0 <= i < |args| ==> HasValue(args[i], vals[i])
  }

  function Members(args: seq<Arg>, vals: seq<Json.Value>): seq<(string, Json.Value)>
    requires |args| == |vals|
  {
    if args == [] then [] else [(args[0].name, vals[0])] + Members(args[1..], vals[1..])
  }

  lemma QuoteDenotes(x: string)
    ensures Json.Denotes(Json.Quote(x), Json.Str(x))
  {
    hide Json.ReadBody, Json.Escape;
    JsonLaws.StringRoundTrip(x, "");
    assert Json.Escape(x) + "\"" + "" == Json.Escape(x) + "\"";
    assert Json.Quote(x)[1..] == Json.Escape(x) + "\"";
  }

  lemma ValueDenotes(a: Arg, v: Json.Value)
    requires HasValue(a, v)
    ensures Json.Denotes(ValText(a.val), v)
  {
    hide Json.Denotes;
    if a.val.Literal? {
      QuoteDenotes(a.val.text);
    }
  }

  /** Strings and braces of the text are closed. */
  ghost predicate Balanced(x: string) {
    forall d: int :: QL.ScanText(QL.Scan(d, false, false), x) == QL.Scan(d, false, false)
  }

  /** No value can be read from the text that a comma or a closing brace follows. */
  ghost predicate Stuck(x: string) {
    forall u: string :: u != "" && (u[0] == ',' || u[0] == '}') ==>
      var p := Json.ReadValue(x + u);
      p.Fail? || Json.Skip(p.rest) == "" || (Json.Skip(p.rest)[0] != ',' && Json.Skip(p.rest)[0] != '}')
  }

  /** Either the argument has the value `v`, or its text is closed but nothing JSON can read. */
  ghost predicate Settled(a: Arg, v: Json.Value) {
    HasValue(a, v) || (Balanced(ValText(a.val)) && Stuck(ValText(a.val)))
  }

  ghost predicate AllSettled(args: seq<Arg>, vals: seq<Json.Value>) {
    |args| == |vals| && forall i :: 0 <= i < |args| ==> Settled(args[i], vals[i])
  }

  lemma SettledIsBalanced(a: Arg, v: Json.Value)
    requires Settled(a, v)
    ensures Balanced(ValText(a.val))
  {
    if HasValue(a, v) {
      hide Json.Denotes, HasValue, ValText, QL.ScanText;
      ValueDenotes(a, v);
      forall d: int
        ensures QL.ScanText(QL.Scan(d, false, false), ValText(a.val)) == QL.Scan(d, false, false)
      {
        JsonTracking.JsonIsNeutral(ValText(a.val), v, d);
      }
    }
  }

  /** Every member leaves the brace counter where it was. */
  lemma MemberNeutral(a: Arg, st: QL.Scan)
    requires Balanced(ValText(a.val)) && !st.inString && !st.escaped
    ensures QL.ScanText(st, MemberText(a)) == st
  {
    hide Json.Denotes, ValText, Json.Quote;
    QuoteDenotes(a.name);
    JsonTracking.JsonIsNeutral(Json.Quote(a.name), Json.Str(a.name), st.depth);
    assert st == QL.Scan(st.depth, false, false);
    QL.ScanTwo(st, ':', ':');
    var q, val := Json.Quote(a.name), ValText(a.val);
    QL.ScanConcat(st, q, ":");
    QL.ScanConcat(st, q + ":", val);
  }

  lemma {:induction false} PairsNeutral(args: seq<Arg>, vals: seq<Json.Value>, st: QL.Scan)
    requires AllSettled(args, vals) && !st.inString && !st.escaped
    ensures QL.ScanText(st, Pairs(args)) == st
    decreases |args|
  {
    hide Settled, Balanced, QL.ScanText, MemberText;
    if args == [] {
      EmptyScan(st);
    } else {
      var n := |args| - 1;
      var front, a := args[..n], args[n];
      PairsNeutral(front, vals[..n], st);
      SettledIsBalanced(a, vals[n]);
      MemberNeutral(a, st);
      QL.ScanTwo(st, ',', ',');
      QL.ScanConcat(st, Pairs(front), ",");
      QL.ScanConcat(st, Separated(front), MemberText(a));
    }
  }

  lemma EmptyScan(st: QL.Scan)
    ensures QL.ScanText(st, "") == st
  {}

  lemma OneBrace()
    ensures Braces(1) == "}"
    ensures QL.ScanText(QL.Clean, "{") == QL.Scan(1, false, false)
    ensures QL.ScanText(QL.Scan(1, false, false), "}") == QL.Clean
  {
    assert Braces(1) == Braces(0) + "}";
    QL.ScanTwo(QL.Clean, '{', '{');
    QL.ScanTwo(QL.Scan(1, false, false), '}', '}');
  }

  /** Exactly one brace is open when the call is closed. */
  lemma ClosedText(args: seq<Arg>, vals: seq<Json.Value>)
    requires AllSettled(args, vals)
    ensures CloseBraces("{" + Pairs(args)) == "{" + Pairs(args) + "}"
    ensures QL.ScanText(QL.Clean, CloseBraces("{" + Pairs(args))) == QL.Clean
  {
    hide QL.ScanText, QL.ScanChar, AllSettled, Pairs, Braces;
    OneBrace();
    PairsNeutral(args, vals, QL.Scan(1, false, false));
    QL.ScanConcat(QL.Clean, "{", Pairs(args));
    QL.ScanConcat(QL.Clean, "{" + Pairs(args), "}");
  }

  // Reading the pairs back.

  lemma {:induction false} PairsFront(a: Arg, rest: seq<Arg>)
    ensures Pairs([a] + rest) == MemberText(a) + (if rest == [] then "" else "," + Pairs(rest))
    decreases |rest|
  {
    hide MemberText;
    var n := |rest|;
    if n == 0 {
      assert [a] + rest == [a];
      assert [a][..0] == [];
    } else {
      var front, last := rest[..n - 1], rest[n - 1];
      assert ([a] + rest)[..n] == [a] + front;
      PairsFront(a, front);
      if front == [] {
      } else {
        assert MemberText(a) + ("," + Pairs(front)) + "," + MemberText(last)
            == MemberText(a) + ("," + (Pairs(front) + "," + MemberText(last)));
      }
    }
  }

  lemma {:induction false} SkipTail(r: string, u: string)
    requires Json.Skip(r) == "" && u != "" && !Json.IsBlank(u[0])
    ensures Json.Skip(r + u) == u
    decreases |r|
  {
    if r == "" {
      assert r + u == u;
    } else {
      SkipTail(r[1..], u);
      assert (r + u)[1..] == r[1..] + u;
    }
  }

  /** A text that denotes a value is read in front of a comma or a closing brace. */
  lemma TextReads(val: string, v: Json.Value, u: string)
    requires Json.Denotes(val, v) && u != "" && (u[0] == ',' || u[0] == '}')
    ensures var p := Json.ReadValue(val + u);
            p.Got? && p.value == v && Json.Skip(p.rest) == u
  {
    JsonLaws.ValueExtends(val, u);
    hide Json.ReadValue;
    SkipTail(Json.ReadValue(val).rest, u);
  }

  lemma MemberFrom(s: string, name: string, w: string)
    requires s != "" && s[0] == '"' && Json.ReadBody(s[1..]) == Json.Got(name, w)
    requires w != "" && w[0] == ':' && Json.ReadValue(w[1..]).Got?
    ensures var v := Json.ReadValue(w[1..]); Json.ReadMember(s) == Json.Got((name, v.value), v.rest)
  {
    hide Json.ReadBody, Json.ReadValue;
    assert Json.Skip(s) == s && Json.Skip(w) == w;
  }

  /** A member is read back in front of a comma or a closing brace. */
  lemma MemberReads(name: string, val: string, v: Json.Value, u: string)
    requires Json.Denotes(val, v) && u != "" && (u[0] == ',' || u[0] == '}')
    ensures var m := Json.ReadMember(PairOf(name, val) + u);
            m.Got? && m.value == (name, v) && Json.Skip(m.rest) == u
  {
    hide Json.Denotes, Json.ReadValue, Json.ReadBody, Json.ReadMember, Json.Escape, Json.Skip;
    TextReads(val, v, u);
    var e := Json.Escape(name);
    var w := ":" + val + u;
    var s := PairOf(name, val) + u;
    assert w[1..] == val + u;
    assert s[1..] == e + "\"" + w by { MemberSplits(e, val, u); }
    JsonLaws.StringRoundTrip(name, w);
    MemberFrom(s, name, w);
  }

  lemma MemberSplits(e: string, val: string, u: string)
    ensures ("\"" + e + "\"" + ":" + val + u)[1..] == e + "\"" + (":" + val + u)
  {}

  lemma LastMember(s: string, m: (string, Json.Value), u: string)
    requires var p := Json.ReadMember(s); p.Got? && p.value == m && Json.Skip(p.rest) == u
    requires u != "" && u[0] == '}'
    ensures Json.ReadMembers(s) == Json.Got([m], u[1..])
  {}

  lemma NextMember(s: string, m: (string, Json.Value), u: string)
    requires var p := Json.ReadMember(s); p.Got? && p.value == m && Json.Skip(p.rest) == u
    requires u != "" && u[0] == ',' && Json.ReadMembers(u[1..]).Got?
    ensures Json.ReadMembers(s) == Json.Got([m] + Json.ReadMembers(u[1..]).value, Json.ReadMembers(u[1..]).rest)
  {}

  lemma {:induction false} MembersRead(args: seq<Arg>, vals: seq<Json.Value>)
    requires args != [] && HaveValues(args, vals)
    ensures Json.ReadMembers(Pairs(args) + "}") == Json.Got(Members(args, vals), "")
    decreases |args|
  {
    hide HasValue, Pairs, ValText, Json.ReadMember, Json.ReadMembers, Json.Denotes, PairOf;
    var a, rest := args[0], args[1..];
    var m := (a.name, vals[0]);
    assert [a] + rest == args;
    PairsFront(a, rest);
    ValueDenotes(a, vals[0]);
    if rest == [] {
      assert Pairs(args) + "}" == MemberText(a) + "}";
      MemberReads(a.name, ValText(a.val), vals[0], "}");
      LastMember(Pairs(args) + "}", m, "}");
      assert Members(rest, vals[1..]) == [] && [m] + [] == [m];
    } else {
      var u := "," + Pairs(rest) + "}";
      assert Pairs(args) + "}" == MemberText(a) + u;
      MemberReads(a.name, ValText(a.val), vals[0], u);
      assert u[1..] == Pairs(rest) + "}";
      MembersRead(rest, vals[1..]);
      NextMember(Pairs(args) + "}", m, u);
    }
  }

  /** A member whose text is stuck ends the reading. */
  lemma MemberStuck(name: string, val: string, u: string)
    requires Stuck(val) && u != "" && (u[0] == ',' || u[0] == '}')
    ensures Json.ReadMembers(PairOf(name, val) + u) == Json.Fail
  {
    hide Json.ReadValue, Json.ReadBody, Json.Escape, Json.Skip;
    var e := Json.Escape(name);
    var w := ":" + val + u;
    var s := PairOf(name, val) + u;
    assert w[1..] == val + u;
    assert s[1..] == e + "\"" + w by { MemberSplits(e, val, u); }
    JsonLaws.StringRoundTrip(name, w);
    assert Json.Skip(s) == s && Json.Skip(w) == w by { NoBlankFront(s); NoBlankFront(w); }
  }

  lemma NoBlankFront(s: string)
    requires s != "" && !Json.IsBlank(s[0])
    ensures Json.Skip(s) == s
  {}

  lemma RestFails(s: string, u: string)
    requires var p := Json.ReadMember(s); p.Got? && Json.Skip(p.rest) == u
    requires u != "" && u[0] == ',' && Json.ReadMembers(u[1..]).Fail?
    ensures Json.ReadMembers(s).Fail?
  {}

  lemma {:induction false} MembersFail(args: seq<Arg>, vals: seq<Json.Value>)
    requires AllSettled(args, vals) && !HaveValues(args, vals)
    ensures args != [] && Json.ReadMembers(Pairs(args) + "}").Fail?
    decreases |args|
  {
    hide HasValue, Pairs, ValText, Json.ReadMember, Json.ReadMembers, Json.Denotes, PairOf, Stuck, Balanced, AllSettled, HaveValues;
    FirstSettled(args, vals);
    var a, rest := args[0], args[1..];
    var u := Followed(rest);
    assert [a] + rest == args;
    FollowedPairs(a, rest);
    if !HasValue(a, vals[0]) {
      MemberStuck(a.name, ValText(a.val), u);
    } else {
      MembersFail(rest, vals[1..]);
      ValueDenotes(a, vals[0]);
      MemberReads(a.name, ValText(a.val), vals[0], u);
      RestFails(Pairs(args) + "}", u);
    }
  }

  /** What stands behind a member: the closing brace, or a comma, the rest and the brace. */
  function Followed(rest: seq<Arg>): (u: string)
    ensures u != "" && (u[0] == ',' || u[0] == '}')
    ensures rest != [] ==> u[0] == ',' && u[1..] == Pairs(rest) + "}"
  {
    if rest == [] then "}" else "," + (Pairs(rest) + "}")
  }

  lemma FollowedPairs(a: Arg, rest: seq<Arg>)
    ensures Pairs([a] + rest) + "}" == MemberText(a) + Followed(rest)
  {
    hide Pairs, MemberText;
    PairsFront(a, rest);
  }

  lemma FirstSettled(args: seq<Arg>, vals: seq<Json.Value>)
    requires AllSettled(args, vals) && !HaveValues(args, vals)
    ensures args != [] && |args| == |vals| && Settled(args[0], vals[0]) && AllSettled(args[1..], vals[1..])
    ensures HasValue(args[0], vals[0]) ==> args[1..] != [] && !HaveValues(args[1..], vals[1..])
  {
    hide HasValue, Settled;
    if args != [] && HasValue(args[0], vals[0]) {
      var i :| 0 <= i < |args| && !HasValue(args[i], vals[i]);
      assert args[1..][i - 1] == args[i] && vals[1..][i - 1] == vals[i];
    }
  }

  lemma PairsStart(args: seq<Arg>)
    requires args != []
    ensures Pairs(args)[0] == '"'
  {
    PairsFront(args[0], args[1..]);
    assert [args[0]] + args[1..] == args;
  }

  lemma ObjectReads(args: seq<Arg>, vals: seq<Json.Value>)
    requires HaveValues(args, vals)
    ensures Json.ReadValue("{" + Pairs(args) + "}") == Json.Got(Json.Obj(Members(args, vals)), "")
  {
    hide HaveValues, Json.ReadMembers;
    var s := "{" + Pairs(args) + "}";
    if args != [] {
      PairsStart(args);
      MembersRead(args, vals);
      hide Pairs, Members;
      assert s[1..] == Pairs(args) + "}";
      BraceReads(s);
    } else {
      assert Pairs(args) == "" && s == "{}";
      assert Members(args, vals) == [] by { assert |vals| == 0 by { NoValues(args, vals); } }
      EmptyObjectReads();
    }
  }

  lemma NoValues(args: seq<Arg>, vals: seq<Json.Value>)
    requires HaveValues(args, vals)
    ensures |args| == |vals|
  {}

  lemma EmptyObjectReads()
    ensures Json.ReadValue("{}") == Json.Got(Json.Obj([]), "")
  {
    assert "{}"[1..] == "}" && "}"[1..] == "";
    assert Json.Skip("{}") == "{}" && Json.Skip("}") == "}";
  }

  /** A brace in front of members is an object. */
  lemma BraceReads(s: string)
    requires |s| > 1 && s[0] == '{' && s[1] == '"' && Json.ReadMembers(s[1..]).Got?
    ensures Json.ReadValue(s) == Json.Got(Json.Obj(Json.ReadMembers(s[1..]).value), Json.ReadMembers(s[1..]).rest)
  {
    hide Json.ReadMembers;
    assert Json.Skip(s) == s && Json.Skip(s[1..]) == s[1..];
  }

  lemma ObjectFails(args: seq<Arg>, vals: seq<Json.Value>)
    requires AllSettled(args, vals) && !HaveValues(args, vals)
    ensures Json.ReadValue("{" + Pairs(args) + "}") == Json.Fail
  {
    hide AllSettled, HaveValues, Json.ReadMembers;
    MembersFail(args, vals);
    PairsStart(args);
    hide Pairs;
    var s := "{" + Pairs(args) + "}";
    assert s[1..] == Pairs(args) + "}";
    assert Json.Skip(s) == s && Json.Skip(s[1..]) == s[1..];
  }

  /**
   The finished arguments of a well-bracketed tagged call, each of whose value texts is JSON or is
   closed but stuck: they are the object whose members are exactly the argument events in order,
   duplicates kept, if every argument has a value, and no JSON at all if one has none. Every brace
   and every string is closed in both cases.
   */
  lemma TaggedCallIsObject(st: State, nodes: seq<Node>, args: seq<Arg>, vals: seq<Json.Value>)
    requires Valid(st) && Visitable(st, nodes) && TaggedCall(nodes, args)
    requires AllSettled(args, vals)
    ensures Run(st, nodes).current == InResult
    ensures var arguments := Tool(Run(st, nodes)).arguments;
            && QL.ScanText(QL.Clean, arguments) == QL.Clean
            && (if HaveValues(args, vals) then Json.Denotes(arguments, Json.Obj(Members(args, vals)))
                else Json.ReadValue(arguments) == Json.Fail)
  {
    hide HaveValues, AllSettled, TaggedCall, Pairs, Run, Json.ReadValue, CloseBraces, QL.ScanText;
    TaggedCallText(st, nodes, args);
    ClosedText(args, vals);
    if HaveValues(args, vals) {
      ObjectReads(args, vals);
    } else {
      ObjectFails(args, vals);
    }
  }

  // Which texts are stuck.

  predicate IsEmpty(a: Arg) { AllBlank(ValText(a.val)) }

  lemma {:induction false} BlankSkipped(x: string, u: string)
    requires AllBlank(x)
    ensures Json.Skip(x + u) == Json.Skip(u)
    decreases |x|
  {
    if x == "" {
      assert x + u == u;
    } else {
      BlankSkipped(x[1..], u);
      assert (x + u)[1..] == x[1..] + u;
    }
  }

  lemma {:induction false} BlankScans(x: string, st: QL.Scan)
    requires AllBlank(x) && !st.inString && !st.escaped
    ensures QL.ScanText(st, x) == st
    decreases |x|
  {
    if x == "" {
    } else {
      BlankScans(x[..|x| - 1], st);
    }
  }

  lemma MarkFails(x: string, u: string)
    requires AllBlank(x) && u != "" && (u[0] == ',' || u[0] == '}')
    ensures Json.ReadValue(x + u) == Json.Fail
  {
    BlankSkipped(x, u);
    assert Json.Skip(u) == u && Json.Digits(u, 0) == 0;
    hide Json.Skip, Json.Digits;
  }

  /** A text that is empty, or blank, is closed and stuck, and is no value. */
  lemma EmptyIsStuck(x: string)
    requires AllBlank(x)
    ensures Balanced(x) && Stuck(x) && forall v :: !Json.Denotes(x, v)
  {
    forall d: int
      ensures QL.ScanText(QL.Scan(d, false, false), x) == QL.Scan(d, false, false)
    {
      BlankScans(x, QL.Scan(d, false, false));
    }
    forall u: string | u != "" && (u[0] == ',' || u[0] == '}')
      ensures Json.ReadValue(x + u) == Json.Fail
    {
      MarkFails(x, u);
    }
    BlankSkipped(x, "");
    assert x + "" == x;
  }

  /**
   For a complete tagged call whose value texts are each empty or JSON, the arguments denote an object
   if and only if none is empty.
   */
  lemma EmptyValueLaw(st: State, nodes: seq<Node>, args: seq<Arg>, vals: seq<Json.Value>)
    requires Valid(st) && Visitable(st, nodes) && TaggedCall(nodes, args) && |args| == |vals|
    requires forall i :: 0 <= i < |args| ==> IsEmpty(args[i]) || HasValue(args[i], vals[i])
    ensures AllSettled(args, vals) && Run(st, nodes).current == InResult
    ensures (exists ms :: Json.Denotes(Tool(Run(st, nodes)).arguments, Json.Obj(ms))) <==>
            forall i :: 0 <= i < |args| ==> !IsEmpty(args[i])
    ensures (exists ms :: Json.Denotes(Tool(Run(st, nodes)).arguments, Json.Obj(ms))) ==>
            Json.Denotes(Tool(Run(st, nodes)).arguments, Json.Obj(Members(args, vals)))
  {
    hide Balanced, Stuck, TaggedCall, Run, Json.ReadValue, ValText, AllBlank;
    forall i | 0 <= i < |args|
      ensures Settled(args[i], vals[i])
      ensures !IsEmpty(args[i]) <==> HasValue(args[i], vals[i])
    {
      if IsEmpty(args[i]) {
        EmptyIsStuck(ValText(args[i].val));
        if HasValue(args[i], vals[i]) { ValueDenotes(args[i], vals[i]); }
      }
    }
    TaggedCallIsObject(st, nodes, args, vals);
    hide HasValue, Settled;
  }

  /** Nothing is added to JSON text. */
  lemma JsonStaysOpenless(text: string, v: Json.Value)
    requires Json.Denotes(text, v)
    ensures CloseBraces(text) == text && QL.ScanText(QL.Clean, text) == QL.Clean
  {
    hide Json.Denotes, QL.ScanText;
    JsonTracking.JsonIsNeutral(text, v, 0);
    assert text + "" == text;
  }

  /** If the text is JSON, the finished arguments are that very text. */
  lemma WholeCallIsText(st: State, nodes: seq<Node>, text: string, v: Json.Value)
    requires Valid(st) && Visitable(st, nodes) && WholeCall(nodes, text) && Json.Denotes(text, v)
    ensures var r := Run(st, nodes);
            && r.current == InResult && Tool(r).arguments == text
            && QL.ScanText(QL.Clean, Tool(r).arguments) == QL.Clean
  {
    hide WholeCall, Run, Json.Denotes, CloseBraces, QL.ScanText;
    WholeCallText(st, nodes, text);
    JsonStaysOpenless(text, v);
  }

  /**
   Raw text that holds a value, a comma and another member, which a grammar that takes any text up to
   the closing tag allows, is read as that further member, although no event named it.
   */
  lemma RawMembers(a: Arg, b: Arg, text: string, vals: seq<Json.Value>)
    requires QN.Normalize(text) == ValText(a.val) + "," + MemberText(b) && HaveValues([a, b], vals)
    ensures Json.Denotes(CloseBraces("{" + Pairs([Arg(a.name, Raw(text))])), Json.Obj(Members([a, b], vals)))
  {
    hide Pairs, HasValue, Json.ReadValue, QN.Normalize, CloseBraces;
    RawPairs(a, b, text);
    ClosedText([a, b], vals);
    ObjectReads([a, b], vals);
  }

  lemma RawPairs(a: Arg, b: Arg, text: string)
    requires QN.Normalize(text) == ValText(a.val) + "," + MemberText(b)
    ensures Pairs([Arg(a.name, Raw(text))]) == Pairs([a, b])
  {
    var raw := Arg(a.name, Raw(text));
    assert MemberText(raw) == PairOf(a.name, ValText(a.val) + "," + MemberText(b));
    PairsFront(a, [b]);
    PairsFront(b, []);
    PairsFront(raw, []);
    assert [a] + [b] == [a, b] && [b] + [] == [b] && [raw] + [] == [raw];
    hide Pairs, ValText, Json.Quote, QN.Normalize;
    SplitPair(Json.Quote(a.name), ValText(a.val), MemberText(b));
  }

  lemma SplitPair(q: string, x: string, y: string)
    ensures q + ":" + (x + "," + y) == q + ":" + x + ("," + y)
  {}

  // ---------------------------------------------------------------------------
  // Closing an arbitrary text
  // ---------------------------------------------------------------------------

  lemma {:induction false} BracesScan(st: QL.Scan, n: nat)
    requires st.escaped ==> st.inString
    ensures var r := QL.ScanText(st, Braces(n));
            && r.inString == st.inString
            && r.depth == if st.inString then st.depth else st.depth - n
    decreases n
  {
    if n == 0 {
      EmptyScan(st);
    } else {
      BracesScan(st, n - 1);
      ScanEscapes(st, Braces(n - 1));
      QL.ScanConcat(st, Braces(n - 1), "}");
      QL.ScanTwo(QL.ScanText(st, Braces(n - 1)), '}', '}');
      hide QL.ScanText;
    }
  }

  lemma {:induction false} ScanEscapes(st: QL.Scan, s: string)
    requires st.escaped ==> st.inString
    ensures QL.ScanText(st, s).escaped ==> QL.ScanText(st, s).inString
    decreases |s|
  {
    if s == "" {
    } else {
      ScanEscapes(st, s[..|s| - 1]);
    }
  }

  /**
   Closing a call balances its arguments exactly when they left no string open and did not close
   more braces than they opened.
   */
  lemma ClosingBalances(s: string)
    ensures var before, after := QL.ScanText(QL.Clean, s), QL.ScanText(QL.Clean, CloseBraces(s));
            after.depth == 0 && !after.inString <==> before.depth >= 0 && !before.inString
  {
    var st := QL.ScanText(QL.Clean, s);
    ScanEscapes(QL.Clean, s);
    QL.ScanConcat(QL.Clean, s, Braces(st.depth));
    if st.depth > 0 {
      BracesScan(st, st.depth);
    } else {
      EmptyScan(st);
    }
  }

  // ---------------------------------------------------------------------------
  // Required arguments
  // ---------------------------------------------------------------------------

  predicate CallAccepted(required: map<string, seq<string>>, call: ToolCall) {
    call.name in required ==> AllIn(required[call.name], Json.MemberNames(call.arguments))
  }

  predicate AllIn(wanted: seq<string>, names: set<string>) {
    forall k :: 0 <= k < |wanted| ==> wanted[k] in names
  }

  /** The check made after a complete parse; arguments that are no JSON object have no members. */
  method CheckRequired(required: map<string, seq<string>>, calls: seq<ToolCall>) returns (accepted: bool)
    ensures accepted <==> forall k :: 0 <= k < |calls| ==> CallAccepted(required, calls[k])
  {
    for i := 0 to |calls|
      invariant forall k :: 0 <= k < i ==> CallAccepted(required, calls[k])
    {
      var call := calls[i];
      if call.name in required {
        var names := Json.MemberNames(call.arguments);
        var wanted := required[call.name];
        for j := 0 to |wanted|
          invariant forall k :: 0 <= k < j ==> wanted[k] in names
        {
          if wanted[j] !in names {
            return false;
          }
        }
      }
    }
    return true;
  }

  function Names(args: seq<Arg>): set<string> {
    if args == [] then {} else {args[0].name} + Names(args[1..])
  }

  lemma {:induction false} MembersAreNames(args: seq<Arg>, vals: seq<Json.Value>)
    requires |args| == |vals|
    ensures Json.NamesOf(Members(args, vals)) == Names(args)
    decreases |args|
  {
    if args == [] {
    } else {
      MembersAreNames(args[1..], vals[1..]);
      assert Members(args, vals)[1..] == Members(args[1..], vals[1..]);
    }
  }

  /**
   After a well-bracketed tagged call the check accepts exactly if nothing is required of it, or if
   every argument has a value and every required name occurred among the argument events, in whatever
   order and however often.
   */
  lemma RequiredAccepted(st: State, nodes: seq<Node>, args: seq<Arg>, vals: seq<Json.Value>, required: map<string, seq<string>>)
    requires Valid(st) && Visitable(st, nodes) && TaggedCall(nodes, args) && AllSettled(args, vals)
    ensures Run(st, nodes).current == InResult
    ensures var call := Tool(Run(st, nodes));
            CallAccepted(required, call) <==>
              (call.name in required && required[call.name] != [] ==>
                 HaveValues(args, vals) && AllIn(required[call.name], Names(args)))
  {
    hide HasValue, AllSettled, HaveValues, TaggedCall, Run, Json.ReadValue, Names, Members, Visitable;
    TaggedCallIsObject(st, nodes, args, vals);
    var call := Tool(Run(st, nodes));
    if HaveValues(args, vals) {
      assert |args| == |vals| by { SameLength(args, vals); }
      MembersAreNames(args, vals);
      assert Json.MemberNames(call.arguments) == Names(args);
    } else {
      assert Json.MemberNames(call.arguments) == {};
    }
    if call.name in required && required[call.name] != [] {
      assert required[call.name][0] in required[call.name];
    }
  }

  lemma SameLength(args: seq<Arg>, vals: seq<Json.Value>)
    requires HaveValues(args, vals)
    ensures |args| == |vals|
  {}

  /** For a call whose arguments came as one JSON object the check reads that object. */
  lemma WholeRequiredAccepted(
    st: State, nodes: seq<Node>, text: string, members: seq<(string, Json.Value)>, required: map<string, seq<string>>)
    requires Valid(st) && Visitable(st, nodes) && WholeCall(nodes, text) && Json.Denotes(text, Json.Obj(members))
    ensures Run(st, nodes).current == InResult
    ensures var call := Tool(Run(st, nodes));
            CallAccepted(required, call) <==> (call.name in required ==> AllIn(required[call.name], Json.NamesOf(members)))
  {
    hide WholeCall, Run, Json.ReadValue, AllIn, Visitable, QL.ScanText;
    WholeCallIsText(st, nodes, text, Json.Obj(members));
    assert Json.MemberNames(text) == Json.NamesOf(members);
  }
}
