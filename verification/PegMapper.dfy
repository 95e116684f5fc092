/**
 The mapper of chat-peg-parser.cpp: it visits the tagged nodes of a (possibly partial) syntax
 tree and builds the message, keeping each tool call's arguments as a growing JSON text.
 */
module PegMapper {
  import opened ChatTypes
  import opened Text
  import Json
  import QN = QuoteNormalizer
  import QL = QuoteLaws
  import opened Wrappers

  /**
   What `current_tool` points to: nothing, the pending call, the last call of the result, or a
   pending call that has been discarded.
   */
  datatype Current = NoTool | InPending | InResult | Discarded

  datatype State = State(
    message: Message,
    pending: Option<ToolCall>,
    current: Current,
    argCount: nat,
    closingQuotePending: bool,
    argsBuffer: string,
    seenArgs: set<string>)

  const Initial := State(Blank, None, NoTool, 0, false, "", {})

  predicate Valid(st: State) {
    && (st.current == InPending <==> st.pending.Some?)
    && (st.current == InPending ==> st.pending.value.name == "")
    && (st.current == InResult ==> st.message.calls != [])
  }

  /** Events that would follow the pointer to a discarded call are outside the mapper's domain. */
  predicate Defined(st: State, node: Node) {
    st.current == Discarded ==>
      node.tag in {Reasoning, Content, ToolOpen, ArgOpen, Other}
  }

  // ---------------------------------------------------------------------------
  // The call under construction
  // ---------------------------------------------------------------------------

  predicate HasTool(st: State) { st.current == InPending || st.current == InResult }

  function Tool(st: State): ToolCall
    requires Valid(st) && HasTool(st)
  {
    if st.current == InPending then st.pending.value else st.message.calls[|st.message.calls| - 1]
  }

  function WithTool(st: State, call: ToolCall): State
    requires Valid(st) && HasTool(st)
  {
    if st.current == InPending then st.(pending := Some(call))
    else
      var n := |st.message.calls|;
      st.(message := st.message.(calls := st.message.calls[..n - 1] + [call]))
  }

  /** The text that argument events append to. */
  function Target(st: State): string
    requires Valid(st) && HasTool(st)
  {
    if Tool(st).name != "" then Tool(st).arguments else st.argsBuffer
  }

  function WithTarget(st: State, text: string): State
    requires Valid(st) && HasTool(st)
  {
    if Tool(st).name != "" then WithTool(st, Tool(st).(arguments := text)) else st.(argsBuffer := text)
  }

  // ---------------------------------------------------------------------------
  // Text handling
  // ---------------------------------------------------------------------------

  /** An argument name loses at most one leading blank and every trailing blank. */
  function Trim(s: string): string {
    TrimTrailing(if s != "" && IsSpace(s[0]) then s[1..] else s)
  }

  /** An identifier loses its trailing blanks and one pair of enclosing quotes. */
  function IdText(s: string): string {
    var t := TrimTrailing(s);
    if |t| >= 2 && t[0] == '"' && t[|t| - 1] == '"' then t[1..|t| - 1] else t
  }

  function Braces(n: int): string {
    if n <= 0 then "" else Braces(n - 1) + "}"
  }

  function Depth(s: string): int { QL.ScanText(QL.Clean, s).depth }

  /** Closes every brace that the counter finds open. */
  function CloseBraces(s: string): string { s + Braces(Depth(s)) }

  /** The text a value node contributes. */
  function ValueText(tag: Tag, text: string, closing: bool): string {
    if tag == ArgStringValue then
      (if closing && text != "" then "" else "\"") + Json.Escape(text)
    else QN.Normalize(text)
  }

  // ---------------------------------------------------------------------------
  // One event
  // ---------------------------------------------------------------------------

  function StepName(st: State, text: string): State
    requires Valid(st) && HasTool(st)
  {
    var named := Tool(st).(name := TrimTrailing(text));
    var filled :=
      if st.argsBuffer != "" then named.(arguments := st.argsBuffer)
      else if named.arguments == "" then named.(arguments := "{")
      else named;
    if st.current == InPending then
      st.(message := st.message.(calls := st.message.calls + [filled]), pending := None, current := InResult, argsBuffer := "")
    else WithTool(st, filled).(argsBuffer := "")
  }

  /** The target with `"name":` appended, behind a comma unless it is the first pair. */
  function PairText(target: string, name: string): string {
    var t := if target == "" then "{" else target;
    (if |t| > 1 then t + "," else t) + Json.Quote(name) + ":"
  }

  function StepClose(st: State): State
    requires Valid(st) && HasTool(st)
  {
    var flush := Tool(st).name == "" && st.argsBuffer != "";
    var call := if flush then Tool(st).(arguments := st.argsBuffer) else Tool(st);
    var quoted := if st.closingQuotePending then call.(arguments := call.arguments + "\"") else call;
    var closed := quoted.(arguments := CloseBraces(quoted.arguments));
    var st' := st.(closingQuotePending := false, argsBuffer := if flush then "" else st.argsBuffer);
    if st.current == InPending then st'.(pending := None, current := Discarded)
    else WithTool(st', closed)
  }

  function Step(st: State, node: Node): State
    requires Valid(st) && Defined(st, node)
  {
    var text := node.text;
    match node.tag
    case Reasoning => st.(message := st.message.(reasoning := st.message.reasoning + text))
    case Content => st.(message := st.message.(content := st.message.content + text))
    case ToolOpen => State(st.message, Some(NoCall), InPending, 0, false, "", {})
    case ArgOpen => st.(closingQuotePending := false)
    case Other => st
    case _ => if HasTool(st) then ToolStep(st, node) else st
  }

  /** Events that act on the current call. */
  function ToolStep(st: State, node: Node): State
    requires Valid(st) && HasTool(st)
  {
    var text := node.text;
    match node.tag
    case ToolId => WithTool(st, Tool(st).(id := IdText(text)))
    case ToolName => StepName(st, text)
    case ToolArgs =>
      var t := TrimTrailing(text);
      if t != "" && t[0] == '{' then WithTarget(st, t) else st
    case ArgName =>
      var name := Trim(text);
      WithTarget(st, PairText(Target(st), name)).(seenArgs := st.seenArgs + {name}, argCount := st.argCount + 1)
    case ArgValue => WithTarget(st, Target(st) + ValueText(ArgValue, text, false))
    case ArgStringValue =>
      WithTarget(st, Target(st) + ValueText(ArgStringValue, text, st.closingQuotePending)).(closingQuotePending := true)
    case ArgClose =>
      if st.closingQuotePending then WithTarget(st, Target(st) + "\"").(closingQuotePending := false) else st
    case ToolClose => StepClose(st)
    case _ => st
  }

  lemma StepKeepsValid(st: State, node: Node)
    requires Valid(st) && Defined(st, node)
    ensures Valid(Step(st, node))
  {
    hide PairText, IdText, Trim, ValueText, CloseBraces;
  }

  /** Reasoning that consists of blanks only is discarded when the tree has been visited. */
  predicate AllBlank(s: string) {
    forall k :: 0 <= k < |s| ==> Json.IsBlank(s[k])
  }

  function Finish(st: State): Message {
    if AllBlank(st.message.reasoning) then st.message.(reasoning := "") else st.message
  }

  /** State after visiting `nodes` in order. */
  ghost predicate Visitable(st: State, nodes: seq<Node>)
    requires Valid(st)
    decreases |nodes|
  {
    nodes == [] || (Defined(st, nodes[0]) && (StepKeepsValid(st, nodes[0]); Visitable(Step(st, nodes[0]), nodes[1..])))
  }

  ghost function Run(st: State, nodes: seq<Node>): (r: State)
    requires Valid(st) && Visitable(st, nodes)
    ensures Valid(r)
    decreases |nodes|
  {
    if nodes == [] then st
    else
      StepKeepsValid(st, nodes[0]);
      Run(Step(st, nodes[0]), nodes[1..])
  }

  lemma {:induction false} RunConcat(st: State, a: seq<Node>, b: seq<Node>)
    requires Valid(st) && Visitable(st, a) && Visitable(Run(st, a), b)
    ensures Visitable(st, a + b) && Run(st, a + b) == Run(Run(st, a), b)
    decreases |a|
  {
    hide Step;
    if a == [] {
      assert a + b == b;
    } else {
      StepKeepsValid(st, a[0]);
      RunConcat(Step(st, a[0]), a[1..], b);
      assert (a + b)[1..] == a[1..] + b;
    }
  }

  lemma VisitOne(st: State, node: Node)
    requires Valid(st) && Defined(st, node)
    ensures Visitable(st, [node]) && Run(st, [node]) == Step(st, node)
  {
    StepKeepsValid(st, node);
    assert [node][1..] == [];
  }

  lemma {:induction false} BracesFront(n: int)
    requires n > 0
    ensures Braces(n) == "}" + Braces(n - 1)
    decreases n
  {
    if n == 1 {
    } else {
      BracesFront(n - 1);
    }
  }
}
