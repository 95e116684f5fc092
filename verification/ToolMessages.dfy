/**
 Whole messages: for every sequence of complete calls, content and reasoning the mapper leaves one
 call for each of them, in order, with its own name, id and arguments, and all of the text.
 */
module ToolMessages {
  import opened ChatTypes
  import opened PegMapper
  import opened ToolArguments
  import opened Text
  import opened Wrappers

  /** The texts of the nodes with `tag`, joined. */
  function Said(tag: Tag, nodes: seq<Node>): string {
    if nodes == [] then ""
    else (if nodes[0].tag == tag then nodes[0].text else "") + Said(tag, nodes[1..])
  }

  /** The text of the last node with `tag`. */
  function LastText(tag: Tag, nodes: seq<Node>): Option<string> {
    if nodes == [] then None
    else if LastText(tag, nodes[1..]).Some? then LastText(tag, nodes[1..])
    else if nodes[0].tag == tag then Some(nodes[0].text)
    else None
  }

  /** The name after `nodes`, if it was `name` before. */
  function NameAfter(name: string, nodes: seq<Node>): string {
    var t := LastText(ToolName, nodes);
    if t.Some? then TrimTrailing(t.value) else name
  }

  function IdAfter(id: string, nodes: seq<Node>): string {
    var t := LastText(ToolId, nodes);
    if t.Some? then IdText(t.value) else id
  }

  /** The calls in front of the current one. */
  function Earlier(st: State): seq<ToolCall>
    requires Valid(st) && HasTool(st)
  {
    if st.current == InPending then st.message.calls else st.message.calls[..|st.message.calls| - 1]
  }

  // ---------------------------------------------------------------------------
  // Text outside of calls
  // ---------------------------------------------------------------------------

  lemma StepSays(st: State, node: Node)
    requires Valid(st) && Defined(st, node)
    ensures Step(st, node).message.content == st.message.content + Said(Content, [node])
    ensures Step(st, node).message.reasoning == st.message.reasoning + Said(Reasoning, [node])
  {
    hide PairText, IdText, Trim, ValueText, CloseBraces;
    assert Said(Content, []) == "" && Said(Reasoning, []) == "";
  }

  /** No event loses, reorders or invents content or reasoning, inside a call or outside. */
  lemma {:induction false} RunSays(st: State, nodes: seq<Node>)
    requires Valid(st) && Visitable(st, nodes)
    ensures Run(st, nodes).message.content == st.message.content + Said(Content, nodes)
    ensures Run(st, nodes).message.reasoning == st.message.reasoning + Said(Reasoning, nodes)
    decreases |nodes|
  {
    hide Step;
    if nodes == [] {
    } else {
      var next := Step(st, nodes[0]);
      StepKeepsValid(st, nodes[0]);
      StepSays(st, nodes[0]);
      RunSays(next, nodes[1..]);
      SaidFront(Content, nodes);
      SaidFront(Reasoning, nodes);
      hide Said;
    }
  }

  lemma SaidFront(tag: Tag, nodes: seq<Node>)
    requires nodes != []
    ensures Said(tag, nodes) == Said(tag, [nodes[0]]) + Said(tag, nodes[1..])
  {
    assert [nodes[0]][1..] == [];
  }

  // ---------------------------------------------------------------------------
  // One call
  // ---------------------------------------------------------------------------

  /** Within a call only the name and id events change the header, and no earlier call changes. */
  lemma StepHeader(st: State, node: Node)
    requires Valid(st) && HasTool(st) && node.tag != ToolOpen
    requires node.tag == ToolClose ==> st.current == InResult
    ensures Valid(Step(st, node)) && HasTool(Step(st, node))
    ensures Earlier(Step(st, node)) == Earlier(st)
    ensures Tool(Step(st, node)).name == NameAfter(Tool(st).name, [node])
    ensures Tool(Step(st, node)).id == IdAfter(Tool(st).id, [node])
  {
    hide PairText, IdText, Trim, ValueText, CloseBraces, TrimTrailing, LastText, StepName, StepClose, WithTarget, Target;
    StepKeepsValid(st, node);
    OneText(ToolName, node);
    OneText(ToolId, node);
    if node.tag == ToolName {
      NameHeader(st, node.text);
    } else if node.tag == ToolClose {
      CloseHeader(st);
    } else {
      TargetHeader(st);
    }
  }

  lemma NameHeader(st: State, text: string)
    requires Valid(st) && HasTool(st)
    ensures var r := StepName(st, text);
            && Valid(r) && HasTool(r) && Earlier(r) == Earlier(st)
            && Tool(r).name == TrimTrailing(text) && Tool(r).id == Tool(st).id
  {
    hide TrimTrailing;
  }

  lemma TargetHeader(st: State)
    requires Valid(st) && HasTool(st)
    ensures forall text :: var r := WithTarget(st, text);
            && Valid(r) && HasTool(r) && Earlier(r) == Earlier(st) && r.current == st.current
            && Tool(r).name == Tool(st).name && Tool(r).id == Tool(st).id
  {}

  lemma CloseHeader(st: State)
    requires Valid(st) && st.current == InResult
    ensures var r := StepClose(st);
            && Valid(r) && HasTool(r) && Earlier(r) == Earlier(st)
            && Tool(r).name == Tool(st).name && Tool(r).id == Tool(st).id
  {
    hide CloseBraces;
  }

  lemma OneText(tag: Tag, node: Node)
    ensures LastText(tag, [node]) == if node.tag == tag then Some(node.text) else None
  {
    assert [node][1..] == [];
  }

  lemma LastFront(tag: Tag, nodes: seq<Node>)
    requires nodes != []
    ensures LastText(tag, nodes)
         == if LastText(tag, nodes[1..]).Some? then LastText(tag, nodes[1..]) else LastText(tag, [nodes[0]])
  {
    assert [nodes[0]][1..] == [];
  }

  lemma BrokenStays(sh: Shape, nodes: seq<Node>)
    requires !ShapeRun(sh, nodes).Broken?
    ensures !sh.Broken?
  {}

  /** A call that is never ill-bracketed can be visited to its end, and leaves its header. */
  lemma {:induction false} RunHeader(st: State, sh: Shape, nodes: seq<Node>)
    requires Follows(st, sh) && !ShapeRun(sh, nodes).Broken?
    ensures Visitable(st, nodes)
    ensures HasTool(st) && HasTool(Run(st, nodes)) && Earlier(Run(st, nodes)) == Earlier(st)
    ensures Tool(Run(st, nodes)).name == NameAfter(Tool(st).name, nodes)
    ensures Tool(Run(st, nodes)).id == IdAfter(Tool(st).id, nodes)
    decreases |nodes|
  {
    hide Step, Follows, Tool, Earlier, ShapeStep, IdText, TrimTrailing;
    BrokenStays(sh, nodes);
    FollowsHasTool(st, sh);
    if nodes == [] {
    } else {
      var node, rest := nodes[0], nodes[1..];
      BrokenStays(ShapeStep(sh, node), rest);
      CallEvents(sh, node);
      StepFollows(st, sh, node);
      StepHeader(st, node);
      RunHeader(Step(st, node), ShapeStep(sh, node), rest);
      LastFront(ToolName, nodes);
      LastFront(ToolId, nodes);
      hide LastText;
    }
  }

  lemma CallEvents(sh: Shape, node: Node)
    requires !ShapeStep(sh, node).Broken? && !sh.Broken?
    ensures node.tag != ToolOpen && (node.tag == ToolClose ==> sh.InCall? && sh.named)
  {
    hide Trim, TrimTrailing;
  }

  /** The call that a complete tagged call adds to the message. */
  function CallOf(nodes: seq<Node>, text: string): ToolCall {
    ToolCall(NameAfter("", nodes), CloseBraces(text), IdAfter("", nodes))
  }

  /** A complete call, with the text of its arguments before it is closed. */
  predicate CompleteCall(nodes: seq<Node>, text: string) {
    && nodes != [] && nodes[0].tag == ToolOpen
    && match ShapeRun(Opened, nodes[1..])
       case Closed(args) => text == "{" + Pairs(args)
       case ClosedWhole(t) => text == t
       case _ => false
  }

  /**
   From any mapper state a complete call appends exactly one call, under its own name and id and
   with its own arguments, and keeps every call made before.
   */
  lemma CallAppends(st: State, nodes: seq<Node>, text: string)
    requires Valid(st) && CompleteCall(nodes, text)
    ensures Visitable(st, nodes)
    ensures Run(st, nodes).message.calls == st.message.calls + [CallOf(nodes, text)]
    ensures Run(st, nodes).current == InResult
  {
    hide ShapeRun, Pairs, CloseBraces, IdText, TrimTrailing, LastText, Follows, Step, Run;
    var open, rest := nodes[0], nodes[1..];
    assert nodes == [open] + rest;
    OpenFollows(st, open);
    RunHeader(Step(st, open), Opened, rest);
    VisitOne(st, open);
    RunConcat(st, [open], rest);
    match ShapeRun(Opened, rest) {
      case Closed(args) => TaggedCallText(st, nodes, args);
      case ClosedWhole(t) => WholeCallText(st, nodes, t);
    }
    OpenHeader(open, rest);
    var calls := Run(st, nodes).message.calls;
    assert calls == calls[..|calls| - 1] + [calls[|calls| - 1]];
  }

  lemma OpenFollows(st: State, open: Node)
    requires Valid(st) && open.tag == ToolOpen
    ensures Follows(Step(st, open), Opened)
    ensures Earlier(Step(st, open)) == st.message.calls && Tool(Step(st, open)) == NoCall
  {
    StepKeepsValid(st, open);
  }

  lemma OpenHeader(open: Node, rest: seq<Node>)
    requires open.tag == ToolOpen
    ensures LastText(ToolName, [open] + rest) == LastText(ToolName, rest)
    ensures LastText(ToolId, [open] + rest) == LastText(ToolId, rest)
  {
    assert ([open] + rest)[1..] == rest;
  }

  // ---------------------------------------------------------------------------
  // A whole message
  // ---------------------------------------------------------------------------

  datatype Part = Aside(node: Node) | Call(nodes: seq<Node>, text: string)

  predicate WellFormed(part: Part) {
    match part
    case Aside(node) => node.tag == Content || node.tag == Reasoning || node.tag == Other
    case Call(nodes, text) => CompleteCall(nodes, text)
  }

  function NodesOf(part: Part): seq<Node> {
    match part
    case Aside(node) => [node]
    case Call(nodes, _) => nodes
  }

  function Flatten(parts: seq<Part>): seq<Node> {
    if parts == [] then [] else NodesOf(parts[0]) + Flatten(parts[1..])
  }

  function CallsOf(parts: seq<Part>): seq<ToolCall> {
    if parts == [] then []
    else (if parts[0].Call? then [CallOf(parts[0].nodes, parts[0].text)] else []) + CallsOf(parts[1..])
  }

  lemma CallsFront(part: Part, rest: seq<Part>)
    ensures CallsOf([part] + rest) == CallsOf([part]) + CallsOf(rest)
  {
    hide CallOf;
    assert [part][1..] == [] && ([part] + rest)[1..] == rest;
    assert CallsOf([]) == [];
  }

  lemma PartCalls(st: State, part: Part)
    requires Valid(st) && WellFormed(part)
    ensures Visitable(st, NodesOf(part))
    ensures Run(st, NodesOf(part)).message.calls == st.message.calls + CallsOf([part])
  {
    hide CallOf, CompleteCall;
    assert CallsOf([]) == [] && [part][1..] == [];
    if part.Call? {
      CallAppends(st, part.nodes, part.text);
    } else {
      VisitOne(st, part.node);
    }
  }

  lemma {:induction false} PartsCalls(st: State, parts: seq<Part>)
    requires Valid(st) && forall k :: 0 <= k < |parts| ==> WellFormed(parts[k])
    ensures Visitable(st, Flatten(parts))
    ensures Run(st, Flatten(parts)).message.calls == st.message.calls + CallsOf(parts)
    decreases |parts|
  {
    hide CallOf, WellFormed, Step, NodesOf;
    if parts == [] {
      assert CallsOf(parts) == [] && Flatten(parts) == [];
    } else {
      var part, rest := parts[0], parts[1..];
      PartCalls(st, part);
      PartsCalls(Run(st, NodesOf(part)), rest);
      CallsFront(part, rest);
      hide Run, Visitable, CallsOf;
      assert Flatten(parts) == NodesOf(part) + Flatten(rest);
      assert [part] + rest == parts;
      RunConcat(st, NodesOf(part), Flatten(rest));
    }
  }

  /**
   The finished message of any sequence of asides and complete calls: every call in order,
   and all content and reasoning in order, wherever it occurred.
   */
  lemma WholeMessage(parts: seq<Part>)
    requires forall k :: 0 <= k < |parts| ==> WellFormed(parts[k])
    ensures var nodes := Flatten(parts);
            Visitable(Initial, nodes)
            && Run(Initial, nodes).message == Message(Said(Content, nodes), Said(Reasoning, nodes), CallsOf(parts))
  {
    PartsCalls(Initial, parts);
    RunSays(Initial, Flatten(parts));
  }
}
