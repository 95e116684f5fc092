/**
 The mapper object of chat-peg-parser.cpp, which visits the nodes of a tree and hands back the
 finished message, and what that message holds.
 */
module MessageMapper {
  import opened ChatTypes
  import opened PegMapper
  import opened ToolMessages
  import opened Text
  import opened Wrappers
  import Json
  import QN = QuoteNormalizer
  import QL = QuoteLaws

  /** Nothing but blanks, newlines, returns and tabs. */
  predicate OnlySpace(s: string) {
    forall k :: 0 <= k < |s| ==> s[k] == ' ' || s[k] == '\n' || s[k] == '\r' || s[k] == '\t'
  }

  /** The finished message holds all that was said, except reasoning that is only space. */
  lemma FinishedTexts(nodes: seq<Node>)
    requires Visitable(Initial, nodes)
    ensures var m, said := Finish(Run(Initial, nodes)), Said(Reasoning, nodes);
            && m.content == Said(Content, nodes)
            && m.reasoning == (if OnlySpace(said) then "" else said)
            && m.calls == Run(Initial, nodes).message.calls
  {
    RunSays(Initial, nodes);
    var s := Run(Initial, nodes).message.reasoning;
    assert s == Said(Reasoning, nodes);
  }

  ghost predicate AllWellFormed(parts: seq<Part>) { forall k :: 0 <= k < |parts| ==> WellFormed(parts[k]) }

  /** For a list of asides and complete calls: every call in order and every text in order. */
  lemma FinishedMessage(parts: seq<Part>)
    requires AllWellFormed(parts)
    ensures Visitable(Initial, Flatten(parts))
    ensures var nodes := Flatten(parts);
            var said := Said(Reasoning, nodes);
            Finish(Run(Initial, nodes)) ==
            Message(Said(Content, nodes), if OnlySpace(said) then "" else said, CallsOf(parts))
  {
    WholeMessage(parts);
    FinishedTexts(Flatten(parts));
  }

  // ---------------------------------------------------------------------------
  // Names and identifiers
  // ---------------------------------------------------------------------------

  predicate AllSpace(s: string) { forall k :: 0 <= k < |s| ==> IsSpace(s[k]) }

  /** No space at either end. */
  predicate Tight(s: string) { s != "" ==> !IsSpace(s[0]) && !IsSpace(s[|s| - 1]) }

  lemma TrailingCut(x: string, tail: string)
    requires (x == "" || !IsSpace(x[|x| - 1])) && AllSpace(tail)
    ensures TrimTrailing(x + tail) == x
  {
    var r := TrimTrailing(x + tail);
    assert x != "" ==> (x + tail)[|x| - 1] == x[|x| - 1];
    assert forall k :: |x| <= k < |x + tail| ==> (x + tail)[k] == tail[k - |x|];
    assert r == (x + tail)[..|r|];
  }

  /** Quotes around an identifier are taken off once, and the space behind it always. */
  lemma IdentifierTexts(x: string, tail: string)
    requires AllSpace(tail)
    ensures IdText("\"" + x + "\"" + tail) == x
    ensures (x == "" || !IsSpace(x[|x| - 1])) && !(|x| >= 2 && x[0] == x[|x| - 1] == '"') ==> IdText(x + tail) == x
  {
    TrailingCut("\"" + x + "\"", tail);
    if x == "" || !IsSpace(x[|x| - 1]) {
      TrailingCut(x, tail);
    }
    hide TrimTrailing;
  }

  /** Of the space in front of an argument name one character goes, behind it all of it. */
  lemma NameTexts(c: char, x: string, tail: string)
    requires IsSpace(c) && Tight(x) && AllSpace(tail) && x != ""
    ensures Trim(x + tail) == x && Trim([c] + x + tail) == x && Trim([c, c] + x + tail) == [c] + x
  {
    TrailingCut(x, tail);
    TrailingCut([c] + x, tail);
    hide TrimTrailing;
    assert (x + tail)[0] == x[0];
    assert ([c] + x + tail)[1..] == x + tail;
    assert ([c, c] + x + tail)[1..] == [c] + x + tail && ([c, c] + x + tail)[0] == c;
  }

  // ---------------------------------------------------------------------------
  // Calls without a name
  // ---------------------------------------------------------------------------

  /** Until a call is named, whatever else comes, the message gets no call. */
  lemma {:induction false} NamelessLeavesNothing(st: State, nodes: seq<Node>)
    requires Valid(st) && st.current != InResult && Visitable(st, nodes)
    requires forall k :: 0 <= k < |nodes| ==> nodes[k].tag != ToolName
    ensures Run(st, nodes).message.calls == st.message.calls && Run(st, nodes).current != InResult
    decreases |nodes|
  {
    hide Step;
    if nodes == [] {
    } else {
      StepKeepsValid(st, nodes[0]);
      NamelessStep(st, nodes[0]);
      NamelessLeavesNothing(Step(st, nodes[0]), nodes[1..]);
    }
  }

  lemma NamelessStep(st: State, node: Node)
    requires Valid(st) && Defined(st, node) && st.current != InResult && node.tag != ToolName
    ensures Step(st, node).message.calls == st.message.calls && Step(st, node).current != InResult
  {
    hide PairText, IdText, Trim, ValueText, CloseBraces, TrimTrailing;
  }

  // ---------------------------------------------------------------------------
  // Calls that are left unfinished
  // ---------------------------------------------------------------------------

  lemma WrittenTwice(st: State, a: string, b: string)
    requires Valid(st) && HasTool(st)
    ensures var r := WithTarget(st, a);
            && Valid(r) && HasTool(r) && Target(r) == a && WithTarget(r, b) == WithTarget(st, b)
  {}

  /** A string value that comes in pieces is the string of the joined text; an empty piece is a quote. */
  lemma PiecesJoin(st: State, x: string, y: string)
    requires Valid(st) && HasTool(st)
    ensures Valid(Step(st, Node(ArgStringValue, x)))
    ensures y != "" && (x != "" || !st.closingQuotePending) ==>
              Step(Step(st, Node(ArgStringValue, x)), Node(ArgStringValue, y)) == Step(st, Node(ArgStringValue, x + y))
    ensures Step(st, Node(ArgStringValue, "")) == WithTarget(st, Target(st) + "\"").(closingQuotePending := true)
  {
    hide Target, WithTarget, Json.Escape;
    var open := if st.closingQuotePending && x != "" then "" else "\"";
    var first := Target(st) + (open + Json.Escape(x));
    Json.EscapeConcat(x, y);
    WrittenTwice(st, first, first + Json.Escape(y));
    EmptyEscape();
    assert first + Json.Escape(y) == Target(st) + (open + Json.Escape(x + y));
    assert "" + Json.Escape(y) == Json.Escape(y) && "\"" + "" == "\"";
    Reopened(WithTarget(st, first), first + Json.Escape(y));
  }

  lemma EmptyEscape()
    ensures Json.Escape("") == ""
  {}

  lemma Reopened(st: State, text: string)
    requires Valid(st) && HasTool(st)
    ensures Valid(st.(closingQuotePending := true)) && Target(st.(closingQuotePending := true)) == Target(st)
    ensures WithTarget(st.(closingQuotePending := true), text) == WithTarget(st, text).(closingQuotePending := true)
  {}

  /**
   A call whose name is blank gets the arguments that were kept for it when it is closed, a call
   that was never named is gone, and nothing is open any more.
   */
  lemma CloseSettles(st: State)
    requires Valid(st) && HasTool(st) && !st.closingQuotePending
    ensures var r := Step(st, Node(ToolClose, ""));
            && !r.closingQuotePending
            && (st.current == InPending ==> r.pending == None && r.current == Discarded && r.message == st.message)
            && (st.current == InResult ==>
                  r.current == InResult && Earlier(r) == Earlier(st) && Tool(r).name == Tool(st).name
                  && var kept := Tool(st).name == "" && st.argsBuffer != "";
                     Tool(r).arguments == CloseBraces(if kept then st.argsBuffer else Tool(st).arguments)
                     && r.argsBuffer == (if kept then "" else st.argsBuffer))
  {
    hide CloseBraces;
  }

  /** A name, even a second one, leaves arguments that are there alone and uses up those kept for it. */
  lemma NamedAgain(st: State, text: string)
    requires Valid(st) && HasTool(st)
    ensures var r := Step(st, Node(ToolName, text));
            && Valid(r) && r.current == InResult && r.argsBuffer == "" && r.pending == None
            && Tool(r).arguments == (if st.argsBuffer != "" then st.argsBuffer
                                     else if Tool(st).arguments != "" then Tool(st).arguments else "{")
  {
    hide TrimTrailing;
  }

  /** Closing a call with a string still open is closing the string first. */
  lemma CloseEndsString(st: State)
    requires Valid(st) && st.current == InResult && (Tool(st).name != "" || st.argsBuffer != "")
    ensures Valid(Step(st, Node(ArgClose, "")))
    ensures Step(st, Node(ToolClose, "")) == Step(Step(st, Node(ArgClose, "")), Node(ToolClose, ""))
  {
    hide CloseBraces;
  }

  // ---------------------------------------------------------------------------
  // The mapper object
  // ---------------------------------------------------------------------------

  class Mapper {
    var content: string
    var reasoning: string
    var calls: seq<ToolCall>
    var pending: Option<ToolCall>
    var current: Current
    var argCount: nat
    var closingQuotePending: bool
    var argsBuffer: string
    var seenArgs: set<string>

    function View(): State
      reads this
    {
      State(Message(content, reasoning, calls), pending, current, argCount, closingQuotePending, argsBuffer, seenArgs)
    }

    constructor ()
      ensures View() == Initial
    {
      content, reasoning, calls := "", "", [];
      pending, current, argCount := None, NoTool, 0;
      closingQuotePending, argsBuffer, seenArgs := false, "", {};
    }

    /** Writes through the pointer to the current call. */
    method SetTool(call: ToolCall)
      requires Valid(View()) && HasTool(View())
      modifies this`pending, this`calls
      ensures View() == WithTool(old(View()), call)
    {
      if current == InPending {
        pending := Some(call);
      } else {
        calls := calls[..|calls| - 1] + [call];
      }
    }

    /** Writes the string that argument events append to. */
    method SetTarget(text: string)
      requires Valid(View()) && HasTool(View())
      modifies this`pending, this`calls, this`argsBuffer
      ensures View() == WithTarget(old(View()), text)
    {
      var tool := Tool(View());
      if tool.name != "" {
        SetTool(tool.(arguments := text));
      } else {
        argsBuffer := text;
      }
    }

    method MapName(text: string)
      requires Valid(View()) && HasTool(View())
      modifies this
      ensures View() == StepName(old(View()), text)
    {
      var tool := Tool(View()).(name := TrimTrailing(text));
      if argsBuffer != "" {
        tool := tool.(arguments := argsBuffer);
        argsBuffer := "";
      } else if tool.arguments == "" {
        tool := tool.(arguments := "{");
      }
      if pending.Some? {
        calls := calls + [tool];
        pending := None;
        current := InResult;
      } else {
        calls := calls[..|calls| - 1] + [tool];
      }
    }

    static method CloseUnclosed(text: string) returns (r: string)
      ensures r == CloseBraces(text)
    {
      var d := QL.JsonBraceDepth(text);
      r := text;
      while d > 0
        invariant d >= 0 || d == Depth(text)
        invariant r + Braces(d) == CloseBraces(text)
      {
        BracesFront(d);
        assert r + ("}" + Braces(d - 1)) == (r + "}") + Braces(d - 1);
        r := r + "}";
        d := d - 1;
      }
    }

    method MapClose()
      requires Valid(View()) && HasTool(View())
      modifies this
      ensures View() == StepClose(old(View()))
    {
      var tool := Tool(View());
      if tool.name == "" && argsBuffer != "" {
        tool := tool.(arguments := argsBuffer);
        argsBuffer := "";
      }
      if closingQuotePending {
        tool := tool.(arguments := tool.arguments + "\"");
        closingQuotePending := false;
      }
      var closed := CloseUnclosed(tool.arguments);
      tool := tool.(arguments := closed);
      if pending.Some? {
        pending := None;
        current := Discarded;
      } else {
        calls := calls[..|calls| - 1] + [tool];
      }
    }

    /** The events that act on the current call. */
    method MapTool(node: Node)
      requires Valid(View()) && HasTool(View())
      modifies this
      ensures View() == ToolStep(old(View()), node)
    {
      hide StepName, StepClose, PairText, IdText, Trim;
      var text := node.text;
      match node.tag {
        case ToolId =>
          SetTool(Tool(View()).(id := IdText(text)));
        case ToolName =>
          MapName(text);
        case ToolArgs =>
          var t := TrimTrailing(text);
          if t != "" && t[0] == '{' {
            SetTarget(t);
          }
        case ArgName =>
          var name := Trim(text);
          SetTarget(PairText(Target(View()), name));
          seenArgs := seenArgs + {name};
          argCount := argCount + 1;
        case ArgStringValue =>
          var value := "";
          if text == "" || !closingQuotePending {
            value := "\"";
          }
          SetTarget(Target(View()) + (value + Json.Escape(text)));
          closingQuotePending := true;
        case ArgValue =>
          var value := QN.NormalizeQuotesToJson(text);
          SetTarget(Target(View()) + value);
        case ArgClose =>
          if closingQuotePending {
            SetTarget(Target(View()) + "\"");
            closingQuotePending := false;
          }
        case ToolClose =>
          MapClose();
        case _ =>
      }
    }

    method Map(node: Node)
      requires Valid(View()) && Defined(View(), node)
      modifies this
      ensures View() == Step(old(View()), node)
      ensures Valid(View())
    {
      StepKeepsValid(View(), node);
      hide ToolStep;
      match node.tag {
        case Reasoning =>
          reasoning := reasoning + node.text;
        case Content =>
          content := content + node.text;
        case ToolOpen =>
          pending, current, argCount := Some(NoCall), InPending, 0;
          argsBuffer, seenArgs, closingQuotePending := "", {}, false;
        case ArgOpen =>
          closingQuotePending := false;
        case Other =>
        case _ =>
          if HasTool(View()) {
            MapTool(node);
          }
      }
    }

    /** Visits a whole tree and finishes the message. */
    method FromAst(nodes: seq<Node>) returns (message: Message)
      requires View() == Initial && Visitable(View(), nodes)
      modifies this
      ensures message.content == Said(Content, nodes)
      ensures message.reasoning == if OnlySpace(Said(Reasoning, nodes)) then "" else Said(Reasoning, nodes)
      ensures forall parts :: AllWellFormed(parts) && nodes == Flatten(parts) ==> message.calls == CallsOf(parts)
      ensures message == Finish(Run(Initial, nodes))
    {
      hide Step;
      FinishedTexts(nodes);
      forall parts | AllWellFormed(parts) && nodes == Flatten(parts)
        ensures Finish(Run(Initial, nodes)).calls == CallsOf(parts)
      {
        FinishedMessage(parts);
      }
      hide Said, OnlySpace, AllWellFormed, CallsOf, Flatten;
      for i := 0 to |nodes|
        invariant Valid(View()) && Visitable(View(), nodes[i..])
        invariant Run(View(), nodes[i..]) == Run(Initial, nodes)
      {
        assert nodes[i..][0] == nodes[i] && nodes[i..][1..] == nodes[i + 1..];
        Map(nodes[i]);
      }
      if pending.Some? && pending.value.name != "" {
        assert false; // a named call is never left pending
      }
      message := Message(content, reasoning, calls);
      if reasoning != "" {
        var allWhitespace := true;
        var i := 0;
        while i < |reasoning|
          invariant i <= |reasoning|
          invariant allWhitespace <==> forall k :: 0 <= k < i ==> Json.IsBlank(reasoning[k])
        {
          var c := reasoning[i];
          if c != ' ' && c != '\n' && c != '\r' && c != '\t' {
            allWhitespace := false;
          }
          i := i + 1;
        }
        if allWhitespace {
          reasoning := "";
          message := Message(content, "", calls);
        }
      }
    }
  }
}
