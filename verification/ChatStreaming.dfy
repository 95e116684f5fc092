/**
 Streaming from end to end. While a model writes, the text so far is parsed again and again; each
 parse visits a longer list of events. As long as the events follow the tool-call grammar, a snapshot
 continues the one before it unless the growth of the last event breaks what was sent, in one of
 exactly three ways; the diff step fails there and nowhere else, and a run without such a growth
 leaves the client with the complete message.
 */
module ChatStreaming {
  import opened ChatTypes
  import opened PegMapper
  import opened ToolMessages
  import opened MessageMapper
  import opened Text
  import Json
  import JsonLaws
  import MD = MessageDiff
  import QN = QuoteNormalizer
  import QL = QuoteLaws

  // ---------------------------------------------------------------------------
  // The order of events
  // ---------------------------------------------------------------------------

  /** No argument events yet, one argument object, or separately tagged arguments. */
  datatype ArgMode = NoArgs | ObjectArgs | TaggedArgs

  datatype Phase =
    | Idle
    | InCall(named: bool, mode: ArgMode, quoted: bool)
    | Broken

  /**
   A call is opened, named once (before or after its arguments), given its arguments in one of the
   two ways, and closed. A string value starts only after the previous one has been closed.
   */
  function PhaseStep(ph: Phase, node: Node): Phase {
    if ph.Broken? then Broken
    else match node.tag
      case Reasoning => ph
      case Content => ph
      case Other => ph
      case ToolOpen => InCall(false, NoArgs, false)
      case ArgOpen => if ph.InCall? then ph.(quoted := false) else ph
      case _ => if ph.InCall? then CallStep(ph, node) else Broken
  }

  function CallStep(ph: Phase, node: Node): Phase
    requires ph.InCall?
  {
    match node.tag
    case ToolId => ph
    case ToolName => if ph.named || TrimTrailing(node.text) == "" then Broken else ph.(named := true)
    case ToolArgs =>
      var t := TrimTrailing(node.text);
      if t == "" || t[0] != '{' then ph
      else if ph.mode == NoArgs then ph.(mode := ObjectArgs)
      else Broken
    case ArgName => if ph.mode == ObjectArgs then Broken else ph.(mode := TaggedArgs)
    case ArgValue => if ph.mode == ObjectArgs then Broken else ph.(mode := TaggedArgs)
    case ArgStringValue =>
      if ph.mode == ObjectArgs || ph.quoted then Broken else ph.(mode := TaggedArgs, quoted := true)
    case ArgClose => ph.(quoted := false)
    case ToolClose => Idle
    case _ => Broken
  }

  function PhaseRun(ph: Phase, nodes: seq<Node>): Phase
    decreases |nodes|
  {
    if nodes == [] then ph else PhaseRun(PhaseStep(ph, nodes[0]), nodes[1..])
  }

  predicate Lawful(nodes: seq<Node>) { !PhaseRun(Idle, nodes).Broken? }

  /** How the last node of a partial tree may differ from the same node in a larger tree. */
  predicate NodeGrows(x: Node, y: Node) { x.tag == y.tag && x.text <= y.text }

  /**
   The growth of a last node that contradicts what was sent: while the call is in the result, a raw
   value stops inside an escaped quote or inside a word that turns out to be no literal, or an
   argument name is not the name it was.
   */
  predicate Breaks(st: State, x: Node, y: Node) {
    && st.current == InResult
    && ( (x.tag == ArgValue && (QL.SplitsQuoteEscape(x.text, y.text) || QL.SplitsFalseLiteral(x.text, y.text)))
      || (x.tag == ArgName && Trim(x.text) != Trim(y.text)))
  }

  /** `b` has the events of `a`, the last one possibly grown, and possibly more. */
  predicate Grows(a: seq<Node>, b: seq<Node>) {
    a <= b
    || (0 < |a| <= |b| && a[..|a| - 1] == b[..|a| - 1] && NodeGrows(a[|a| - 1], b[|a| - 1]))
  }

  // ---------------------------------------------------------------------------
  // Mapper states that belong to a phase
  // ---------------------------------------------------------------------------

  predicate AllNamed(m: Message) {
    forall k :: 0 <= k < |m.calls| ==> m.calls[k].name != ""
  }

  predicate Linked(st: State, ph: Phase) {
    && Valid(st)
    && AllNamed(st.message)
    && match ph
       case Idle => true
       case Broken => true
       case InCall(named, mode, quoted) =>
         && quoted == st.closingQuotePending
         && (quoted ==> mode == TaggedArgs)
         && (named ==> st.current == InResult && (mode == NoArgs ==> Tool(st).arguments == "{"))
         && (!named ==> st.current == InPending && (mode == NoArgs ==> st.argsBuffer == "") && Tool(st).arguments == "")
  }

  /** Texts grow, finished calls stay, the last call's name and arguments grow, calls are added. */
  predicate Continues(a: Message, b: Message) {
    && a.content <= b.content
    && a.reasoning <= b.reasoning
    && |a.calls| <= |b.calls|
    && (a.calls != [] ==>
          var k := |a.calls| - 1;
          && a.calls[..k] == b.calls[..k]
          && a.calls[k].name <= b.calls[k].name
          && a.calls[k].arguments <= b.calls[k].arguments)
  }

  lemma ContinuesTransitive(a: Message, b: Message, c: Message)
    requires Continues(a, b) && Continues(b, c)
    ensures Continues(a, c)
  {
    if a.calls != [] {
      var k := |a.calls| - 1;
      if |b.calls| > |a.calls| {
        var l := |b.calls| - 1;
        assert b.calls[..l] == c.calls[..l];
        assert b.calls[..l][..k] == b.calls[..k] && c.calls[..l][..k] == c.calls[..k];
        assert b.calls[k] == b.calls[..l][k] && c.calls[k] == c.calls[..l][k];
      }
    }
  }

  /** A longer text in place of the last call's arguments. */
  lemma WithArgumentsContinues(st: State, text: string)
    requires Valid(st) && AllNamed(st.message) && HasTool(st)
    requires st.current == InResult ==> Tool(st).arguments <= text
    ensures Continues(st.message, WithTarget(st, text).message)
    ensures AllNamed(WithTarget(st, text).message)
  {}

  lemma GrownArguments(st: State, x: string, y: string)
    requires Valid(st) && AllNamed(st.message) && HasTool(st) && x <= y
    ensures Continues(WithTarget(st, x).message, WithTarget(st, y).message)
  {}

  lemma NameStep(st: State, ph: Phase, text: string)
    requires Linked(st, ph) && ph.InCall? && !ph.named && TrimTrailing(text) != ""
    ensures Linked(StepName(st, text), ph.(named := true))
    ensures Continues(st.message, StepName(st, text).message)
  {
    var r := StepName(st, text).message;
    assert r.calls[..|st.message.calls|] == st.message.calls;
    var k := |st.message.calls| - 1;
    assert k >= 0 ==> r.calls[..k] == st.message.calls[..k] && r.calls[k] == st.message.calls[k];
    hide TrimTrailing;
  }

  lemma CloseStep(st: State, ph: Phase)
    requires Linked(st, ph) && ph.InCall?
    ensures Linked(StepClose(st), Idle)
    ensures Continues(st.message, StepClose(st).message)
  {
    hide Braces, Depth;
  }

  lemma ArgsStep(st: State, ph: Phase, node: Node)
    requires Linked(st, ph) && ph.InCall?
    requires node.tag in {ToolId, ToolArgs, ArgClose}
    ensures !CallStep(ph, node).Broken? ==> Linked(ToolStep(st, node), CallStep(ph, node))
    ensures !CallStep(ph, node).Broken? ==> Continues(st.message, ToolStep(st, node).message)
  {
    hide IdText, TrimTrailing;
  }

  lemma PairStep(st: State, ph: Phase, node: Node)
    requires Linked(st, ph) && ph.InCall?
    requires node.tag in {ArgName, ArgValue, ArgStringValue}
    ensures !CallStep(ph, node).Broken? ==> Linked(ToolStep(st, node), CallStep(ph, node))
    ensures !CallStep(ph, node).Broken? ==> Continues(st.message, ToolStep(st, node).message)
  {
    hide Trim, ValueText, TrimTrailing;
    var t := Target(st);
    if node.tag == ArgName {
      PairTextExtends(t, Trim(node.text));
      hide PairText;
      WithArgumentsContinues(st, PairText(t, Trim(node.text)));
    } else {
      hide PairText;
      WithArgumentsContinues(st, t + ValueText(node.tag, node.text, node.tag == ArgStringValue && st.closingQuotePending));
    }
  }

  lemma PairTextExtends(t: string, name: string)
    ensures t <= PairText(t, name)
  {}

  /** Every lawful event keeps what has been sent. */
  lemma StepContinues(st: State, ph: Phase, node: Node)
    requires Linked(st, ph) && !PhaseStep(ph, node).Broken?
    ensures Defined(st, node)
    ensures Linked(Step(st, node), PhaseStep(ph, node))
    ensures Continues(st.message, Step(st, node).message)
  {
    hide StepName, StepClose, IdText, PairText, ValueText, Trim;
    match node.tag {
      case ToolName => NameStep(st, ph, node.text);
      case ToolClose => CloseStep(st, ph);
      case ToolId => ArgsStep(st, ph, node);
      case ToolArgs => ArgsStep(st, ph, node);
      case ArgClose => ArgsStep(st, ph, node);
      case ArgName => PairStep(st, ph, node);
      case ArgValue => PairStep(st, ph, node);
      case ArgStringValue => PairStep(st, ph, node);
      case _ =>
    }
  }

  // ---------------------------------------------------------------------------
  // The last event of a partial tree
  // ---------------------------------------------------------------------------

  /** The arguments of the last call that `a` and `b` share contradict each other. */
  predicate Collides(a: Message, b: Message) {
    && 0 < |a.calls| <= |b.calls|
    && QL.Apart(a.calls[|a.calls| - 1].arguments, b.calls[|a.calls| - 1].arguments)
  }

  lemma ApartGrows(a: string, b: string, c: string)
    requires QL.Apart(a, b) && b <= c
    ensures QL.Apart(a, c)
  {
    SharedPrefix(a, b, c);
  }

  lemma SharedPrefix(a: string, b: string, c: string)
    ensures a <= c && b <= c ==> a <= b || b <= a
    ensures b <= c && c <= a ==> b <= a
  {}

  lemma CollidesGrows(a: Message, b: Message, c: Message)
    requires Collides(a, b) && Continues(b, c)
    ensures Collides(a, c)
  {
    hide QL.Apart;
    var k, l := |a.calls| - 1, |b.calls| - 1;
    if k < l {
      assert b.calls[k] == b.calls[..l][k] && c.calls[k] == c.calls[..l][k];
    } else {
      ApartGrows(a.calls[k].arguments, b.calls[k].arguments, c.calls[k].arguments);
    }
  }

  lemma ApartBehind(t: string, a: string, b: string)
    requires QL.Apart(a, b)
    ensures QL.Apart(t + a, t + b)
  {
    PrefixBehind(t, a, b);
    PrefixBehind(t, b, a);
  }

  lemma PrefixBehind(t: string, a: string, b: string)
    ensures t + a <= t + b ==> a <= b
  {
    assert (t + a)[|t|..] == a && (t + b)[|t|..] == b;
    assert |a| <= |b| ==> (t + b)[..|t + a|][|t|..] == b[..|a|];
  }

  lemma ApartArguments(st: State, x: string, y: string)
    requires Valid(st) && AllNamed(st.message) && st.current == InResult && QL.Apart(x, y)
    ensures Collides(WithTarget(st, x).message, WithTarget(st, y).message)
  {
    hide QL.Apart;
  }

  lemma BufferedContinues(st: State, x: string, y: string)
    requires Valid(st) && AllNamed(st.message) && st.current == InPending
    ensures Continues(WithTarget(st, x).message, WithTarget(st, y).message)
  {}

  /** Neither of two quoted names in front of a colon is a prefix of the other. */
  lemma QuotedNames(a: string, b: string)
    requires Json.Quote(a) + ":" <= Json.Quote(b) + ":"
    ensures a == b
  {
    hide Json.ReadBody, Json.Escape;
    var p, q := Json.Quote(a) + ":", Json.Quote(b) + ":";
    var rest := ":" + q[|p|..];
    JsonLaws.StringRoundTrip(a, rest);
    JsonLaws.StringRoundTrip(b, ":");
    assert q == p + q[|p|..];
    assert q[1..] == Json.Escape(b) + "\"" + ":" && q[1..] == Json.Escape(a) + "\"" + rest;
  }

  lemma NamesApart(t: string, a: string, b: string)
    requires a != b
    ensures QL.Apart(PairText(t, a), PairText(t, b))
  {
    if Json.Quote(a) + ":" <= Json.Quote(b) + ":" {
      QuotedNames(a, b);
    }
    if Json.Quote(b) + ":" <= Json.Quote(a) + ":" {
      QuotedNames(b, a);
    }
    assert QL.Apart(Json.Quote(a) + ":", Json.Quote(b) + ":");
    hide Json.Quote, QL.Apart;
    var t1 := if t == "" then "{" else t;
    var front := if |t1| > 1 then t1 + "," else t1;
    assert PairText(t, a) == front + (Json.Quote(a) + ":") && PairText(t, b) == front + (Json.Quote(b) + ":");
    ApartBehind(front, Json.Quote(a) + ":", Json.Quote(b) + ":");
  }

  lemma GrownPair(st: State, x: Node, y: Node)
    requires Valid(st) && AllNamed(st.message) && HasTool(st) && x.tag == y.tag == ArgName
    ensures if st.current == InResult && Trim(x.text) != Trim(y.text)
            then Collides(ToolStep(st, x).message, ToolStep(st, y).message)
            else Continues(ToolStep(st, x).message, ToolStep(st, y).message)
  {
    hide Trim, PairText, QL.Apart;
    var t, a, b := Target(st), Trim(x.text), Trim(y.text);
    if st.current == InPending {
      BufferedContinues(st, PairText(t, a), PairText(t, b));
    } else if a == b {
      GrownArguments(st, PairText(t, a), PairText(t, a));
    } else {
      NamesApart(t, a, b);
      ApartArguments(st, PairText(t, a), PairText(t, b));
    }
  }

  lemma GrownRaw(st: State, x: Node, y: Node)
    requires Valid(st) && AllNamed(st.message) && HasTool(st) && NodeGrows(x, y) && x.tag == ArgValue
    ensures if Breaks(st, x, y) then Collides(ToolStep(st, x).message, ToolStep(st, y).message)
            else Continues(ToolStep(st, x).message, ToolStep(st, y).message)
  {
    QL.StreamingLaw(x.text, y.text);
    hide QL.Apart, QL.SplitsQuoteEscape, QL.SplitsFalseLiteral;
    var t, a, b := Target(st), ValueText(ArgValue, x.text, false), ValueText(ArgValue, y.text, false);
    hide ValueText;
    if st.current == InPending {
      BufferedContinues(st, t + a, t + b);
    } else if Breaks(st, x, y) {
      ApartBehind(t, a, b);
      ApartArguments(st, t + a, t + b);
    } else {
      GrownArguments(st, t + a, t + b);
    }
  }

  lemma GrownString(st: State, x: Node, y: Node)
    requires Valid(st) && AllNamed(st.message) && HasTool(st) && NodeGrows(x, y)
    requires x.tag == ArgStringValue && !st.closingQuotePending
    ensures Continues(ToolStep(st, x).message, ToolStep(st, y).message)
  {
    Json.EscapeMonotone(x.text, y.text);
    var a, b := ValueText(x.tag, x.text, false), ValueText(y.tag, y.text, false);
    assert a <= b;
    hide ValueText;
    GrownArguments(st, Target(st) + a, Target(st) + b);
  }

  lemma GrownArgs(st: State, ph: Phase, x: Node, y: Node)
    requires Linked(st, ph) && ph.InCall? && NodeGrows(x, y) && x.tag == ToolArgs
    requires !CallStep(ph, y).Broken?
    ensures Continues(ToolStep(st, x).message, ToolStep(st, y).message)
  {
    TrimTrailingMonotone(x.text, y.text);
    var a, b := TrimTrailing(x.text), TrimTrailing(y.text);
    hide TrimTrailing, NodeGrows;
    if a != "" && a[0] == '{' {
      GrownArguments(st, a, b);
    } else if b != "" && b[0] == '{' {
      WithArgumentsContinues(st, b);
    }
  }

  lemma GrownName(st: State, ph: Phase, x: Node, y: Node)
    requires Linked(st, ph) && ph.InCall? && !ph.named && NodeGrows(x, y) && x.tag == ToolName
    ensures Continues(ToolStep(st, x).message, ToolStep(st, y).message)
  {
    TrimTrailingMonotone(x.text, y.text);
    hide TrimTrailing;
  }

  lemma GrownId(st: State, x: Node, y: Node)
    requires Valid(st) && HasTool(st) && x.tag == y.tag == ToolId
    ensures Continues(ToolStep(st, x).message, ToolStep(st, y).message)
  {
    hide IdText;
  }

  /** Events whose text does not matter, or is only appended. */
  lemma GrownOther(st: State, x: Node, y: Node)
    requires Valid(st) && Defined(st, y) && NodeGrows(x, y)
    requires y.tag in {Reasoning, Content, Other, ToolOpen, ArgOpen, ArgClose, ToolClose}
    ensures Defined(st, x) && Continues(Step(st, x).message, Step(st, y).message)
  {
    hide StepClose, TrimTrailing;
  }

  /**
   A node that is still being written grows: the message continues what was sent, unless the growth
   breaks it, and then the arguments contradict those sent.
   */
  lemma GrownStepLaw(st: State, ph: Phase, x: Node, y: Node)
    requires Linked(st, ph) && NodeGrows(x, y)
    requires !PhaseStep(ph, y).Broken?
    ensures Defined(st, x) && Defined(st, y)
    ensures if Breaks(st, x, y) then Collides(Step(st, x).message, Step(st, y).message)
            else Continues(Step(st, x).message, Step(st, y).message)
  {
    hide ToolStep, IdText, Trim, TrimTrailing, Continues, Collides, QL.SplitsQuoteEscape, QL.SplitsFalseLiteral;
    StepContinues(st, ph, y);
    match y.tag {
      case ToolName => GrownName(st, ph, x, y);
      case ToolId => GrownId(st, x, y);
      case ToolArgs => GrownArgs(st, ph, x, y);
      case ArgName => GrownPair(st, x, y);
      case ArgValue => GrownRaw(st, x, y);
      case ArgStringValue => GrownString(st, x, y);
      case _ => GrownOther(st, x, y);
    }
  }

  // ---------------------------------------------------------------------------
  // Whole event lists
  // ---------------------------------------------------------------------------

  lemma {:induction false} RunContinues(st: State, ph: Phase, nodes: seq<Node>)
    requires Linked(st, ph) && !PhaseRun(ph, nodes).Broken?
    ensures Visitable(st, nodes)
    ensures Linked(Run(st, nodes), PhaseRun(ph, nodes))
    ensures Continues(st.message, Run(st, nodes).message)
    decreases |nodes|
  {
    hide Step, PhaseStep, Linked, Continues;
    if nodes == [] {
      SelfContinues(st.message);
      assert Valid(st) by { LinkedIsValid(st, ph); }
    } else {
      BrokenStays(PhaseStep(ph, nodes[0]), nodes[1..]);
      LinkedIsValid(st, ph);
      StepContinues(st, ph, nodes[0]);
      StepKeepsValid(st, nodes[0]);
      RunContinues(Step(st, nodes[0]), PhaseStep(ph, nodes[0]), nodes[1..]);
      ContinuesTransitive(st.message, Step(st, nodes[0]).message, Run(st, nodes).message);
    }
  }

  lemma SelfContinues(m: Message)
    ensures Continues(m, m)
  {}

  lemma LinkedIsValid(st: State, ph: Phase)
    requires Linked(st, ph)
    ensures Valid(st) && AllNamed(st.message)
  {}

  lemma {:induction false} BrokenStays(ph: Phase, nodes: seq<Node>)
    ensures ph.Broken? ==> PhaseRun(ph, nodes).Broken?
    decreases |nodes|
  {
    if nodes != [] && ph.Broken? {
      BrokenStays(PhaseStep(ph, nodes[0]), nodes[1..]);
    }
  }

  lemma {:induction false} PhaseRunConcat(ph: Phase, a: seq<Node>, b: seq<Node>)
    ensures PhaseRun(ph, a + b) == PhaseRun(PhaseRun(ph, a), b)
    decreases |a|
  {
    hide PhaseStep;
    if a == [] {
      assert a + b == b;
    } else {
      PhaseRunConcat(PhaseStep(ph, a[0]), a[1..], b);
      assert (a + b)[1..] == a[1..] + b;
    }
  }

  /** Splits a lawful list: both parts can be visited, and the phases follow the mapper. */
  lemma LawfulSplit(a: seq<Node>, b: seq<Node>)
    requires Lawful(a + b)
    ensures Visitable(Initial, a) && Linked(Run(Initial, a), PhaseRun(Idle, a))
    ensures !PhaseRun(PhaseRun(Idle, a), b).Broken?
    ensures Visitable(Run(Initial, a), b) && Visitable(Initial, a + b)
    ensures Run(Initial, a + b) == Run(Run(Initial, a), b)
  {
    PhaseRunConcat(Idle, a, b);
    BrokenStays(PhaseRun(Idle, a), b);
    RunContinues(Initial, Idle, a);
    RunContinues(Run(Initial, a), PhaseRun(Idle, a), b);
    RunConcat(Initial, a, b);
  }

  /** The last event of `a` grows in `b` in a way that breaks what was sent. */
  ghost predicate BreaksAt(a: seq<Node>, b: seq<Node>) {
    && 0 < |a| <= |b|
    && var n := |a| - 1;
       Visitable(Initial, a[..n]) && Breaks(Run(Initial, a[..n]), a[n], b[n])
  }

  lemma SameNeverBreaks(st: State, x: Node)
    ensures !Breaks(st, x, x)
  {}

  /** More events behind the same ones. */
  lemma MoreEvents(a: seq<Node>, more: seq<Node>)
    requires Lawful(a + more)
    ensures Visitable(Initial, a) && Visitable(Initial, a + more) && !BreaksAt(a, a + more)
    ensures Continues(Run(Initial, a).message, Run(Initial, a + more).message)
  {
    hide Linked, Continues, Step, PhaseStep, Breaks, Visitable, Run, Lawful;
    LawfulSplit(a, more);
    RunContinues(Run(Initial, a), PhaseRun(Idle, a), more);
    if a != [] {
      assert (a + more)[|a| - 1] == a[|a| - 1];
      if BreaksAt(a, a + more) {
        SameNeverBreaks(Run(Initial, a[..|a| - 1]), a[|a| - 1]);
      }
    }
  }

  /** The last event has grown, and there may be more. */
  lemma GrownEvents(front: seq<Node>, x: Node, y: Node, rest: seq<Node>)
    requires Lawful(front + ([y] + rest)) && NodeGrows(x, y)
    ensures Visitable(Initial, front) && Visitable(Initial, front + [x]) && Visitable(Initial, front + ([y] + rest))
    ensures var p, q := Run(Initial, front + [x]).message, Run(Initial, front + ([y] + rest)).message;
            if Breaks(Run(Initial, front), x, y) then Collides(p, q) else Continues(p, q)
  {
    hide Linked, Continues, Collides, Step, PhaseStep, NodeGrows, Breaks, Lawful;
    LawfulSplit(front, [y] + rest);
    var st, ph := Run(Initial, front), PhaseRun(Idle, front);
    PhaseOne(ph, y, rest);
    BrokenStays(PhaseStep(ph, y), rest);
    GrownStepLaw(st, ph, x, y);
    StepContinues(st, ph, y);
    LinkedIsValid(st, ph);
    VisitOne(st, x);
    VisitOne(st, y);
    RunContinues(Step(st, y), PhaseStep(ph, y), rest);
    hide Visitable, Run, PhaseRun;
    RunConcat(Initial, front, [x]);
    RunConcat(st, [y], rest);
    var q := Run(Initial, front + ([y] + rest)).message;
    if Breaks(st, x, y) {
      CollidesGrows(Step(st, x).message, Step(st, y).message, q);
    } else {
      ContinuesTransitive(Step(st, x).message, Step(st, y).message, q);
    }
  }

  /** The message of a longer parse continues that of a shorter one, or contradicts it. */
  lemma GrowthLaw(a: seq<Node>, b: seq<Node>)
    requires Lawful(b) && Grows(a, b)
    ensures Visitable(Initial, a) && Visitable(Initial, b)
    ensures if BreaksAt(a, b) then Collides(Run(Initial, a).message, Run(Initial, b).message)
            else Continues(Run(Initial, a).message, Run(Initial, b).message)
  {
    hide Continues, Collides, NodeGrows, Breaks, Lawful, Visitable, Run;
    if a <= b {
      assert b == a + b[|a|..];
      MoreEvents(a, b[|a|..]);
    } else {
      var n := |a| - 1;
      assert a == a[..n] + [a[n]] && b == a[..n] + ([b[n]] + b[n + 1..]);
      GrownEvents(a[..n], a[n], b[n], b[n + 1..]);
    }
  }

  // ---------------------------------------------------------------------------
  // Snapshots and deltas
  // ---------------------------------------------------------------------------

  /** The message a client would get from this list of events alone. */
  ghost function Snapshot(nodes: seq<Node>): Message {
    if Visitable(Initial, nodes) then Finish(Run(Initial, nodes)) else Blank
  }

  lemma FinishContinues(a: State, b: State)
    requires Continues(a.message, b.message) && AllNamed(b.message)
    ensures MD.Extends(Finish(a), Finish(b))
  {
    var p, s := a.message.reasoning, b.message.reasoning;
    assert AllBlank(s) ==> AllBlank(p) by {
      assert forall k :: 0 <= k < |p| ==> p[k] == s[k];
    }
  }

  lemma LawfulNames(nodes: seq<Node>)
    requires Lawful(nodes)
    ensures Visitable(Initial, nodes) && AllNamed(Run(Initial, nodes).message)
  {
    RunContinues(Initial, Idle, nodes);
    LinkedIsValid(Run(Initial, nodes), PhaseRun(Idle, nodes));
  }

  lemma CollidingSnapshots(a: State, b: State)
    requires Collides(a.message, b.message)
    ensures MD.Diffs(Finish(a), Finish(b)).Err?
  {
    MD.DiffsExist(Finish(a), Finish(b));
    hide MD.Diffs, AllBlank;
  }

  /** The diff step fails between two successive snapshots exactly if the last event broke what was sent. */
  lemma SnapshotLaw(a: seq<Node>, b: seq<Node>)
    requires Lawful(b) && Grows(a, b)
    ensures Visitable(Initial, a) && Visitable(Initial, b)
    ensures MD.Extends(Snapshot(a), Snapshot(b)) <==> !BreaksAt(a, b)
    ensures MD.Diffs(Snapshot(a), Snapshot(b)).Err? <==> BreaksAt(a, b)
  {
    hide MD.Diffs, MD.Extends, Finish, Continues, Collides, Lawful, Grows, BreaksAt;
    GrowthLaw(a, b);
    LawfulNames(b);
    MD.StepIsFaithful(Snapshot(a), Snapshot(b));
    if BreaksAt(a, b) {
      CollidingSnapshots(Run(Initial, a), Run(Initial, b));
    } else {
      FinishContinues(Run(Initial, a), Run(Initial, b));
    }
  }

  /** Lists of events of successive parses of a growing text. */
  ghost predicate GrowingLists(first: seq<Node>, rest: seq<seq<Node>>)
    decreases |rest|
  {
    Lawful(first) && (rest == [] || (Grows(first, rest[0]) && GrowingLists(rest[0], rest[1..])))
  }

  ghost function Snapshots(rest: seq<seq<Node>>): seq<Message> {
    if rest == [] then [] else [Snapshot(rest[0])] + Snapshots(rest[1..])
  }

  /** No growth of a last event breaks what was sent. */
  ghost predicate Smooth(first: seq<Node>, rest: seq<seq<Node>>)
    decreases |rest|
  {
    rest == [] || (!BreaksAt(first, rest[0]) && Smooth(rest[0], rest[1..]))
  }

  lemma {:induction false} SnapshotsRun(first: seq<Node>, rest: seq<seq<Node>>)
    requires GrowingLists(first, rest)
    ensures var ms := Snapshots(rest);
            MD.Received(Snapshot(first), ms, Snapshot(first)) ==
            if Smooth(first, rest) then MD.Ok(if ms == [] then Snapshot(first) else ms[|ms| - 1]) else MD.Err
    decreases |rest|
  {
    hide Lawful, Grows, MD.Extends, Visitable, Snapshot, BreaksAt, MD.Diffs, MD.ApplyAll;
    if rest == [] {
    } else {
      SnapshotLaw(first, rest[0]);
      MD.StepIsFaithful(Snapshot(first), Snapshot(rest[0]));
      SnapshotsRun(rest[0], rest[1..]);
      assert Snapshots(rest)[1..] == Snapshots(rest[1..]);
    }
  }

  lemma FirstSnapshot(first: seq<Node>)
    requires Lawful(first)
    ensures Visitable(Initial, first)
    ensures var d := MD.Diffs(Blank, Snapshot(first)); d.Ok? && MD.ApplyAll(Blank, d.value) == Snapshot(first)
  {
    LawfulNames(first);
    MD.StepIsFaithful(Blank, Snapshot(first));
  }

  /**
   The streaming guarantee. Whatever text the model writes, as long as its events are lawful, the
   deltas between successive snapshots leave the client with exactly the message of the last parse,
   unless the growth of a last event breaks what was sent, and exactly then a diff fails.
   */
  lemma StreamingLaw(first: seq<Node>, rest: seq<seq<Node>>)
    requires GrowingLists(first, rest)
    ensures Visitable(Initial, first)
    ensures var ms := [Snapshot(first)] + Snapshots(rest);
            MD.Received(Blank, ms, Blank) == if Smooth(first, rest) then MD.Ok(ms[|ms| - 1]) else MD.Err
  {
    hide Lawful, Grows, Visitable, Snapshot, MD.Diffs, MD.ApplyAll, Smooth;
    FirstSnapshot(first);
    SnapshotsRun(first, rest);
    var ms := [Snapshot(first)] + Snapshots(rest);
    assert ms[1..] == Snapshots(rest);
  }

  /** The list of the last parse. */
  function LastList(first: seq<Node>, rest: seq<seq<Node>>): seq<Node> {
    if rest == [] then first else rest[|rest| - 1]
  }

  lemma {:induction false} LastSnapshot(rest: seq<seq<Node>>)
    requires rest != []
    ensures |Snapshots(rest)| == |rest| && Snapshots(rest)[|rest| - 1] == Snapshot(rest[|rest| - 1])
    decreases |rest|
  {
    hide Snapshot;
    if |rest| == 1 {
      assert Snapshots(rest[1..]) == [];
    } else {
      LastSnapshot(rest[1..]);
    }
  }

  lemma {:induction false} LastIsLawful(first: seq<Node>, rest: seq<seq<Node>>)
    requires GrowingLists(first, rest)
    ensures Lawful(LastList(first, rest))
    decreases |rest|
  {
    hide Lawful, Grows;
    if rest == [] {
    } else {
      LastIsLawful(rest[0], rest[1..]);
    }
  }

  /** What the client ends with: everything the last parse said, and its calls. */
  lemma ClientEndsWith(first: seq<Node>, rest: seq<seq<Node>>)
    requires GrowingLists(first, rest) && Smooth(first, rest)
    ensures Visitable(Initial, LastList(first, rest))
    ensures var r := MD.Received(Blank, [Snapshot(first)] + Snapshots(rest), Blank);
            var last, said := LastList(first, rest), Said(Reasoning, LastList(first, rest));
            && r.Ok? && r.value.content == Said(Content, last)
            && r.value.reasoning == (if OnlySpace(said) then "" else said)
            && r.value.calls == Run(Initial, last).message.calls
  {
    StreamingLaw(first, rest);
    LastIsLawful(first, rest);
    var last := LastList(first, rest);
    LawfulNames(last);
    FinishedTexts(last);
    hide Lawful, Grows, Visitable, MD.Received, Smooth, GrowingLists;
    if rest != [] {
      LastSnapshot(rest);
    }
  }

  // ---------------------------------------------------------------------------
  // With identifiers
  // ---------------------------------------------------------------------------

  function Stamped(m: Message, cache: seq<string>): Message
    requires |m.calls| <= |cache|
  {
    m.(calls := MD.WithIds(m.calls, cache))
  }

  lemma {:induction false} StampedRun(first: seq<Node>, rest: seq<seq<Node>>, ids: MD.Ids, gen: nat -> string)
    requires GrowingLists(first, rest) && (forall n: nat :: gen(n) != "") && MD.NoBlank(ids.cache)
    requires |Snapshot(first).calls| <= |ids.cache|
    ensures var m, ms := Stamped(Snapshot(first), ids.cache), MD.Stamp(ids, Snapshots(rest), gen);
            MD.Received(m, ms, m) ==
            if Smooth(first, rest) then MD.Ok(if ms == [] then m else ms[|ms| - 1]) else MD.Err
    decreases |rest|
  {
    hide Lawful, Grows, MD.Extends, Visitable, Snapshot, BreaksAt, MD.Diffs, MD.ApplyAll, MD.NoBlank, MD.AddIds, MD.WithIds;
    if rest == [] {
    } else {
      var a, b := Snapshot(first), Snapshot(rest[0]);
      var next := MD.AddIds(ids, b.calls, gen);
      SnapshotLaw(first, rest[0]);
      MD.IdsNotBlank(ids, b.calls, gen);
      MD.StampedFailsAlike(a, b, ids.cache, next.cache);
      StampedRun(rest[0], rest[1..], next, gen);
      assert Snapshots(rest)[0] == b && Snapshots(rest)[1..] == Snapshots(rest[1..]);
      var ms := MD.Stamp(ids, Snapshots(rest), gen);
      assert ms[0] == Stamped(b, next.cache) && ms[1..] == MD.Stamp(next, Snapshots(rest[1..]), gen);
      if !BreaksAt(first, rest[0]) {
        MD.StampedExtends(a, b, ids.cache, next.cache);
        MD.StepIsFaithful(Stamped(a, ids.cache), Stamped(b, next.cache));
      }
    }
  }

  /**
   The streaming guarantee with identifiers, which are set before the diff: the stamped snapshots
   reach the client as above, and their identifiers, once assigned, never change.
   */
  lemma StampedStreamingLaw(first: seq<Node>, rest: seq<seq<Node>>, ids: MD.Ids, gen: nat -> string)
    requires GrowingLists(first, rest) && (forall n: nat :: gen(n) != "") && MD.NoBlank(ids.cache)
    ensures var ms := MD.Stamp(ids, [Snapshot(first)] + Snapshots(rest), gen);
            && ms != []
            && MD.Received(Blank, ms, Blank) == if Smooth(first, rest) then MD.Ok(ms[|ms| - 1]) else MD.Err
  {
    hide Lawful, Grows, Visitable, Snapshot, MD.Diffs, MD.ApplyAll, Smooth, MD.NoBlank, MD.AddIds;
    var a := Snapshot(first);
    var all := [a] + Snapshots(rest);
    assert all[0] == a && all[1..] == Snapshots(rest);
    var next := MD.AddIds(ids, a.calls, gen);
    MD.IdsNotBlank(ids, a.calls, gen);
    StampedRun(first, rest, next, gen);
    FirstStamped(Stamped(a, next.cache));
    var ms := MD.Stamp(ids, all, gen);
    assert ms[0] == Stamped(a, next.cache) && ms[1..] == MD.Stamp(next, Snapshots(rest), gen);
  }

  lemma FirstStamped(m: Message)
    ensures var d := MD.Diffs(Blank, m); d.Ok? && MD.ApplyAll(Blank, d.value) == m
  {
    MD.StepIsFaithful(Blank, m);
  }

  // ---------------------------------------------------------------------------
  // The failures
  // ---------------------------------------------------------------------------

  /** A named call whose only argument is still being written. */
  function Writing(last: Node): seq<Node> {
    [Node(ToolOpen, ""), Node(ToolName, "f"), Node(ArgOpen, ""), Node(ArgName, "x"), last]
  }

  lemma WritingBreaks(x: Node, y: Node)
    requires x.tag == y.tag == ArgValue && x.text <= y.text
    requires QL.SplitsQuoteEscape(x.text, y.text) || QL.SplitsFalseLiteral(x.text, y.text)
    ensures Lawful(Writing(x)) && Lawful(Writing(y)) && Grows(Writing(x), Writing(y))
    ensures BreaksAt(Writing(x), Writing(y))
  {
    hide QL.SplitsQuoteEscape, QL.SplitsFalseLiteral, Linked;
    WritingPhase(x);
    WritingPhase(y);
    var front := Writing(x)[..4];
    assert front == Writing(y)[..4];
    InitialLinked();
    RunContinues(Initial, Idle, front);
    LinkedInResult(Run(Initial, front), PhaseRun(Idle, front));
  }

  lemma InitialLinked()
    ensures Linked(Initial, Idle)
  {}

  lemma LinkedInResult(st: State, ph: Phase)
    requires Linked(st, ph) && ph.InCall? && ph.named
    ensures st.current == InResult
  {}

  lemma PhaseOne(ph: Phase, node: Node, rest: seq<Node>)
    ensures PhaseRun(ph, [node] + rest) == PhaseRun(PhaseStep(ph, node), rest)
  {
    assert ([node] + rest)[1..] == rest;
  }

  lemma WritingPhase(x: Node)
    requires x.tag == ArgValue
    ensures PhaseRun(Idle, Writing(x)[..4]) == InCall(true, TaggedArgs, false)
    ensures Lawful(Writing(x))
  {
    var open, name, arg, key := Node(ToolOpen, ""), Node(ToolName, "f"), Node(ArgOpen, ""), Node(ArgName, "x");
    var front := Writing(x)[..4];
    assert TrimTrailing("f") == "f";
    assert PhaseRun(InCall(true, TaggedArgs, false), []) == InCall(true, TaggedArgs, false);
    PhaseOne(Idle, open, [name, arg, key]);
    PhaseOne(InCall(false, NoArgs, false), name, [arg, key]);
    PhaseOne(InCall(true, NoArgs, false), arg, [key]);
    PhaseOne(InCall(true, NoArgs, false), key, []);
    hide PhaseRun, TrimTrailing;
    assert front == [open] + [name, arg, key];
    assert [name, arg, key] == [name] + [arg, key] && [arg, key] == [arg] + [key] && [key] == [key] + [];
    PhaseRunConcat(Idle, front, [x]);
    PhaseOne(InCall(true, TaggedArgs, false), x, []);
    assert [x] == [x] + [] && Writing(x) == front + [x];
  }

  /** A value read as the start of `True` that goes on as another word: the delta is an error. */
  lemma WordSplitFails()
    ensures var a, b := Writing(Node(ArgValue, "T")), Writing(Node(ArgValue, "Tx"));
            Lawful(a) && Lawful(b) && Grows(a, b) && MD.Diffs(Snapshot(a), Snapshot(b)).Err?
  {
    var x, y := Node(ArgValue, "T"), Node(ArgValue, "Tx");
    assert QN.At("T", 0) == QN.Start && QN.At("T", 1) == QN.Start;
    assert QN.WordStart("T", 1) == 0 && QN.WordEnd("Tx", 1) == 2;
    assert "T"[0..] == "T" && "Tx"[0..2] == "Tx" && "Tx"[1] != "True"[1];
    assert QL.SplitsFalseLiteral("T", "Tx");
    WritingBreaks(x, y);
    SnapshotLaw(Writing(x), Writing(y));
  }

  /** A value that stops behind the backslash of an escaped quote: the delta is an error. */
  lemma EscapeSplitFails()
    ensures var a, b := Writing(Node(ArgValue, "'\\")), Writing(Node(ArgValue, "'\\'"));
            Lawful(a) && Lawful(b) && Grows(a, b) && MD.Diffs(Snapshot(a), Snapshot(b)).Err?
  {
    var x, y := Node(ArgValue, "'\\"), Node(ArgValue, "'\\'");
    assert QN.At("'\\", 0) == QN.Start && QN.At("'\\", 1) == QN.Lex(QN.Single, false);
    assert QL.SplitsQuoteEscape("'\\", "'\\'");
    WritingBreaks(x, y);
    SnapshotLaw(Writing(x), Writing(y));
  }

  /** A named call whose first argument name is still being written. */
  function Naming(last: Node): seq<Node> {
    [Node(ToolOpen, ""), Node(ToolName, "f"), Node(ArgOpen, ""), last]
  }

  lemma NamingPhase(x: Node)
    requires x.tag == ArgName
    ensures PhaseRun(Idle, Naming(x)[..3]) == InCall(true, NoArgs, false)
    ensures Lawful(Naming(x))
  {
    var open, name, arg := Node(ToolOpen, ""), Node(ToolName, "f"), Node(ArgOpen, "");
    var front := Naming(x)[..3];
    assert TrimTrailing("f") == "f";
    assert PhaseRun(InCall(true, NoArgs, false), []) == InCall(true, NoArgs, false);
    PhaseOne(Idle, open, [name, arg]);
    PhaseOne(InCall(false, NoArgs, false), name, [arg]);
    PhaseOne(InCall(true, NoArgs, false), arg, []);
    hide PhaseRun, TrimTrailing;
    assert front == [open] + [name, arg] && [name, arg] == [name] + [arg] && [arg] == [arg] + [];
    PhaseRunConcat(Idle, front, [x]);
    PhaseOne(InCall(true, NoArgs, false), x, []);
    assert PhaseRun(InCall(true, TaggedArgs, false), []) == InCall(true, TaggedArgs, false) by { PhaseEnd(InCall(true, TaggedArgs, false)); }
    assert [x] == [x] + [] && Naming(x) == front + [x];
  }

  lemma PhaseEnd(ph: Phase)
    ensures PhaseRun(ph, []) == ph
  {}

  /** An argument name that goes on growing after it was sent: the delta is an error. */
  lemma NameChangeFails()
    ensures var a, b := Naming(Node(ArgName, "a")), Naming(Node(ArgName, "ab"));
            Lawful(a) && Lawful(b) && Grows(a, b) && MD.Diffs(Snapshot(a), Snapshot(b)).Err?
  {
    var x, y := Node(ArgName, "a"), Node(ArgName, "ab");
    assert Trim("a") == "a" && Trim("ab") == "ab";
    NamingBreaks(x, y);
    SnapshotLaw(Naming(x), Naming(y));
  }

  lemma NamingBreaks(x: Node, y: Node)
    requires x.tag == y.tag == ArgName && x.text <= y.text && Trim(x.text) != Trim(y.text)
    ensures Lawful(Naming(x)) && Lawful(Naming(y)) && Grows(Naming(x), Naming(y)) && BreaksAt(Naming(x), Naming(y))
  {
    hide Trim, Linked;
    NamingPhase(x);
    NamingPhase(y);
    var front := Naming(x)[..3];
    assert front == Naming(y)[..3];
    InitialLinked();
    RunContinues(Initial, Idle, front);
    LinkedInResult(Run(Initial, front), PhaseRun(Idle, front));
  }
}
