/**
 One call of the advanced line reader of console.cpp: keys are dispatched to the line, to the
 history and to the completion callback until enter or the end of the stream.
 */
module ReadLine {
  import opened Utf8
  import opened LineEditor
  import M = EditorModel

  const Backslash := 92
  const Slash := 47
  const Newline := 10
  const Blank := 32
  const TabCode := 9

  datatype Candidate = Candidate(text: Bytes, cursor: int)

  /** What the reader is given: a character class, the screen, and a completion callback. */
  datatype Terminal = Terminal(
    isSpace: nat -> bool,
    measure: nat -> int,
    complete: (Bytes, nat) -> seq<Candidate>)

  datatype Input = Enter | EndOfStream | Tab | UpKey | DownKey | Ignored | Edit(key: M.Key)

  // ---------------------------------------------------------------------------
  // History
  // ---------------------------------------------------------------------------

  class History {
    var entries: seq<Bytes>
    var view: M.View
    var backup: Bytes

    constructor ()
      ensures State() == M.History([], M.NotViewing, []) && Valid()
    {
      entries, view, backup := [], M.NotViewing, [];
    }

    function State(): M.History<Bytes>
      reads this
    {
      M.History(entries, view, backup)
    }

    ghost predicate Valid()
      reads this
    {
      M.HistoryOk(State())
    }

    method BeginViewing(current: Bytes)
      modifies this`backup, this`view
      ensures State() == M.History(entries, M.Viewing(|entries|), current)
    {
      backup := current;
      view := M.Viewing(|entries|);
    }

    method EndViewing()
      modifies this`backup, this`view
      ensures State() == M.History(entries, M.NotViewing, [])
    {
      view := M.NotViewing;
      backup := [];
    }

    method Add(current: Bytes)
      modifies this
      ensures State() == M.Add(old(State()), current, []) && (old(Valid()) ==> Valid())
    {
      if current == [] {
        return;
      }
      if entries == [] || entries[|entries| - 1] != current {
        entries := entries + [current];
      }
      EndViewing();
    }

    method Prev() returns (shown: M.Shown<Bytes>)
      requires Valid() && view.Viewing?
      modifies this`view
      ensures Valid() && (State(), shown) == M.Up(old(State()), [])
    {
      if entries == [] {
        return M.Nothing;
      }
      if view.index > 0 {
        view := M.Viewing(view.index - 1);
      }
      shown := M.Line(entries[view.index]);
    }

    method Next() returns (shown: M.Shown<Bytes>)
      requires Valid()
      modifies this`view, this`backup
      ensures Valid() && (State(), shown) == M.Down(old(State()), [])
    {
      if entries == [] || view.NotViewing? {
        return M.Nothing;
      }
      view := M.Viewing(view.index + 1);
      if view.index >= |entries| {
        shown := M.Line(backup);
        EndViewing();
      } else {
        shown := M.Line(entries[view.index]);
      }
    }
  }

  // ---------------------------------------------------------------------------
  // What a call means
  // ---------------------------------------------------------------------------

  /** The text and cursor, the history, and whether the last character is shown as a mark. */
  datatype Session = Session(ed: M.Editor, hist: M.History<Bytes>, marked: bool)

  /** `Lost`: the code asks for the last byte of an empty line. */
  datatype Run = Lost | Live(session: Session)

  predicate EndsInMark(cs: seq<nat>) {
    cs != [] && (cs[|cs| - 1] == Backslash || cs[|cs| - 1] == Slash)
  }

  function Offers(t: Terminal, ed: M.Editor): seq<Candidate> {
    t.complete(EncodeAll(M.Text(ed)), |EncodeAll(ed.before)|)
  }

  function Recall(ed: M.Editor, shown: M.Shown<Bytes>): M.Editor {
    match shown
    case Nothing => ed
    case Line(text) => M.At(DecodeAll(text), |DecodeAll(text)|)
  }

  /** The tab key when the callback offers something: the flag is not looked at. */
  function Completed(t: Terminal, s: Session): Session
    requires Offers(t, s.ed) != []
  {
    var first := Offers(t, s.ed)[0];
    if |Offers(t, s.ed)| > 1 || first.text != EncodeAll(M.Text(s.ed)) then
      s.(ed := M.At(DecodeAll(first.text), CursorChar(DecodeAll(first.text), first.cursor)))
    else s
  }

  /** Every other key. */
  function Dispatched(t: Terminal, s: Session, input: Input): Session
    requires M.HistoryOk(s.hist)
  {
    match input
    case UpKey =>
      var (h, shown) := M.Up(s.hist, EncodeAll(M.Text(s.ed)));
      s.(ed := Recall(s.ed, shown), hist := h)
    case DownKey =>
      var (h, shown) := M.Down(s.hist, []);
      s.(ed := Recall(s.ed, shown), hist := h)
    case Edit(key) => s.(ed := M.Press(s.ed, key, t.isSpace))
    case Tab => s.(ed := M.Press(s.ed, M.Insert(TabCode), t.isSpace))
    case _ => s
  }

  predicate Completes(t: Terminal, s: Session, input: Input) { input.Tab? && Offers(t, s.ed) != [] }

  function Step(t: Terminal, s: Session, input: Input): (r: Run)
    requires M.HistoryOk(s.hist)
    ensures r.Live? ==> M.HistoryOk(r.session.hist)
  {
    if Completes(t, s, input) then Live(Completed(t, s))
    else if s.marked && M.Text(s.ed) == [] then Lost
    else
      var u := Dispatched(t, s, input);
      Live(u.(marked := EndsInMark(M.Text(u.ed))))
  }

  /** The keys up to enter or the end of the stream, which is also where the input stops. */
  function Keys(t: Terminal, s: Session, inputs: seq<Input>): (r: (Run, bool))
    requires M.HistoryOk(s.hist)
    ensures r.0.Live? ==> M.HistoryOk(r.0.session.hist)
    decreases |inputs|
  {
    if inputs == [] || inputs[0].EndOfStream? then (Live(s), true)
    else if inputs[0].Enter? then (Live(s), false)
    else
      match Step(t, s, inputs[0])
      case Lost => (Lost, true)
      case Live(u) => Keys(t, u, inputs[1..])
  }

  datatype Outcome = Undefined | Done(line: Bytes, hasMore: bool, hist: M.History<Bytes>)

  function Remembered(line: Bytes): Bytes {
    if line != [] && line[|line| - 1] == Newline then line[..|line| - 1] else line
  }

  function Close(line: Bytes, hasMore: bool, hist: M.History<Bytes>, endOfStream: bool): Outcome {
    Done(line, hasMore, if endOfStream || line == [] then hist else M.Add(hist, Remembered(line), []))
  }

  function Unblanked(line: Bytes): Bytes { if line == [Blank] then [] else line }

  /** The line handed back: a mark at the end is taken off and decides whether more is read. */
  function Finish(s: Session, endOfStream: bool, multiline: bool): Outcome {
    var line := EncodeAll(M.Text(s.ed));
    if s.marked then
      if line == [] then Undefined
      else
        var cut := line[..|line| - 1];
        if line[|line| - 1] == Backslash then Close(cut + [Newline], !multiline, s.hist, endOfStream)
        else Close(Unblanked(cut), false, s.hist, endOfStream)
    else if endOfStream then Close(line, false, s.hist, endOfStream)
    else Close(line + [Newline], multiline, s.hist, endOfStream)
  }

  function Reading(t: Terminal, hist: M.History<Bytes>, inputs: seq<Input>, multiline: bool): Outcome
    requires M.HistoryOk(hist)
  {
    var (run, endOfStream) := Keys(t, Session(M.Editor([], []), hist, false), inputs);
    match run
    case Lost => Undefined
    case Live(s) => Finish(s, endOfStream, multiline)
  }

  // ---------------------------------------------------------------------------
  // When the line stays in step
  // ---------------------------------------------------------------------------

  ghost predicate HistoryTexts(h: M.History<Bytes>) {
    (forall i :: 0 <= i < |h.entries| ==> IsText(h.entries[i])) && IsText(h.backup)
  }

  predicate OffersText(cands: seq<Candidate>) { cands != [] ==> IsText(cands[0].text) }

  /** The callback only ever offers text. */
  ghost predicate CompletesText(t: Terminal) { forall ed: M.Editor :: OffersText(Offers(t, ed)) }

  predicate TypesCodes(inputs: seq<Input>) {
    forall i :: 0 <= i < |inputs| && inputs[i].Edit? && inputs[i].key.Insert? ==> IsCode(inputs[i].key.c)
  }

  // ---------------------------------------------------------------------------
  // The reader
  // ---------------------------------------------------------------------------

  method EditKey(ed: Line, key: M.Key)
    requires ed.Valid() && (key.Insert? ==> IsCode(key.c))
    modifies ed
    ensures ed.Valid() && ed.View() == M.Press(old(ed.View()), key, ed.isSpace)
  {
    hide M.Press;
    match key {
      case Left => ed.MoveLeft();
      case Right => ed.MoveRight();
      case Home => ed.MoveToLineStart();
      case End => ed.MoveToLineEnd();
      case CtrlLeft => ed.MoveWordLeft();
      case CtrlRight => ed.MoveWordRight();
      case Delete => var _ := ed.DeleteAtCursor();
      case Backspace => var _ := ed.Backspace();
      case Insert(c) => var _ := ed.Insert(c);
    }
  }

  method ShowLine(ed: Line, shown: M.Shown<Bytes>)
    requires ed.Valid() && (shown.Line? ==> IsText(shown.line))
    modifies ed
    ensures ed.Valid() && ed.View() == Recall(old(ed.View()), shown)
  {
    if shown.Line? {
      ed.SetLineContents(shown.line, -1);
    }
  }

  method DispatchKey(ed: Line, history: History, t: Terminal, input: Input, ghost special: bool)
    requires ed.Valid() && history.Valid() && ed.isSpace == t.isSpace
    requires HistoryTexts(history.State()) && TypesCodes([input])
    modifies ed, history
    ensures ed.Valid() && history.Valid() && HistoryTexts(history.State())
    ensures var u := Dispatched(t, Session(old(ed.View()), old(history.State()), special), input);
            ed.View() == u.ed && history.State() == u.hist
  {
    hide M.Press, EncodeAll, DecodeAll, CursorChar;
    LineIsText(ed);
    match input {
      case UpKey =>
        if history.view.NotViewing? {
          history.BeginViewing(ed.line);
        }
        var shown := history.Prev();
        ShowLine(ed, shown);
      case DownKey =>
        if history.view.Viewing? {
          var shown := history.Next();
          ShowLine(ed, shown);
        }
      case Edit(key) =>
        assert input == [input][0];
        EditKey(ed, key);
      case Tab =>
        EditKey(ed, M.Insert(TabCode));
      case _ =>
    }
  }

  lemma LineIsText(ed: Line)
    requires ed.Valid()
    ensures IsText(ed.line) && ed.line == EncodeAll(M.Text(ed.View())) && IsText([])
    ensures M.Text(ed.View()) == ed.chars
    ensures ed.View().before == ed.chars[..ed.charPos] && ed.bytePos == |EncodeAll(ed.View().before)|
  {
    DecodeAllEncodeAll(ed.chars);
    M.SplitAt(ed.chars, ed.charPos);
  }

  lemma LastByte(cs: seq<nat>, b: nat)
    requires AreCodes(cs) && b < 0x80
    ensures EncodeAll(cs) == [] <==> cs == []
    ensures cs != [] ==> (EncodeAll(cs)[|EncodeAll(cs)| - 1] == b <==> cs[|cs| - 1] == b)
    ensures cs != [] && cs[|cs| - 1] == b ==> EncodeAll(cs)[..|EncodeAll(cs)| - 1] == EncodeAll(cs[..|cs| - 1])
  {
    if cs != [] {
      var c := cs[|cs| - 1];
      assert IsCode(c);
      assert EncodeAll(cs) == EncodeAll(cs[..|cs| - 1]) + Encode(c);
      LastOfCode(c, b);
    }
  }

  lemma LastOfCode(c: nat, b: nat)
    requires IsCode(c) && b < 0x80
    ensures |Encode(c)| > 0 && (Encode(c)[|Encode(c)| - 1] == b <==> c == b)
    ensures c == b ==> Encode(c) == [b]
  {}

  method MarksEnd(line: Bytes) returns (special: bool)
    ensures special == (line != [] && (line[|line| - 1] == Backslash || line[|line| - 1] == Slash))
  {
    special := line != [] && (line[|line| - 1] == Backslash || line[|line| - 1] == Slash);
  }

  /** One turn of the reader's loop for a key that does not end the line. */
  method TakeKey(ed: Line, history: History, t: Terminal, input: Input, special: bool)
    returns (lost: bool, marked: bool)
    requires ed.Valid() && history.Valid() && ed.isSpace == t.isSpace
    requires HistoryTexts(history.State()) && TypesCodes([input]) && CompletesText(t)
    modifies ed, history
    ensures ed.Valid() && history.Valid() && HistoryTexts(history.State())
    ensures var r := Step(t, Session(old(ed.View()), old(history.State()), special), input);
            lost == r.Lost? && (!lost ==> r.session == Session(ed.View(), history.State(), marked))
  {
    hide Dispatched, EncodeAll, DecodeAll, IsText, CursorChar, M.At, M.HistoryOk;
    LineIsText(ed);
    lost, marked := false, special;
    if input.Tab? {
      var candidates := t.complete(ed.line, ed.bytePos);
      assert OffersText(Offers(t, ed.View()));
      if candidates != [] {
        if |candidates| > 1 || candidates[0].text != ed.line {
          ed.SetLineContents(candidates[0].text, candidates[0].cursor);
        }
        return;
      }
    }
    LastByte(ed.chars, Slash);
    if special && ed.line == [] {
      lost := true;
      return;
    }
    DispatchKey(ed, history, t, input, special);
    LineIsText(ed);
    LastByte(ed.chars, Backslash);
    LastByte(ed.chars, Slash);
    marked := MarksEnd(ed.line);
  }

  /** The end of the call, once enter or the end of the stream was seen. */
  method FinishLine(text: Bytes, ghost ed: M.Editor, history: History, special: bool, endOfStream: bool,
    multiline: bool)
    returns (r: Outcome)
    requires history.Valid() && text == EncodeAll(M.Text(ed))
    modifies history
    ensures r == Finish(Session(ed, old(history.State()), special), endOfStream, multiline)
    ensures r.Done? ==> history.State() == r.hist
  {
    hide EncodeAll, Close;
    var line, hasMore := text, multiline;
    if special {
      if line == [] {
        return Undefined;
      }
      var last := line[|line| - 1];
      line := line[..|line| - 1];
      if last == Backslash {
        line := line + [Newline];
        hasMore := !hasMore;
      } else {
        if |line| == 1 && line[|line| - 1] == Blank {
          line := [];
        }
        hasMore := false;
      }
    } else if endOfStream {
      hasMore := false;
    } else {
      line := line + [Newline];
    }
    r := StoreLine(line, hasMore, history, endOfStream);
  }

  /** The history takes the line without its newline. */
  method StoreLine(line: Bytes, hasMore: bool, history: History, endOfStream: bool) returns (r: Outcome)
    requires history.Valid()
    modifies history
    ensures r == Close(line, hasMore, old(history.State()), endOfStream) && history.State() == r.hist
  {
    if !endOfStream && line != [] {
      var hline := line;
      if line != [] && line[|line| - 1] == Newline {
        hline := hline[..|hline| - 1];
      }
      history.Add(hline);
    }
    r := Done(line, hasMore, history.State());
  }

  /** The reader computes what the keys mean on code points. */
  method ReadLine(history: History, t: Terminal, inputs: seq<Input>, multiline: bool) returns (r: Outcome)
    requires history.Valid() && HistoryTexts(history.State()) && CompletesText(t) && TypesCodes(inputs)
    modifies history
    ensures r == Reading(t, old(history.State()), inputs, multiline)
    ensures r.Done? ==> history.State() == r.hist
  {
    hide Step, Finish, EncodeAll, DecodeAll, IsText, CompletesText, HistoryTexts, M.HistoryOk;
    var ed := new Line(t.isSpace, t.measure);
    var special, endOfStream := false, true;
    ghost var start := Keys(t, Session(ed.View(), history.State(), special), inputs);
    var i := 0;
    assert inputs[0..] == inputs;
    while i < |inputs|
      invariant i <= |inputs| && fresh(ed) && ed.Valid() && history.Valid() && ed.isSpace == t.isSpace
      invariant endOfStream && HistoryTexts(history.State())
      invariant start == Keys(t, Session(ed.View(), history.State(), special), inputs[i..])
    {
      if inputs[i].Enter? || inputs[i].EndOfStream? {
        endOfStream := inputs[i].EndOfStream?;
        break;
      }
      var lost;
      lost, special := TakeKey(ed, history, t, inputs[i], special);
      if lost {
        return Undefined;
      }
      i := i + 1;
    }
    assert start == (Live(Session(ed.View(), history.State(), special)), endOfStream);
    LineIsText(ed);
    r := FinishLine(ed.line, ed.View(), history, special, endOfStream, multiline);
  }

  // ---------------------------------------------------------------------------
  // The mark flag
  // ---------------------------------------------------------------------------

  /** The flag says whether the line ends in a mark. */
  predicate FlagFits(s: Session) { s.marked == EndsInMark(M.Text(s.ed)) }

  /** Only an accepted completion can leave the flag behind, and it does when the mark comes or goes. */
  lemma StepFlag(t: Terminal, s: Session, input: Input)
    requires M.HistoryOk(s.hist)
    ensures FlagFits(s) ==> Step(t, s, input).Live?
    ensures Step(t, s, input).Live? ==>
              (FlagFits(Step(t, s, input).session) <==>
               (Completes(t, s, input) ==> s.marked == EndsInMark(M.Text(Completed(t, s).ed))))
  {}

  /** A session without the flag; `typed` is the text that the last key other than a completion left. */
  datatype Draft = Draft(ed: M.Editor, hist: M.History<Bytes>, typed: seq<nat>)

  function DraftOf(s: Session, typed: seq<nat>): Draft { Draft(s.ed, s.hist, typed) }

  function Flagged(d: Draft): Session { Session(d.ed, d.hist, EndsInMark(d.typed)) }

  /**
   Since the last key that was no completion, completions have not made a mark come or go when the
   line ends, and before that have never emptied a line with a mark when another key came.
   */
  predicate MarksReturn(t: Terminal, d: Draft, inputs: seq<Input>)
    requires M.HistoryOk(d.hist)
    decreases |inputs|
  {
    var text := M.Text(d.ed);
    if inputs == [] || inputs[0].EndOfStream? || inputs[0].Enter? then EndsInMark(d.typed) == EndsInMark(text)
    else if Completes(t, Flagged(d), inputs[0]) then
      MarksReturn(t, DraftOf(Completed(t, Flagged(d)), d.typed), inputs[1..])
    else
      && (EndsInMark(d.typed) ==> text != [])
      && var u := Dispatched(t, Flagged(d), inputs[0]);
         MarksReturn(t, DraftOf(u, M.Text(u.ed)), inputs[1..])
  }

  lemma {:induction false} KeysFlag(t: Terminal, d: Draft, inputs: seq<Input>)
    requires M.HistoryOk(d.hist)
    ensures (Keys(t, Flagged(d), inputs).0.Live? && FlagFits(Keys(t, Flagged(d), inputs).0.session)) <==>
            MarksReturn(t, d, inputs)
    decreases |inputs|
  {
    hide Completed, Dispatched, EndsInMark, M.Text;
    var s := Flagged(d);
    if inputs == [] || inputs[0].EndOfStream? || inputs[0].Enter? {
    } else if Completes(t, s, inputs[0]) {
      var u := Completed(t, s);
      CompletedKeeps(t, s);
      assert Flagged(DraftOf(u, d.typed)) == u;
      KeysFlag(t, DraftOf(u, d.typed), inputs[1..]);
    } else if s.marked && M.Text(s.ed) == [] {
    } else {
      var u := Dispatched(t, s, inputs[0]);
      DispatchedOk(t, s, inputs[0]);
      assert Flagged(DraftOf(u, M.Text(u.ed))) == u.(marked := EndsInMark(M.Text(u.ed)));
      KeysFlag(t, DraftOf(u, M.Text(u.ed)), inputs[1..]);
    }
  }

  lemma DispatchedOk(t: Terminal, s: Session, input: Input)
    requires M.HistoryOk(s.hist)
    ensures M.HistoryOk(Dispatched(t, s, input).hist)
  {}

  lemma CompletedKeeps(t: Terminal, s: Session)
    requires Offers(t, s.ed) != []
    ensures Completed(t, s).hist == s.hist && Completed(t, s).marked == s.marked
  {}

  /** What a finished line of code points stands for. */
  function Meaning(cs: seq<nat>, endOfStream: bool, multiline: bool): (seq<nat>, bool) {
    if cs != [] && cs[|cs| - 1] == Backslash then (cs[..|cs| - 1] + [Newline], !multiline)
    else if cs != [] && cs[|cs| - 1] == Slash then
      (if cs[..|cs| - 1] == [Blank] then [] else cs[..|cs| - 1], false)
    else if endOfStream then (cs, false)
    else (cs + [Newline], multiline)
  }

  predicate FinishesRight(s: Session, endOfStream: bool, multiline: bool) {
    var (cs, hasMore) := Meaning(M.Text(s.ed), endOfStream, multiline);
    && Finish(s, endOfStream, multiline).Done?
    && Finish(s, endOfStream, multiline).line == EncodeAll(cs)
    && Finish(s, endOfStream, multiline).hasMore == hasMore
  }

  lemma EncodeLast(cs: seq<nat>, c: nat)
    requires c < 0x80
    ensures EncodeAll(cs + [c]) == EncodeAll(cs) + [c] && EncodeAll([]) == []
  {
    assert (cs + [c])[..|cs|] == cs;
  }

  /** The line handed back is the one meant exactly when the flag fits. */
  lemma FlagDecides(s: Session, endOfStream: bool, multiline: bool)
    requires AreCodes(M.Text(s.ed))
    ensures FinishesRight(s, endOfStream, multiline) <==> FlagFits(s)
  {
    hide EncodeAll, AreCodes, Encode, Close;
    var cs := M.Text(s.ed);
    LastByte(cs, Backslash);
    LastByte(cs, Slash);
    EncodeLast(cs, Newline);
    if cs != [] {
      InitCodes(cs);
      EncodeLast(cs[..|cs| - 1], Newline);
      BlankOnly(cs[..|cs| - 1]);
    }
    CloseLine(s.hist, endOfStream);
  }

  lemma InitCodes(cs: seq<nat>)
    requires AreCodes(cs) && cs != []
    ensures AreCodes(cs[..|cs| - 1])
  {}

  lemma CloseLine(hist: M.History<Bytes>, endOfStream: bool)
    ensures forall line, hasMore {:trigger Close(line, hasMore, hist, endOfStream)} ::
              Close(line, hasMore, hist, endOfStream).Done? && Close(line, hasMore, hist, endOfStream).line == line
              && Close(line, hasMore, hist, endOfStream).hasMore == hasMore
  {}

  lemma BlankOnly(cs: seq<nat>)
    ensures AreCodes(cs) ==> (EncodeAll(cs) == [Blank] <==> cs == [Blank])
  {
    EncodeOne(Blank);
    if AreCodes(cs) {
      DecodeAllEncodeAll(cs);
      DecodeAllEncodeAll([Blank]);
    }
  }

  // ---------------------------------------------------------------------------
  // The line and the history stay text
  // ---------------------------------------------------------------------------

  predicate Clean(s: Session) { AreCodes(M.Text(s.ed)) }

  lemma PressCodes(ed: M.Editor, key: M.Key, isSpace: nat -> bool)
    requires AreCodes(M.Text(ed)) && (key.Insert? ==> IsCode(key.c))
    ensures AreCodes(M.Text(M.Press(ed, key, isSpace)))
  {
    if M.Moves(key) {
      M.MoveKeepsText(ed, key, isSpace);
    } else {
      hide IsCode;
      forall i | 0 <= i < |ed.before|
        ensures IsCode(ed.before[i])
      {
        assert M.Text(ed)[i] == ed.before[i];
      }
      forall i | 0 <= i < |ed.after|
        ensures IsCode(ed.after[i])
      {
        assert M.Text(ed)[|ed.before| + i] == ed.after[i];
      }
    }
  }

  lemma RecalledCodes(line: Bytes, k: nat)
    requires k <= |DecodeAll(line)|
    ensures IsText(line) ==> AreCodes(M.Text(M.At(DecodeAll(line), k)))
  {
    M.SplitAt(DecodeAll(line), k);
  }

  lemma StepClean(t: Terminal, s: Session, input: Input)
    requires M.HistoryOk(s.hist) && HistoryTexts(s.hist) && Clean(s)
    requires CompletesText(t) && TypesCodes([input])
    ensures Step(t, s, input).Live? ==>
              Clean(Step(t, s, input).session) && HistoryTexts(Step(t, s, input).session.hist)
  {
    hide M.Press, EncodeAll, DecodeAll, AreCodes, CursorChar, EndsInMark, IsText, M.At;
    assert OffersText(Offers(t, s.ed));
    if Offers(t, s.ed) != [] {
      var first := Offers(t, s.ed)[0];
      RecalledCodes(first.text, CursorChar(DecodeAll(first.text), first.cursor));
    }
    forall line: Bytes
      ensures IsText(line) ==> AreCodes(M.Text(M.At(DecodeAll(line), |DecodeAll(line)|)))
    {
      RecalledCodes(line, |DecodeAll(line)|);
    }
    DecodeAllEncodeAll(M.Text(s.ed));
    assert input == [input][0];
    if input.Edit? {
      PressCodes(s.ed, input.key, t.isSpace);
    }
    TabIsCode();
    PressCodes(s.ed, M.Insert(TabCode), t.isSpace);
    EmptyIsText();
  }

  lemma TabIsCode()
    ensures IsCode(TabCode)
  {}

  lemma EmptyIsText()
    ensures IsText([])
  {}

  lemma {:induction false} KeysClean(t: Terminal, s: Session, inputs: seq<Input>)
    requires M.HistoryOk(s.hist) && HistoryTexts(s.hist) && Clean(s)
    requires CompletesText(t) && TypesCodes(inputs)
    ensures Keys(t, s, inputs).0.Live? ==>
              Clean(Keys(t, s, inputs).0.session) && HistoryTexts(Keys(t, s, inputs).0.session.hist)
    decreases |inputs|
  {
    hide Step, Clean, HistoryTexts, CompletesText;
    if inputs != [] && !inputs[0].EndOfStream? && !inputs[0].Enter? {
      StepClean(t, s, inputs[0]);
      if Step(t, s, inputs[0]).Live? {
        KeysClean(t, Step(t, s, inputs[0]).session, inputs[1..]);
      }
    }
  }

  function Blanked(hist: M.History<Bytes>): Session { Session(M.Editor([], []), hist, false) }

  /**
   The reader returns the line the keys spell exactly if completions brought every mark back, as
   above; then every entry of the history is text again for the next call.
   */
  lemma ReadingMeans(t: Terminal, hist: M.History<Bytes>, inputs: seq<Input>, multiline: bool)
    requires M.HistoryOk(hist) && HistoryTexts(hist) && CompletesText(t) && TypesCodes(inputs)
    ensures var (run, endOfStream) := Keys(t, Blanked(hist), inputs);
            (run.Live? && FinishesRight(run.session, endOfStream, multiline)) <==>
            MarksReturn(t, DraftOf(Blanked(hist), []), inputs)
    ensures MarksReturn(t, DraftOf(Blanked(hist), []), inputs) ==>
              var (run, endOfStream) := Keys(t, Blanked(hist), inputs);
              && run.Live?
              && Reading(t, hist, inputs, multiline) == Finish(run.session, endOfStream, multiline)
              && HistoryTexts(Finish(run.session, endOfStream, multiline).hist)
  {
    hide Keys, MarksReturn, HistoryTexts, FinishesRight, Clean, Finish, CompletesText, TypesCodes;
    assert Flagged(DraftOf(Blanked(hist), [])) == Blanked(hist);
    KeysFlag(t, DraftOf(Blanked(hist), []), inputs);
    BlankedIsClean(hist);
    KeysClean(t, Blanked(hist), inputs);
    var (run, endOfStream) := Keys(t, Blanked(hist), inputs);
    if run.Live? {
      CleanDecides(run.session, endOfStream, multiline);
      if FlagFits(run.session) {
        FinishKeepsTexts(run.session, endOfStream, multiline);
      }
    }
  }

  lemma BlankedIsClean(hist: M.History<Bytes>)
    ensures Clean(Blanked(hist))
  {}

  lemma CleanDecides(s: Session, endOfStream: bool, multiline: bool)
    requires Clean(s)
    ensures FinishesRight(s, endOfStream, multiline) <==> FlagFits(s)
    ensures FlagFits(s) ==> Finish(s, endOfStream, multiline).Done?
  {
    FlagDecides(s, endOfStream, multiline);
    hide EncodeAll, AreCodes, Finish, FlagFits, Meaning;
  }

  lemma FinishCloses(s: Session, endOfStream: bool, multiline: bool)
    ensures var r := Finish(s, endOfStream, multiline);
            r.Done? ==> r == Close(r.line, r.hasMore, s.hist, endOfStream)
  {
    hide EncodeAll;
  }

  lemma FinishKeepsTexts(s: Session, endOfStream: bool, multiline: bool)
    requires Clean(s) && FlagFits(s) && HistoryTexts(s.hist)
    ensures Finish(s, endOfStream, multiline).Done? ==> HistoryTexts(Finish(s, endOfStream, multiline).hist)
  {
    hide EncodeAll, IsText, FlagFits, Finish, Meaning, Remembered, AreCodes, M.Text;
    var ds := Meaning(M.Text(s.ed), endOfStream, multiline).0;
    MeaningCodes(M.Text(s.ed), endOfStream, multiline);
    FlagDecides(s, endOfStream, multiline);
    FinishCloses(s, endOfStream, multiline);
    RememberedIsText(ds);
    EmptyIsText();
  }

  lemma MeaningCodes(cs: seq<nat>, endOfStream: bool, multiline: bool)
    requires AreCodes(cs)
    ensures AreCodes(Meaning(cs, endOfStream, multiline).0)
  {}

  lemma RememberedIsText(cs: seq<nat>)
    ensures AreCodes(cs) ==> IsText(Remembered(EncodeAll(cs)))
  {
    if AreCodes(cs) {
      DecodeAllEncodeAll(cs);
      LastByte(cs, Newline);
      if cs != [] {
        DecodeAllEncodeAll(cs[..|cs| - 1]);
      }
      hide IsText, EncodeAll;
    }
  }

  function Edits(keys: seq<M.Key>): (r: seq<Input>)
    ensures |r| == |keys| && forall i :: 0 <= i < |keys| ==> r[i] == Edit(keys[i])
  {
    if keys == [] then [] else [Edit(keys[0])] + Edits(keys[1..])
  }

  lemma EditStep(t: Terminal, s: Session, key: M.Key)
    requires M.HistoryOk(s.hist) && FlagFits(s)
    ensures var ed := M.Press(s.ed, key, t.isSpace);
            var u := Session(ed, s.hist, EndsInMark(M.Text(ed)));
            Step(t, s, Edit(key)) == Live(u) && FlagFits(u)
  {
    hide M.Press;
  }

  lemma FirstEdit(keys: seq<M.Key>, rest: seq<Input>)
    requires keys != []
    ensures (Edits(keys) + rest)[0] == Edit(keys[0]) && (Edits(keys) + rest)[1..] == Edits(keys[1..]) + rest
  {
    FrontOf(Edit(keys[0]), Edits(keys[1..]), rest);
  }

  lemma FrontOf(x: Input, xs: seq<Input>, rest: seq<Input>)
    ensures ([x] + xs + rest)[0] == x && ([x] + xs + rest)[1..] == xs + rest
  {}

  lemma KeysStep(t: Terminal, s: Session, u: Session, inputs: seq<Input>)
    requires M.HistoryOk(s.hist) && inputs != [] && inputs[0].Edit? && Step(t, s, inputs[0]) == Live(u)
    ensures M.HistoryOk(u.hist) && Keys(t, s, inputs) == Keys(t, u, inputs[1..])
  {
    hide Step;
  }

  /** Editing keys lead to the text they leave, with a flag that fits and the same history. */
  lemma {:induction false} EditsThen(t: Terminal, s: Session, keys: seq<M.Key>, rest: seq<Input>)
    requires M.HistoryOk(s.hist) && FlagFits(s)
    ensures var ed := M.PressAll(s.ed, keys, t.isSpace);
            Keys(t, s, Edits(keys) + rest) == Keys(t, Session(ed, s.hist, EndsInMark(M.Text(ed))), rest)
    decreases |keys|
  {
    hide M.Press, Step, EndsInMark, M.Text, Keys, M.HistoryOk, Edits;
    if keys == [] {
      assert Edits(keys) == [] && [] + rest == rest;
    } else {
      hide FlagFits;
      var ed := M.Press(s.ed, keys[0], t.isSpace);
      var u := Session(ed, s.hist, EndsInMark(M.Text(ed)));
      EditStep(t, s, keys[0]);
      EditsThen(t, u, keys[1..], rest);
      FirstEdit(keys, rest);
      KeysStep(t, s, u, Edits(keys) + rest);
    }
  }

  /** A run of editing keys is the abstract run of the same keys. */
  lemma EditsAreKeys(t: Terminal, s: Session, keys: seq<M.Key>)
    requires M.HistoryOk(s.hist) && FlagFits(s)
    ensures Keys(t, s, Edits(keys)).0.Live?
    ensures Keys(t, s, Edits(keys)).0.session.ed == M.PressAll(s.ed, keys, t.isSpace)
  {
    hide M.Press, Step, EndsInMark, M.Text;
    EditsThen(t, s, keys, []);
    assert Edits(keys) + [] == Edits(keys);
  }

  /**
   What editing keys and enter give, in terms of the text the keys leave: the line with a newline, or
   without the mark it ends in; the history takes the line without the newline. At the end of the
   stream nothing is kept.
   */
  lemma EditedLine(t: Terminal, hist: M.History<Bytes>, keys: seq<M.Key>, multiline: bool)
    requires M.HistoryOk(hist) && AreCodes(M.Text(M.PressAll(M.Editor([], []), keys, t.isSpace)))
    ensures var cs := M.Text(M.PressAll(M.Editor([], []), keys, t.isSpace));
            var r := Reading(t, hist, Edits(keys) + [Enter], multiline);
            var at := |cs| - 1;
            && (cs == [] ==> r == Done([10], multiline, hist))
            && (cs != [] && cs[at] != 92 && cs[at] != 47 ==>
                  r == Done(EncodeAll(cs) + [10], multiline, M.Add(hist, EncodeAll(cs), [])))
            && (cs != [] && cs[at] == 92 ==>
                  r == Done(EncodeAll(cs[..at]) + [10], !multiline, M.Add(hist, EncodeAll(cs[..at]), [])))
            && (cs == [32, 47] ==> r == Done([], false, hist))
            && (cs != [] && cs[at] == 47 && cs != [32, 47] && (at > 0 ==> cs[at - 1] != 10) ==>
                  r == Done(EncodeAll(cs[..at]), false, M.Add(hist, EncodeAll(cs[..at]), [])))
    ensures var r := Reading(t, hist, Edits(keys) + [EndOfStream], multiline);
            r.Done? && r.hist == hist
  {
    hide Step, EncodeAll, AreCodes, Encode, M.Press, Finish, Meaning, EndsInMark, M.Add;
    var ed := M.PressAll(M.Editor([], []), keys, t.isSpace);
    var cs := M.Text(ed);
    var s := Session(ed, hist, EndsInMark(cs));
    BlankedFits(hist);
    EditsThen(t, Blanked(hist), keys, [Enter]);
    EditsThen(t, Blanked(hist), keys, [EndOfStream]);
    FlagDecides(s, false, multiline);
    FlagDecides(s, true, multiline);
    FinishCloses(s, false, multiline);
    FinishCloses(s, true, multiline);
    LineMeans(cs, hist, multiline);
  }

  lemma BlankedFits(hist: M.History<Bytes>)
    ensures FlagFits(Blanked(hist)) && Blanked(hist).ed == M.Editor([], [])
  {}

  lemma LineMeans(cs: seq<nat>, hist: M.History<Bytes>, multiline: bool)
    requires AreCodes(cs)
    ensures var (ds, more) := Meaning(cs, false, multiline);
            var r := Close(EncodeAll(ds), more, hist, false);
            var at := |cs| - 1;
            && (cs == [] ==> r == Done([10], multiline, hist))
            && (cs != [] && cs[at] != 92 && cs[at] != 47 ==>
                  r == Done(EncodeAll(cs) + [10], multiline, M.Add(hist, EncodeAll(cs), [])))
            && (cs != [] && cs[at] == 92 ==>
                  r == Done(EncodeAll(cs[..at]) + [10], !multiline, M.Add(hist, EncodeAll(cs[..at]), [])))
            && (cs == [32, 47] ==> r == Done([], false, hist))
            && (cs != [] && cs[at] == 47 && cs != [32, 47] && (at > 0 ==> cs[at - 1] != 10) ==>
                  r == Done(EncodeAll(cs[..at]), false, M.Add(hist, EncodeAll(cs[..at]), [])))
  {
    hide EncodeAll, AreCodes, Encode, Close, M.Add;
    EncodeLast(cs, Newline);
    CloseKeeps(EncodeAll(cs), multiline, hist);
    CloseKeeps([], false, hist);
    if cs != [] {
      var front := cs[..|cs| - 1];
      InitCodes(cs);
      EncodeLast(front, Newline);
      LastByte(front, Newline);
      CloseKeeps(EncodeAll(front), !multiline, hist);
      CloseKeeps(EncodeAll(front), false, hist);
      assert cs == front + [cs[|cs| - 1]];
    }
  }

  lemma CloseKeeps(line: Bytes, hasMore: bool, hist: M.History<Bytes>)
    ensures Close(line + [10], hasMore, hist, false) == Done(line + [10], hasMore, M.Add(hist, line, []))
    ensures line == [] || line[|line| - 1] != 10 ==>
              Close(line, hasMore, hist, false) == Done(line, hasMore, M.Add(hist, line, []))
    ensures line == [] ==> M.Add(hist, line, []) == hist && line + [10] == [10]
  {
    assert (line + [10])[..|line|] == line;
  }

  // ---------------------------------------------------------------------------
  // The tab key
  // ---------------------------------------------------------------------------

  lemma {:induction false} BoundaryWithin(cs: seq<nat>, k: nat, n: nat)
    requires AreCodes(cs) && k <= n <= |cs|
    ensures LastWithin(cs, Offset(cs, k), n) == k
    decreases n
  {
    if n == k {
    } else {
      OffsetApart(cs, k, n);
      BoundaryWithin(cs, k, n - 1);
    }
  }

  lemma {:induction false} OffsetApart(cs: seq<nat>, k: nat, n: nat)
    requires AreCodes(cs) && k < n <= |cs|
    ensures Offset(cs, k) < Offset(cs, n)
    decreases n
  {
    assert IsCode(cs[n - 1]);
    assert cs[..n][..n - 1] == cs[..n - 1];
    if k < n - 1 {
      OffsetApart(cs, k, n - 1);
    }
  }

  /**
   The tab key: without an offer it types a tab; one offer that is the line already changes nothing;
   otherwise the line is the first offer, with the cursor at the byte it names, or at the end.
   */
  lemma TabKey(t: Terminal, s: Session, cs: seq<nat>, k: nat)
    requires M.HistoryOk(s.hist) && AreCodes(cs) && k <= |cs|
    ensures Offers(t, s.ed) == [] ==> Step(t, s, Tab) == Step(t, s, Edit(M.Insert(9)))
    ensures |Offers(t, s.ed)| == 1 && Offers(t, s.ed)[0].text == EncodeAll(M.Text(s.ed)) ==> Step(t, s, Tab) == Live(s)
    ensures Offers(t, s.ed) != [] && Offers(t, s.ed)[0].text == EncodeAll(cs)
            && (|Offers(t, s.ed)| > 1 || EncodeAll(cs) != EncodeAll(M.Text(s.ed)))
            && (Offers(t, s.ed)[0].cursor == |EncodeAll(cs[..k])| || (Offers(t, s.ed)[0].cursor < 0 && k == |cs|)) ==>
              Step(t, s, Tab) == Live(Session(M.Editor(cs[..k], cs[k..]), s.hist, s.marked))
  {
    hide EncodeAll, DecodeAll, LastWithin, AreCodes;
    DecodeAllEncodeAll(cs);
    BoundaryWithin(cs, k, |cs|);
  }

  // ---------------------------------------------------------------------------
  // When the flag is left behind
  // ---------------------------------------------------------------------------

  /** A backslash, completed to the letter e-acute. */
  const Acute: Bytes := [0xC3, 0xA9]

  /**
   After a backslash, a completion that replaces it keeps the flag: enter then cuts a byte off the
   completed line, which is no longer text and goes into the history.
   */
  lemma StaleFlagCutsAByte(t: Terminal, multiline: bool)
    requires forall line, pos :: t.complete(line, pos) == [Candidate(Acute, -1)]
    ensures CompletesText(t)
    ensures var r := Reading(t, M.History([], M.NotViewing, []), [Edit(M.Insert(Backslash)), Tab, Enter], multiline);
            r == Done([0xC3], false, M.History([[0xC3]], M.NotViewing, [])) && !IsText([0xC3])
  {
    hide EncodeAll, DecodeAll, Step, Finish;
    var s0 := Blanked(M.History([], M.NotViewing, []));
    var s1 := Session(M.Editor([Backslash], []), s0.hist, true);
    var s2 := Session(M.Editor([0xE9], []), s0.hist, true);
    AcuteIsText();
    TypeBackslash(t, s0.hist);
    CompleteToAcute(t, s0.hist);
    ThreeKeys(t, s0, s1, s2, Edit(M.Insert(Backslash)), Tab);
    FinishAcute(s0.hist, multiline);
    LoneByteIsNoText();
  }

  lemma AcuteIsText()
    ensures DecodeAll(Acute) == [0xE9] && EncodeAll([0xE9]) == Acute && IsText(Acute)
  {
    EncodeOne(0xE9);
    DecodeAllEncodeAll([0xE9]);
  }

  lemma TypeBackslash(t: Terminal, hist: M.History<Bytes>)
    requires M.HistoryOk(hist)
    ensures Step(t, Blanked(hist), Edit(M.Insert(Backslash))) == Live(Session(M.Editor([Backslash], []), hist, true))
  {}

  lemma CompleteToAcute(t: Terminal, hist: M.History<Bytes>)
    requires M.HistoryOk(hist) && forall line, pos :: t.complete(line, pos) == [Candidate(Acute, -1)]
    ensures Step(t, Session(M.Editor([Backslash], []), hist, true), Tab) ==
            Live(Session(M.Editor([0xE9], []), hist, true))
  {
    hide EncodeAll, DecodeAll;
    AcuteIsText();
    EncodeOne(Backslash);
    assert [Backslash] + [] == [Backslash];
  }

  lemma FinishAcute(hist: M.History<Bytes>, multiline: bool)
    requires hist == M.History([], M.NotViewing, [])
    ensures Finish(Session(M.Editor([0xE9], []), hist, true), false, multiline) ==
            Done([0xC3], false, M.History([[0xC3]], M.NotViewing, []))
  {
    hide EncodeAll;
    AcuteIsText();
    assert [0xE9] + [] == [0xE9] && Acute[..1] == [0xC3];
  }

  lemma LoneByteIsNoText()
    ensures !IsText([0xC3])
  {
    assert DecodeAll([0xC3]) == [Replacement];
    EncodeOne(Replacement);
  }

  lemma ThreeKeys(t: Terminal, s0: Session, s1: Session, s2: Session, a: Input, b: Input)
    requires M.HistoryOk(s0.hist) && M.HistoryOk(s1.hist) && M.HistoryOk(s2.hist)
    requires !a.Enter? && !a.EndOfStream? && !b.Enter? && !b.EndOfStream?
    requires Step(t, s0, a) == Live(s1) && Step(t, s1, b) == Live(s2)
    ensures Keys(t, s0, [a, b, Enter]) == (Live(s2), false)
  {
    hide Step;
    assert [a, b, Enter][1..] == [b, Enter] && [b, Enter][1..] == [Enter];
    assert Keys(t, s2, [Enter]) == (Live(s2), false);
    assert Keys(t, s1, [b, Enter]) == (Live(s2), false);
  }

  lemma TypedDraft(t: Terminal, d: Draft, c: nat)
    requires M.HistoryOk(d.hist) && d.ed.after == []
    ensures var text := M.Text(d.ed) + [c];
            && DraftOf(Dispatched(t, Flagged(d), Edit(M.Insert(c))), text) == Draft(M.Editor(text, []), d.hist, text)
            && M.Text(Dispatched(t, Flagged(d), Edit(M.Insert(c))).ed) == text
  {
    assert d.ed.before + [] == d.ed.before && d.ed.before + [c] + [] == d.ed.before + [c];
  }

  lemma CompletedDraft(t: Terminal, d: Draft)
    requires forall line, pos :: t.complete(line, pos) == [Candidate(Acute, -1)]
    requires d.ed == M.Editor([Backslash], [])
    ensures Completes(t, Flagged(d), Tab)
    ensures DraftOf(Completed(t, Flagged(d)), d.typed) == Draft(M.Editor([0xE9], []), d.hist, d.typed)
  {
    hide EncodeAll, DecodeAll;
    AcuteIsText();
    EncodeOne(Backslash);
    assert [Backslash] + [] == [Backslash];
  }

  /** A key typed after such a completion brings the flag back, and the line is right. */
  lemma NextKeyRecovers(t: Terminal, c: nat, d: Draft)
    requires forall line, pos :: t.complete(line, pos) == [Candidate(Acute, -1)]
    requires c != Backslash && c != Slash && d == Draft(M.Editor([], []), M.History([], M.NotViewing, []), [])
    ensures MarksReturn(t, d, [Edit(M.Insert(Backslash)), Tab, Edit(M.Insert(c)), Enter])
    ensures !MarksReturn(t, d, [Edit(M.Insert(Backslash)), Tab, Enter])
  {
    var a, b := Edit(M.Insert(Backslash)), Edit(M.Insert(c));
    var d1 := Draft(M.Editor([Backslash], []), d.hist, [Backslash]);
    var d2 := Draft(M.Editor([0xE9], []), d.hist, [Backslash]);
    var d3 := Draft(M.Editor([0xE9, c], []), d.hist, [0xE9, c]);
    assert [] + [Backslash] == [Backslash] && [0xE9] + [c] == [0xE9, c] && [0xE9] + [] == [0xE9];
    assert [a, Tab, b, Enter] == [a] + [Tab, b, Enter] && [a, Tab, Enter] == [a] + [Tab, Enter];
    assert [Tab, b, Enter] == [Tab] + [b, Enter] && [Tab, Enter] == [Tab] + [Enter] && [b, Enter] == [b] + [Enter];
    assert M.Text(d.ed) == [] && M.Text(d2.ed) == [0xE9] && M.Text(d3.ed) == [0xE9, c];
    assert EndsInMark([Backslash]) && !EndsInMark([0xE9]) && !EndsInMark([0xE9, c]) && !EndsInMark([]);
    TypedDraft(t, d, Backslash);
    CompletedDraft(t, d1);
    TypedDraft(t, d2, c);
    AtEnter(t, d2);
    AtEnter(t, d3);
    hide MarksReturn, Completed, Dispatched, EndsInMark, M.Text;
    MarksNext(t, d, a, [Tab, b, Enter]);
    MarksNext(t, d, a, [Tab, Enter]);
    MarksNext(t, d1, Tab, [b, Enter]);
    MarksNext(t, d1, Tab, [Enter]);
    MarksNext(t, d2, b, [Enter]);
  }

  lemma AtEnter(t: Terminal, d: Draft)
    requires M.HistoryOk(d.hist)
    ensures MarksReturn(t, d, [Enter]) <==> EndsInMark(d.typed) == EndsInMark(M.Text(d.ed))
  {}

  lemma MarksNext(t: Terminal, d: Draft, input: Input, rest: seq<Input>)
    requires M.HistoryOk(d.hist) && !input.EndOfStream? && !input.Enter?
    ensures MarksReturn(t, d, [input] + rest) ==
            if Completes(t, Flagged(d), input) then
              MarksReturn(t, DraftOf(Completed(t, Flagged(d)), d.typed), rest)
            else
              && (EndsInMark(d.typed) ==> M.Text(d.ed) != [])
              && var u := Dispatched(t, Flagged(d), input); M.HistoryOk(u.hist) && MarksReturn(t, DraftOf(u, M.Text(u.ed)), rest)
  {
    DispatchedOk(t, Flagged(d), input);
    hide Completed, Dispatched, EndsInMark, Completes;
    assert ([input] + rest)[1..] == rest;
  }
}
