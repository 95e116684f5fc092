/**
 What the line editor means in terms of code points: a text with a cursor, a history, and keys.
 Nothing here knows about bytes, widths or the screen.
 */
module EditorModel {

  datatype Editor = Editor(before: seq<nat>, after: seq<nat>)

  function Text(ed: Editor): seq<nat> { ed.before + ed.after }

  function At(cs: seq<nat>, k: nat): Editor
    requires k <= |cs|
  {
    Editor(cs[..k], cs[k..])
  }

  // ---------------------------------------------------------------------------
  // Words
  // ---------------------------------------------------------------------------

  /** Steps back from `k` over characters of one kind. */
  function BackWhile(cs: seq<nat>, k: nat, isSpace: nat -> bool, space: bool): (j: nat)
    requires k <= |cs|
    ensures j <= k
    ensures forall i :: j <= i < k ==> isSpace(cs[i]) == space
    ensures j > 0 ==> isSpace(cs[j - 1]) != space
  {
    if k > 0 && isSpace(cs[k - 1]) == space then BackWhile(cs, k - 1, isSpace, space) else k
  }

  function ForwardWhile(cs: seq<nat>, k: nat, isSpace: nat -> bool, space: bool): (j: nat)
    requires k <= |cs|
    ensures k <= j <= |cs|
    ensures forall i :: k <= i < j ==> isSpace(cs[i]) == space
    ensures j < |cs| ==> isSpace(cs[j]) != space
    decreases |cs| - k
  {
    if k < |cs| && isSpace(cs[k]) == space then ForwardWhile(cs, k + 1, isSpace, space) else k
  }

  /** Start of the word in front of `k`: blanks, then the word. */
  function WordLeft(cs: seq<nat>, k: nat, isSpace: nat -> bool): (j: nat)
    requires k <= |cs|
    ensures j <= k
  {
    BackWhile(cs, BackWhile(cs, k, isSpace, true), isSpace, false)
  }

  /** Start of the word after the one at `k`: blanks, the word, blanks. */
  function WordRight(cs: seq<nat>, k: nat, isSpace: nat -> bool): (j: nat)
    requires k <= |cs|
    ensures k <= j <= |cs|
  {
    ForwardWhile(cs, ForwardWhile(cs, ForwardWhile(cs, k, isSpace, true), isSpace, false), isSpace, true)
  }

  /** From `k` over blanks to `a`, over a word to `b`, over blanks to `j`. */
  predicate RightBy(cs: seq<nat>, k: nat, a: nat, b: nat, j: nat, isSpace: nat -> bool) {
    && k <= a <= b <= j <= |cs|
    && (forall i :: k <= i < a ==> isSpace(cs[i]))
    && (forall i :: a <= i < b ==> !isSpace(cs[i]))
    && (forall i :: b <= i < j ==> isSpace(cs[i]))
    && (a < |cs| ==> !isSpace(cs[a])) && (b < |cs| ==> isSpace(cs[b])) && (j < |cs| ==> !isSpace(cs[j]))
  }

  /** Back from `k` over blanks to `b`, over a word to `j`. */
  predicate LeftBy(cs: seq<nat>, k: nat, b: nat, j: nat, isSpace: nat -> bool) {
    && j <= b <= k <= |cs|
    && (forall i :: b <= i < k ==> isSpace(cs[i]))
    && (forall i :: j <= i < b ==> !isSpace(cs[i]))
    && (b > 0 ==> !isSpace(cs[b - 1])) && (j > 0 ==> isSpace(cs[j - 1]))
  }

  /** `j` is where the word after the one at `k` starts, or the end. */
  ghost predicate NextWordAt(cs: seq<nat>, k: nat, j: nat, isSpace: nat -> bool) {
    exists a: nat, b: nat :: RightBy(cs, k, a, b, j, isSpace)
  }

  /** `j` is where the word in front of `k` starts. */
  ghost predicate WordBeforeAt(cs: seq<nat>, k: nat, j: nat, isSpace: nat -> bool) {
    exists b: nat :: LeftBy(cs, k, b, j, isSpace)
  }

  /** To the right the start of the following word is reached, to the left that of the word before. */
  lemma WordPositions(cs: seq<nat>, k: nat, isSpace: nat -> bool)
    requires k <= |cs|
    ensures NextWordAt(cs, k, WordRight(cs, k, isSpace), isSpace)
    ensures WordBeforeAt(cs, k, WordLeft(cs, k, isSpace), isSpace)
  {
    hide BackWhile, ForwardWhile;
    var a := ForwardWhile(cs, k, isSpace, true);
    var b := ForwardWhile(cs, a, isSpace, false);
    assert RightBy(cs, k, a, b, WordRight(cs, k, isSpace), isSpace);
    assert LeftBy(cs, k, BackWhile(cs, k, isSpace, true), WordLeft(cs, k, isSpace), isSpace);
  }

  // ---------------------------------------------------------------------------
  // Editing keys
  // ---------------------------------------------------------------------------

  datatype Key =
    | Left | Right | Home | End | CtrlLeft | CtrlRight
    | Delete | Backspace
    | Insert(c: nat)

  function Press(ed: Editor, key: Key, isSpace: nat -> bool): Editor {
    var cs, k := Text(ed), |ed.before|;
    match key
    case Left => if ed.before == [] then ed else Editor(ed.before[..k - 1], [ed.before[k - 1]] + ed.after)
    case Right => if ed.after == [] then ed else Editor(ed.before + [ed.after[0]], ed.after[1..])
    case Home => Editor([], cs)
    case End => Editor(cs, [])
    case CtrlLeft => At(cs, WordLeft(cs, k, isSpace))
    case CtrlRight => At(cs, WordRight(cs, k, isSpace))
    case Delete => if ed.after == [] then ed else Editor(ed.before, ed.after[1..])
    case Backspace => if ed.before == [] then ed else Editor(ed.before[..k - 1], ed.after)
    case Insert(c) => Editor(ed.before + [c], ed.after)
  }

  function PressAll(ed: Editor, keys: seq<Key>, isSpace: nat -> bool): Editor
    decreases |keys|
  {
    if keys == [] then ed else PressAll(Press(ed, keys[0], isSpace), keys[1..], isSpace)
  }

  /** Where the cursor stands and what the text is after each key that is not about words. */
  lemma KeyPositions(ed: Editor, c: nat, isSpace: nat -> bool)
    ensures var cs, k := Text(ed), |ed.before|;
            && Press(ed, Left, isSpace) == At(cs, if k > 0 then k - 1 else 0)
            && Press(ed, Right, isSpace) == At(cs, if k < |cs| then k + 1 else k)
            && Press(ed, Home, isSpace) == At(cs, 0) && Press(ed, End, isSpace) == At(cs, |cs|)
            && Press(ed, Delete, isSpace) == (if k < |cs| then At(cs[..k] + cs[k + 1..], k) else ed)
            && Press(ed, Backspace, isSpace) == (if k > 0 then At(cs[..k - 1] + cs[k..], k - 1) else ed)
            && Press(ed, Insert(c), isSpace) == At(cs[..k] + [c] + cs[k..], k + 1)
  {
    var cs, k := Text(ed), |ed.before|;
    assert cs[..k] == ed.before && cs[k..] == ed.after;
    assert k > 0 ==> cs[..k - 1] == ed.before[..k - 1] && cs[k - 1] == ed.before[k - 1] && cs[k - 1..] == [cs[k - 1]] + cs[k..];
    assert k < |cs| ==> cs[k] == ed.after[0] && cs[k + 1..] == ed.after[1..] && cs[..k + 1] == ed.before + [ed.after[0]];
    assert cs[..0] == [] && cs[0..] == cs && cs[..|cs|] == cs && cs[|cs|..] == [];
  }

  lemma WordKeys(cs: seq<nat>, k: nat, isSpace: nat -> bool)
    requires k <= |cs|
    ensures Press(At(cs, k), CtrlLeft, isSpace) == At(cs, WordLeft(cs, k, isSpace))
    ensures Press(At(cs, k), CtrlRight, isSpace) == At(cs, WordRight(cs, k, isSpace))
  {
    hide WordLeft, WordRight;
    SplitAt(cs, k);
  }

  predicate Moves(key: Key) { key in {Left, Right, Home, End, CtrlLeft, CtrlRight} }

  lemma SplitAt(cs: seq<nat>, k: nat)
    requires k <= |cs|
    ensures Text(At(cs, k)) == cs
  {}

  lemma MoveKeepsText(ed: Editor, key: Key, isSpace: nat -> bool)
    requires Moves(key)
    ensures Text(Press(ed, key, isSpace)) == Text(ed)
  {
    var cs, k := Text(ed), |ed.before|;
    match key {
      case Left =>
        if k > 0 {
          assert ed.before == ed.before[..k - 1] + [ed.before[k - 1]];
        }
      case CtrlLeft =>
        SplitAt(cs, WordLeft(cs, k, isSpace));
      case CtrlRight =>
        SplitAt(cs, WordRight(cs, k, isSpace));
      case _ =>
    }
  }

  /** Moving the cursor never changes the text. */
  lemma {:induction false} MovingKeepsText(ed: Editor, keys: seq<Key>, isSpace: nat -> bool)
    requires forall i :: 0 <= i < |keys| ==> Moves(keys[i])
    ensures Text(PressAll(ed, keys, isSpace)) == Text(ed)
    decreases |keys|
  {
    hide Press;
    if keys == [] {
    } else {
      MoveKeepsText(ed, keys[0], isSpace);
      MovingKeepsText(Press(ed, keys[0], isSpace), keys[1..], isSpace);
    }
  }

  function Typed(cs: seq<nat>): seq<Key> {
    if cs == [] then [] else [Insert(cs[0])] + Typed(cs[1..])
  }

  function Erased(n: nat): seq<Key> {
    if n == 0 then [] else [Backspace] + Erased(n - 1)
  }

  lemma {:induction false} PressConcat(ed: Editor, a: seq<Key>, b: seq<Key>, isSpace: nat -> bool)
    ensures PressAll(ed, a + b, isSpace) == PressAll(PressAll(ed, a, isSpace), b, isSpace)
    decreases |a|
  {
    hide Press;
    if a == [] {
      assert a + b == b;
    } else {
      PressConcat(Press(ed, a[0], isSpace), a[1..], b, isSpace);
      assert (a + b)[1..] == a[1..] + b;
    }
  }

  lemma {:induction false} TypedText(ed: Editor, cs: seq<nat>, isSpace: nat -> bool)
    ensures PressAll(ed, Typed(cs), isSpace) == Editor(ed.before + cs, ed.after)
    decreases |cs|
  {
    if cs == [] {
      assert ed.before + cs == ed.before;
    } else {
      var next := Editor(ed.before + [cs[0]], ed.after);
      TypedText(next, cs[1..], isSpace);
      assert next.before + cs[1..] == ed.before + cs;
      assert Typed(cs)[1..] == Typed(cs[1..]);
    }
  }

  lemma {:induction false} ErasedText(ed: Editor, n: nat, isSpace: nat -> bool)
    requires n <= |ed.before|
    ensures PressAll(ed, Erased(n), isSpace) == Editor(ed.before[..|ed.before| - n], ed.after)
    decreases n
  {
    if n == 0 {
      assert ed.before[..|ed.before|] == ed.before;
    } else {
      var next := Editor(ed.before[..|ed.before| - 1], ed.after);
      ErasedText(next, n - 1, isSpace);
      assert Erased(n)[1..] == Erased(n - 1);
      assert next.before[..|ed.before| - n] == ed.before[..|ed.before| - n];
    }
  }

  /** Typing any text puts it in front of the cursor, and erasing as many characters undoes it. */
  lemma TypedThenErased(ed: Editor, cs: seq<nat>, isSpace: nat -> bool)
    ensures PressAll(ed, Typed(cs), isSpace) == Editor(ed.before + cs, ed.after)
    ensures PressAll(ed, Typed(cs) + Erased(|cs|), isSpace) == ed
  {
    TypedText(ed, cs, isSpace);
    PressConcat(ed, Typed(cs), Erased(|cs|), isSpace);
    ErasedText(Editor(ed.before + cs, ed.after), |cs|, isSpace);
    assert (ed.before + cs)[..|ed.before|] == ed.before;
  }

  // ---------------------------------------------------------------------------
  // History
  // ---------------------------------------------------------------------------

  datatype View = NotViewing | Viewing(index: nat)

  /** Lines entered before, which of them is shown, and the line that was being edited. */
  datatype History<T> = History(entries: seq<T>, view: View, backup: T)

  predicate HistoryOk<T>(h: History<T>) { h.view.Viewing? ==> h.view.index <= |h.entries| }

  datatype Shown<T> = Nothing | Line(line: T)

  /** The up key: the line edited so far is set aside at the first press. */
  function Up<T>(h: History<T>, current: T): (r: (History<T>, Shown<T>))
    requires HistoryOk(h)
    ensures HistoryOk(r.0)
  {
    var g := if h.view.NotViewing? then h.(backup := current, view := Viewing(|h.entries|)) else h;
    if g.entries == [] then (g, Nothing)
    else
      var i := if g.view.index > 0 then g.view.index - 1 else 0;
      (g.(view := Viewing(i)), Line(g.entries[i]))
  }

  function Down<T>(h: History<T>, blank: T): (r: (History<T>, Shown<T>))
    requires HistoryOk(h)
    ensures HistoryOk(r.0)
  {
    if h.view.NotViewing? || h.entries == [] then (h, Nothing)
    else
      var i := h.view.index + 1;
      if i >= |h.entries| then (h.(view := NotViewing, backup := blank), Line(h.backup))
      else (h.(view := Viewing(i)), Line(h.entries[i]))
  }

  /** A new line is remembered unless it is empty or repeats the last one. */
  function Add<T(==)>(h: History<T>, line: T, blank: T): History<T> {
    if line == blank then h
    else
      var kept := if h.entries == [] || h.entries[|h.entries| - 1] != line then h.entries + [line] else h.entries;
      History(kept, NotViewing, blank)
  }

  function Ups<T>(h: History<T>, current: T, n: nat): (r: History<T>)
    requires HistoryOk(h)
    ensures HistoryOk(r)
  {
    if n == 0 then h else Up(Ups(h, current, n - 1), current).0
  }

  function Downs<T>(h: History<T>, blank: T, n: nat): (r: History<T>)
    requires HistoryOk(h)
    ensures HistoryOk(r)
  {
    if n == 0 then h else Down(Downs(h, blank, n - 1), blank).0
  }

  /** `n` presses of the up key show the n-th line from the end. */
  lemma {:induction false} UpsShow<T>(h: History<T>, current: T, n: nat)
    requires h.view.NotViewing? && 1 <= n <= |h.entries|
    ensures Ups(h, current, n) == History(h.entries, Viewing(|h.entries| - n), current)
    ensures Up(Ups(h, current, n - 1), current).1 == Line(h.entries[|h.entries| - n])
    decreases n
  {
    if n == 1 {
    } else {
      UpsShow(h, current, n - 1);
    }
  }

  lemma {:induction false} DownsReturn<T>(h: History<T>, blank: T, i: nat, m: nat)
    requires HistoryOk(h) && h.view == Viewing(i) && i + m < |h.entries|
    ensures Downs(h, blank, m) == h.(view := Viewing(i + m))
    decreases m
  {
    if m == 0 {
    } else {
      DownsReturn(h, blank, i, m - 1);
    }
  }

  /** As many presses of the down key give back the line that was being edited. */
  lemma UpsThenDowns<T>(h: History<T>, current: T, blank: T, n: nat)
    requires h.view.NotViewing? && 1 <= n <= |h.entries|
    ensures var g := Downs(Ups(h, current, n), blank, n - 1);
            && Down(g, blank).1 == Line(current)
            && Down(g, blank).0 == History(h.entries, NotViewing, blank)
  {
    UpsShow(h, current, n);
    DownsReturn(Ups(h, current, n), blank, |h.entries| - n, n - 1);
  }

  function AddAll<T(==)>(h: History<T>, lines: seq<T>, blank: T): History<T> {
    if lines == [] then h else Add(AddAll(h, lines[..|lines| - 1], blank), lines[|lines| - 1], blank)
  }

  function NonBlank<T(==)>(lines: seq<T>, blank: T): seq<T> {
    if lines == [] then []
    else (if lines[0] == blank then [] else [lines[0]]) + NonBlank(lines[1..], blank)
  }

  /** One line for every stretch of equal lines. */
  function OncePerStretch<T(==)>(lines: seq<T>): seq<T> {
    if |lines| <= 1 then lines
    else (if lines[0] == lines[1] then [] else [lines[0]]) + OncePerStretch(lines[1..])
  }

  lemma {:induction false} NonBlankSnoc<T>(lines: seq<T>, x: T, blank: T)
    ensures NonBlank(lines + [x], blank) == NonBlank(lines, blank) + if x == blank then [] else [x]
    decreases |lines|
  {
    if lines == [] {
      assert lines + [x] == [x] && [x][1..] == [];
    } else {
      NonBlankSnoc(lines[1..], x, blank);
      assert (lines + [x])[0] == lines[0] && (lines + [x])[1..] == lines[1..] + [x];
      var first := if lines[0] == blank then [] else [lines[0]];
      assert NonBlank(lines + [x], blank) == first + NonBlank(lines[1..] + [x], blank);
      hide NonBlank;
    }
  }

  lemma {:induction false} OnceSnoc<T>(lines: seq<T>, x: T)
    ensures lines != [] ==> OncePerStretch(lines) != [] && OncePerStretch(lines)[|OncePerStretch(lines)| - 1] == lines[|lines| - 1]
    ensures OncePerStretch(lines + [x]) ==
            if lines != [] && lines[|lines| - 1] == x then OncePerStretch(lines) else OncePerStretch(lines) + [x]
    decreases |lines|
  {
    var all := lines + [x];
    if lines == [] {
      assert all == [x];
    } else {
      OnceSnoc(lines[1..], x);
      assert all[1..] == lines[1..] + [x];
    }
  }

  /**
   After any lines have been entered the history holds the lines that are not blank, in order and
   once for every stretch of equal ones.
   */
  lemma {:induction false} HistoryOfLines<T>(lines: seq<T>, h: History<T>, blank: T)
    requires h.entries == []
    ensures AddAll(h, lines, blank).entries == OncePerStretch(NonBlank(lines, blank))
    decreases |lines|
  {
    hide NonBlank, OncePerStretch;
    if lines == [] {
      OnceEmpty(NonBlank(lines, blank));
      NoLines(lines, blank);
    } else {
      var front, x := lines[..|lines| - 1], lines[|lines| - 1];
      HistoryOfLines(front, h, blank);
      var some := NonBlank(front, blank);
      NonBlankSnoc(front, x, blank);
      OnceSnoc(some, x);
      OnceEmpty(some);
      assert lines == front + [x] && some + [] == some;
    }
  }

  lemma NoLines<T>(lines: seq<T>, blank: T)
    ensures lines == [] ==> NonBlank(lines, blank) == []
  {}

  lemma OnceEmpty<T>(lines: seq<T>)
    ensures lines == [] ==> OncePerStretch(lines) == []
  {}
}
