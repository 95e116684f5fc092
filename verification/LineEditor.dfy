/**
 The line editor of console.cpp: a byte string, a list of screen widths, a character index and a
 byte index, all changed in place by every key.
 */
module LineEditor {
  import opened Utf8
  import M = EditorModel

  function Sum(ws: seq<nat>): nat {
    if ws == [] then 0 else Sum(ws[..|ws| - 1]) + ws[|ws| - 1]
  }

  /** Screen columns taken by characters `i` to `j`. */
  function Columns(ws: seq<nat>, i: nat, j: nat): nat
    requires i <= j <= |ws|
  {
    Sum(ws[i..j])
  }

  lemma ColumnsStep(ws: seq<nat>, i: nat, j: nat)
    requires i <= j < |ws|
    ensures Columns(ws, i, j + 1) == Columns(ws, i, j) + ws[j]
  {
    assert ws[i..j + 1][..j - i] == ws[i..j];
  }

  lemma {:induction false} ColumnsSplit(ws: seq<nat>, i: nat, j: nat, k: nat)
    requires i <= j <= k <= |ws|
    ensures Columns(ws, i, k) == Columns(ws, i, j) + Columns(ws, j, k)
    decreases k
  {
    if j == k {
    } else {
      ColumnsSplit(ws, i, j, k - 1);
      ColumnsStep(ws, i, k - 1);
      ColumnsStep(ws, j, k - 1);
    }
  }

  lemma TwoRuns(ws: seq<nat>, a: nat, b: nat, k: nat)
    requires a <= b <= k <= |ws|
    ensures Columns(ws, 0, a) == Columns(ws, 0, k) - (Columns(ws, b, k) + Columns(ws, a, b))
  {
    hide Columns;
    ColumnsSplit(ws, a, b, k);
    ColumnsSplit(ws, 0, a, k);
  }

  lemma ThreeRuns(ws: seq<nat>, k: nat, a: nat, b: nat, c: nat)
    requires k <= a <= b <= c <= |ws|
    ensures Columns(ws, 0, c) == Columns(ws, 0, k) + (Columns(ws, k, a) + Columns(ws, a, b) + Columns(ws, b, c))
  {
    hide Columns;
    ColumnsSplit(ws, k, a, b);
    ColumnsSplit(ws, k, b, c);
    ColumnsSplit(ws, 0, k, c);
  }

  lemma NoColumns(ws: seq<nat>, i: nat)
    requires i <= |ws|
    ensures Columns(ws, i, i) == 0
  {}

  lemma ColumnsOfPrefix(ws: seq<nat>, vs: seq<nat>, i: nat, j: nat)
    requires i <= j <= |ws| && j <= |vs| && ws[i..j] == vs[i..j]
    ensures Columns(ws, i, j) == Columns(vs, i, j)
  {}

  /** The last boundary among the first `k` that is not behind byte `limit`. */
  function LastWithin(cs: seq<nat>, limit: int, k: nat): (j: nat)
    requires k <= |cs|
    ensures j <= k
  {
    if k == 0 || Offset(cs, k) <= limit then k else LastWithin(cs, limit, k - 1)
  }

  /** Where the cursor goes in a new line; a negative byte position means the end. */
  function CursorChar(cs: seq<nat>, cursor: int): (j: nat)
    ensures j <= |cs|
  {
    if cursor < 0 then |cs| else LastWithin(cs, cursor, |cs|)
  }

  function Tail(s: Bytes, i: nat): Bytes { if i <= |s| then s[i..] else [] }

  /** Every width is that of its character; what the screen cannot tell counts as none. */
  predicate Measured(ws: seq<nat>, cs: seq<nat>, measure: nat -> int) {
    |ws| == |cs| && forall i :: 0 <= i < |ws| ==> ws[i] == if measure(cs[i]) < 0 then 0 else measure(cs[i])
  }

  lemma MeasuredWith(ws: seq<nat>, cs: seq<nat>, k: nat, w: nat, c: nat, measure: nat -> int)
    requires Measured(ws, cs, measure) && k <= |ws| && w == if measure(c) < 0 then 0 else measure(c)
    ensures Measured(With(ws, k, w), With(cs, k, c), measure)
  {}

  lemma MeasuredWithout(ws: seq<nat>, cs: seq<nat>, k: nat, measure: nat -> int)
    requires Measured(ws, cs, measure) && k < |ws|
    ensures Measured(Without(ws, k), Without(cs, k), measure)
  {}

  lemma MeasuredEnd(ws: seq<nat>, cs: seq<nat>, w: nat, c: nat, measure: nat -> int)
    requires Measured(ws, cs, measure) && w == if measure(c) < 0 then 0 else measure(c)
    ensures Measured(ws + [w], cs + [c], measure)
  {}

  lemma NothingMeasured(measure: nat -> int)
    ensures Measured([], [], measure)
  {}

  class Line {
    const isSpace: nat -> bool
    const measure: nat -> int

    var line: Bytes
    var widths: seq<nat>
    var charPos: nat
    var bytePos: nat

    /** The code points of the line, and the cursor's distance on screen from the line's start. */
    ghost var chars: seq<nat>
    ghost var column: int

    /** Bytes, widths and the two positions describe the same characters. */
    ghost predicate InStep()
      reads this`line, this`widths, this`charPos, this`bytePos, this`chars
    {
      && AreCodes(chars) && line == EncodeAll(chars)
      && |widths| == |chars|
      && charPos <= |chars|
      && bytePos == Offset(chars, charPos)
    }

    /** And the screen's cursor stands where the widths before the cursor put it. */
    ghost predicate Valid()
      reads this
    {
      && InStep() && column == Columns(widths, 0, charPos)
      && Measured(widths, chars, measure)
    }

    ghost function View(): M.Editor
      requires Valid()
      reads this
    {
      M.At(chars, charPos)
    }

    constructor (isSpace: nat -> bool, measure: nat -> int)
      ensures Valid() && View() == M.Editor([], [])
      ensures this.isSpace == isSpace && this.measure == measure
    {
      this.isSpace, this.measure := isSpace, measure;
      line, widths, charPos, bytePos := [], [], 0, 0;
      chars, column := [], 0;
    }

    // -------------------------------------------------------------------------
    // Cursor movement
    // -------------------------------------------------------------------------

    method MoveLeft()
      requires Valid()
      modifies this`charPos, this`bytePos, this`column
      ensures Valid() && View() == M.Press(old(View()), M.Left, isSpace)
      ensures charPos == if old(charPos) > 0 then old(charPos) - 1 else 0
    {
      hide EncodeAll, Encode, Sum, Columns, Offset, Measured;
      if charPos > 0 {
        EndOrBoundary(chars, charPos);
        var prev := PrevPos(line, bytePos);
        OffsetGrows(chars, charPos - 1);
        PrevBoundary(chars, charPos, prev);
        ColumnsStep(widths, 0, charPos - 1);
        column := column - widths[charPos - 1];
        charPos := charPos - 1;
        bytePos := prev;
      }
    }

    method MoveRight()
      requires Valid()
      modifies this`charPos, this`bytePos, this`column
      ensures Valid() && View() == M.Press(old(View()), M.Right, isSpace)
      ensures charPos == if old(charPos) < |chars| then old(charPos) + 1 else |chars|
    {
      hide EncodeAll, Encode, Sum, Columns, Offset, Measured;
      if charPos < |widths| {
        BoundaryByte(chars, charPos);
        var next := NextPos(line, bytePos);
        NextBoundary(chars, charPos, next);
        ColumnsStep(widths, 0, charPos);
        column := column + widths[charPos];
        charPos := charPos + 1;
        bytePos := next;
      }
    }

    method MoveToLineStart()
      requires Valid()
      modifies this`charPos, this`bytePos, this`column
      ensures Valid() && View() == M.Press(old(View()), M.Home, isSpace)
      ensures charPos == 0 && column == 0
    {
      hide EncodeAll, Encode, Sum, Columns, Offset, Measured;
      var backWidth := 0;
      NoColumns(widths, 0);
      for i := 0 to charPos
        invariant Valid() && charPos == old(charPos) && column == old(column)
        invariant backWidth == Columns(widths, 0, i)
      {
        ColumnsStep(widths, 0, i);
        backWidth := backWidth + widths[i];
      }
      column := column - backWidth;
      charPos := 0;
      bytePos := 0;
      OffsetEnds(chars);
      NoColumns(widths, 0);
    }

    method MoveToLineEnd()
      requires Valid()
      modifies this`charPos, this`bytePos, this`column
      ensures Valid() && View() == M.Press(old(View()), M.End, isSpace)
      ensures charPos == |chars| && bytePos == |line|
    {
      hide EncodeAll, Encode, Sum, Columns, Offset, Measured;
      var forwardWidth := 0;
      NoColumns(widths, charPos);
      for i := charPos to |widths|
        invariant Valid() && charPos == old(charPos) && column == old(column)
        invariant forwardWidth == Columns(widths, charPos, i)
      {
        ColumnsStep(widths, charPos, i);
        forwardWidth := forwardWidth + widths[i];
      }
      ColumnsSplit(widths, 0, charPos, |widths|);
      column := column + forwardWidth;
      charPos := |widths|;
      bytePos := |line|;
      OffsetEnds(chars);
    }

    /** Steps back over characters of one kind; returns the new position and the columns passed. */
    method SkipBack(fromChar: nat, fromByte: nat, space: bool) returns (toChar: nat, toByte: nat, width: nat)
      requires Valid() && fromChar <= |chars| && fromByte == Offset(chars, fromChar)
      ensures toChar == M.BackWhile(chars, fromChar, isSpace, space)
      ensures toByte == Offset(chars, toChar) && width == Columns(widths, toChar, fromChar)
    {
      hide EncodeAll, Encode, Sum, Columns, Offset, Measured;
      toChar, toByte, width := fromChar, fromByte, 0;
      NoColumns(widths, fromChar);
      while toChar > 0
        invariant toChar <= fromChar
        invariant M.BackWhile(chars, toChar, isSpace, space) == M.BackWhile(chars, fromChar, isSpace, space)
        invariant toByte == Offset(chars, toChar) && width == Columns(widths, toChar, fromChar)
      {
        EndOrBoundary(chars, toChar);
        OffsetGrows(chars, toChar - 1);
        var prevByte := PrevPos(line, toByte);
        PrevBoundary(chars, toChar, prevByte);
        DecodeAt(chars, toChar - 1);
        var cp, _ := DecodeUtf8(line, prevByte);
        if isSpace(cp) != space {
          break;
        }
        ColumnsSplit(widths, toChar - 1, toChar, fromChar);
        ColumnsStep(widths, toChar - 1, toChar - 1);
        NoColumns(widths, toChar - 1);
        width := width + widths[toChar - 1];
        toChar := toChar - 1;
        toByte := prevByte;
      }
    }

    method SkipForward(fromChar: nat, fromByte: nat, space: bool) returns (toChar: nat, toByte: nat, width: nat)
      requires Valid() && fromChar <= |chars| && fromByte == Offset(chars, fromChar)
      ensures toChar == M.ForwardWhile(chars, fromChar, isSpace, space)
      ensures toByte == Offset(chars, toChar) && width == Columns(widths, fromChar, toChar)
    {
      hide EncodeAll, Encode, Sum, Columns, Offset, Measured;
      toChar, toByte, width := fromChar, fromByte, 0;
      NoColumns(widths, fromChar);
      while toChar < |widths|
        invariant fromChar <= toChar <= |chars|
        invariant M.ForwardWhile(chars, toChar, isSpace, space) == M.ForwardWhile(chars, fromChar, isSpace, space)
        invariant toByte == Offset(chars, toChar) && width == Columns(widths, fromChar, toChar)
      {
        DecodeAt(chars, toChar);
        OffsetStep(chars, toChar);
        var cp, advance := DecodeUtf8(line, toByte);
        if isSpace(cp) != space {
          break;
        }
        ColumnsStep(widths, fromChar, toChar);
        width := width + widths[toChar];
        toChar := toChar + 1;
        toByte := toByte + advance;
      }
    }

    method MoveWordLeft()
      requires Valid()
      modifies this`charPos, this`bytePos, this`column
      ensures Valid() && View() == M.Press(old(View()), M.CtrlLeft, isSpace)
      ensures M.WordBeforeAt(chars, old(charPos), charPos, isSpace)
    {
      hide EncodeAll, Encode, Sum, Columns, Offset, Measured, M.NextWordAt, M.WordBeforeAt, M.ForwardWhile, M.BackWhile, M.Press;
      M.WordKeys(chars, charPos, isSpace);
      M.WordPositions(chars, charPos, isSpace);
      if charPos == 0 {
        return;
      }
      var c1, b1, w1 := SkipBack(charPos, bytePos, true);
      var c2, b2, w2 := SkipBack(c1, b1, false);
      TwoRuns(widths, c2, c1, charPos);
      column := column - (w1 + w2);
      charPos, bytePos := c2, b2;
    }

    method MoveWordRight()
      requires Valid()
      modifies this`charPos, this`bytePos, this`column
      ensures Valid() && View() == M.Press(old(View()), M.CtrlRight, isSpace)
      ensures M.NextWordAt(chars, old(charPos), charPos, isSpace)
    {
      hide EncodeAll, Encode, Sum, Columns, Offset, Measured, M.NextWordAt, M.WordBeforeAt, M.ForwardWhile, M.BackWhile, M.Press;
      M.WordKeys(chars, charPos, isSpace);
      M.WordPositions(chars, charPos, isSpace);
      if charPos >= |widths| {
        return;
      }
      var c1, b1, w1 := SkipForward(charPos, bytePos, true);
      var c2, b2, w2 := SkipForward(c1, b1, false);
      var c3, b3, w3 := SkipForward(c2, b2, true);
      ThreeRuns(widths, charPos, c1, c2, c3);
      column := column + (w1 + w2 + w3);
      charPos, bytePos := c3, b3;
    }

    // -------------------------------------------------------------------------
    // Editing
    // -------------------------------------------------------------------------

    /** Byte `b` is where character `k` starts. */
    ghost predicate StartsAt(k: nat, b: nat)
      reads this`line, this`widths, this`chars
    {
      AreCodes(chars) && line == EncodeAll(chars) && |widths| == |chars| && k <= |chars| && b == Offset(chars, k)
    }

    /** Reprints the line from byte `from`; returns the bytes printed and the columns they take. */
    method RedrawTail(from: nat, first: nat) returns (printed: Bytes, tailWidth: nat)
      requires from <= |line| && first <= |widths|
      modifies this`column
      ensures tailWidth == Columns(widths, first, |widths|) && column == old(column) + tailWidth
      ensures StartsAt(first, from) ==> printed == line[from..]
    {
      hide EncodeAll, Encode, Sum, Columns, Offset, Measured;
      var p := from;
      printed, tailWidth := [], 0;
      NoColumns(widths, first);
      for i := first to |widths|
        invariant from <= p <= |line| && printed == line[from..p]
        invariant StartsAt(first, from) ==> StartsAt(i, p)
        invariant tailWidth == Columns(widths, first, i) && column == old(column) + tailWidth
      {
        var nextP := NextPos(line, p);
        if StartsAt(first, from) {
          BoundaryByte(chars, i);
          NextBoundary(chars, i, nextP);
        }
        ColumnsStep(widths, first, i);
        assert line[from..p] + line[p..nextP] == line[from..nextP];
        printed := printed + line[p..nextP];
        column := column + widths[i];
        tailWidth := tailWidth + widths[i];
        p := nextP;
      }
      OffsetEnds(chars);
    }

    method DeleteAtCursor() returns (printed: Bytes)
      requires Valid()
      modifies this`line, this`widths, this`chars, this`column
      ensures Valid() && View() == M.Press(old(View()), M.Delete, isSpace)
      ensures column == old(column)
      ensures charPos < |old(widths)| ==> printed == Tail(line, bytePos)
    {
      hide EncodeAll, Encode, Sum, Columns, Offset, AreCodes, M.Press, M.At;
      printed := [];
      if charPos >= |widths| {
        PressAtEnds(chars, isSpace);
        return;
      }
      BoundaryByte(chars, charPos);
      var nextPos := NextPos(line, bytePos);
      NextBoundary(chars, charPos, nextPos);
      var w := widths[charPos];
      EraseAt(chars, charPos);
      line := line[..bytePos] + line[nextPos..];
      PressErase(chars, charPos, isSpace);
      ColumnsWithout(widths, charPos);
      MeasuredWithout(widths, chars, charPos, measure);
      widths := Without(widths, charPos);
      chars := Without(chars, charPos);
      var tailWidth;
      printed, tailWidth := RedrawTail(bytePos, charPos);
      column := column + w;
      column := column - (tailWidth + w);
    }

    method Backspace() returns (printed: Bytes)
      requires Valid()
      modifies this
      ensures Valid() && View() == M.Press(old(View()), M.Backspace, isSpace)
      ensures old(charPos) > 0 ==> printed == Tail(line, bytePos)
    {
      hide EncodeAll, Encode, Sum, Columns, Offset, AreCodes, M.Press, M.At;
      printed := [];
      if charPos > 0 {
        var w := widths[charPos - 1];
        column := column - w;
        charPos := charPos - 1;
        EndOrBoundary(chars, charPos + 1);
        OffsetGrows(chars, charPos);
        var prevPos := PrevPos(line, bytePos);
        PrevBoundary(chars, charPos + 1, prevPos);
        EraseAt(chars, charPos);
        line := line[..prevPos] + line[bytePos..];
        bytePos := prevPos;
        PressErase(chars, charPos, isSpace);
        ColumnsWithout(widths, charPos);
        MeasuredWithout(widths, chars, charPos, measure);
        widths := Without(widths, charPos);
        chars := Without(chars, charPos);
        var tailWidth;
        printed, tailWidth := RedrawTail(bytePos, charPos);
        column := column + w;
        column := column - (tailWidth + w);
      } else {
        PressAtEnds(chars, isSpace);
      }
    }

    /** Puts bytes and a width at the cursor, at the end of the line or in front of the rest of it. */
    method Place(newChar: Bytes, realWidth: nat) returns (printed: Bytes)
      requires charPos <= |widths| && bytePos <= |line| && (charPos == |widths| ==> bytePos == |line|)
      modifies this`line, this`widths, this`column
      ensures line == old(line)[..bytePos] + newChar + old(line)[bytePos..]
      ensures widths == With(old(widths), charPos, realWidth) && column == old(column) + realWidth
      ensures StartsAt(charPos + 1, bytePos + |newChar|) ==> printed == line[bytePos..]
    {
      hide EncodeAll, Sum, Columns, Offset, AreCodes;
      if charPos == |widths| {
        line := line + newChar;
        printed := newChar;
        WithEnd(widths, realWidth);
        column := column + realWidth;
        widths := widths + [realWidth];
      } else {
        line := line[..bytePos] + newChar + line[bytePos..];
        column := column + realWidth;
        widths := With(widths, charPos, realWidth);
        var tail, tailWidth := RedrawTail(bytePos + |newChar|, charPos + 1);
        printed := newChar + tail;
        column := column - tailWidth;
      }
    }

    /**
     Types one character. A value past the last code point encodes to no bytes but still gets an
     entry in the list of widths, so the line stays in step exactly for code points.
     */
    method Insert(ch: nat) returns (printed: Bytes)
      requires Valid()
      modifies this
      ensures IsCode(ch) <==> Valid()
      ensures IsCode(ch) ==> View() == M.Press(old(View()), M.Insert(ch), isSpace) && printed == Tail(line, old(bytePos))
      ensures !IsCode(ch) ==> chars == old(chars) && line == old(line) && |widths| == |chars| + 1
    {
      hide EncodeAll, Encode, Sum, Columns, Offset, AreCodes, IsCode, M.Press, M.At, With, Measured;
      var newChar := Encode(ch);
      var realWidth: nat := if measure(ch) < 0 then 0 else measure(ch);
      EndOrBoundary(chars, charPos);
      InsertAt(chars, charPos, ch);
      MeasuredWith(widths, chars, charPos, realWidth, ch, measure);
      ghost var k, cs := charPos, chars;
      if IsCode(ch) {
        chars := With(chars, charPos, ch);
      }
      OffsetEnds(cs);
      printed := Place(newChar, realWidth);
      NothingInserted(old(line), bytePos);
      ColumnsWith(old(widths), charPos, realWidth);
      PressInsert(cs, charPos, ch, isSpace);
      bytePos := bytePos + |newChar|;
      charPos := charPos + 1;
    }

    // -------------------------------------------------------------------------
    // Replacing the line
    // -------------------------------------------------------------------------

    method ClearCurrentLine()
      modifies this`column
      ensures column == old(column)
    {
      var totalWidth := 0;
      for i := 0 to |widths| {
        totalWidth := totalWidth + if widths[i] > 0 then widths[i] else 1;
      }
      if totalWidth > 0 {
        column := column + totalWidth;
        column := column - totalWidth;
      }
    }

    /** Shows another line, with the cursor at its end or behind byte `cursor`. */
    method SetLineContents(newLine: Bytes, cursor: int)
      requires Valid()
      modifies this
      ensures line == newLine && chars == DecodeAll(newLine) && |widths| == |chars|
      ensures Valid() <==> IsText(newLine)
      ensures IsText(newLine) ==> View() == M.At(chars, CursorChar(chars, cursor))
    {
      hide EncodeAll, Encode, Decode, DecodeAll, Sum, Columns, Offset, IsText, Measured;
      MoveToLineStart();
      ClearCurrentLine();
      line := newLine;
      widths := [];
      bytePos, charPos := 0, 0;
      chars := DecodeAll(newLine);
      var backWidth := PrintLine(cursor);
      if cursor >= 0 {
        column := column - backWidth;
      }
      InStepIsText();
    }

    /** Prints the new line, measuring each character; returns the columns printed behind the cursor. */
    method PrintLine(cursor: int) returns (backWidth: nat)
      requires chars == DecodeAll(line) && widths == [] && charPos == bytePos == 0 && column == 0
      modifies this`widths, this`charPos, this`bytePos, this`column
      ensures Measured(widths, chars, measure) && |widths| == |chars| && charPos <= |widths|
      ensures column == Columns(widths, 0, charPos) + backWidth && (cursor < 0 ==> backWidth == 0)
      ensures cursor < 0 ==> charPos == |widths|
      ensures IsText(line) ==> bytePos == Offset(chars, charPos) && charPos == CursorChar(chars, cursor)
    {
      hide EncodeAll, Encode, Decode, DecodeAll, Sum, Columns, Offset, IsText, AreCodes, LastWithin, Measured;
      ghost var done: seq<nat> := [];
      var idx := 0;
      backWidth := 0;
      OffsetEnds(chars);
      NoColumns(widths, 0);
      NothingMeasured(measure);
      assert line[0..] == line;
      while idx < |line|
        invariant idx <= |line|
        invariant Measured(widths, done, measure) && |widths| == |done| && chars == done + DecodeAll(line[idx..])
        invariant charPos <= |widths| && column == Columns(widths, 0, |widths|)
        invariant backWidth == Columns(widths, charPos, |widths|)
        invariant cursor < 0 || idx <= cursor ==> charPos == |widths|
        invariant IsText(line) ==> idx == Offset(chars, |done|) && bytePos == Offset(chars, charPos)
        invariant IsText(line) && cursor >= 0 ==> charPos == LastWithin(chars, cursor, |done|)
      {
        DecodeNext(line, idx);
        ScanStep(line, |done|, idx);
        var cp, advance := DecodeUtf8(line, idx);
        LastWithinStep(chars, cursor, |done|);
        var realWidth: nat := if measure(cp) < 0 then 0 else measure(cp);
        ColumnsAppend(widths, realWidth, 0);
        ColumnsAppend(widths, realWidth, charPos);
        NoColumns(widths + [realWidth], |widths| + 1);
        NoColumns(widths, |widths|);
        MeasuredEnd(widths, done, realWidth, cp, measure);
        widths := widths + [realWidth];
        column := column + realWidth;
        idx := idx + advance;
        done := done + [cp];
        if cursor >= 0 && cursor < idx {
          backWidth := backWidth + realWidth;
        } else {
          charPos := charPos + 1;
          bytePos := idx;
        }
      }
      NothingLeft(line);
      assert done == chars;
      ColumnsSplit(widths, 0, charPos, |widths|);
      NoColumns(widths, |widths|);
    }

    lemma InStepIsText()
      ensures InStep() && chars == DecodeAll(line) ==> IsText(line)
      ensures IsText(line) ==> AreCodes(DecodeAll(line)) && EncodeAll(DecodeAll(line)) == line
    {}
  }

  lemma DecodeNext(s: Bytes, idx: nat)
    requires idx < |s|
    ensures DecodeAll(s[idx..]) == [Decode(s, idx).0] + DecodeAll(s[idx + Decode(s, idx).1..])
  {
    DecodeFrom(s, idx);
    hide Decode;
    assert s[idx..][Decode(s, idx).1..] == s[idx + Decode(s, idx).1..];
  }

  lemma NothingLeft(s: Bytes)
    ensures DecodeAll(s[|s|..]) == []
  {}

  lemma ScanStep(s: Bytes, i: nat, idx: nat)
    requires idx < |s| && i < |DecodeAll(s)| && (IsText(s) ==> idx == Offset(DecodeAll(s), i))
    ensures IsText(s) ==> idx + Decode(s, idx).1 == Offset(DecodeAll(s), i + 1)
  {
    hide EncodeAll, DecodeAll, Decode, Encode;
    if IsText(s) {
      DecodeAt(DecodeAll(s), i);
      OffsetStep(DecodeAll(s), i);
    }
  }

  lemma LastWithinStep(cs: seq<nat>, cursor: int, i: nat)
    requires i < |cs|
    ensures LastWithin(cs, cursor, i + 1) == if Offset(cs, i + 1) <= cursor then i + 1 else LastWithin(cs, cursor, i)
    ensures LastWithin(cs, cursor, 0) == 0
    ensures Offset(cs, i) <= cursor ==> LastWithin(cs, cursor, i) == i
  {}

  lemma ColumnsAppend(ws: seq<nat>, w: nat, i: nat)
    requires i <= |ws|
    ensures Columns(ws + [w], i, |ws| + 1) == Columns(ws, i, |ws|) + w
  {
    ColumnsStep(ws + [w], i, |ws|);
    ColumnsOfPrefix(ws + [w], ws, i, |ws|);
  }

  lemma OffsetGrows(cs: seq<nat>, k: nat)
    requires AreCodes(cs) && k < |cs|
    ensures Offset(cs, k) < Offset(cs, k + 1) <= |EncodeAll(cs)|
  {
    Around(cs, k);
    assert IsCode(cs[k]);
  }

  function Without<T>(s: seq<T>, k: nat): (r: seq<T>)
    requires k < |s|
    ensures |r| == |s| - 1
  {
    s[..k] + s[k + 1..]
  }

  function With<T>(s: seq<T>, k: nat, x: T): (r: seq<T>)
    requires k <= |s|
    ensures |r| == |s| + 1
  {
    s[..k] + [x] + s[k..]
  }

  lemma WithEnd<T>(s: seq<T>, x: T)
    ensures With(s, |s|, x) == s + [x]
  {}

  lemma ColumnsWithout(ws: seq<nat>, k: nat)
    requires k < |ws|
    ensures Columns(Without(ws, k), 0, k) == Columns(ws, 0, k) == Columns(ws, 0, k + 1) - ws[k]
  {
    ColumnsStep(ws, 0, k);
    ColumnsOfPrefix(Without(ws, k), ws, 0, k);
  }

  lemma ColumnsWith(ws: seq<nat>, k: nat, w: nat)
    requires k <= |ws|
    ensures Columns(With(ws, k, w), 0, k + 1) == Columns(ws, 0, k) + w
  {
    ColumnsStep(With(ws, k, w), 0, k);
    ColumnsOfPrefix(With(ws, k, w), ws, 0, k);
  }

  lemma PressErase(cs: seq<nat>, k: nat, isSpace: nat -> bool)
    requires k < |cs|
    ensures M.Press(M.At(cs, k), M.Delete, isSpace) == M.At(Without(cs, k), k)
    ensures M.Press(M.At(cs, k + 1), M.Backspace, isSpace) == M.At(Without(cs, k), k)
  {
    assert Without(cs, k)[..k] == cs[..k] && Without(cs, k)[k..] == cs[k + 1..];
  }

  lemma PressInsert(cs: seq<nat>, k: nat, c: nat, isSpace: nat -> bool)
    requires k <= |cs|
    ensures M.Press(M.At(cs, k), M.Insert(c), isSpace) == M.At(With(cs, k, c), k + 1)
  {
    assert With(cs, k, c)[..k + 1] == cs[..k] + [c] && With(cs, k, c)[k + 1..] == cs[k..];
  }

  lemma PressAtEnds(cs: seq<nat>, isSpace: nat -> bool)
    ensures M.Press(M.At(cs, |cs|), M.Delete, isSpace) == M.At(cs, |cs|)
    ensures M.Press(M.At(cs, 0), M.Backspace, isSpace) == M.At(cs, 0)
  {}

  /** Removing a character's bytes removes the character. */
  lemma EraseAt(cs: seq<nat>, k: nat)
    requires AreCodes(cs) && k < |cs|
    ensures Offset(cs, k + 1) <= |EncodeAll(cs)| && Offset(cs, k) <= |EncodeAll(cs)|
    ensures EncodeAll(Without(cs, k)) == EncodeAll(cs)[..Offset(cs, k)] + EncodeAll(cs)[Offset(cs, k + 1)..]
    ensures AreCodes(Without(cs, k)) && Offset(Without(cs, k), k) == Offset(cs, k)
  {
    hide EncodeAll, Encode, AreCodes;
    Around(cs, k);
    EncodeConcat(cs[..k], cs[k + 1..]);
    WithoutOffset(cs, k);
    CutMiddle(EncodeAll(cs[..k]), Encode(cs[k]), EncodeAll(cs[k + 1..]));
  }

  lemma WithoutOffset(cs: seq<nat>, k: nat)
    requires AreCodes(cs) && k < |cs|
    ensures AreCodes(Without(cs, k)) && Without(cs, k)[..k] == cs[..k]
  {}

  lemma CutMiddle(x: Bytes, y: Bytes, z: Bytes)
    ensures (x + y + z)[..|x|] == x && (x + y + z)[|x| + |y|..] == z
  {}

  lemma SplitBytes(x: Bytes, y: Bytes)
    ensures (x + y)[..|x|] == x && (x + y)[|x|..] == y
  {}

  lemma EncodeWith(a: seq<nat>, c: nat, b: seq<nat>)
    ensures EncodeAll(a + [c] + b) == EncodeAll(a) + Encode(c) + EncodeAll(b)
    ensures EncodeAll(a + b) == EncodeAll(a) + EncodeAll(b)
    ensures |EncodeAll(a + [c])| == |EncodeAll(a)| + |Encode(c)|
  {
    hide EncodeAll, Encode;
    EncodeConcat(a, b);
    EncodeConcat(a + [c], b);
    EncodeConcat(a, [c]);
    EncodeOne(c);
  }

  lemma WithOffsets(cs: seq<nat>, k: nat, c: nat)
    requires AreCodes(cs) && k <= |cs|
    ensures IsCode(c) ==> AreCodes(With(cs, k, c))
    ensures With(cs, k, c)[..k] == cs[..k] && With(cs, k, c)[..k + 1] == cs[..k] + [c]
  {}

  /** Inserting a character's bytes inserts the character, and nothing for a value out of range. */
  lemma InsertAt(cs: seq<nat>, k: nat, c: nat)
    requires AreCodes(cs) && k <= |cs|
    ensures Offset(cs, k) <= |EncodeAll(cs)|
    ensures EncodeAll(With(cs, k, c)) == EncodeAll(cs)[..Offset(cs, k)] + Encode(c) + EncodeAll(cs)[Offset(cs, k)..]
    ensures IsCode(c) ==> AreCodes(With(cs, k, c))
    ensures Offset(With(cs, k, c), k) == Offset(cs, k)
    ensures Offset(With(cs, k, c), k + 1) == Offset(cs, k) + |Encode(c)|
  {
    hide EncodeAll, Encode, AreCodes;
    var a, b := cs[..k], cs[k..];
    assert cs == a + b;
    WithOffsets(cs, k, c);
    EncodeWith(a, c, b);
    SplitBytes(EncodeAll(a), EncodeAll(b));
  }

  lemma NothingInserted(s: Bytes, o: nat)
    requires o <= |s|
    ensures s[..o] + [] + s[o..] == s
  {}
}
