/**
 The marker-aware diff of chat-auto-parser-helpers.cpp: two texts are split into a common prefix,
 a common suffix and what differs, with the borders on markers.
 */
module MarkerDiff {
  import opened MarkerSegments

  datatype Split = Split(prefix: string, suffix: string, left: string, right: string)

  /** Both lists of segments with the inclusive ranges still to be matched. */
  datatype Window = Window(
    ls: nat, le: nat, rs: nat, re: nat,
    prefix: string, suffix: string,
    leftDone: bool, rightDone: bool)

  predicate InRange(L: seq<Segment>, R: seq<Segment>, w: Window) {
    w.ls <= w.le < |L| && w.rs <= w.re < |R|
  }

  // ---------------------------------------------------------------------------
  // Matching segments from both ends
  // ---------------------------------------------------------------------------

  function MatchFront(L: seq<Segment>, R: seq<Segment>, w: Window): Window
    requires InRange(L, R, w)
  {
    if L[w.ls] == R[w.rs] then w.(prefix := w.prefix + L[w.ls].value, ls := w.ls + 1, rs := w.rs + 1) else w
  }

  function MatchBack(L: seq<Segment>, R: seq<Segment>, w: Window): Window
    requires InRange(L, R, w)
  {
    if L[w.le] != R[w.re] then w
    else
      var v := w.(suffix := L[w.le].value + w.suffix);
      var v := if w.ls != w.le then v.(le := w.le - 1) else v.(leftDone := true);
      if w.rs != w.re then v.(re := w.re - 1) else v.(rightDone := true)
  }

  predicate Testing(w: Window) { w.ls != w.le && w.rs != w.re }

  predicate Advances(L: seq<Segment>, R: seq<Segment>, w: Window)
    requires InRange(L, R, w) && Testing(w)
  {
    L[w.ls] == R[w.rs] || (var v := MatchFront(L, R, w); L[v.le] == R[v.re])
  }

  /** The window when the loop stops. */
  function Loop(L: seq<Segment>, R: seq<Segment>, w: Window): (r: Window)
    requires InRange(L, R, w)
    ensures InRange(L, R, r)
    decreases w.le - w.ls + w.re - w.rs
  {
    if !Testing(w) || !Advances(L, R, w) then w
    else Loop(L, R, MatchBack(L, R, MatchFront(L, R, w)))
  }

  /** One side is down to a single segment: it may still match an end of the other side. */
  function AfterLoop(L: seq<Segment>, R: seq<Segment>, w: Window): (r: Window)
    requires InRange(L, R, w)
    ensures InRange(L, R, r)
  {
    if w.ls == w.le && w.rs != w.re then
      if L[w.ls] == R[w.re] then w.(suffix := R[w.re].value + w.suffix, re := w.re - 1, leftDone := true)
      else if L[w.ls] == R[w.rs] then w.(prefix := w.prefix + R[w.rs].value, rs := w.rs + 1, leftDone := true)
      else w
    else if w.rs == w.re && w.ls != w.le then
      if L[w.le] == R[w.rs] then w.(suffix := L[w.le].value + w.suffix, le := w.le - 1, rightDone := true)
      else if L[w.ls] == R[w.rs] then w.(prefix := w.prefix + L[w.ls].value, ls := w.ls + 1, rightDone := true)
      else w
    else if w.ls == w.le && w.rs == w.re && L[w.ls] == R[w.rs] && L[w.ls].kind == MarkerKind then
      w.(prefix := w.prefix + R[w.rs].value, leftDone := true, rightDone := true)
    else w
  }

  // ---------------------------------------------------------------------------
  // Matching characters in what remains
  // ---------------------------------------------------------------------------

  predicate SharePrefix(a: string, b: string, n: nat) { n <= |a| && n <= |b| && a[..n] == b[..n] }

  predicate ShareSuffix(a: string, b: string, n: nat) {
    n <= |a| && n <= |b| && a[|a| - n..] == b[|b| - n..]
  }

  lemma SharePrefixStep(a: string, b: string, k: nat)
    requires SharePrefix(a, b, k) && k < |a| && k < |b| && a[k] == b[k]
    ensures SharePrefix(a, b, k + 1)
  {
    assert a[..k + 1] == a[..k] + [a[k]] && b[..k + 1] == b[..k] + [b[k]];
  }

  lemma ShareSuffixStep(a: string, b: string, k: nat)
    requires ShareSuffix(a, b, k) && k < |a| && k < |b| && a[|a| - 1 - k] == b[|b| - 1 - k]
    ensures ShareSuffix(a, b, k + 1)
  {
    var i, j := |a| - 1 - k, |b| - 1 - k;
    assert a[i..] == [a[i]] + a[i + 1..] && b[j..] == [b[j]] + b[j + 1..];
  }

  /** Length of the longest common prefix beyond `k` characters already known to agree. */
  function CommonPrefix(a: string, b: string, k: nat): (n: nat)
    requires SharePrefix(a, b, k)
    ensures SharePrefix(a, b, n) && n >= k
    ensures n < |a| && n < |b| ==> a[n] != b[n]
    decreases |a| - k
  {
    if k < |a| && k < |b| && a[k] == b[k] then
      SharePrefixStep(a, b, k);
      CommonPrefix(a, b, k + 1)
    else k
  }

  function CommonSuffix(a: string, b: string, k: nat): (n: nat)
    requires ShareSuffix(a, b, k)
    ensures ShareSuffix(a, b, n) && n >= k
    ensures n < |a| && n < |b| ==> a[|a| - 1 - n] != b[|b| - 1 - n]
    decreases |a| - k
  {
    if k < |a| && k < |b| && a[|a| - 1 - k] == b[|b| - 1 - k] then
      ShareSuffixStep(a, b, k);
      CommonSuffix(a, b, k + 1)
    else k
  }

  method CommonPrefixLen(left: string, right: string) returns (prefixLen: nat)
    ensures prefixLen == CommonPrefix(left, right, 0)
  {
    prefixLen := 0;
    var minLen := if |left| < |right| then |left| else |right|;
    while prefixLen < minLen && left[prefixLen] == right[prefixLen]
      invariant prefixLen <= minLen && SharePrefix(left, right, prefixLen)
      invariant CommonPrefix(left, right, prefixLen) == CommonPrefix(left, right, 0)
    {
      SharePrefixStep(left, right, prefixLen);
      hide SharePrefix;
      prefixLen := prefixLen + 1;
    }
  }

  method CommonSuffixLen(left: string, right: string) returns (suffixLen: nat)
    ensures suffixLen == CommonSuffix(left, right, 0)
  {
    suffixLen := 0;
    var minLen := if |left| < |right| then |left| else |right|;
    NoSuffix(left, right);
    hide ShareSuffix;
    while suffixLen < minLen && left[|left| - 1 - suffixLen] == right[|right| - 1 - suffixLen]
      invariant suffixLen <= minLen && ShareSuffix(left, right, suffixLen)
      invariant CommonSuffix(left, right, suffixLen) == CommonSuffix(left, right, 0)
    {
      ShareSuffixStep(left, right, suffixLen);
      suffixLen := suffixLen + 1;
    }
  }

  lemma NoSuffix(a: string, b: string)
    ensures ShareSuffix(a, b, 0)
  {
    assert a[|a|..] == "" && b[|b|..] == "";
  }

  /** Segments `s` to `e` (inclusive unless the last one has been consumed), joined. */
  function Remainder(gs: seq<Segment>, s: nat, e: nat, done: bool): string
    requires s <= e < |gs|
  {
    Join(gs[s..if done then e else e + 1])
  }

  function SuffixLen(texts: bool, a: string, b: string): (n: nat)
    ensures n <= |a| && n <= |b| && a[|a| - n..] == b[|b| - n..]
  {
    NoSuffix(a, b);
    if texts then CommonSuffix(a, b, 0) else 0
  }

  function PrefixLen(texts: bool, a: string, b: string): (n: nat)
    ensures n <= |a| && n <= |b| && a[..n] == b[..n]
  {
    if texts then CommonPrefix(a, b, 0) else 0
  }

  predicate BothTexts(a: Segment, b: Segment) { a.kind == TextKind && b.kind == TextKind }

  /** The remainders without the text they share at either end, prefix and suffix kept apart. */
  function TrimTo(w: Window, remL: string, remR: string, sufTexts: bool, preTexts: bool): Split {
    var sl := SuffixLen(sufTexts, remL, remR);
    var a, b := remL[..|remL| - sl], remR[..|remR| - sl];
    var pl := PrefixLen(preTexts, a, b);
    Split(w.prefix + remL[..pl], remL[|remL| - sl..] + w.suffix, a[pl..], b[pl..])
  }

  /** Texts at the borders of the windows are compared character by character. */
  function Trim(L: seq<Segment>, R: seq<Segment>, w: Window): Split
    requires InRange(L, R, w)
  {
    TrimTo(w, Remainder(L, w.ls, w.le, w.leftDone), Remainder(R, w.rs, w.re, w.rightDone),
      BothTexts(L[w.le], R[w.re]), BothTexts(L[w.ls], R[w.rs]))
  }

  function Tidy(left: string, right: string, d: Split): Split {
    var d := if d.left == "" && d.right == "" then d.(prefix := left, suffix := "") else d;
    if d.left == "" && d.right != "" && left <= right then
      Split(left, "", "", right[|left|..])
    else d
  }

  function WholeWindow(L: seq<Segment>, R: seq<Segment>): Window
    requires L != [] && R != []
  {
    Window(0, |L| - 1, 0, |R| - 1, "", "", false, false)
  }

  function DiffSplit(left: string, right: string): Split {
    var L, R := Segments(left), Segments(right);
    if L == [] then Split("", "", "", right)
    else if R == [] then Split("", "", left, "")
    else Tidy(left, right, Trim(L, R, AfterLoop(L, R, Loop(L, R, WholeWindow(L, R)))))
  }

  method Accumulate(gs: seq<Segment>, from: nat, to: nat) returns (r: string)
    requires from <= to <= |gs|
    ensures r == Join(gs[from..to])
  {
    r := "";
    for i := from to to
      invariant r == Join(gs[from..i])
    {
      assert gs[from..i + 1] == gs[from..i] + [gs[i]];
      JoinConcat(gs[from..i], [gs[i]]);
      r := r + gs[i].value;
    }
  }

  lemma LoopStep(L: seq<Segment>, R: seq<Segment>, w: Window)
    requires InRange(L, R, w)
    ensures Loop(L, R, w) ==
              if Testing(w) && Advances(L, R, w) then Loop(L, R, MatchBack(L, R, MatchFront(L, R, w))) else w
  {}

  method MatchFirst(L: seq<Segment>, R: seq<Segment>, w: Window) returns (r: Window, advanced: bool)
    requires InRange(L, R, w)
    ensures r == MatchFront(L, R, w) && (advanced <==> L[w.ls] == R[w.rs])
  {
    r, advanced := w, false;
    if L[w.ls] == R[w.rs] {
      r := r.(prefix := r.prefix + L[w.ls].value);
      r := r.(ls := r.ls + 1, rs := r.rs + 1);
      advanced := true;
    }
  }

  method MatchLast(L: seq<Segment>, R: seq<Segment>, w: Window) returns (r: Window, advanced: bool)
    requires InRange(L, R, w)
    ensures r == MatchBack(L, R, w) && (advanced <==> L[w.le] == R[w.re])
  {
    r, advanced := w, false;
    if L[w.le] == R[w.re] {
      r := r.(suffix := L[w.le].value + r.suffix);
      if r.ls != r.le { r := r.(le := r.le - 1); } else { r := r.(leftDone := true); }
      if r.rs != r.re { r := r.(re := r.re - 1); } else { r := r.(rightDone := true); }
      advanced := true;
    }
  }

  method MatchEnds(L: seq<Segment>, R: seq<Segment>) returns (w: Window)
    requires L != [] && R != []
    ensures w == Loop(L, R, WholeWindow(L, R))
  {
    hide Loop, MatchBack;
    w := WholeWindow(L, R);
    while w.ls != w.le && w.rs != w.re
      invariant InRange(L, R, w)
      invariant Loop(L, R, w) == Loop(L, R, WholeWindow(L, R))
      decreases w.le - w.ls + w.re - w.rs
    {
      LoopStep(L, R, w);
      var f, advancedFront := MatchFirst(L, R, w);
      var b, advancedBack := MatchLast(L, R, f);
      if !advancedFront && !advancedBack {
        break;
      }
      BackInRange(L, R, w);
      w := b;
    }
    LoopStep(L, R, w);
  }

  lemma BackInRange(L: seq<Segment>, R: seq<Segment>, w: Window)
    requires InRange(L, R, w) && Testing(w) && Advances(L, R, w)
    ensures var b := MatchBack(L, R, MatchFront(L, R, w));
            InRange(L, R, b) && b.le - b.ls + b.re - b.rs < w.le - w.ls + w.re - w.rs
  {}

  method MatchRest(L: seq<Segment>, R: seq<Segment>, w: Window) returns (r: Window)
    requires InRange(L, R, w)
    ensures r == AfterLoop(L, R, w)
  {
    var Window(ls, le, rs, re, prefix, suffix, leftDone, rightDone) := w;
    if ls == le && rs != re {
      if L[ls] == R[re] {
        suffix := R[re].value + suffix;
        re := re - 1;
        leftDone := true;
      } else if L[ls] == R[rs] {
        prefix := prefix + R[rs].value;
        rs := rs + 1;
        leftDone := true;
      }
    } else if rs == re && ls != le {
      if L[le] == R[rs] {
        suffix := L[le].value + suffix;
        le := le - 1;
        rightDone := true;
      } else if L[ls] == R[rs] {
        prefix := prefix + L[ls].value;
        ls := ls + 1;
        rightDone := true;
      }
    } else if ls == le && rs == re && L[ls] == R[rs] && L[ls].kind == MarkerKind {
      prefix := prefix + R[rs].value;
      leftDone, rightDone := true, true;
    }
    r := Window(ls, le, rs, re, prefix, suffix, leftDone, rightDone);
  }

  method TextSuffixLen(texts: bool, a: string, b: string) returns (n: nat)
    ensures n == SuffixLen(texts, a, b)
  {
    n := 0;
    if texts {
      n := CommonSuffixLen(a, b);
    }
  }

  method TextPrefixLen(texts: bool, a: string, b: string) returns (n: nat)
    ensures n == PrefixLen(texts, a, b)
  {
    n := 0;
    if texts {
      n := CommonPrefixLen(a, b);
    }
  }

  method TrimRemainders(w: Window, remL: string, remR: string, sufTexts: bool, preTexts: bool) returns (result: Split)
    ensures result == TrimTo(w, remL, remR, sufTexts, preTexts)
  {
    hide SuffixLen, PrefixLen;
    var suffixLen := TextSuffixLen(sufTexts, remL, remR);
    // the prefix is looked for in front of the suffix only
    var a, b := remL[..|remL| - suffixLen], remR[..|remR| - suffixLen];
    var prefixLen := TextPrefixLen(preTexts, a, b);
    result := Split(w.prefix + remL[..prefixLen], remL[|remL| - suffixLen..] + w.suffix, a[prefixLen..], b[prefixLen..]);
  }

  method TrimTexts(L: seq<Segment>, R: seq<Segment>, w: Window) returns (result: Split)
    requires InRange(L, R, w)
    ensures result == Trim(L, R, w)
  {
    hide TrimTo, Join;
    var remL := Accumulate(L, w.ls, if w.leftDone then w.le else w.le + 1);
    var remR := Accumulate(R, w.rs, if w.rightDone then w.re else w.re + 1);
    result := TrimRemainders(w, remL, remR, BothTexts(L[w.le], R[w.re]), BothTexts(L[w.ls], R[w.rs]));
  }

  lemma PlainBorders(left: string, right: string)
    ensures NoMarkers(left) && NoMarkers(right) ==>
              var d := DiffSplit(left, right); FirstsDiffer(d.left, d.right) && LastsDiffer(d.left, d.right)
  {
    hide DiffSplit, NoMarkers, FirstsDiffer, LastsDiffer;
    if NoMarkers(left) && NoMarkers(right) {
      PlainTexts(left, right);
    }
  }

  method CalculateDiffSplit(left: string, right: string) returns (result: Split)
    ensures NoMarkers(left) && NoMarkers(right) ==>
              FirstsDiffer(result.left, result.right) && LastsDiffer(result.left, result.right)
    ensures result == DiffSplit(left, right)
  {
    hide Segments, Loop, AfterLoop, Trim, NoMarkers, FirstsDiffer, LastsDiffer;
    PlainBorders(left, right);
    result := Split("", "", "", "");
    var L := SegmentizeMarkers(left);
    var R := SegmentizeMarkers(right);
    if L == [] {
      return result.(right := right);
    }
    if R == [] {
      return result.(left := left);
    }
    var w := MatchEnds(L, R);
    w := MatchRest(L, R, w);
    result := TrimTexts(L, R, w);
    if result.left == "" && result.right == "" {
      result := result.(prefix := left, suffix := "");
    }
    if result.left == "" && result.right != "" && |left| <= |right| && right[..|left|] == left {
      result := Split(left, "", "", right[|left|..]);
    }
  }

  // ---------------------------------------------------------------------------
  // When the split rebuilds both texts
  // ---------------------------------------------------------------------------

  predicate RebuildsLeft(left: string, d: Split) { d.prefix + d.left + d.suffix == left }

  predicate RebuildsRight(right: string, d: Split) { d.prefix + d.right + d.suffix == right }

  /** What the window says about one side adds up to that side's text. */
  predicate Balanced(text: string, gs: seq<Segment>, s: nat, e: nat, done: bool, w: Window) {
    && s <= e < |gs|
    && (done ==> s == e)
    && w.prefix + Remainder(gs, s, e, done) + w.suffix == text
  }

  predicate BalancedLeft(left: string, L: seq<Segment>, w: Window) {
    Balanced(left, L, w.ls, w.le, w.leftDone, w)
  }

  predicate BalancedRight(right: string, R: seq<Segment>, w: Window) {
    Balanced(right, R, w.rs, w.re, w.rightDone, w)
  }

  lemma JoinFront(gs: seq<Segment>, s: nat, e: nat)
    requires s < e <= |gs|
    ensures Join(gs[s..e]) == gs[s].value + Join(gs[s + 1..e])
  {
    assert gs[s..e][1..] == gs[s + 1..e];
  }

  lemma JoinBack(gs: seq<Segment>, s: nat, e: nat)
    requires s <= e < |gs|
    ensures Join(gs[s..e + 1]) == Join(gs[s..e]) + gs[e].value
  {
    assert gs[s..e + 1] == gs[s..e] + [gs[e]];
    JoinConcat(gs[s..e], [gs[e]]);
    assert Join([gs[e]]) == gs[e].value + Join([]);
  }

  lemma EmptyJoin(gs: seq<Segment>, s: nat)
    requires s <= |gs|
    ensures Join(gs[s..s]) == ""
  {}

  /** One side after its first segment has been moved to the prefix. */
  lemma FrontMoves(text: string, gs: seq<Segment>, s: nat, e: nat, w: Window, v: Window)
    requires Balanced(text, gs, s, e, false, w) && s < e
    requires v.prefix == w.prefix + gs[s].value && v.suffix == w.suffix
    ensures Balanced(text, gs, s + 1, e, false, v)
  {
    hide Join;
    JoinFront(gs, s, e + 1);
    assert v.prefix + Join(gs[s + 1..e + 1]) == w.prefix + Join(gs[s..e + 1]);
  }

  /** One side after its last segment has been moved to the suffix. */
  lemma BackMoves(text: string, gs: seq<Segment>, s: nat, e: nat, w: Window, v: Window)
    requires Balanced(text, gs, s, e, false, w)
    requires v.suffix == gs[e].value + w.suffix && v.prefix == w.prefix
    ensures s < e ==> Balanced(text, gs, s, e - 1, false, v)
    ensures s == e ==> Balanced(text, gs, s, e, true, v)
  {
    hide Join;
    JoinBack(gs, s, e);
    var x := Join(gs[s..e]);
    assert v.prefix + x + v.suffix == w.prefix + (x + gs[e].value) + w.suffix;
  }

  /** The last remaining segment has been moved to the prefix. */
  lemma OnlyMoves(text: string, gs: seq<Segment>, s: nat, w: Window, v: Window)
    requires Balanced(text, gs, s, s, false, w)
    requires v.prefix == w.prefix + gs[s].value && v.suffix == w.suffix
    ensures Balanced(text, gs, s, s, true, v)
  {
    JoinBack(gs, s, s);
    EmptyJoin(gs, s);
    hide Join;
    assert v.prefix + "" + v.suffix == w.prefix + gs[s].value + w.suffix;
  }

  lemma LoopKeepsBalance(left: string, right: string, L: seq<Segment>, R: seq<Segment>, w: Window)
    requires InRange(L, R, w) && Testing(w)
    requires BalancedLeft(left, L, w) && BalancedRight(right, R, w) && !w.leftDone && !w.rightDone
    ensures var f := MatchFront(L, R, w);
            && InRange(L, R, f) && !f.leftDone && !f.rightDone
            && BalancedLeft(left, L, f) && BalancedRight(right, R, f)
            && BalancedLeft(left, L, MatchBack(L, R, f)) && BalancedRight(right, R, MatchBack(L, R, f))
  {
    hide Join, Balanced;
    var f := MatchFront(L, R, w);
    if L[w.ls] == R[w.rs] {
      FrontMoves(left, L, w.ls, w.le, w, f);
      FrontMoves(right, R, w.rs, w.re, w, f);
    }
    if L[f.le] == R[f.re] {
      var b := MatchBack(L, R, f);
      BackMoves(left, L, f.ls, f.le, f, b);
      BackMoves(right, R, f.rs, f.re, f, b);
    }
  }

  /** Up to the end of the loop both sides stay balanced, and a flagged side is down to one segment. */
  lemma {:induction false} LoopIsBalanced(left: string, right: string, L: seq<Segment>, R: seq<Segment>, w: Window)
    requires InRange(L, R, w)
    requires BalancedLeft(left, L, w) && BalancedRight(right, R, w)
    requires w.leftDone || w.rightDone ==> !Testing(w)
    ensures var r := Loop(L, R, w); BalancedLeft(left, L, r) && BalancedRight(right, R, r)
    decreases w.le - w.ls + w.re - w.rs
  {
    hide Balanced, MatchFront, MatchBack;
    if Testing(w) && Advances(L, R, w) {
      LoopKeepsBalance(left, right, L, R, w);
      var b := MatchBack(L, R, MatchFront(L, R, w));
      StopsWhenDone(left, right, L, R, w);
      LoopIsBalanced(left, right, L, R, b);
    }
  }

  lemma StopsWhenDone(left: string, right: string, L: seq<Segment>, R: seq<Segment>, w: Window)
    requires InRange(L, R, w) && Testing(w) && !w.leftDone && !w.rightDone && Advances(L, R, w)
    ensures var b := MatchBack(L, R, MatchFront(L, R, w));
            && InRange(L, R, b)
            && (b.leftDone || b.rightDone ==> !Testing(b))
            && b.le - b.ls + b.re - b.rs < w.le - w.ls + w.re - w.rs
  {}

  // The step after the loop.

  /** Which segment the step after the loop would match, if any. */
  predicate Rematches(L: seq<Segment>, R: seq<Segment>, w: Window)
    requires InRange(L, R, w)
  {
    if w.ls == w.le && w.rs != w.re then L[w.ls] == R[w.re] || L[w.ls] == R[w.rs]
    else if w.rs == w.re && w.ls != w.le then L[w.le] == R[w.rs] || L[w.ls] == R[w.rs]
    else w.ls == w.le && w.rs == w.re && L[w.ls] == R[w.rs] && L[w.ls].kind == MarkerKind
  }

  /** The step after the loop matches a segment that the loop has already consumed. */
  predicate Collides(L: seq<Segment>, R: seq<Segment>, w: Window)
    requires InRange(L, R, w)
  {
    w.leftDone != w.rightDone && Rematches(L, R, w)
  }

  lemma AfterLoopKeepsBalance(left: string, right: string, L: seq<Segment>, R: seq<Segment>, w: Window)
    requires InRange(L, R, w) && BalancedLeft(left, L, w) && BalancedRight(right, R, w)
    requires !w.leftDone && !w.rightDone
    ensures var r := AfterLoop(L, R, w); BalancedLeft(left, L, r) && BalancedRight(right, R, r)
  {
    hide Balanced;
    var r := AfterLoop(L, R, w);
    if w.ls == w.le && w.rs != w.re {
      if L[w.ls] == R[w.re] {
        BackMoves(left, L, w.ls, w.le, w, r);
        BackMoves(right, R, w.rs, w.re, w, r);
      } else if L[w.ls] == R[w.rs] {
        OnlyMoves(left, L, w.ls, w, r);
        FrontMoves(right, R, w.rs, w.re, w, r);
      }
    } else if w.rs == w.re && w.ls != w.le {
      if L[w.le] == R[w.rs] {
        BackMoves(left, L, w.ls, w.le, w, r);
        BackMoves(right, R, w.rs, w.re, w, r);
      } else if L[w.ls] == R[w.rs] {
        FrontMoves(left, L, w.ls, w.le, w, r);
        OnlyMoves(right, R, w.rs, w, r);
      }
    } else if w.ls == w.le && w.rs == w.re && L[w.ls] == R[w.rs] {
      OnlyMoves(left, L, w.ls, w, w.(prefix := w.prefix + L[w.ls].value));
      OnlyMoves(right, R, w.rs, w, w.(prefix := w.prefix + L[w.ls].value));
      if L[w.ls].kind == MarkerKind {
        SameTexts(left, L, w.ls, w.le, w.(prefix := w.prefix + L[w.ls].value), r);
        SameTexts(right, R, w.rs, w.re, w.(prefix := w.prefix + L[w.ls].value), r);
      }
    }
  }

  lemma SameTexts(text: string, gs: seq<Segment>, s: nat, e: nat, w: Window, v: Window)
    requires w.prefix == v.prefix && w.suffix == v.suffix
    ensures forall done :: Balanced(text, gs, s, e, done, w) ==> Balanced(text, gs, s, e, done, v)
  {}

  /** Trimming and tidying keep balanced sides balanced. */
  lemma TrimKeepsBalance(left: string, right: string, L: seq<Segment>, R: seq<Segment>, w: Window)
    requires InRange(L, R, w)
    ensures BalancedLeft(left, L, w) ==> RebuildsLeft(left, Trim(L, R, w))
    ensures BalancedRight(right, R, w) ==> RebuildsRight(right, Trim(L, R, w))
  {
    hide Remainder;
    TrimToRebuilds(w, Remainder(L, w.ls, w.le, w.leftDone), Remainder(R, w.rs, w.re, w.rightDone),
      BothTexts(L[w.le], R[w.re]), BothTexts(L[w.ls], R[w.rs]));
  }

  lemma TrimToRebuilds(w: Window, remL: string, remR: string, sufTexts: bool, preTexts: bool)
    ensures var d := TrimTo(w, remL, remR, sufTexts, preTexts);
            && d.prefix + d.left + d.suffix == w.prefix + remL + w.suffix
            && d.prefix + d.right + d.suffix == w.prefix + remR + w.suffix
  {
    hide SuffixLen, PrefixLen;
    var sl := SuffixLen(sufTexts, remL, remR);
    var a, b := remL[..|remL| - sl], remR[..|remR| - sl];
    var pl := PrefixLen(preTexts, a, b);
    var t := remL[|remL| - sl..];
    assert remL[..pl] == a[..pl] && remR[..pl] == b[..pl];
    assert remL == a + t && remR == b + t;
    Pieces(w.prefix, a, t, w.suffix, pl);
    Pieces(w.prefix, b, t, w.suffix, pl);
  }

  lemma Pieces(p: string, a: string, t: string, s: string, pl: nat)
    requires pl <= |a|
    ensures (p + a[..pl]) + a[pl..] + (t + s) == p + (a + t) + s
  {
    assert a == a[..pl] + a[pl..];
  }

  lemma TidyKeeps(left: string, right: string, d: Split)
    requires RebuildsLeft(left, d) && RebuildsRight(right, d)
    ensures RebuildsLeft(left, Tidy(left, right, d)) && RebuildsRight(right, Tidy(left, right, d))
  {
    assert left + "" + "" == left && right + "" + "" == right;
    if d.left == "" && d.right == "" {
      assert left == right;
    }
  }

  predicate Rebuilds(left: string, right: string, d: Split) {
    RebuildsLeft(left, d) && RebuildsRight(right, d)
  }

  lemma NoCollisionRebuilds(left: string, right: string, L: seq<Segment>, R: seq<Segment>, w: Window)
    requires InRange(L, R, w) && BalancedLeft(left, L, w) && BalancedRight(right, R, w)
    requires !Collides(L, R, w)
    ensures Rebuilds(left, right, Tidy(left, right, Trim(L, R, AfterLoop(L, R, w))))
  {
    hide Trim, Tidy, Remainder;
    var r := AfterLoop(L, R, w);
    if w.leftDone && w.rightDone {
      BothConsumed(left, right, L, R, w);
    } else {
      if !w.leftDone && !w.rightDone {
        AfterLoopKeepsBalance(left, right, L, R, w);
      } else {
        assert r == w;
      }
      TrimKeepsBalance(left, right, L, R, r);
      TidyKeeps(left, right, Trim(L, R, r));
    }
  }

  lemma NothingCut(s: string)
    ensures s[..|s| - 0] == s && s[0..] == s && s[..0] == "" && s[|s| - 0..] == "" && s + "" == s && "" + s == s
  {}

  lemma TrimToNothing(w: Window, rem: string, sufTexts: bool, preTexts: bool)
    ensures TrimTo(w, "", rem, sufTexts, preTexts) == Split(w.prefix, w.suffix, "", rem)
  {
    hide SuffixLen, PrefixLen;
    var sl := SuffixLen(sufTexts, "", rem);
    NothingCut(rem);
    assert sl == 0 && PrefixLen(preTexts, "", rem) == 0;
    NothingCut(w.prefix);
    NothingCut(w.suffix);
  }

  lemma TrimToNothingRight(w: Window, rem: string, sufTexts: bool, preTexts: bool)
    ensures TrimTo(w, rem, "", sufTexts, preTexts) == Split(w.prefix, w.suffix, rem, "")
  {
    hide SuffixLen, PrefixLen;
    var sl := SuffixLen(sufTexts, rem, "");
    NothingCut(rem);
    assert sl == 0 && PrefixLen(preTexts, rem, "") == 0;
    NothingCut(w.prefix);
    NothingCut(w.suffix);
  }

  /** With nothing left on the left side the split only shows what is left on the right. */
  lemma TrimNothing(L: seq<Segment>, R: seq<Segment>, w: Window)
    requires InRange(L, R, w) && w.leftDone && w.ls == w.le
    ensures Trim(L, R, w) == Split(w.prefix, w.suffix, "", Remainder(R, w.rs, w.re, w.rightDone))
  {
    EmptyJoin(L, w.ls);
    hide TrimTo, Join;
    var remR := Remainder(R, w.rs, w.re, w.rightDone);
    assert Remainder(L, w.ls, w.le, w.leftDone) == "";
    hide Remainder;
    TrimToNothing(w, remR, BothTexts(L[w.le], R[w.re]), BothTexts(L[w.ls], R[w.rs]));
  }

  lemma TrimNothingRight(L: seq<Segment>, R: seq<Segment>, w: Window)
    requires InRange(L, R, w) && w.rightDone && w.rs == w.re
    ensures Trim(L, R, w) == Split(w.prefix, w.suffix, Remainder(L, w.ls, w.le, w.leftDone), "")
  {
    EmptyJoin(R, w.rs);
    hide TrimTo, Join;
    var remL := Remainder(L, w.ls, w.le, w.leftDone);
    assert Remainder(R, w.rs, w.re, w.rightDone) == "";
    hide Remainder;
    TrimToNothingRight(w, remL, BothTexts(L[w.le], R[w.re]), BothTexts(L[w.ls], R[w.rs]));
  }

  /** A consumed side is all prefix and suffix. */
  lemma ConsumedText(text: string, gs: seq<Segment>, s: nat, e: nat, w: Window)
    requires Balanced(text, gs, s, e, true, w)
    ensures text == w.prefix + w.suffix
    ensures s == e && Remainder(gs, s, e, true) == ""
  {
    EmptyJoin(gs, s);
    hide Join;
    assert w.prefix + "" == w.prefix;
  }

  lemma BothConsumed(left: string, right: string, L: seq<Segment>, R: seq<Segment>, w: Window)
    requires InRange(L, R, w) && BalancedLeft(left, L, w) && BalancedRight(right, R, w)
    requires w.leftDone && w.rightDone
    ensures Rebuilds(left, right, Tidy(left, right, Trim(L, R, AfterLoop(L, R, w))))
  {
    hide Trim, Remainder;
    ConsumedText(left, L, w.ls, w.le, w);
    ConsumedText(right, R, w.rs, w.re, w);
    hide Balanced;
    var r := AfterLoop(L, R, w);
    assert r.leftDone && r.rightDone && r.ls == w.ls && r.le == w.le && r.rs == w.rs && r.re == w.re;
    hide AfterLoop;
    TrimNothing(L, R, r);
    assert Trim(L, R, r) == Split(r.prefix, r.suffix, "", "");
    assert left + "" == left;
  }

  /** What tidying makes of a split whose left part is empty but whose left text is too short. */
  lemma TidyShort(left: string, right: string, d: Split)
    requires d.left == "" && RebuildsRight(right, d)
    requires |d.prefix| + |d.suffix| > |left|
    ensures Rebuilds(left, right, Tidy(left, right, d)) <==> left <= right && d.right != ""
  {
    assert left + "" == left;
    assert |right| == |d.prefix| + |d.right| + |d.suffix|;
    if d.right == "" {
      assert Tidy(left, right, d) == Split(left, "", "", "");
    } else if left <= right {
      assert Tidy(left, right, d) == Split(left, "", "", right[|left|..]);
      assert left + right[|left|..] + "" == right;
    } else {
      assert Tidy(left, right, d) == d;
    }
  }

  lemma TidyLong(left: string, right: string, d: Split)
    requires d.right == "" && RebuildsLeft(left, d)
    requires |d.prefix| + |d.suffix| > |right|
    ensures !RebuildsRight(right, Tidy(left, right, d))
  {
    assert |left| == |d.prefix| + |d.left| + |d.suffix|;
    if d.left == "" {
      assert Tidy(left, right, d) == Split(left, "", "", "");
    } else {
      assert Tidy(left, right, d) == d;
    }
  }

  /** The step after the loop on the side that is still balanced. */
  lemma RightAfterLeft(right: string, L: seq<Segment>, R: seq<Segment>, w: Window)
    requires InRange(L, R, w) && BalancedRight(right, R, w) && w.ls == w.le
    requires !w.rightDone && Rematches(L, R, w)
    ensures var r := AfterLoop(L, R, w);
            && BalancedRight(right, R, r) && r.leftDone && r.ls == r.le
            && |r.prefix| + |r.suffix| == |w.prefix| + |w.suffix| + |L[w.ls].value|
  {
    hide Balanced;
    var r := AfterLoop(L, R, w);
    if w.rs == w.re {
      OnlyMoves(right, R, w.rs, w, r);
    } else if L[w.ls] == R[w.re] {
      BackMoves(right, R, w.rs, w.re, w, r);
    } else {
      FrontMoves(right, R, w.rs, w.re, w, r);
    }
  }

  lemma LeftAfterRight(left: string, L: seq<Segment>, R: seq<Segment>, w: Window)
    requires InRange(L, R, w) && BalancedLeft(left, L, w) && w.rs == w.re
    requires !w.leftDone && Rematches(L, R, w)
    ensures var r := AfterLoop(L, R, w);
            && BalancedLeft(left, L, r) && r.rightDone && r.rs == r.re
            && |r.prefix| + |r.suffix| == |w.prefix| + |w.suffix| + |R[w.rs].value|
  {
    hide Balanced;
    var r := AfterLoop(L, R, w);
    if w.ls == w.le {
      OnlyMoves(left, L, w.ls, w, r);
    } else if L[w.le] == R[w.rs] {
      BackMoves(left, L, w.ls, w.le, w, r);
    } else {
      FrontMoves(left, L, w.ls, w.le, w, r);
    }
  }

  /** The left side is consumed, and its segment is matched once more. */
  lemma LeftCollision(left: string, right: string, L: seq<Segment>, R: seq<Segment>, w: Window)
    requires InRange(L, R, w) && BalancedLeft(left, L, w) && BalancedRight(right, R, w)
    requires w.leftDone && !w.rightDone && Rematches(L, R, w) && L[w.ls].value != ""
    ensures Rebuilds(left, right, Tidy(left, right, Trim(L, R, AfterLoop(L, R, w)))) <==>
              left <= right && |right| > |left| + |L[w.ls].value|
  {
    hide Trim, Remainder, Tidy, AfterLoop, Rematches;
    ConsumedText(left, L, w.ls, w.le, w);
    RightAfterLeft(right, L, R, w);
    hide BalancedLeft;
    var r := AfterLoop(L, R, w);
    TrimNothing(L, R, r);
    var d := Split(r.prefix, r.suffix, "", Remainder(R, r.rs, r.re, r.rightDone));
    assert |right| == |r.prefix| + |d.right| + |r.suffix|;
    TidyShort(left, right, d);
  }

  /** The right side is consumed, and its segment is matched once more. */
  lemma RightCollision(left: string, right: string, L: seq<Segment>, R: seq<Segment>, w: Window)
    requires InRange(L, R, w) && BalancedLeft(left, L, w) && BalancedRight(right, R, w)
    requires w.rightDone && !w.leftDone && Rematches(L, R, w) && R[w.rs].value != ""
    ensures !RebuildsRight(right, Tidy(left, right, Trim(L, R, AfterLoop(L, R, w))))
  {
    hide Trim, Remainder, Tidy, AfterLoop, Rematches;
    ConsumedText(right, R, w.rs, w.re, w);
    LeftAfterRight(left, L, R, w);
    hide BalancedRight;
    var r := AfterLoop(L, R, w);
    TrimNothingRight(L, R, r);
    TidyLong(left, right, Split(r.prefix, r.suffix, Remainder(L, r.ls, r.le, r.leftDone), ""));
  }

  lemma WholeIsBalanced(text: string, gs: seq<Segment>, w: Window)
    requires gs == Segments(text) && gs != [] && w.prefix == "" && w.suffix == ""
    ensures Balanced(text, gs, 0, |gs| - 1, false, w)
  {
    Lossless(text);
    assert gs[0..|gs|] == gs;
    assert "" + text + "" == text;
  }

  /** The two texts for which a segment consumed in the loop is matched again after it. */
  predicate MatchedTwice(left: string, right: string) {
    var L, R := Segments(left), Segments(right);
    L != [] && R != [] && Collides(L, R, Loop(L, R, WholeWindow(L, R)))
  }

  /** The left side's last segment, consumed in the loop. */
  function ConsumedLength(left: string, right: string): nat
    requires MatchedTwice(left, right)
  {
    var L, R := Segments(left), Segments(right);
    |L[Loop(L, R, WholeWindow(L, R)).ls].value|
  }

  predicate LeftConsumed(left: string, right: string)
    requires MatchedTwice(left, right)
  {
    var L, R := Segments(left), Segments(right);
    Loop(L, R, WholeWindow(L, R)).leftDone
  }

  /**
   The split rebuilds both texts unless the step after the loop matches a segment that the loop
   has already consumed; then it does so exactly if the final prefix repair applies, that is, if
   the consumed side is the left one, the left text begins the right one, and more of the right
   text remains than the segment matched twice.
   */
  lemma SplitLaw(left: string, right: string)
    ensures Rebuilds(left, right, DiffSplit(left, right)) <==>
              (MatchedTwice(left, right) ==>
                && LeftConsumed(left, right) && left <= right
                && |right| > |left| + ConsumedLength(left, right))
  {
    hide Loop, AfterLoop, Trim, Tidy, Segments, Balanced, Rematches;
    var L, R := Segments(left), Segments(right);
    Lossless(left);
    Lossless(right);
    assert "" + left + "" == left && "" + right + "" == right;
    if L == [] || R == [] {
      assert Join([]) == "";
    } else {
      var w := Loop(L, R, WholeWindow(L, R));
      WholeIsBalanced(left, L, WholeWindow(L, R));
      WholeIsBalanced(right, R, WholeWindow(L, R));
      LoopIsBalanced(left, right, L, R, WholeWindow(L, R));
      if !Collides(L, R, w) {
        NoCollisionRebuilds(left, right, L, R, w);
      } else if w.leftDone {
        LeftCollision(left, right, L, R, w);
      } else {
        RightCollision(left, right, L, R, w);
      }
    }
  }

  // ---------------------------------------------------------------------------
  // What is shared is taken out
  // ---------------------------------------------------------------------------

  predicate FirstsDiffer(a: string, b: string) { a != "" && b != "" ==> a[0] != b[0] }

  predicate LastsDiffer(a: string, b: string) { a != "" && b != "" ==> a[|a| - 1] != b[|b| - 1] }

  /** Where texts stand at a border, nothing the two sides share there is left over. */
  lemma TrimToMaximal(w: Window, remL: string, remR: string, sufTexts: bool, preTexts: bool)
    ensures var d := TrimTo(w, remL, remR, sufTexts, preTexts);
            (preTexts ==> FirstsDiffer(d.left, d.right)) && (sufTexts ==> LastsDiffer(d.left, d.right))
  {
    NoSuffix(remL, remR);
    var sl := SuffixLen(sufTexts, remL, remR);
    var a, b := remL[..|remL| - sl], remR[..|remR| - sl];
    var pl := PrefixLen(preTexts, a, b);
    CutEnds(remL, sl, pl);
    CutEnds(remR, sl, pl);
  }

  /** The ends of a text of which characters have been cut off on both sides. */
  lemma CutEnds(s: string, behind: nat, front: nat)
    requires front <= |s| - behind
    ensures var r := s[..|s| - behind][front..];
            r != "" ==> r[0] == s[..|s| - behind][front] && r[|r| - 1] == s[|s| - behind - 1]
  {}

  lemma TidyKeepsDifferent(left: string, right: string, d: Split)
    requires Tidy(left, right, d).left != "" && Tidy(left, right, d).right != ""
    ensures Tidy(left, right, d) == d
  {}

  /** The first segments left over, or the last ones, are both texts. */
  predicate TextsInFront(L: seq<Segment>, R: seq<Segment>, w: Window)
    requires InRange(L, R, w)
  {
    L[w.ls].kind == TextKind && R[w.rs].kind == TextKind
  }

  predicate TextsBehind(L: seq<Segment>, R: seq<Segment>, w: Window)
    requires InRange(L, R, w)
  {
    L[w.le].kind == TextKind && R[w.re].kind == TextKind
  }

  /** The window when the segments have been matched. */
  function LeftOver(left: string, right: string): (w: Window)
    requires left != "" && right != ""
    ensures InRange(Segments(left), Segments(right), w)
  {
    var L, R := Segments(left), Segments(right);
    AfterLoop(L, R, Loop(L, R, WholeWindow(L, R)))
  }

  /** If both differences are there, they share nothing at a border where texts meet. */
  lemma SharedIsTaken(left: string, right: string)
    requires left != "" && right != ""
    ensures var d, w := DiffSplit(left, right), LeftOver(left, right);
            && (TextsInFront(Segments(left), Segments(right), w) ==> FirstsDiffer(d.left, d.right))
            && (TextsBehind(Segments(left), Segments(right), w) ==> LastsDiffer(d.left, d.right))
  {
    hide Segments, Loop, AfterLoop, TrimTo, Remainder;
    SegmentsExist(left);
    SegmentsExist(right);
    var L, R, w := Segments(left), Segments(right), LeftOver(left, right);
    TrimToMaximal(w, Remainder(L, w.ls, w.le, w.leftDone), Remainder(R, w.rs, w.re, w.rightDone),
      BothTexts(L[w.le], R[w.re]), BothTexts(L[w.ls], R[w.rs]));
    var t := Trim(L, R, w);
    var d := Tidy(left, right, t);
    if d.left != "" && d.right != "" {
      TidyKeepsDifferent(left, right, t);
    }
  }

  /** What is left of one side when the segments have been matched. */
  function LeftText(gs: seq<Segment>, s: nat, e: nat, done: bool): string
    requires s <= e < |gs|
  {
    if done then Join(gs[s..e]) else Join(gs[s..e + 1])
  }

  /** Where a marker stands at a border, nothing is cut off there beyond the whole segments. */
  lemma MarkersStay(left: string, right: string)
    requires left != "" && right != "" && DiffSplit(left, right).left != "" && DiffSplit(left, right).right != ""
    ensures var L, R, w, d := Segments(left), Segments(right), LeftOver(left, right), DiffSplit(left, right);
            var l, r := LeftText(L, w.ls, w.le, w.leftDone), LeftText(R, w.rs, w.re, w.rightDone);
            && (!TextsInFront(L, R, w) ==> d.left <= l && d.right <= r && d.prefix == w.prefix)
            && (!TextsBehind(L, R, w) ==>
                  |d.left| <= |l| && d.left == l[|l| - |d.left|..] && |d.right| <= |r| && d.right == r[|r| - |d.right|..]
                  && d.suffix == w.suffix)
  {
    hide Segments, Loop, AfterLoop, TrimTo, DiffSplit, Tidy, LeftOver, Join;
    SegmentsExist(left);
    SegmentsExist(right);
    var L, R, w := Segments(left), Segments(right), LeftOver(left, right);
    var l, r := Remainder(L, w.ls, w.le, w.leftDone), Remainder(R, w.rs, w.re, w.rightDone);
    TrimIsResult(left, right);
    TrimToKeeps(w, l, r, BothTexts(L[w.le], R[w.re]), BothTexts(L[w.ls], R[w.rs]));
  }

  lemma TrimIsResult(left: string, right: string)
    requires left != "" && right != "" && DiffSplit(left, right).left != "" && DiffSplit(left, right).right != ""
    ensures DiffSplit(left, right) == Trim(Segments(left), Segments(right), LeftOver(left, right))
  {
    hide Segments, Loop, AfterLoop, Trim;
    SegmentsExist(left);
    SegmentsExist(right);
  }

  lemma TrimToKeeps(w: Window, l: string, r: string, sufTexts: bool, preTexts: bool)
    ensures var d := TrimTo(w, l, r, sufTexts, preTexts);
            && (!preTexts ==> d.left <= l && d.right <= r && d.prefix == w.prefix)
            && (!sufTexts ==>
                  |d.left| <= |l| && d.left == l[|l| - |d.left|..] && |d.right| <= |r| && d.right == r[|r| - |d.right|..]
                  && d.suffix == w.suffix)
  {
    NoSuffix(l, r);
    assert l[..0] == "" && w.prefix + "" == w.prefix && l[|l|..] == "" && "" + w.suffix == w.suffix;
    assert l[..|l|] == l && r[..|r|] == r;
  }

  lemma SegmentsExist(s: string)
    ensures s != "" <==> Segments(s) != []
  {}

  /** The loop leaves no equal segments at either end as long as both sides have more than one. */
  lemma {:induction false} LoopIsDone(L: seq<Segment>, R: seq<Segment>, w: Window)
    requires InRange(L, R, w)
    ensures var r := Loop(L, R, w); Testing(r) ==> L[r.ls] != R[r.rs] && L[r.le] != R[r.re]
    decreases w.le - w.ls + w.re - w.rs
  {
    if !Testing(w) || !Advances(L, R, w) {
    } else {
      BackInRange(L, R, w);
      LoopIsDone(L, R, MatchBack(L, R, MatchFront(L, R, w)));
    }
  }

  /** Afterwards a side's last segment, if it is not consumed, equals neither end of the other side. */
  lemma MatchedIsDone(L: seq<Segment>, R: seq<Segment>, w: Window)
    requires InRange(L, R, w) && !w.leftDone && !w.rightDone && !Testing(w)
    ensures var r := AfterLoop(L, R, w);
            && (!r.leftDone && !r.rightDone && r.ls == r.le && r.rs != r.re ==>
                  L[r.ls] != R[r.rs] && L[r.ls] != R[r.re])
            && (!r.leftDone && !r.rightDone && r.rs == r.re && r.ls != r.le ==>
                  R[r.rs] != L[r.ls] && R[r.rs] != L[r.le])
            && (!r.leftDone && !r.rightDone && r.ls == r.le && r.rs == r.re ==>
                  L[r.ls] != R[r.rs] || L[r.ls].kind == TextKind)
  {}

  predicate NoMarkers(s: string) { '<' !in s && '[' !in s }

  lemma OneText(s: string)
    requires NoMarkers(s) && s != ""
    ensures Segments(s) == [Segment(TextKind, s)]
  {
    FirstText(s, |s|);
    assert s[..|s|] == s && s[|s|..] == "";
    assert Segments("") == [];
  }

  lemma PlainSplit(left: string, right: string)
    requires NoMarkers(left) && NoMarkers(right) && left != "" && right != ""
    ensures DiffSplit(left, right) == Tidy(left, right, TrimTo(Window(0, 0, 0, 0, "", "", false, false), left, right, true, true))
  {
    OneText(left);
    OneText(right);
    var L, R := Segments(left), Segments(right);
    hide Segments, TrimTo;
    var w := WholeWindow(L, R);
    LoopStep(L, R, w);
    assert AfterLoop(L, R, w) == w;
    assert L[0..1] == L && R[0..1] == R;
    OneJoined(L[0]);
    OneJoined(R[0]);
  }

  lemma OneJoined(g: Segment)
    ensures Join([g]) == g.value
  {
    assert [g][1..] == [];
  }

  /**
   Of texts without markers the longest shared suffix and then the longest shared prefix are taken
   out: what is left on the two sides differs at both ends; and a text that begins the other is its
   prefix.
   */
  lemma PlainTexts(left: string, right: string)
    requires NoMarkers(left) && NoMarkers(right)
    ensures var d := DiffSplit(left, right);
            && d.prefix + d.left + d.suffix == left && d.prefix + d.right + d.suffix == right
            && FirstsDiffer(d.left, d.right) && LastsDiffer(d.left, d.right)
    ensures left <= right && left != "" ==> DiffSplit(left, right) == Split(left, "", "", right[|left|..])
  {
    if left == "" || right == "" {
      SegmentsExist(left);
      SegmentsExist(right);
      hide Segments, Loop, AfterLoop, Trim;
      NothingAround(left);
      NothingAround(right);
    } else {
      PlainDiffer(left, right);
      if left <= right {
        PlainBegins(left, right);
      }
    }
  }

  lemma NothingAround(s: string)
    ensures "" + s + "" == s
  {}

  lemma PlainDiffer(left: string, right: string)
    requires NoMarkers(left) && NoMarkers(right) && left != "" && right != ""
    ensures var d := DiffSplit(left, right);
            Rebuilds(left, right, d) && FirstsDiffer(d.left, d.right) && LastsDiffer(d.left, d.right)
  {
    hide DiffSplit, TrimTo, Tidy, FirstsDiffer, LastsDiffer, NoMarkers;
    var w := Window(0, 0, 0, 0, "", "", false, false);
    PlainSplit(left, right);
    TrimToMaximal(w, left, right, true, true);
    TrimToRebuilds(w, left, right, true, true);
    NothingAround(left);
    NothingAround(right);
    var t := TrimTo(w, left, right, true, true);
    TidyKeeps(left, right, t);
    TidyDiffers(left, right, t);
  }

  lemma TidyDiffers(left: string, right: string, d: Split)
    requires FirstsDiffer(d.left, d.right) && LastsDiffer(d.left, d.right)
    ensures var t := Tidy(left, right, d); FirstsDiffer(t.left, t.right) && LastsDiffer(t.left, t.right)
  {}

  lemma PlainBegins(left: string, right: string)
    requires NoMarkers(left) && NoMarkers(right) && left != "" && left <= right
    ensures DiffSplit(left, right) == Split(left, "", "", right[|left|..])
  {
    hide DiffSplit, TrimTo, NoMarkers;
    var w := Window(0, 0, 0, 0, "", "", false, false);
    PlainSplit(left, right);
    PlainPrefix(w, left, right);
    assert right == left ==> right[|left|..] == "";
  }

  /** A text that begins the other leaves nothing over. */
  lemma PlainPrefix(w: Window, left: string, right: string)
    requires left <= right
    ensures TrimTo(w, left, right, true, true).left == ""
    ensures TrimTo(w, left, right, true, true).right == "" ==> |left| == |right|
  {
    NoSuffix(left, right);
    var sl := SuffixLen(true, left, right);
    var a, b := left[..|left| - sl], right[..|right| - sl];
    assert forall k :: 0 <= k < |a| ==> a[k] == b[k];
    var pl := PrefixLen(true, a, b);
    assert pl == |a|;
  }

  // ---------------------------------------------------------------------------
  // The repair
  // ---------------------------------------------------------------------------

  /** The tests after the loop, made to skip a side that the loop has consumed. */
  function GuardedAfterLoop(L: seq<Segment>, R: seq<Segment>, w: Window): (r: Window)
    requires InRange(L, R, w)
    ensures InRange(L, R, r)
  {
    if w.leftDone || w.rightDone then w else AfterLoop(L, R, w)
  }

  function RepairedSplit(left: string, right: string): Split {
    var L, R := Segments(left), Segments(right);
    if L == [] then Split("", "", "", right)
    else if R == [] then Split("", "", left, "")
    else Tidy(left, right, Trim(L, R, GuardedAfterLoop(L, R, Loop(L, R, WholeWindow(L, R)))))
  }

  lemma GuardedRebuilds(left: string, right: string, L: seq<Segment>, R: seq<Segment>, w: Window)
    requires InRange(L, R, w) && BalancedLeft(left, L, w) && BalancedRight(right, R, w)
    ensures Rebuilds(left, right, Tidy(left, right, Trim(L, R, GuardedAfterLoop(L, R, w))))
    ensures !Collides(L, R, w) ==>
              Tidy(left, right, Trim(L, R, GuardedAfterLoop(L, R, w))) == Tidy(left, right, Trim(L, R, AfterLoop(L, R, w)))
  {
    hide Trim, Tidy, Remainder;
    var r := GuardedAfterLoop(L, R, w);
    if !w.leftDone && !w.rightDone {
      AfterLoopKeepsBalance(left, right, L, R, w);
    }
    TrimKeepsBalance(left, right, L, R, r);
    TidyKeeps(left, right, Trim(L, R, r));
    if w.leftDone && w.rightDone {
      BothConsumedAgree(left, right, L, R, w);
    }
  }

  /** With both sides consumed the tests only lengthen a prefix that is replaced in the end. */
  lemma BothConsumedAgree(left: string, right: string, L: seq<Segment>, R: seq<Segment>, w: Window)
    requires InRange(L, R, w) && BalancedLeft(left, L, w) && BalancedRight(right, R, w) && w.leftDone && w.rightDone
    ensures Tidy(left, right, Trim(L, R, w)) == Tidy(left, right, Trim(L, R, AfterLoop(L, R, w)))
  {
    hide Trim, Remainder;
    ConsumedText(left, L, w.ls, w.le, w);
    ConsumedText(right, R, w.rs, w.re, w);
    hide Balanced;
    var r := AfterLoop(L, R, w);
    assert r.leftDone && r.rightDone && r.ls == w.ls && r.le == w.le && r.rs == w.rs && r.re == w.re;
    hide AfterLoop;
    TrimNothing(L, R, w);
    TrimNothing(L, R, r);
  }

  /**
   With the repair the law holds for all texts, and where no segment was matched twice the repair
   changes nothing.
   */
  lemma RepairLaw(left: string, right: string)
    ensures Rebuilds(left, right, RepairedSplit(left, right))
    ensures !MatchedTwice(left, right) ==> RepairedSplit(left, right) == DiffSplit(left, right)
  {
    hide Loop, AfterLoop, Trim, Tidy, Segments, Balanced, Rematches, GuardedAfterLoop;
    var L, R := Segments(left), Segments(right);
    Lossless(left);
    Lossless(right);
    assert "" + left + "" == left && "" + right + "" == right;
    if L == [] || R == [] {
      assert Join([]) == "";
    } else {
      WholeIsBalanced(left, L, WholeWindow(L, R));
      WholeIsBalanced(right, R, WholeWindow(L, R));
      LoopIsBalanced(left, right, L, R, WholeWindow(L, R));
      GuardedRebuilds(left, right, L, R, Loop(L, R, WholeWindow(L, R)));
    }
  }

  lemma OneMarker(v: string, rest: seq<Segment>)
    requires IsMarker(v)
    ensures WellCut(rest) ==> WellCut([Segment(MarkerKind, v)] + rest)
    ensures Join([Segment(MarkerKind, v)] + rest) == v + Join(rest)
  {
    assert ([Segment(MarkerKind, v)] + rest)[1..] == rest;
  }

  lemma ExampleSegments(a: Segment, b: Segment)
    requires a == Segment(MarkerKind, "<a>") && b == Segment(MarkerKind, "<b>")
    ensures Segments("<a><b>") == [a, b] && Segments("<a><b><b>") == [a, b, b]
  {
    OneMarker("<b>", []);
    OneMarker("<b>", [b]);
    OneMarker("<a>", [b]);
    OneMarker("<a>", [b, b]);
    assert [b] + [] == [b] && [b] + [b] == [b, b] && [a] + [b] == [a, b] && [a] + [b, b] == [a, b, b];
    assert "<a>" + ("<b>" + "") == "<a><b>" && "<a>" + ("<b>" + ("<b>" + "")) == "<a><b><b>";
    OnlyCut([a, b]);
    OnlyCut([a, b, b]);
  }

  lemma ExampleLoop(a: Segment, b: Segment)
    requires a == Segment(MarkerKind, "<a>") && b == Segment(MarkerKind, "<b>")
    ensures Loop([a, b], [a, b, b], WholeWindow([a, b], [a, b, b])) == Window(1, 1, 1, 1, "<a>", "<b>", true, false)
  {
    var L, R := [a, b], [a, b, b];
    assert "" + "<a>" == "<a>" && "<b>" + "" == "<b>";
    LoopStep(L, R, WholeWindow(L, R));
    LoopStep(L, R, Window(1, 1, 1, 1, "<a>", "<b>", true, false));
  }

  /** An input on which the law fails: the repeated closing marker is counted twice. */
  lemma RepeatedMarkerIsLost()
    ensures DiffSplit("<a><b>", "<a><b><b>") == Split("<a><b>", "", "", "")
    ensures MatchedTwice("<a><b>", "<a><b><b>")
    ensures !Rebuilds("<a><b>", "<a><b><b>", DiffSplit("<a><b>", "<a><b><b>"))
  {
    hide Segments, Loop, Trim;
    var a, b := Segment(MarkerKind, "<a>"), Segment(MarkerKind, "<b>");
    ExampleSegments(a, b);
    ExampleLoop(a, b);
    var w := Window(1, 1, 1, 1, "<a>", "<b>", true, false);
    var r := AfterLoop([a, b], [a, b, b], w);
    assert r.leftDone && r.rightDone && r.ls == 1 && r.le == 1 && r.rs == 1 && r.re == 1;
    TrimNothing([a, b], [a, b, b], r);
    EmptyJoin([a, b, b], 1);
    assert |"<a><b>" + "" + ""| == 6 && |"<a><b><b>"| == 9;
  }

  // ---------------------------------------------------------------------------
  // Equal texts
  // ---------------------------------------------------------------------------

  predicate Symmetric(w: Window) {
    w.ls == w.rs && w.le == w.re && w.leftDone == w.rightDone && (w.leftDone ==> w.ls == w.le)
  }

  lemma {:induction false} LoopIsSymmetric(L: seq<Segment>, w: Window)
    requires InRange(L, L, w) && Symmetric(w)
    ensures var r := Loop(L, L, w); Symmetric(r) && r.ls == r.le
    decreases w.le - w.ls
  {
    if Testing(w) {
      LoopIsSymmetric(L, MatchBack(L, L, MatchFront(L, L, w)));
    }
  }

  lemma SymmetricTrim(L: seq<Segment>, w: Window)
    requires InRange(L, L, w) && Symmetric(w) && (w.leftDone || L[w.ls].kind == TextKind) && w.ls == w.le
    ensures Trim(L, L, w).left == "" && Trim(L, L, w).right == ""
  {
    if w.leftDone {
      TrimNothing(L, L, w);
      EmptyJoin(L, w.ls);
    } else {
      var rem := Remainder(L, w.ls, w.le, false);
      assert SuffixLen(true, rem, rem) == |rem|;
    }
  }

  /** Equal texts have no difference, and the common text is reported as the prefix. */
  lemma EqualTexts(s: string)
    ensures DiffSplit(s, s) == Split(s, "", "", "")
  {
    var L := Segments(s);
    if L == [] {
      Lossless(s);
    } else {
      hide Segments, Trim;
      var w := Loop(L, L, WholeWindow(L, L));
      LoopIsSymmetric(L, WholeWindow(L, L));
      hide Loop;
      SymmetricTrim(L, AfterLoop(L, L, w));
    }
  }
}
