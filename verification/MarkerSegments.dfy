/**
 The segmenter of chat-auto-parser-helpers.cpp: it cuts a text into markers (`<...>` or `[...]`)
 and the texts between them.
 */
module MarkerSegments {

  datatype Kind = TextKind | MarkerKind
  datatype Segment = Segment(kind: Kind, value: string)

  predicate IsOpener(c: char) { c == '<' || c == '[' }

  function Closer(op: char): char { if op == '<' then '>' else ']' }

  /** First position from `k` on that holds `c`, or the length of `s`. */
  function Find(s: string, c: char, k: nat): (i: nat)
    requires k <= |s|
    ensures k <= i <= |s|
    ensures forall j :: k <= j < i ==> s[j] != c
    ensures i < |s| ==> s[i] == c
    decreases |s| - k
  {
    if k == |s| || s[k] == c then k else Find(s, c, k + 1)
  }

  function FindOpener(s: string, k: nat): (i: nat)
    requires k <= |s|
    ensures k <= i <= |s|
    ensures forall j :: k <= j < i ==> !IsOpener(s[j])
    ensures i < |s| ==> IsOpener(s[i])
    decreases |s| - k
  {
    if k == |s| || IsOpener(s[k]) then k else FindOpener(s, k + 1)
  }

  function First(s: string): (g: Segment)
    requires s != ""
    ensures 0 < |g.value| <= |s| && g.value == s[..|g.value|]
  {
    if IsOpener(s[0]) then
      var e := Find(s, Closer(s[0]), 0);
      if e < |s| then Segment(MarkerKind, s[..e + 1]) else Segment(TextKind, s)
    else Segment(TextKind, s[..FindOpener(s, 0)])
  }

  /** The segments of `s`, cut off one after the other. */
  function Segments(s: string): seq<Segment>
    decreases |s|
  {
    if s == "" then [] else [First(s)] + Segments(s[|First(s).value|..])
  }

  lemma SegmentsStep(text: string, border: nat, cut: nat, g: Segment)
    requires border < cut <= |text|
    requires First(text[border..]) == g && g.value == text[border..cut]
    ensures Segments(text[border..]) == [g] + Segments(text[cut..])
  {
    assert text[border..][cut - border..] == text[cut..];
  }

  lemma FirstText(s: string, n: nat)
    requires 0 < n <= |s| && (forall j :: 0 <= j < n ==> !IsOpener(s[j])) && (n == |s| || IsOpener(s[n]))
    ensures First(s) == Segment(TextKind, s[..n])
  {
    assert !IsOpener(s[0]);
    var i := FindOpener(s, 0);
    assert i <= n && n <= i;
  }

  lemma FirstMarker(s: string, e: nat)
    requires 0 < e < |s| && IsOpener(s[0]) && s[e] == Closer(s[0])
    requires forall j :: 0 < j < e ==> s[j] != Closer(s[0])
    ensures First(s) == Segment(MarkerKind, s[..e + 1])
  {
    var i := Find(s, Closer(s[0]), 0);
    assert i <= e && e <= i;
  }

  lemma FirstUnclosed(s: string)
    requires s != "" && IsOpener(s[0]) && forall j :: 0 < j < |s| ==> s[j] != Closer(s[0])
    ensures First(s) == Segment(TextKind, s)
  {}

  lemma NoneLeft(text: string)
    ensures Segments(text[|text|..]) == [] && Segments(text[0..]) == Segments(text)
  {
    assert text[|text|..] == "" && text[0..] == text;
  }

  /** Appends a finished segment. */
  lemma Append(done: seq<Segment>, g: Segment, before: seq<Segment>, after: seq<Segment>)
    requires before == [g] + after
    ensures done + before == (done + [g]) + after
  {}

  method SegmentizeMarkers(text: string) returns (retval: seq<Segment>)
    ensures retval == Segments(text)
  {
    hide Segments, First;
    retval := [];
    var inMarker := false;
    var opener := '\0';
    var lastBorder := 0;
    NoneLeft(text);
    for cur := 0 to |text|
      invariant lastBorder <= cur
      invariant retval + Segments(text[lastBorder..]) == Segments(text)
      invariant !inMarker ==> forall j :: lastBorder <= j < cur ==> !IsOpener(text[j])
      invariant inMarker ==> lastBorder < cur && IsOpener(opener) && text[lastBorder] == opener
      invariant inMarker ==> forall j :: lastBorder < j < cur ==> text[j] != Closer(opener)
    {
      if !inMarker && IsOpener(text[cur]) {
        if lastBorder < cur {
          var g := Segment(TextKind, text[lastBorder..cur]);
          TextEnds(text, lastBorder, cur);
          Append(retval, g, Segments(text[lastBorder..]), Segments(text[cur..]));
          retval := retval + [g];
        }
        lastBorder := cur;
        inMarker := true;
        opener := text[cur];
      } else if inMarker && ((opener == '<' && text[cur] == '>') || (opener == '[' && text[cur] == ']')) {
        var g := Segment(MarkerKind, text[lastBorder..cur + 1]);
        MarkerEnds(text, lastBorder, cur);
        Append(retval, g, Segments(text[lastBorder..]), Segments(text[cur + 1..]));
        retval := retval + [g];
        lastBorder := cur + 1;
        inMarker := false;
        opener := '\0';
      }
    }
    if lastBorder < |text| {
      var g := Segment(TextKind, text[lastBorder..]);
      if inMarker {
        UnclosedEnds(text, lastBorder);
      } else {
        TextEnds(text, lastBorder, |text|);
        assert text[lastBorder..|text|] == text[lastBorder..];
      }
      Append(retval, g, Segments(text[lastBorder..]), []);
      retval := retval + [g];
    }
  }

  lemma UnclosedEnds(text: string, border: nat)
    requires border < |text| && IsOpener(text[border])
    requires forall j :: border < j < |text| ==> text[j] != Closer(text[border])
    ensures Segments(text[border..]) == [Segment(TextKind, text[border..])]
  {
    var s := text[border..];
    FirstUnclosed(s);
    assert s[|s|..] == "";
  }

  lemma TextEnds(text: string, border: nat, cut: nat)
    requires border < cut <= |text|
    requires forall j :: border <= j < cut ==> !IsOpener(text[j])
    requires cut == |text| || IsOpener(text[cut])
    ensures Segments(text[border..]) == [Segment(TextKind, text[border..cut])] + Segments(text[cut..])
  {
    var s := text[border..];
    assert forall j :: 0 <= j < cut - border ==> s[j] == text[border + j];
    FirstText(s, cut - border);
    assert s[..cut - border] == text[border..cut];
    SegmentsStep(text, border, cut, Segment(TextKind, text[border..cut]));
  }

  lemma MarkerEnds(text: string, border: nat, e: nat)
    requires border < e < |text| && IsOpener(text[border]) && text[e] == Closer(text[border])
    requires forall j :: border < j < e ==> text[j] != Closer(text[border])
    ensures Segments(text[border..]) == [Segment(MarkerKind, text[border..e + 1])] + Segments(text[e + 1..])
  {
    hide Segments, First;
    var s := text[border..];
    assert forall j :: 0 <= j < |s| ==> s[j] == text[border + j];
    FirstMarker(s, e - border);
    assert s[..e - border + 1] == text[border..e + 1];
    SegmentsStep(text, border, e + 1, Segment(MarkerKind, text[border..e + 1]));
  }

  // ---------------------------------------------------------------------------
  // Lossless, and the only way to cut
  // ---------------------------------------------------------------------------

  function Join(gs: seq<Segment>): string {
    if gs == [] then "" else gs[0].value + Join(gs[1..])
  }

  lemma {:induction false} JoinConcat(a: seq<Segment>, b: seq<Segment>)
    ensures Join(a + b) == Join(a) + Join(b)
    decreases |a|
  {
    if a == [] {
      assert a + b == b;
    } else {
      JoinConcat(a[1..], b);
      assert (a + b)[1..] == a[1..] + b;
    }
  }

  lemma JoinFront(g: Segment, gs: seq<Segment>)
    ensures Join([g] + gs) == g.value + Join(gs)
  {
    assert ([g] + gs)[1..] == gs;
  }

  lemma FirstIsPrefix(s: string)
    requires s != ""
    ensures First(s).value != "" && First(s).value + s[|First(s).value|..] == s
  {}

  lemma {:induction false} Lossless(s: string)
    ensures Join(Segments(s)) == s
    ensures forall k :: 0 <= k < |Segments(s)| ==> Segments(s)[k].value != ""
    decreases |s|
  {
    if s == "" {
    } else {
      hide First;
      var n := |First(s).value|;
      Lossless(s[n..]);
      var g, gs := First(s), Segments(s[n..]);
      assert Segments(s) == [g] + gs;
      JoinFront(g, gs);
      FirstIsPrefix(s);
      hide Segments, Join;
    }
  }

  /** A marker ends at its first closer; a text holds no opener, or is one that is never closed. */
  predicate IsMarker(v: string) {
    |v| >= 2 && IsOpener(v[0]) && v[|v| - 1] == Closer(v[0]) && forall j :: 0 < j < |v| - 1 ==> v[j] != Closer(v[0])
  }

  predicate IsPlain(v: string) { v != "" && forall j :: 0 <= j < |v| ==> !IsOpener(v[j]) }

  predicate IsUnclosed(v: string) {
    v != "" && IsOpener(v[0]) && forall j :: 0 < j < |v| ==> v[j] != Closer(v[0])
  }

  predicate HeadOk(gs: seq<Segment>)
    requires gs != []
  {
    var v := gs[0].value;
    if gs[0].kind == MarkerKind then IsMarker(v)
    else if |gs| == 1 then IsPlain(v) || IsUnclosed(v)
    else IsPlain(v) && gs[1].value != "" && IsOpener(gs[1].value[0])
  }

  /** Texts are maximal, and only the last segment can be an unclosed marker. */
  predicate WellCut(gs: seq<Segment>) {
    gs == [] || (HeadOk(gs) && WellCut(gs[1..]))
  }

  lemma {:induction false} SegmentsWellCut(s: string)
    ensures WellCut(Segments(s))
    decreases |s|
  {
    if s == "" {
    } else {
      var n := |First(s).value|;
      var rest := s[n..];
      SegmentsWellCut(rest);
      FirstShape(s);
      assert Segments(s)[1..] == Segments(rest);
      if rest != "" {
        assert Segments(s)[1] == First(rest) && rest[0] == s[n];
        assert First(rest).value[0] == rest[0];
      }
    }
  }

  lemma FirstShape(s: string)
    requires s != ""
    ensures var g := First(s);
            if g.kind == MarkerKind then IsMarker(g.value)
            else if IsOpener(s[0]) then g.value == s && IsUnclosed(s)
            else IsPlain(g.value) && (|g.value| < |s| ==> IsOpener(s[|g.value|]))
  {}

  lemma FirstOfCut(v: string, kind: Kind, tail: string)
    requires kind == MarkerKind ==> IsMarker(v)
    requires kind == TextKind ==> (IsPlain(v) && (tail == "" || IsOpener(tail[0]))) || (IsUnclosed(v) && tail == "")
    ensures First(v + tail) == Segment(kind, v)
  {
    var s := v + tail;
    assert forall j :: 0 <= j < |v| ==> s[j] == v[j];
    assert s[..|v|] == v;
    if kind == MarkerKind {
      FirstMarker(s, |v| - 1);
    } else if IsPlain(v) {
      FirstText(s, |v|);
    } else {
      FirstUnclosed(s);
    }
  }

  /** There is one way to cut a text: any well-cut list is what the segmenter makes of its join. */
  lemma {:induction false} OnlyCut(gs: seq<Segment>)
    requires WellCut(gs)
    ensures Segments(Join(gs)) == gs
    decreases |gs|
  {
    if gs == [] {
    } else {
      OnlyCut(gs[1..]);
      HeadIsFirst(gs);
      FrontCut(gs[0], Join(gs[1..]));
      hide Segments, WellCut;
      assert gs == [gs[0]] + gs[1..];
    }
  }

  lemma HeadIsFirst(gs: seq<Segment>)
    requires gs != [] && WellCut(gs)
    ensures First(gs[0].value + Join(gs[1..])) == gs[0] && gs[0].value != ""
  {
    hide First, IsMarker, IsPlain, IsUnclosed;
    ShapesHold(gs[0].value);
    if |gs| > 1 {
      assert Join(gs[1..]) == gs[1].value + Join(gs[1..][1..]);
    } else {
      assert Join(gs[1..]) == "";
    }
    FirstOfCut(gs[0].value, gs[0].kind, Join(gs[1..]));
  }

  lemma ShapesHold(v: string)
    ensures IsMarker(v) || IsPlain(v) || IsUnclosed(v) ==> v != ""
  {}

  lemma FrontCut(g: Segment, tail: string)
    requires g.value != "" && First(g.value + tail) == g
    ensures Segments(g.value + tail) == [g] + Segments(tail)
  {
    hide First;
    assert (g.value + tail)[|g.value|..] == tail;
  }

  /** Both kinds of markers, a text in front, one between, and an opener that is never closed. */
  lemma ExampleCuts()
    ensures Segments("a[b]<c]>[") ==
            [Segment(TextKind, "a"), Segment(MarkerKind, "[b]"), Segment(MarkerKind, "<c]>"), Segment(TextKind, "[")]
  {
    var a, b, c, d :=
      Segment(TextKind, "a"), Segment(MarkerKind, "[b]"), Segment(MarkerKind, "<c]>"), Segment(TextKind, "[");
    var gs := [a, b, c, d];
    assert gs[1..] == [b, c, d] && [b, c, d][1..] == [c, d] && [c, d][1..] == [d] && [d][1..] == [];
    assert WellCut([]) && WellCut([d]) && WellCut([c, d]) && WellCut([b, c, d]) && WellCut(gs);
    assert Join([]) == "" && Join([d]) == "[" && Join([c, d]) == "<c]>[" && Join([b, c, d]) == "[b]<c]>[";
    assert Join(gs) == "a[b]<c]>[";
    OnlyCut(gs);
  }
}
