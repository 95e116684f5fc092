/**
 The diff step of chat.cpp: consecutive snapshots of a message are turned into deltas, and the
 identifiers of tool calls are fixed once and for all.
 */
module MessageDiff {
  import opened ChatTypes

  datatype Result<+T> = Ok(value: T) | Err

  /** A delta; `index` is -1 when it concerns no tool call. */
  datatype Diff = Diff(reasoning: string, content: string, index: int, call: ToolCall)

  const NoDiff := Diff("", "", -1, NoCall)

  function StringDiff(last: string, current: string): Result<string> {
    if last == "" then Ok(current)
    else if !(last <= current) then (if current <= last then Ok("") else Err)
    else Ok(current[|last|..])
  }

  function TextDiffs(old_: string, new_: string, isContent: bool): Result<seq<Diff>> {
    if old_ == new_ then Ok([])
    else
      var d := StringDiff(old_, new_);
      if d.Err? then Err else Ok([if isContent then NoDiff.(content := d.value) else NoDiff.(reasoning := d.value)])
  }

  /** A name may be discovered, or grow, while more input is parsed. */
  predicate NameMayBecome(old_: string, new_: string) {
    old_ == new_ || old_ == "" || new_ == "" || old_ <= new_
  }

  function CallDiff(index: int, p: ToolCall, n: ToolCall): Result<seq<Diff>> {
    var args := StringDiff(p.arguments, n.arguments);
    if !NameMayBecome(p.name, n.name) || args.Err? then Err
    else
      var changed := p.id != n.id || p.name != n.name;
      if args.value == "" && !changed then Ok([])
      else
        var call := if changed then ToolCall(n.name, args.value, n.id) else ToolCall("", args.value, "");
        Ok([NoDiff.(index := index, call := call)])
  }

  function NewCalls(calls: seq<ToolCall>, from: nat): (r: seq<Diff>)
    requires from <= |calls|
    ensures |r| == |calls| - from
    ensures forall k :: 0 <= k < |r| ==> r[k] == NoDiff.(index := from + k, call := calls[from + k])
  {
    seq(|calls| - from, k requires 0 <= k < |calls| - from => NoDiff.(index := from + k, call := calls[from + k]))
  }

  function LastCallDiffs(prv: Message, new_: Message): Result<seq<Diff>>
    requires |prv.calls| <= |new_.calls|
  {
    if prv.calls == [] then Ok([])
    else CallDiff(|prv.calls| - 1, prv.calls[|prv.calls| - 1], new_.calls[|prv.calls| - 1])
  }

  function Diffs(prv: Message, new_: Message): Result<seq<Diff>> {
    var r := TextDiffs(prv.reasoning, new_.reasoning, false);
    var c := TextDiffs(prv.content, new_.content, true);
    if r.Err? || c.Err? || |new_.calls| < |prv.calls| then Err
    else
      var t := LastCallDiffs(prv, new_);
      if t.Err? then Err else Ok(r.value + c.value + t.value + NewCalls(new_.calls, |prv.calls|))
  }

  /** The part of the diff that concerns the last call of the previous message. */
  method ComputeCallDiff(idx: nat, pref: ToolCall, newf: ToolCall) returns (result: Result<seq<Diff>>)
    ensures result == CallDiff(idx, pref, newf)
  {
    if pref.name != newf.name && pref.name != "" && newf.name != "" {
      if !(pref.name <= newf.name) {
        return Err;
      }
    }
    var argsDiff := StringDiff(pref.arguments, newf.arguments);
    if argsDiff.Err? { return Err; }
    if argsDiff.value != "" || pref.id != newf.id || pref.name != newf.name {
      var delta := NoCall;
      if pref.id != newf.id || pref.name != newf.name {
        delta := delta.(id := newf.id, name := newf.name);
      }
      delta := delta.(arguments := argsDiff.value);
      return Ok([NoDiff.(index := idx, call := delta)]);
    }
    return Ok([]);
  }

  method ComputeDiffs(prv: Message, new_: Message) returns (result: Result<seq<Diff>>)
    ensures result == Diffs(prv, new_)
  {
    hide StringDiff, NewCalls, CallDiff;
    var diffs := [];
    if prv.reasoning != new_.reasoning {
      var d := StringDiff(prv.reasoning, new_.reasoning);
      if d.Err? { return Err; }
      diffs := diffs + [NoDiff.(reasoning := d.value)];
    }
    ghost var r := TextDiffs(prv.reasoning, new_.reasoning, false).value;
    ghost var c := TextDiffs(prv.content, new_.content, true);
    if prv.content != new_.content {
      var d := StringDiff(prv.content, new_.content);
      if d.Err? { return Err; }
      diffs := diffs + [NoDiff.(content := d.value)];
    }
    assert diffs == r + c.value;
    if |new_.calls| < |prv.calls| {
      return Err;
    }
    if prv.calls != [] {
      var idx := |prv.calls| - 1;
      var d := ComputeCallDiff(idx, prv.calls[idx], new_.calls[idx]);
      if d.Err? { return Err; }
      diffs := diffs + d.value;
    }
    ghost var before := diffs;
    assert before == r + c.value + LastCallDiffs(prv, new_).value;
    hide TextDiffs, LastCallDiffs;
    for idx := |prv.calls| to |new_.calls|
      invariant diffs == before + NewCalls(new_.calls, |prv.calls|)[..idx - |prv.calls|]
    {
      diffs := diffs + [NoDiff.(index := idx, call := new_.calls[idx])];
    }
    assert diffs == before + NewCalls(new_.calls, |prv.calls|);
    return Ok(diffs);
  }

  // ---------------------------------------------------------------------------
  // The receiving side
  // ---------------------------------------------------------------------------

  function ApplyToCall(call: ToolCall, delta: ToolCall): ToolCall {
    var named := if delta.id != "" || delta.name != "" then call.(id := delta.id, name := delta.name) else call;
    named.(arguments := call.arguments + delta.arguments)
  }

  /** A client appends text deltas; a delta for the next free call index starts a new call. */
  function Apply(msg: Message, d: Diff): Message {
    var texts := msg.(reasoning := msg.reasoning + d.reasoning, content := msg.content + d.content);
    if 0 <= d.index < |msg.calls| then
      texts.(calls := msg.calls[d.index := ApplyToCall(msg.calls[d.index], d.call)])
    else if d.index == |msg.calls| then texts.(calls := msg.calls + [d.call])
    else texts
  }

  function ApplyAll(msg: Message, diffs: seq<Diff>): Message
    decreases |diffs|
  {
    if diffs == [] then msg else ApplyAll(Apply(msg, diffs[0]), diffs[1..])
  }

  // ---------------------------------------------------------------------------
  // When diffs exist, and when they rebuild the message
  // ---------------------------------------------------------------------------

  predicate Comparable(a: string, b: string) { a <= b || b <= a }

  /** The two snapshots for which no "Invalid diff" error is raised. */
  predicate Compatible(prv: Message, new_: Message) {
    && Comparable(prv.reasoning, new_.reasoning)
    && Comparable(prv.content, new_.content)
    && |prv.calls| <= |new_.calls|
    && (prv.calls != [] ==>
          var p, n := prv.calls[|prv.calls| - 1], new_.calls[|prv.calls| - 1];
          (p.name == "" || n.name == "" || p.name <= n.name) && Comparable(p.arguments, n.arguments))
  }

  lemma DiffsExist(prv: Message, new_: Message)
    ensures Diffs(prv, new_).Ok? <==> Compatible(prv, new_)
  {
    hide NewCalls;
  }

  /** What a text gained; nothing if it does not continue the old one. */
  function Gained(old_: string, new_: string): string { if old_ <= new_ then new_[|old_|..] else "" }

  /** What a client is told of the last old call: identifier and name together if either changed. */
  function CallNews(index: int, p: ToolCall, n: ToolCall): seq<Diff> {
    var more := Gained(p.arguments, n.arguments);
    if p.id != n.id || p.name != n.name then [Diff("", "", index, ToolCall(n.name, more, n.id))]
    else if more != "" then [Diff("", "", index, ToolCall("", more, ""))]
    else []
  }

  /**
   The deltas themselves: one for each text that changed, one for the last old call if it changed,
   and one for each new call with its index; nothing for what stays.
   */
  lemma DeltasAre(prv: Message, new_: Message)
    requires Compatible(prv, new_)
    ensures var n := |prv.calls|;
            Diffs(prv, new_) == Ok(
              (if prv.reasoning == new_.reasoning then []
               else [Diff(Gained(prv.reasoning, new_.reasoning), "", -1, ToolCall("", "", ""))])
              + (if prv.content == new_.content then []
                 else [Diff("", Gained(prv.content, new_.content), -1, ToolCall("", "", ""))])
              + (if n == 0 then [] else CallNews(n - 1, prv.calls[n - 1], new_.calls[n - 1]))
              + seq(|new_.calls| - n, k requires 0 <= k < |new_.calls| - n => Diff("", "", n + k, new_.calls[n + k])))
  {
    var n := |prv.calls|;
    assert NewCalls(new_.calls, n) ==
           seq(|new_.calls| - n, k requires 0 <= k < |new_.calls| - n => Diff("", "", n + k, new_.calls[n + k]));
    hide NewCalls;
    assert Gained(prv.reasoning, new_.reasoning) == StringDiff(prv.reasoning, new_.reasoning).value;
    assert Gained(prv.content, new_.content) == StringDiff(prv.content, new_.content).value;
  }

  /** A message that did not change gives no delta. */
  lemma NothingToSay(m: Message)
    ensures Diffs(m, m) == Ok([])
  {
    assert NewCalls(m.calls, |m.calls|) == [];
    hide NewCalls;
    if m.calls != [] {
      SameText(m.calls[|m.calls| - 1].arguments);
      assert CallDiff(|m.calls| - 1, m.calls[|m.calls| - 1], m.calls[|m.calls| - 1]) == Ok([]);
    }
    var none: seq<Diff> := [];
    assert LastCallDiffs(m, m) == Ok(none) && none + none + none + NewCalls(m.calls, |m.calls|) == none;
  }

  lemma SameText(s: string)
    ensures StringDiff(s, s) == Ok("")
  {
    assert s[|s|..] == "";
  }

  predicate CallExtends(p: ToolCall, n: ToolCall) {
    && (p.name == "" || n.name == "" || p.name <= n.name)
    && p.arguments <= n.arguments
    && ((p.id == n.id && p.name == n.name) || n.id != "" || n.name != "")
  }

  /** `new_` continues `prv`: texts grow, only the last call changes, calls are only added. */
  predicate Extends(prv: Message, new_: Message) {
    && prv.reasoning <= new_.reasoning
    && prv.content <= new_.content
    && |prv.calls| <= |new_.calls|
    && (prv.calls != [] ==>
          var k := |prv.calls| - 1;
          prv.calls[..k] == new_.calls[..k] && CallExtends(prv.calls[k], new_.calls[k]))
  }

  lemma {:induction false} ApplyConcat(msg: Message, a: seq<Diff>, b: seq<Diff>)
    ensures ApplyAll(msg, a + b) == ApplyAll(ApplyAll(msg, a), b)
    decreases |a|
  {
    hide Apply;
    if a == [] {
      assert a + b == b;
    } else {
      ApplyConcat(Apply(msg, a[0]), a[1..], b);
      assert (a + b)[1..] == a[1..] + b;
    }
  }

  lemma ApplyOne(msg: Message, d: Diff)
    ensures ApplyAll(msg, [d]) == Apply(msg, d)
  {
    assert [d][1..] == [];
  }

  /** What applying a text delta gives, for any two texts with a diff. */
  lemma ApplyText(old_: string, new_: string)
    requires StringDiff(old_, new_).Ok?
    ensures old_ + StringDiff(old_, new_).value == new_ <==> old_ <= new_
    ensures old_ + StringDiff(old_, new_).value == if old_ <= new_ then new_ else old_
  {}

  lemma {:induction false} ApplyNewCalls(msg: Message, calls: seq<ToolCall>)
    requires |msg.calls| <= |calls|
    ensures ApplyAll(msg, NewCalls(calls, |msg.calls|)) == msg.(calls := msg.calls + calls[|msg.calls|..])
    decreases |calls| - |msg.calls|
  {
    var k := |msg.calls|;
    if k < |calls| {
      var next := msg.(calls := msg.calls + [calls[k]]);
      var ds := NewCalls(calls, k);
      assert ds[1..] == NewCalls(calls, k + 1);
      assert Apply(msg, ds[0]) == next;
      ApplyNewCalls(next, calls);
      assert next.calls + calls[k + 1..] == msg.calls + calls[k..];
    } else {
      assert msg.calls + calls[k..] == msg.calls;
    }
  }

  lemma ApplyTexts(prv: Message, new_: Message, r: seq<Diff>, c: seq<Diff>)
    requires TextDiffs(prv.reasoning, new_.reasoning, false) == Ok(r)
    requires TextDiffs(prv.content, new_.content, true) == Ok(c)
    ensures ApplyAll(prv, r + c) == Message(
              if prv.content <= new_.content then new_.content else prv.content,
              if prv.reasoning <= new_.reasoning then new_.reasoning else prv.reasoning,
              prv.calls)
  {
    ApplyConcat(prv, r, c);
    var m := ApplyAll(prv, r);
    if r != [] {
      ApplyText(prv.reasoning, new_.reasoning);
      ApplyOne(prv, r[0]);
    }
    assert m == prv.(reasoning := if prv.reasoning <= new_.reasoning then new_.reasoning else prv.reasoning);
    if c != [] {
      ApplyText(prv.content, new_.content);
      ApplyOne(m, c[0]);
    }
  }

  /** The last old call after its delta. */
  function Patched(p: ToolCall, n: ToolCall): ToolCall {
    var named := if (p.id != n.id || p.name != n.name) && (n.id != "" || n.name != "") then p.(id := n.id, name := n.name) else p;
    named.(arguments := if p.arguments <= n.arguments then n.arguments else p.arguments)
  }

  lemma ApplyLastCall(msg: Message, prv: Message, new_: Message, t: seq<Diff>)
    requires msg.calls == prv.calls && |prv.calls| <= |new_.calls|
    requires LastCallDiffs(prv, new_) == Ok(t)
    ensures ApplyAll(msg, t) ==
              if prv.calls == [] then msg
              else
                var k := |prv.calls| - 1;
                msg.(calls := prv.calls[k := Patched(prv.calls[k], new_.calls[k])])
  {
    if prv.calls != [] {
      var k := |prv.calls| - 1;
      var p, n := prv.calls[k], new_.calls[k];
      ApplyText(p.arguments, n.arguments);
      if t != [] {
        ApplyOne(msg, t[0]);
        assert ApplyToCall(p, t[0].call) == Patched(p, n);
      } else {
        assert p == Patched(p, n);
      }
    }
  }

  lemma Rebuilt(prv: Message, new_: Message)
    requires Compatible(prv, new_)
    ensures Diffs(prv, new_).Ok?
    ensures var k := |prv.calls| - 1;
            ApplyAll(prv, Diffs(prv, new_).value) == Message(
              if prv.content <= new_.content then new_.content else prv.content,
              if prv.reasoning <= new_.reasoning then new_.reasoning else prv.reasoning,
              (if prv.calls == [] then [] else prv.calls[..k] + [Patched(prv.calls[k], new_.calls[k])])
                + new_.calls[|prv.calls|..])
  {
    hide Apply, ApplyAll, NewCalls, LastCallDiffs, TextDiffs, Patched, NameMayBecome, Comparable;
    DiffsExist(prv, new_);
    var r := TextDiffs(prv.reasoning, new_.reasoning, false).value;
    var c := TextDiffs(prv.content, new_.content, true).value;
    var t := LastCallDiffs(prv, new_).value;
    var w := NewCalls(new_.calls, |prv.calls|);
    ApplyConcat(prv, r + c + t, w);
    ApplyConcat(prv, r + c, t);
    ApplyTexts(prv, new_, r, c);
    var m := ApplyAll(prv, r + c);
    ApplyLastCall(m, prv, new_, t);
    ApplyNewCalls(ApplyAll(m, t), new_.calls);
  }

  /**
   One step is faithful exactly if the new snapshot continues the old one: no error is raised and
   applying the deltas turns the old snapshot into the new.
   */
  lemma StepIsFaithful(prv: Message, new_: Message)
    ensures Diffs(prv, new_).Ok? && ApplyAll(prv, Diffs(prv, new_).value) == new_ <==> Extends(prv, new_)
  {
    DiffsExist(prv, new_);
    if Compatible(prv, new_) {
      Rebuilt(prv, new_);
      hide ApplyAll, Diffs, NameMayBecome;
      SplitCalls(prv, new_);
    }
  }

  lemma SplitCalls(prv: Message, new_: Message)
    requires |prv.calls| <= |new_.calls|
    ensures var k := |prv.calls| - 1;
            (if prv.calls == [] then [] else prv.calls[..k] + [Patched(prv.calls[k], new_.calls[k])])
                + new_.calls[|prv.calls|..] == new_.calls
            <==> (prv.calls != [] ==> prv.calls[..k] == new_.calls[..k] && Patched(prv.calls[k], new_.calls[k]) == new_.calls[k])
  {
    if prv.calls != [] {
      hide Patched;
      var n, k := |prv.calls|, |prv.calls| - 1;
      var a := prv.calls[..k] + [Patched(prv.calls[k], new_.calls[k])];
      assert new_.calls == new_.calls[..k] + [new_.calls[k]] + new_.calls[n..];
      if a + new_.calls[n..] == new_.calls {
        assert (a + new_.calls[n..])[..k] == prv.calls[..k];
        assert (a + new_.calls[n..])[k] == Patched(prv.calls[k], new_.calls[k]);
      }
    }
  }

  /** Every snapshot of the run continues the one before it. */
  ghost predicate IsRun(first: Message, rest: seq<Message>)
    decreases |rest|
  {
    rest == [] || (Extends(first, rest[0]) && IsRun(rest[0], rest[1..]))
  }

  /** What a client has after applying the deltas of a whole run, if no step fails. */
  function Received(first: Message, rest: seq<Message>, client: Message): Result<Message>
    decreases |rest|
  {
    if rest == [] then Ok(client)
    else
      var d := Diffs(first, rest[0]);
      if d.Err? then Err else Received(rest[0], rest[1..], ApplyAll(client, d.value))
  }

  /** Over a whole run no step fails and the client ends with the last snapshot. */
  lemma {:induction false} RunIsFaithful(first: Message, rest: seq<Message>)
    requires IsRun(first, rest)
    ensures Received(first, rest, first) == Ok(if rest == [] then first else rest[|rest| - 1])
    decreases |rest|
  {
    hide Diffs, Extends, ApplyAll;
    if rest == [] {
    } else {
      StepIsFaithful(first, rest[0]);
      RunIsFaithful(rest[0], rest[1..]);
    }
  }

  // ---------------------------------------------------------------------------
  // Identifiers of tool calls
  // ---------------------------------------------------------------------------

  /** Identifiers handed out so far and the number of them that were generated. */
  datatype Ids = Ids(cache: seq<string>, generated: nat)

  /** `gen(n)` is what the generator returns when it is called for the n-th time. */
  function AddId(ids: Ids, call: ToolCall, gen: nat -> string): Ids {
    if call.id != "" then ids.(cache := ids.cache + [call.id])
    else Ids(ids.cache + [gen(ids.generated)], ids.generated + 1)
  }

  /** Identifiers after all calls from number `k` on have one. */
  function AddIds(ids: Ids, calls: seq<ToolCall>, gen: nat -> string): (r: Ids)
    ensures ids.cache <= r.cache && |r.cache| >= |calls|
    ensures |ids.cache| >= |calls| ==> r == ids
    decreases |calls| - |ids.cache|
  {
    if |ids.cache| >= |calls| then ids else AddIds(AddId(ids, calls[|ids.cache|], gen), calls, gen)
  }

  /** One call more. */
  lemma {:induction false} AddIdsSnoc(ids: Ids, calls: seq<ToolCall>, call: ToolCall, gen: nat -> string)
    ensures var r := AddIds(ids, calls, gen);
            AddIds(ids, calls + [call], gen) == if |r.cache| > |calls| then r else AddId(r, call, gen)
    decreases |calls| - |ids.cache|
  {
    if |ids.cache| < |calls| {
      AddIdsSnoc(AddId(ids, calls[|ids.cache|], gen), calls, call, gen);
    }
  }

  function WithIds(calls: seq<ToolCall>, cache: seq<string>): (r: seq<ToolCall>)
    requires |calls| <= |cache|
    ensures |r| == |calls|
  {
    seq(|calls|, i requires 0 <= i < |calls| => calls[i].(id := cache[i]))
  }

  class IdCache {
    var cache: seq<string>
    var generated: nat

    method SetToolCallIds(calls: seq<ToolCall>, gen: nat -> string) returns (out: seq<ToolCall>)
      modifies this
      ensures Ids(cache, generated) == AddIds(old(Ids(cache, generated)), calls, gen)
      ensures out == WithIds(calls, cache)
      ensures old(cache) <= cache
    {
      hide AddIds, AddId;
      out := [];
      NoIdsAdded(Ids(cache, generated), gen);
      for i := 0 to |calls|
        invariant Ids(cache, generated) == AddIds(old(Ids(cache, generated)), calls[..i], gen)
        invariant out == WithIds(calls[..i], cache)
      {
        assert calls[..i + 1] == calls[..i] + [calls[i]];
        AddIdsSnoc(old(Ids(cache, generated)), calls[..i], calls[i], gen);
        OneIdAdded(Ids(cache, generated), calls[i], gen);
        if |cache| <= i {
          var id := calls[i].id;
          if id == "" {
            id := gen(generated);
            generated := generated + 1;
          }
          cache := cache + [id];
        }
        out := out + [calls[i].(id := cache[i])];
      }
      assert calls[..|calls|] == calls;
    }
  }

  lemma NoIdsAdded(ids: Ids, gen: nat -> string)
    ensures AddIds(ids, [], gen) == ids
  {}

  lemma OneIdAdded(ids: Ids, call: ToolCall, gen: nat -> string)
    ensures AddId(ids, call, gen) ==
            Ids(ids.cache + [if call.id == "" then gen(ids.generated) else call.id],
                if call.id == "" then ids.generated + 1 else ids.generated)
  {}

  /** The run of messages that clients see: every snapshot gets its identifiers from one cache. */
  function Stamp(ids: Ids, msgs: seq<Message>, gen: nat -> string): seq<Message>
    decreases |msgs|
  {
    if msgs == [] then []
    else
      var next := AddIds(ids, msgs[0].calls, gen);
      [msgs[0].(calls := WithIds(msgs[0].calls, next.cache))] + Stamp(next, msgs[1..], gen)
  }

  predicate NoBlank(cache: seq<string>) {
    forall k :: 0 <= k < |cache| ==> cache[k] != ""
  }

  /** Identifiers are never blank when the generator never returns a blank one. */
  lemma {:induction false} IdsNotBlank(ids: Ids, calls: seq<ToolCall>, gen: nat -> string)
    requires forall n: nat :: gen(n) != ""
    requires NoBlank(ids.cache)
    ensures NoBlank(AddIds(ids, calls, gen).cache)
    decreases |calls| - |ids.cache|
  {
    if |ids.cache| < |calls| {
      IdsNotBlank(AddId(ids, calls[|ids.cache|], gen), calls, gen);
    }
  }

  /** Stamping keeps the relation between consecutive snapshots, now with fixed identifiers. */
  lemma StampedExtends(prv: Message, new_: Message, cache: seq<string>, more: seq<string>)
    requires Extends(prv, new_)
    requires |prv.calls| <= |cache| && cache <= more && |new_.calls| <= |more|
    requires NoBlank(more)
    ensures Extends(prv.(calls := WithIds(prv.calls, cache)), new_.(calls := WithIds(new_.calls, more)))
  {
    var a, b := WithIds(prv.calls, cache), WithIds(new_.calls, more);
    if a != [] {
      var k := |a| - 1;
      forall i | 0 <= i < k ensures a[..k][i] == b[..k][i] {
        assert prv.calls[..k][i] == new_.calls[..k][i];
      }
    }
  }

  /** Whether a diff between two snapshots fails does not depend on the identifiers. */
  lemma StampedFailsAlike(prv: Message, new_: Message, cache: seq<string>, more: seq<string>)
    requires |prv.calls| <= |cache| && |new_.calls| <= |more|
    ensures Diffs(prv.(calls := WithIds(prv.calls, cache)), new_.(calls := WithIds(new_.calls, more))).Err? <==>
            Diffs(prv, new_).Err?
  {
    DiffsExist(prv, new_);
    DiffsExist(prv.(calls := WithIds(prv.calls, cache)), new_.(calls := WithIds(new_.calls, more)));
    hide Diffs, Comparable, NameMayBecome;
  }

  /**
   Stamping a run gives a run: identifiers, once assigned, never change, whatever the snapshots
   themselves say about them, and so the stamped run is streamed without failure.
   */
  lemma {:induction false} StampedRun(first: Message, rest: seq<Message>, ids: Ids, gen: nat -> string)
    requires IsRun(first, rest)
    requires |first.calls| <= |ids.cache|
    requires forall n: nat :: gen(n) != ""
    requires NoBlank(ids.cache)
    ensures IsRun(first.(calls := WithIds(first.calls, ids.cache)), Stamp(ids, rest, gen))
    decreases |rest|
  {
    hide Extends;
    if rest == [] {
    } else {
      var next := AddIds(ids, rest[0].calls, gen);
      IdsNotBlank(ids, rest[0].calls, gen);
      StampedExtends(first, rest[0], ids.cache, next.cache);
      StampedRun(rest[0], rest[1..], next, gen);
      assert Stamp(ids, rest, gen)[1..] == Stamp(next, rest[1..], gen);
    }
  }

  /** The identifier of a call is the same in every later snapshot that has the call. */
  lemma {:induction false} IdsStayFixed(ids: Ids, msgs: seq<Message>, gen: nat -> string, j: nat, k: nat)
    requires j < |msgs| && k < |msgs[j].calls| && k < |ids.cache|
    ensures |Stamp(ids, msgs, gen)| == |msgs|
    ensures |Stamp(ids, msgs, gen)[j].calls| == |msgs[j].calls|
    ensures Stamp(ids, msgs, gen)[j].calls[k].id == ids.cache[k]
    decreases |msgs|
  {
    var next := AddIds(ids, msgs[0].calls, gen);
    if j > 0 {
      IdsStayFixed(next, msgs[1..], gen, j - 1, k);
    } else {
      StampLength(next, msgs[1..], gen);
    }
  }

  lemma {:induction false} StampLength(ids: Ids, msgs: seq<Message>, gen: nat -> string)
    ensures |Stamp(ids, msgs, gen)| == |msgs|
    decreases |msgs|
  {
    if msgs == [] {
    } else {
      StampLength(AddIds(ids, msgs[0].calls, gen), msgs[1..], gen);
    }
  }
}
