/**
 Whole chains of operations on a deferred tensor, as a model conversion applies them, against the
 same chain on the product.
 */
module LoraRuns {
  import opened Arithmetic
  import opened Tensors
  import opened LoraTensor
  import opened LoraIndexing
  import opened LoraEllipsis
  import opened LoraReshaping
  import opened Wrappers

  // ---------------------------------------------------------------------------
  // Equal tensors stay equal
  // ---------------------------------------------------------------------------

  predicate IxInRange(ix: Ix, d: nat) {
    match ix
    case Pick(i) => i < d
    case Take(start, count, step) => count > 0 ==> start + step * (count - 1) < d
  }

  predicate InRange(ixs: seq<Ix>, shape: Shape) {
    |ixs| == |shape| && forall i :: 0 <= i < |ixs| ==> IxInRange(ixs[i], shape[i])
  }

  lemma {:induction false} TakeInRange(start: nat, step: nat, count: nat, x: nat, d: nat)
    requires x < count && start + step * (count - 1) < d
    ensures start + step * x < d
  {
    NonNegative(step, count - 1 - x);
    assert step * (count - 1) == step * x + step * (count - 1 - x);
  }

  lemma {:induction false} WithinAppend(idx: Index, shape: Shape, x: nat, d: nat)
    requires Within(idx, shape) && x < d
    ensures Within(idx + [x], shape + [d])
  {}

  lemma {:induction false} SourceWithin(ixs: seq<Ix>, shape: Shape, idx: Index)
    requires InRange(ixs, shape) && Within(idx, IxShape(ixs))
    ensures Within(Source(ixs, idx), shape)
    decreases |ixs|
  {
    hide Source, IxShape;
    if ixs == [] {
      NoAxesSource(idx);
    } else {
      TakeSource(ixs, idx);
      assert IxInRange(Last(ixs), Last(shape)) && shape == Front(shape) + [Last(shape)];
      if Last(ixs).Pick? {
        SourceWithin(Front(ixs), Front(shape), idx);
        WithinAppend(Source(Front(ixs), idx), Front(shape), Last(ixs).i, Last(shape));
      } else {
        WithinFront(idx, IxShape(Front(ixs)), Last(ixs).count);
        SourceWithin(Front(ixs), Front(shape), Front(idx));
        TakeInRange(Last(ixs).start, Last(ixs).step, Last(ixs).count, Last(idx), Last(shape));
        WithinAppend(Source(Front(ixs), Front(idx)), Front(shape), Last(ixs).start + Last(ixs).step * Last(idx), Last(shape));
      }
    }
  }

  lemma {:induction false} NoAxesSource(idx: Index)
    requires |idx| == |IxShape([])|
    ensures Source([], idx) == []
  {}

  lemma {:induction false} GatherSame(s: Tensor, t: Tensor, ixs: seq<Ix>)
    requires Same(s, t) && InRange(ixs, s.shape)
    ensures Same(Gather(s, ixs), Gather(t, ixs))
  {
    hide Source, IxShape, InRange;
    forall idx: Index | Within(idx, IxShape(ixs))
      ensures s.at(Source(ixs, idx)) == t.at(Source(ixs, idx))
    {
      SourceWithin(ixs, s.shape, idx);
    }
  }

  lemma {:induction false} ResolveInRange(p: PyIx, d: nat)
    requires Resolve(p, d).Some?
    ensures IxInRange(Resolve(p, d).value, d)
  {
    if p.Slice? {
      var s := if p.start.Some? then Clamp(p.start.value, d) else 0;
      var e := if p.stop.Some? then Clamp(p.stop.value, d) else d;
      if e > s {
        DivMod(e - s + p.step - 1, p.step);
        var c := (e - s + p.step - 1) / p.step;
        assert p.step * (c - 1) == p.step * c - p.step;
      }
    }
  }

  lemma {:induction false} TorchIndexSame(s: Tensor, t: Tensor, ps: seq<PyIx>)
    requires Same(s, t) && TorchIndex(s, ps).Some?
    ensures TorchIndex(t, ps).Some? && Same(TorchIndex(s, ps).value, TorchIndex(t, ps).value)
  {
    hide Resolve, Gather, Same;
    SameShape(s, t);
    var full := ps + Fulls(|s.shape| - |ps|);
    var ixs := ResolveAll(full, s.shape).value;
    forall i | 0 <= i < |ixs|
      ensures IxInRange(ixs[i], s.shape[i])
    {
      ResolveInRange(full[i], s.shape[i]);
    }
    GatherSame(s, t, ixs);
  }

  lemma {:induction false} NarrowSame(s: Tensor, t: Tensor, dim: nat, off: nat, size: nat)
    requires Same(s, t) && dim < |s.shape| && off + size <= s.shape[dim]
    ensures Same(Narrow(s, dim, off, size), Narrow(t, dim, off, size))
  {
    hide Same, Gather;
    SameShape(s, t);
    GatherSame(s, t, AllOf(s.shape)[dim := Take(off, size, 1)]);
  }

  lemma {:induction false} FlatWithin(idx: Index, s: Shape)
    requires Within(idx, s)
    ensures Flat(idx, s) < Prod(s)
    decreases |s|
  {
    if s == [] {
    } else {
      WithinFront(idx, Front(s), Last(s));
      FlatWithin(Front(idx), Front(s));
      NonNegative(Prod(Front(s)) - 1 - Flat(Front(idx), Front(s)), Last(s));
      assert Prod(Front(s)) * Last(s) ==
             Flat(Front(idx), Front(s)) * Last(s) + Last(s)
             + (Prod(Front(s)) - 1 - Flat(Front(idx), Front(s))) * Last(s);
    }
  }

  lemma {:induction false} TimesBound(f: nat, n: nat, p: nat)
    requires n > 0 && f < p * n
    ensures Times(f, n) < p
    decreases f
  {
    if f >= n {
      assert (p - 1) * n == p * n - n;
      ZeroTimes(p, n);
      TimesBound(f - n, n, p - 1);
    }
  }

  lemma {:induction false} UnflatWithin(f: nat, s: Shape)
    requires f < Prod(s)
    ensures Within(Unflat(f, s), s)
    decreases |s|
  {
    if s == [] {
    } else {
      var n := Last(s);
      ZeroTimes(Prod(Front(s)), n);
      TimesBound(f, n, Prod(Front(s)));
      UnflatWithin(Times(f, n), Front(s));
      WithinAppend(Unflat(Times(f, n), Front(s)), Front(s), Rest(f, n), n);
      assert s == Front(s) + [n];
    }
  }

  lemma {:induction false} ReshapeSame(s: Tensor, t: Tensor, shape: Shape)
    requires Same(s, t) && Prod(shape) == Prod(s.shape)
    ensures Same(ReshapeTo(s, shape), ReshapeTo(t, shape))
  {
    hide Flat, Unflat, Prod;
    forall idx: Index | Within(idx, shape)
      ensures s.at(Unflat(Flat(idx, shape), s.shape)) == t.at(Unflat(Flat(idx, shape), s.shape))
    {
      FlatWithin(idx, shape);
      UnflatWithin(Flat(idx, shape), s.shape);
    }
  }

  lemma {:induction false} PermuteSame(s: Tensor, t: Tensor, dims: seq<nat>)
    requires Same(s, t) && IsPermutation(dims) && |dims| == |s.shape|
    ensures Same(PermuteTo(s, dims), PermuteTo(t, dims))
  {
    hide Unpermuted, IsPermutation;
    PermutationFacts(dims);
    forall idx: Index | Within(idx, PermutedShape(s.shape, dims))
      ensures s.at(Unpermuted(dims, idx, |dims|)) == t.at(Unpermuted(dims, idx, |dims|))
    {
      var src := Unpermuted(dims, idx, |dims|);
      forall d | 0 <= d < |dims|
        ensures src[d] < s.shape[d]
      {
        var i := Position(dims, d);
        assert idx[i] < PermutedShape(s.shape, dims)[i] == s.shape[d];
      }
    }
  }

  lemma {:induction false} PermutationFacts(dims: seq<nat>)
    requires IsPermutation(dims)
    ensures forall i :: 0 <= i < |dims| ==> dims[i] < |dims|
    ensures forall d :: 0 <= d < |dims| ==> d in dims
  {}

  lemma {:induction false} TorchTupleSame(s: Tensor, t: Tensor, tuple: TupleIx)
    requires Same(s, t) && TorchTuple(s, tuple).Some?
    ensures TorchTuple(t, tuple).Some? && Same(TorchTuple(s, tuple).value, TorchTuple(t, tuple).value)
  {
    hide TorchIndex, Meant;
    match tuple
    case Plain(ps) => TorchIndexSame(s, t, ps);
    case Dotted(pre, post) => TorchIndexSame(s, t, Meant(pre, post, |s.shape|));
  }

  lemma {:induction false} ExchangedSame(s: Tensor, t: Tensor, dim0: int, dim1: int)
    requires Same(s, t)
    ensures var n := |s.shape|;
            var i, j := if dim0 < 0 then dim0 + n else dim0, if dim1 < 0 then dim1 + n else dim1;
            0 <= i < n && 0 <= j < n ==> |t.shape| == n && Same(Exchanged(s, i, j), Exchanged(t, i, j))
  {
    var n := |s.shape|;
    var i, j := if dim0 < 0 then dim0 + n else dim0, if dim1 < 0 then dim1 + n else dim1;
    if 0 <= i < n && 0 <= j < n {
      forall idx: Index | Within(idx, s.shape[i := s.shape[j]][j := s.shape[i]])
        ensures s.at(idx[i := idx[j]][j := idx[i]]) == t.at(idx[i := idx[j]][j := idx[i]])
      {
        assert Within(idx[i := idx[j]][j := idx[i]], s.shape);
      }
    }
  }

  ghost predicate AllSame(ts: seq<Tensor>, us: seq<Tensor>) {
    |ts| == |us| && forall i :: 0 <= i < |ts| ==> Same(ts[i], us[i])
  }

  lemma {:induction false} AllSameShapes(ts: seq<Tensor>, us: seq<Tensor>)
    requires AllSame(ts, us)
    ensures forall i :: 0 <= i < |ts| ==> ts[i].shape == us[i].shape
  {}

  lemma {:induction false} StackedSame(ts: seq<Tensor>, us: seq<Tensor>)
    requires AllSame(ts, us) && SameShapes(ts)
    ensures SameShapes(us) && Same(Stacked(ts), Stacked(us))
  {
    AllSameShapes(ts, us);
    forall idx: Index | Within(idx, Stacked(ts).shape)
      ensures Stacked(ts).at(idx) == Stacked(us).at(idx)
    {
      var c, rest := idx[0], idx[1..];
      assert c < |ts| && ts[c].shape == ts[0].shape;
      assert forall i :: 0 <= i < |rest| ==> rest[i] == idx[i + 1] < Stacked(ts).shape[i + 1];
      assert Within(rest, ts[c].shape);
    }
  }

  lemma {:induction false} JoinedSame(ts: seq<Tensor>, us: seq<Tensor>)
    requires AllSame(ts, us) && SameRest(ts)
    ensures SameRest(us) && Same(Joined(ts), Joined(us))
  {
    hide JoinedAt, PartOf, Lengths;
    AllSameShapes(ts, us);
    SameTotals(ts, us);
    forall idx: Index | Within(idx, Joined(ts).shape)
      ensures Joined(ts).at(idx) == Joined(us).at(idx)
    {
      assert idx == [idx[0]] + idx[1..];
      JoinedSameEntry(ts, us, idx[0], idx[1..]);
    }
  }

  lemma {:induction false} JoinedSameEntry(ts: seq<Tensor>, us: seq<Tensor>, i: nat, rest: Index)
    requires AllSame(ts, us) && SameRest(ts) && SameRest(us) && Within([i] + rest, Joined(ts).shape)
    ensures Joined(ts).at([i] + rest) == Joined(us).at([i] + rest)
  {
    hide JoinedAt, PartOf, Joined, Same;
    AllSameShapes(ts, us);
    JoinedShape(ts);
    var shape := [Lengths(ts)] + ts[0].shape[1..];
    assert ([i] + rest)[0] < shape[0];
    SameParts(ts, us, i);
    JoinedEntry(ts, i, rest);
    JoinedEntry(us, i, rest);
    var (c, p) := PartOf(ts, i);
    assert ts[c].shape == [ts[c].shape[0]] + ts[0].shape[1..];
    forall k | 0 <= k < |rest|
      ensures rest[k] < ts[0].shape[1..][k]
    {
      assert ([i] + rest)[k + 1] < shape[k + 1];
    }
    SameEntries(ts[c], us[c], [p] + rest);
  }

  lemma {:induction false} SameEntries(s: Tensor, t: Tensor, idx: Index)
    requires Same(s, t) && Within(idx, s.shape)
    ensures s.at(idx) == t.at(idx)
  {}

  // ---------------------------------------------------------------------------
  // Chains
  // ---------------------------------------------------------------------------

  datatype Op =
    | GetIntOp(i: int)
    | GetSliceOp(p: PyIx)
    | GetTupleOp(tuple: TupleIx)
    | ReshapeOp(shape: seq<int>)
    | PermuteOp(dims: seq<int>)
    | TransposeOp(dim0: int, dim1: int)
    | ChunkOp(spec: SplitSpec, dim: int, c: nat)
    | StackOp(before: seq<Lora>, after: seq<Lora>)
    | CatOp(before: seq<Lora>, after: seq<Lora>)

  ghost function ApplyLora(l: Lora, op: Op): Option<Lora>
    requires Built(l)
  {
    match op
    case GetIntOp(i) => GetInt(l, i)
    case GetSliceOp(p) => if p.Slice? then GetSlice(l, p) else None
    case GetTupleOp(tuple) => GetTuple(l, ItemsOf(tuple))
    case ReshapeOp(shape) => Reshape(l, shape)
    case PermuteOp(dims) => Permute(l, dims)
    case TransposeOp(dim0, dim1) => Transpose(l, dim0, dim1)
    case StackOp(before, after) => Stack(before + [l] + after)
    case CatOp(before, after) => Cat(before + [l] + after)
    case ChunkOp(spec, dim, c) =>
      var chunks := Split(l, spec, dim);
      if chunks.Some? && c < |chunks.value| then Some(chunks.value[c]) else None
  }

  predicate AllBuilt(ls: seq<Lora>) { forall i :: 0 <= i < |ls| ==> Built(ls[i]) }

  /** `t` between the products of other deferred tensors. */
  function Among(before: seq<Lora>, t: Tensor, after: seq<Lora>): seq<Tensor>
    requires AllBuilt(before) && AllBuilt(after)
  {
    Denses(before) + [t] + Denses(after)
  }

  /** The operation on a plain tensor. */
  function ApplyTensor(t: Tensor, op: Op): Option<Tensor> {
    match op
    case GetIntOp(i) => TorchIndex(t, [Int(i)])
    case GetSliceOp(p) => TorchIndex(t, [p])
    case GetTupleOp(tuple) => TorchTuple(t, tuple)
    case ReshapeOp(shape) =>
      var s := Expand(shape, Prod(t.shape));
      if s.Some? && NonNegatives(s.value) && Prod(AsNats(s.value)) == Prod(t.shape) then
        Some(ReshapeTo(t, AsNats(s.value)))
      else None
    case PermuteOp(dims) =>
      var ds := Normal(dims, |t.shape|);
      if ds.Some? then Some(PermuteTo(t, ds.value)) else None
    case TransposeOp(dim0, dim1) =>
      var n := |t.shape|;
      var i, j := if dim0 < 0 then dim0 + n else dim0, if dim1 < 0 then dim1 + n else dim1;
      if 0 <= i < n && 0 <= j < n then Some(Exchanged(t, i, j)) else None
    case StackOp(before, after) =>
      if AllBuilt(before) && AllBuilt(after) && SameShapes(Among(before, t, after)) then
        Some(Stacked(Among(before, t, after)))
      else None
    case CatOp(before, after) =>
      if AllBuilt(before) && AllBuilt(after) && SameRest(Among(before, t, after)) then
        Some(Joined(Among(before, t, after)))
      else None
    case ChunkOp(spec, dim, c) =>
      var d := if dim < 0 then dim + |t.shape| else dim;
      if !(0 <= d < |t.shape|) then None
      else
        var sizes := SplitSizes(t.shape[d], spec);
        if sizes.Some? && c < |sizes.value| then Some(Narrow(t, d, Total(sizes.value[..c]), sizes.value[c])) else None
  }

  /** What the operation asks of the factors, beyond succeeding. */
  ghost predicate OpOk(l: Lora, op: Op)
    requires Built(l)
  {
    match op
    case GetSliceOp(p) => |l.A.shape| == 2 || FirstAxisOk(l, p)
    case GetTupleOp(tuple) => TupleIxOk(l, tuple)
    case ReshapeOp(_) => Rank(l) > 0
    case StackOp(before, after) => AllFit(before) && AllFit(after)
    case CatOp(before, after) => AllFit(before) && AllFit(after) && CatOk(before + [l] + after)
    case _ => true
  }

  lemma {:induction false} OffsetFits(sizes: seq<nat>, c: nat)
    requires c < |sizes|
    ensures Total(sizes[..c]) + sizes[c] <= Total(sizes)
    decreases c
  {
    if c > 0 {
      OffsetFits(sizes[1..], c - 1);
      assert sizes[..c][1..] == sizes[1..][..c - 1];
    } else {
      assert sizes[..0] == [];
    }
  }

  lemma {:induction false} DensesAmong(l: Lora, before: seq<Lora>, after: seq<Lora>)
    requires AllBuilt(before) && AllBuilt(after) && Built(l)
    ensures AllBuilt(before + [l] + after)
    ensures Denses(before + [l] + after) == Among(before, Dense(l), after)
  {
    hide Built, Dense;
    DensesAppend(before, [l]);
    DensesAppend(before + [l], after);
    assert Denses([l]) == [Dense(l)];
  }

  lemma {:induction false} DensesAppend(a: seq<Lora>, b: seq<Lora>)
    requires AllBuilt(a) && AllBuilt(b)
    ensures AllBuilt(a + b) && Denses(a + b) == Denses(a) + Denses(b)
  {
    hide Built, Dense, Denses;
    forall i | 0 <= i < |a + b|
      ensures Built((a + b)[i]) && Denses(a + b)[i] == (Denses(a) + Denses(b))[i]
    {
      assert (a + b)[i] == if i < |a| then a[i] else b[i - |a|];
    }
  }

  lemma {:induction false} StackOnDense(l: Lora, before: seq<Lora>, after: seq<Lora>)
    requires Fits(l) && AllFit(before) && AllFit(after) && Stack(before + [l] + after).Some?
    ensures SameShapes(Among(before, Dense(l), after))
    ensures Represents(Stack(before + [l] + after).value, Stacked(Among(before, Dense(l), after)))
  {
    hide Stack, Represents, Stacked;
    DensesAmong(l, before, after);
    StackCommutes(before + [l] + after);
  }

  lemma {:induction false} CatOnDense(l: Lora, before: seq<Lora>, after: seq<Lora>)
    requires Fits(l) && AllFit(before) && AllFit(after) && Cat(before + [l] + after).Some? && CatOk(before + [l] + after)
    ensures SameRest(Among(before, Dense(l), after))
    ensures Represents(Cat(before + [l] + after).value, Joined(Among(before, Dense(l), after)))
  {
    hide Cat, Represents, Joined, SameRest, CatOk;
    DensesAmong(l, before, after);
    var ls := before + [l] + after;
    if |ls[0].A.shape| == 2 {
      CatRowsCommutes(ls);
    } else {
      CatLeadCommutes(ls);
    }
  }

  /** One operation on the product itself. */
  lemma {:induction false} StepOnDense(l: Lora, op: Op)
    requires Fits(l) && ApplyLora(l, op).Some? && OpOk(l, op)
    ensures ApplyTensor(Dense(l), op).Some?
    ensures Represents(ApplyLora(l, op).value, ApplyTensor(Dense(l), op).value)
  {
    hide Represents, TorchIndex, GetInt, GetSlice, GetPadded, Reshape, Permute, Narrow, Dense, FirstAxisOk, TupleOk;
    DenseShape(l);
    match op {
      case GetIntOp(i) => IntCommutes(l, i);
      case GetSliceOp(p) => SliceCommutes(l, p);
      case GetTupleOp(tuple) => TupleIxCommutes(l, tuple);
      case ReshapeOp(shape) => ReshapeCommutes(l, shape);
      case PermuteOp(dims) => PermuteCommutes(l, dims);
      case TransposeOp(dim0, dim1) => TransposeCommutes(l, dim0, dim1);
      case StackOp(before, after) => StackOnDense(l, before, after);
      case CatOp(before, after) => CatOnDense(l, before, after);
      case ChunkOp(spec, dim, c) => SplitCommutes(l, spec, dim);
    }
  }

  lemma {:induction false} AmongSame(s: Tensor, t: Tensor, before: seq<Lora>, after: seq<Lora>)
    requires Same(s, t) && AllBuilt(before) && AllBuilt(after)
    ensures AllSame(Among(before, s, after), Among(before, t, after))
  {
    hide Same, Built, Dense, Denses;
    var ts, us := Among(before, s, after), Among(before, t, after);
    forall i | 0 <= i < |ts|
      ensures Same(ts[i], us[i])
    {
      if i != |before| {
        SameItself(ts[i]);
      }
    }
  }

  lemma {:induction false} StackedAmongSame(s: Tensor, t: Tensor, before: seq<Lora>, after: seq<Lora>)
    requires Same(s, t) && AllBuilt(before) && AllBuilt(after) && SameShapes(Among(before, s, after))
    ensures SameShapes(Among(before, t, after))
    ensures Same(Stacked(Among(before, s, after)), Stacked(Among(before, t, after)))
  {
    hide Same, Built, Among, AllSame, SameShapes, Stacked;
    AmongSame(s, t, before, after);
    StackedSame(Among(before, s, after), Among(before, t, after));
  }

  lemma {:induction false} JoinedAmongSame(s: Tensor, t: Tensor, before: seq<Lora>, after: seq<Lora>)
    requires Same(s, t) && AllBuilt(before) && AllBuilt(after) && SameRest(Among(before, s, after))
    ensures SameRest(Among(before, t, after))
    ensures Same(Joined(Among(before, s, after)), Joined(Among(before, t, after)))
  {
    hide Same, Built, Among, AllSame, SameRest, Joined;
    AmongSame(s, t, before, after);
    JoinedSame(Among(before, s, after), Among(before, t, after));
  }

  /** One operation on tensors that agree. */
  lemma {:induction false} StepSame(s: Tensor, t: Tensor, op: Op)
    requires Same(s, t) && ApplyTensor(s, op).Some?
    ensures ApplyTensor(t, op).Some? && Same(ApplyTensor(s, op).value, ApplyTensor(t, op).value)
  {
    hide Same, TorchIndex, TorchTuple, Narrow, ReshapeTo, PermuteTo, Exchanged, Prod, Normal, SplitSizes;
    hide Built, Among, SameShapes, SameRest, Stacked, Joined;
    SameShape(s, t);
    match op {
      case GetIntOp(i) => TorchIndexSame(s, t, [Int(i)]);
      case GetSliceOp(p) => TorchIndexSame(s, t, [p]);
      case GetTupleOp(tuple) => TorchTupleSame(s, t, tuple);
      case ReshapeOp(shape) => ReshapeSame(s, t, AsNats(Expand(shape, Prod(s.shape)).value));
      case PermuteOp(dims) => PermuteSame(s, t, Normal(dims, |s.shape|).value);
      case TransposeOp(dim0, dim1) => ExchangedSame(s, t, dim0, dim1);
      case StackOp(before, after) => StackedAmongSame(s, t, before, after);
      case CatOp(before, after) => JoinedAmongSame(s, t, before, after);
      case ChunkOp(spec, dim, c) =>
        var d := if dim < 0 then dim + |s.shape| else dim;
        var sizes := SplitSizes(s.shape[d], spec).value;
        OffsetFits(sizes, c);
        NarrowSame(s, t, d, Total(sizes[..c]), sizes[c]);
    }
  }

  ghost function RunLora(l: Lora, ops: seq<Op>): Option<Lora>
    requires Built(l)
    decreases |ops|
  {
    if ops == [] then Some(l)
    else
      match ApplyLora(l, ops[0])
      case None => None
      case Some(r) => if Built(r) then RunLora(r, ops[1..]) else None
  }

  function RunTensor(t: Tensor, ops: seq<Op>): Option<Tensor>
    decreases |ops|
  {
    if ops == [] then Some(t)
    else
      match ApplyTensor(t, ops[0])
      case None => None
      case Some(u) => RunTensor(u, ops[1..])
  }

  ghost predicate RunOk(l: Lora, ops: seq<Op>)
    requires Built(l)
    decreases |ops|
  {
    ops == [] ||
    (&& OpOk(l, ops[0])
     && (ApplyLora(l, ops[0]).Some? && Built(ApplyLora(l, ops[0]).value) ==>
           RunOk(ApplyLora(l, ops[0]).value, ops[1..])))
  }

  /** A chain on the factors ends with factors of what the chain makes of the product. */
  lemma {:induction false} RunCommutes(l: Lora, t: Tensor, ops: seq<Op>)
    requires Represents(l, t) && RunOk(l, ops) && RunLora(l, ops).Some?
    ensures RunTensor(t, ops).Some? && Represents(RunLora(l, ops).value, RunTensor(t, ops).value)
    decreases |ops|
  {
    hide ApplyLora, ApplyTensor, OpOk, Same, Dense;
    if ops == [] {
    } else {
      var r := ApplyLora(l, ops[0]).value;
      StepOnDense(l, ops[0]);
      var u := ApplyTensor(Dense(l), ops[0]).value;
      StepSame(Dense(l), t, ops[0]);
      SameTransitive(Dense(r), u, ApplyTensor(t, ops[0]).value);
      RunCommutes(r, ApplyTensor(t, ops[0]).value, ops[1..]);
    }
  }
}
