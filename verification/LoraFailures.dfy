/** Indices and joins that succeed on the factors and give something else than on the product. */
module LoraFailures {
  import opened Tensors
  import opened LoraTensor
  import opened LoraIndexing
  import opened LoraEllipsis
  import opened LoraReshaping
  import opened Wrappers

  function Constant(shape: Shape): Tensor { Tensor(shape, (idx: Index) => 1.0) }

  function Pair(a: Shape, b: Shape): Lora { Lora(Constant(a), Constant(b)) }

  function Range(a: nat, b: nat): PyIx { Slice(Some(a), Some(b), 1) }

  lemma {:induction false} RangeResolves(a: nat, b: nat, d: nat)
    requires a <= b
    ensures Resolve(Range(a, b), d) ==
            Some(if b <= d then Take(a, b - a, 1) else if a <= d then Take(a, d - a, 1) else Take(d, 0, 1))
  {}

  lemma {:induction false} ResolvesTo(ps: seq<PyIx>, shape: Shape, ixs: seq<Ix>)
    requires |ps| == |shape| == |ixs| && forall i :: 0 <= i < |ps| ==> Resolve(ps[i], shape[i]) == Some(ixs[i])
    ensures ResolveAll(ps, shape) == Some(ixs)
  {
    hide Resolve;
    var r := ResolveAll(ps, shape);
    assert r.Some? ==> r.value == ixs;
  }

  lemma {:induction false} ShapeOfThree(x: Ix, y: Ix, z: Ix)
    requires x.Take? && y.Take? && z.Take?
    ensures IxShape([x, y, z]) == [x.count, y.count, z.count]
  {
    TwoMore([x], y, z);
    IxShapeAppend([], x);
    assert [] + [x] == [x] && [x] + [y, z] == [x, y, z];
  }

  lemma {:induction false} ShapeOfFour(w: Ix, x: Ix, y: Ix, z: Ix)
    requires w.Take? && x.Take? && y.Take? && z.Take?
    ensures IxShape([w, x, y, z]) == [w.count, x.count, y.count, z.count]
  {
    ShapeOfThree(w, x, y);
    IxShapeAppend([w, x, y], z);
    assert [w, x, y] + [z] == [w, x, y, z];
  }

  /** `t[1:3]` on a broadcast A leaves A without entries. */
  lemma {:induction false} BroadcastSliceFails()
    ensures var l := Pair([1, 1, 1], [3, 1, 1]);
            && Fits(l) && GetSlice(l, Range(1, 3)).Some? && TorchIndex(Dense(l), [Range(1, 3)]).Some?
            && !Represents(GetSlice(l, Range(1, 3)).value, TorchIndex(Dense(l), [Range(1, 3)]).value)
  {
    hide Resolve, IxShape, TorchIndex, Represents, Dense;
    var l, p := Pair([1, 1, 1], [3, 1, 1]), Range(1, 3);
    RangeResolves(1, 3, 1);
    RangeResolves(1, 3, 3);
    FirstAxis(l.A, p);
    FirstAxis(l.B, p);
    assert AllOf([1, 1]) == [All(1), All(1)];
    assert l.A.shape[1..] == l.B.shape[1..] == [1, 1];
    assert forall x: Ix :: [x] + [All(1), All(1)] == [x, All(1), All(1)];
    ShapeOfThree(Take(1, 0, 1), All(1), All(1));
    ShapeOfThree(Take(1, 2, 1), All(1), All(1));
    SliceCommutes(l, p);
  }

  /** `t[0:1, :, :]` keeps both halves of A. */
  lemma {:induction false} LeadingSliceFails()
    ensures var l, ps := Pair([2, 1, 1], [2, 1, 1]), [Range(0, 1), FullSlice, FullSlice];
            && Fits(l) && GetPadded(l, ps).Some? && TorchIndex(Dense(l), ps).Some?
            && !Represents(GetPadded(l, ps).value, TorchIndex(Dense(l), ps).value)
  {
    hide Resolve, IxShape, TorchIndex, Represents, Dense, ResolveAll, LeadIxs;
    var l, ps := Pair([2, 1, 1], [2, 1, 1]), [Range(0, 1), FullSlice, FullSlice];
    RangeResolves(0, 1, 2);
    FullResolves(1);
    assert Front(ps) + [FullSlice] == ps;
    ResolvesTo(ps, l.B.shape, [Take(0, 1, 1), All(1), All(1)]);
    LeadOfOne(ps[0], 2);
    assert ps[..1] == [ps[0]] && Lead(l.A.shape) == [2];
    ShapeOfThree(All(2), All(1), All(1));
    ShapeOfThree(Take(0, 1, 1), All(1), All(1));
    assert [All(2)] + [All(1), All(1)] == [All(2), All(1), All(1)];
    TupleCommutes(l, ps);
  }

  lemma {:induction false} LeadOfOne(p: PyIx, d: nat)
    requires p.Slice?
    ensures LeadIxs([p], [d]) == Some([All(d)])
  {
    var r := LeadIxs([p], [d]);
    assert r.Some? ==> r.value == [All(d)];
  }

  /** `t[..., 0:1]` on four axes slices the second. */
  lemma {:induction false} EllipsisSliceFails()
    ensures var l, p := Pair([1, 1, 1, 2], [1, 1, 1, 1]), Range(0, 1);
            Fits(l) && GetTuple(l, Spread([], [p])).Some? && !EllipsisRight(l, [], [p])
  {
    hide Resolve, IxShape, TorchIndex, Represents, Dense, ResolveAll, LeadIxs, Same, TupleOk, GetTuple, Spread, EllipsisRight;
    var l, p := Pair([1, 1, 1, 2], [1, 1, 1, 1]), Range(0, 1);
    var used, meant := [FullSlice, p, FullSlice, FullSlice], [FullSlice, FullSlice, FullSlice, p];
    assert Used([], [p], 4) == used && Meant([], [p], 4) == meant;
    RangeResolves(0, 1, 1);
    RangeResolves(0, 1, 2);
    FullResolves(1);
    FullResolves(2);
    assert ShapeOf(l) == [1, 1, 1, 2];
    ResolvesTo(used, [1, 1, 1, 2], [All(1), All(1), All(1), All(2)]);
    ResolvesTo(meant, [1, 1, 1, 2], [All(1), All(1), All(1), All(1)]);
    ShapeOfFour(All(1), All(1), All(1), All(2));
    ShapeOfFour(All(1), All(1), All(1), All(1));
    EllipsisGets(l, [], [p]);
    assert Front(used) + [FullSlice] == used;
    ResolvesTo(used, l.B.shape, [All(1), All(1), All(1), All(1)]);
    LeadOfTwo(FullSlice, p, 1, 1);
    assert used[..2] == [FullSlice, p] && Lead(l.A.shape) == [1, 1];
    assert [All(1), All(1)] + [All(1), All(2)] == [All(1), All(1), All(1), All(2)];
    EllipsisMeans(l, [], [p]);
    OtherShapes(Dense(l), [All(1), All(1), All(1), All(2)], [All(1), All(1), All(1), All(1)]);
  }

  lemma {:induction false} LeadOfTwo(p: PyIx, q: PyIx, c: nat, d: nat)
    requires p.Slice? && q.Slice?
    ensures LeadIxs([p, q], [c, d]) == Some([All(c), All(d)])
  {
    var r := LeadIxs([p, q], [c, d]);
    assert r.Some? ==> r.value == [All(c), All(d)];
  }

  /** Joining two tensors whose A is broadcast gives an A for two parts and a B for four. */
  lemma {:induction false} BroadcastCatFails()
    ensures var l := Pair([1, 1, 1], [2, 1, 1]);
            && Fits(l) && Cat([l, l]).Some? && SameRest(Denses([l, l]))
            && !Represents(Cat([l, l]).value, Joined(Denses([l, l])))
  {
    var l := Pair([1, 1, 1], [2, 1, 1]);
    CatCommutes([l, l]);
  }
}
