/**
 Dense tensors over the reals, as far as convert_lora_to_gguf.py uses them: a shape and a value for
 every index, and the operations of the tensor library in terms of where each entry comes from.
 */
module Tensors {
  import opened Arithmetic
  import opened Wrappers

  type Shape = seq<nat>
  type Index = seq<nat>

  datatype Tensor = Tensor(shape: Shape, at: Index -> real)

  predicate Within(idx: Index, shape: Shape) {
    |idx| == |shape| && forall i :: 0 <= i < |idx| ==> idx[i] < shape[i]
  }

  ghost predicate Same(s: Tensor, t: Tensor) {
    s.shape == t.shape && forall idx: Index :: Within(idx, s.shape) ==> s.at(idx) == t.at(idx)
  }

  function Last<T>(s: seq<T>): T
    requires s != []
  {
    s[|s| - 1]
  }

  function Front<T>(s: seq<T>): seq<T>
    requires s != []
  {
    s[..|s| - 1]
  }

  // ---------------------------------------------------------------------------
  // Indexing and slicing
  // ---------------------------------------------------------------------------

  /** One axis of an index expression: a position, or `count` positions from `start` on. */
  datatype Ix = Pick(i: nat) | Take(start: nat, count: nat, step: nat)

  function All(d: nat): Ix { Take(0, d, 1) }

  function AllOf(shape: Shape): (r: seq<Ix>)
    ensures |r| == |shape| && forall i :: 0 <= i < |r| ==> r[i] == All(shape[i])
  {
    if shape == [] then [] else AllOf(Front(shape)) + [All(Last(shape))]
  }

  function IxShape(ixs: seq<Ix>): Shape {
    if ixs == [] then []
    else if Last(ixs).Take? then IxShape(Front(ixs)) + [Last(ixs).count]
    else IxShape(Front(ixs))
  }

  /** The index in the source of the entry at `idx` of the result. */
  function Source(ixs: seq<Ix>, idx: Index): (r: Index)
    requires |idx| == |IxShape(ixs)|
    ensures |r| == |ixs|
  {
    if ixs == [] then []
    else
      match Last(ixs)
      case Pick(i) => Source(Front(ixs), idx) + [i]
      case Take(start, count, step) => Source(Front(ixs), Front(idx)) + [start + step * Last(idx)]
  }

  function Gather(t: Tensor, ixs: seq<Ix>): Tensor {
    Tensor(IxShape(ixs), (idx: Index) => if |idx| == |IxShape(ixs)| then t.at(Source(ixs, idx)) else 0.0)
  }

  lemma {:induction false} IxShapeAppend(ixs: seq<Ix>, ix: Ix)
    ensures IxShape(ixs + [ix]) == if ix.Take? then IxShape(ixs) + [ix.count] else IxShape(ixs)
  {
    assert Front(ixs + [ix]) == ixs;
  }

  lemma {:induction false} SourceAppend(ixs: seq<Ix>, ix: Ix, idx: Index, x: nat)
    requires ix.Take? && |idx| == |IxShape(ixs)|
    ensures IxShape(ixs + [ix]) == IxShape(ixs) + [ix.count]
    ensures Source(ixs + [ix], idx + [x]) == Source(ixs, idx) + [ix.start + ix.step * x]
  {
    IxShapeAppend(ixs, ix);
    assert Front(ixs + [ix]) == ixs && Front(idx + [x]) == idx;
  }

  lemma {:induction false} ShapeOfAll(shape: Shape)
    ensures IxShape(AllOf(shape)) == shape
  {
    if shape == [] {
    } else {
      ShapeOfAll(Front(shape));
      IxShapeAppend(AllOf(Front(shape)), All(Last(shape)));
    }
  }

  lemma {:induction false} SourceOfAll(shape: Shape, idx: Index)
    requires |idx| == |shape|
    ensures IxShape(AllOf(shape)) == shape && Source(AllOf(shape), idx) == idx
  {
    ShapeOfAll(shape);
    if shape == [] {
    } else {
      SourceOfAll(Front(shape), Front(idx));
      SourceAppend(AllOf(Front(shape)), All(Last(shape)), Front(idx), Last(idx));
      assert idx == Front(idx) + [Last(idx)];
    }
  }

  // ---------------------------------------------------------------------------
  // Python's index expressions
  // ---------------------------------------------------------------------------

  datatype PyIx = Int(i: int) | Slice(start: Option<int>, stop: Option<int>, step: int)

  const FullSlice := Slice(None, None, 1)

  function Clamp(i: int, d: nat): (r: nat)
    ensures r <= d
  {
    var j := if i < 0 then i + d else i;
    if j < 0 then 0 else if j > d then d else j
  }

  /** How one index applies to an axis of length `d`; out of range and steps below 1 are errors. */
  function Resolve(p: PyIx, d: nat): Option<Ix> {
    match p
    case Int(i) => if 0 <= i + d && i < d then Some(Pick(if i < 0 then i + d else i)) else None
    case Slice(start, stop, step) =>
      if step <= 0 then None
      else
        var s := if start.Some? then Clamp(start.value, d) else 0;
        var e := if stop.Some? then Clamp(stop.value, d) else d;
        Some(Take(s, if e > s then Quotient(e - s + step - 1, step) else 0, step))
  }

  /** A slice that keeps the length of an axis of two or more keeps the axis. */
  lemma {:induction false} FullLengthIsFull(p: PyIx, d: nat)
    requires p.Slice? && Resolve(p, d).Some? && Resolve(p, d).value.count == d && d >= 2
    ensures Resolve(p, d).value == All(d)
  {
    var s := if p.start.Some? then Clamp(p.start.value, d) else 0;
    var e := if p.stop.Some? then Clamp(p.stop.value, d) else d;
    Ceiling(e - s, p.step, d);
  }

  lemma {:induction false} Ceiling(x: int, step: int, d: nat)
    requires step >= 1 && 0 < x <= d && d >= 2 && (x + step - 1) / step == d
    ensures step == 1 && x == d
  {
    DivMod(x + step - 1, step);
    if step >= 2 {
      assert step * d == 2 * d + (step - 2) * (d - 1) + (step - 2);
      NonNegative(step - 2, d - 1);
    }
  }

  lemma {:induction false} NonNegative(a: int, b: int)
    requires a >= 0 && b >= 0
    ensures a * b >= 0
  {}

  function ResolveAll(ps: seq<PyIx>, shape: Shape): (r: Option<seq<Ix>>)
    requires |ps| == |shape|
    ensures r.Some? ==> |r.value| == |ps| && forall i :: 0 <= i < |ps| ==> Resolve(ps[i], shape[i]) == Some(r.value[i])
    ensures r.None? ==> exists i :: 0 <= i < |ps| && Resolve(ps[i], shape[i]) == None
  {
    if ps == [] then Some([])
    else
      var front, last := ResolveAll(Front(ps), Front(shape)), Resolve(Last(ps), Last(shape));
      if front.None? || last.None? then
        assert last.None? ==> Resolve(ps[|ps| - 1], shape[|ps| - 1]) == None;
        None
      else Some(front.value + [last.value])
  }

  function Fulls(n: nat): (r: seq<PyIx>)
    ensures |r| == n && forall i :: 0 <= i < n ==> r[i] == FullSlice
  {
    if n == 0 then [] else Fulls(n - 1) + [FullSlice]
  }

  /** `t[ps]`; axes that are not mentioned are kept whole. */
  function TorchIndex(t: Tensor, ps: seq<PyIx>): Option<Tensor> {
    if |ps| > |t.shape| then None
    else
      match ResolveAll(ps + Fulls(|t.shape| - |ps|), t.shape)
      case None => None
      case Some(ixs) => Some(Gather(t, ixs))
  }

  // ---------------------------------------------------------------------------
  // Reshaping
  // ---------------------------------------------------------------------------

  function Prod(s: Shape): nat {
    if s == [] then 1 else Prod(Front(s)) * Last(s)
  }

  /** Row-major position. */
  function Flat(idx: Index, s: Shape): nat
    requires |idx| == |s|
  {
    if s == [] then 0 else Flat(Front(idx), Front(s)) * Last(s) + Last(idx)
  }

  /** How often `n` goes into `f`, and what is left. */
  function Times(f: nat, n: nat): nat
    requires n > 0
    decreases f
  {
    if f < n then 0 else 1 + Times(f - n, n)
  }

  function Rest(f: nat, n: nat): (r: nat)
    requires n > 0
    ensures r < n
    decreases f
  {
    if f < n then f else Rest(f - n, n)
  }

  /** The index at a row-major position. */
  function Unflat(f: nat, s: Shape): (r: Index)
    ensures |r| == |s|
    decreases |s|
  {
    if s == [] then []
    else if Last(s) == 0 then Unflat(f, Front(s)) + [0]
    else Unflat(Times(f, Last(s)), Front(s)) + [Rest(f, Last(s))]
  }

  function ReshapeTo(t: Tensor, s: Shape): Tensor {
    Tensor(s, (idx: Index) => if |idx| == |s| then t.at(Unflat(Flat(idx, s), t.shape)) else 0.0)
  }

  lemma {:induction false} TimesOf(f: nat, n: nat, j: nat)
    requires j < n
    ensures Times(f * n + j, n) == f && Rest(f * n + j, n) == j
    decreases f
  {
    if f == 0 {
    } else {
      assert f * n + j == (f - 1) * n + j + n;
      NonNegative(f - 1, n);
      TimesOf(f - 1, n, j);
    }
  }

  /** Splitting off the last axis. */
  lemma {:induction false} UnflatAppend(f: nat, s: Shape, n: nat, j: nat)
    requires j < n
    ensures Unflat(f * n + j, s + [n]) == Unflat(f, s) + [j]
  {
    TimesOf(f, n, j);
    assert Front(s + [n]) == s;
  }

  lemma {:induction false} FlatAppend(idx: Index, s: Shape, n: nat, j: nat)
    requires |idx| == |s|
    ensures Flat(idx + [j], s + [n]) == Flat(idx, s) * n + j
  {
    assert Front(s + [n]) == s && Front(idx + [j]) == idx;
  }

  // ---------------------------------------------------------------------------
  // Permuting axes
  // ---------------------------------------------------------------------------

  predicate IsPermutation(dims: seq<nat>) {
    && (forall i :: 0 <= i < |dims| ==> dims[i] < |dims|)
    && (forall d :: 0 <= d < |dims| ==> d in dims)
    && (forall i, j :: 0 <= i < j < |dims| ==> dims[i] != dims[j])
  }

  /** Where `d` stands among the first `n` of `dims`. */
  function Position(dims: seq<nat>, d: nat): (i: nat)
    requires d in dims
    ensures i < |dims| && dims[i] == d
  {
    if Last(dims) == d then |dims| - 1 else Position(Front(dims), d)
  }

  function PermutedShape(shape: Shape, dims: seq<nat>): (r: Shape)
    requires forall i :: 0 <= i < |dims| ==> dims[i] < |shape|
    ensures |r| == |dims| && forall i :: 0 <= i < |dims| ==> r[i] == shape[dims[i]]
  {
    if dims == [] then [] else PermutedShape(shape, Front(dims)) + [shape[Last(dims)]]
  }

  /** The first `n` coordinates in the source of the entry at `idx`. */
  function Unpermuted(dims: seq<nat>, idx: Index, n: nat): (r: Index)
    requires IsPermutation(dims) && |idx| == |dims| && n <= |dims|
    ensures |r| == n && forall d :: 0 <= d < n ==> r[d] == idx[Position(dims, d)]
  {
    if n == 0 then [] else Unpermuted(dims, idx, n - 1) + [idx[Position(dims, n - 1)]]
  }

  function PermuteTo(t: Tensor, dims: seq<nat>): Tensor
    requires IsPermutation(dims) && |dims| == |t.shape|
  {
    Tensor(PermutedShape(t.shape, dims),
           (idx: Index) => if |idx| == |dims| then t.at(Unpermuted(dims, idx, |dims|)) else 0.0)
  }

  // ---------------------------------------------------------------------------
  // Stacking and joining along the first axis
  // ---------------------------------------------------------------------------

  predicate SameShapes(ts: seq<Tensor>) {
    ts != [] && forall i :: 0 <= i < |ts| ==> ts[i].shape == ts[0].shape
  }

  function Stacked(ts: seq<Tensor>): Tensor
    requires SameShapes(ts)
  {
    Tensor([|ts|] + ts[0].shape,
           (idx: Index) => if idx != [] && idx[0] < |ts| then ts[idx[0]].at(idx[1..]) else 0.0)
  }

  predicate SameRest(ts: seq<Tensor>) {
    && ts != [] && (forall i :: 0 <= i < |ts| ==> ts[i].shape != [])
    && forall i :: 0 <= i < |ts| ==> ts[i].shape[1..] == ts[0].shape[1..]
  }

  function Lengths(ts: seq<Tensor>): nat
    requires forall i :: 0 <= i < |ts| ==> ts[i].shape != []
  {
    if ts == [] then 0 else ts[0].shape[0] + Lengths(ts[1..])
  }

  function JoinedAt(ts: seq<Tensor>, idx: Index): real
    requires idx != [] && forall i :: 0 <= i < |ts| ==> ts[i].shape != []
  {
    if ts == [] then 0.0
    else if idx[0] < ts[0].shape[0] then ts[0].at(idx)
    else JoinedAt(ts[1..], [idx[0] - ts[0].shape[0]] + idx[1..])
  }

  function Joined(ts: seq<Tensor>): Tensor
    requires SameRest(ts)
  {
    Tensor([Lengths(ts)] + ts[0].shape[1..], (idx: Index) => if idx != [] then JoinedAt(ts, idx) else 0.0)
  }
}
