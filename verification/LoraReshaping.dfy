/**
 Reshaping, permuting, stacking and joining deferred tensors: each operation on the factors against
 the same operation on the product.
 */
module LoraReshaping {
  import opened Arithmetic
  import opened Tensors
  import opened LoraTensor
  import opened LoraIndexing
  import opened Wrappers

  // ---------------------------------------------------------------------------
  // Reshaping
  // ---------------------------------------------------------------------------

  function Ones(n: nat): (r: Shape)
    ensures |r| == n && forall i :: 0 <= i < n ==> r[i] == 1
  {
    if n == 0 then [] else Ones(n - 1) + [1]
  }

  /** The product of the given lengths, the open ones counted as 1. */
  function Known(s: seq<int>): int {
    if s == [] then 1 else Known(s[..|s| - 1]) * (if s[|s| - 1] == -1 then 1 else s[|s| - 1])
  }

  function Filled(s: seq<int>, x: int): (r: seq<int>)
    ensures |r| == |s| && forall i :: 0 <= i < |s| ==> r[i] == if s[i] == -1 then x else s[i]
  {
    if s == [] then [] else [if s[0] == -1 then x else s[0]] + Filled(s[1..], x)
  }

  /** Open lengths become what is left of the total, which has to come out even. */
  function Expand(s: seq<int>, total: nat): Option<seq<int>> {
    if -1 !in s then Some(s)
    else if Known(s) <= 0 || total % Known(s) != 0 then None
    else Some(Filled(s, total / Known(s)))
  }

  function Reshape(l: Lora, shape: seq<int>): Option<Lora>
    requires Built(l)
  {
    var s := Expand(shape, Prod(ShapeOf(l)));
    if |shape| < 2 || s.None? || |s.value| < 2 || s.value[|s.value| - 1] != Last(l.A.shape) || !NonNegatives(s.value) then
      None
    else
      var t := AsNats(s.value);
      var shapeA, shapeB := Ones(|t| - 2) + [Rank(l), Last(l.A.shape)], Front(t) + [Rank(l)];
      if Prod(shapeA) != Prod(l.A.shape) || Prod(shapeB) != Prod(l.B.shape) then None
      else Some(Lora(ReshapeTo(l.A, shapeA), ReshapeTo(l.B, shapeB)))
  }

  lemma {:induction false} ProdAppend(s: Shape, x: nat)
    ensures Prod(s + [x]) == Prod(s) * x
  {
    assert Front(s + [x]) == s;
  }

  lemma {:induction false} ProdOfOnes(n: nat)
    ensures Prod(Ones(n)) == 1
  {
    if n == 0 {
    } else {
      ProdOfOnes(n - 1);
      ProdAppend(Ones(n - 1), 1);
    }
  }

  lemma {:induction false} ZeroTimes(a: int, b: int)
    ensures a == 0 || b == 0 ==> a * b == 0
  {}

  lemma {:induction false} FactorsOfOne(a: nat, b: nat)
    requires a * b == 1
    ensures a == 1 && b == 1
  {
    ZeroTimes(a, b);
    assert a * b == b + b * (a - 1);
    Scale(b, a - 1);
  }

  lemma {:induction false} ProdOne(s: Shape)
    requires Prod(s) == 1
    ensures s == Ones(|s|)
    decreases |s|
  {
    if s == [] {
    } else {
      FactorsOfOne(Prod(Front(s)), Last(s));
      ProdOne(Front(s));
      assert s == Front(s) + [Last(s)];
    }
  }

  /** The leading axes of A have one element in all, unless A is empty. */
  lemma {:induction false} LeadIsOnes(l: Lora)
    requires Built(l) && Prod(l.A.shape) == Prod(Ones(|l.A.shape| - 2) + [Rank(l), Last(l.A.shape)])
    ensures Rank(l) > 0 && Last(l.A.shape) > 0 ==> Lead(l.A.shape) == Ones(|l.A.shape| - 2)
  {
    var lead, r, n := Lead(l.A.shape), Rank(l), Last(l.A.shape);
    assert l.A.shape == lead + [r] + [n];
    ProdTwo(lead, r, n);
    ProdTwo(Ones(|lead|), r, n);
    ProdOfOnes(|lead|);
    assert lead + [r] + [n] == lead + [r, n] && Ones(|lead|) + [r] + [n] == Ones(|lead|) + [r, n];
    if r > 0 && n > 0 {
      CancelFactor(Prod(lead) * r, 1 * r, n);
      CancelFactor(Prod(lead), 1, r);
      ProdOne(lead);
    }
  }

  lemma {:induction false} ProdTwo(s: Shape, x: nat, y: nat)
    ensures Prod(s + [x] + [y]) == Prod(s) * x * y
  {
    ProdAppend(s, x);
    ProdAppend(s + [x], y);
  }

  lemma {:induction false} ZeroUnflat(s: Shape)
    ensures Unflat(0, s) == Zeroes(|s|)
    decreases |s|
  {
    if s == [] {
    } else {
      ZeroUnflat(Front(s));
    }
  }

  function Zeroes(n: nat): (r: Index)
    ensures |r| == n && forall i :: 0 <= i < n ==> r[i] == 0
  {
    if n == 0 then [] else Zeroes(n - 1) + [0]
  }

  lemma {:induction false} ZeroFlat(s: Shape)
    ensures Flat(Zeroes(|s|), s) == 0
    decreases |s|
  {
    if s == [] {
    } else {
      ZeroFlat(Front(s));
      assert Front(Zeroes(|s|)) == Zeroes(|s| - 1);
    }
  }

  /** An entry of the reshaped B. */
  lemma {:induction false} ReshapedB(b: Tensor, lead: Shape, rank: nat, s: Shape, idx: Index, k: nat)
    requires b.shape == lead + [rank] && |idx| == |s| && k < rank
    ensures ReshapeTo(b, s + [rank]).at(idx + [k]) == b.at(Unflat(Flat(idx, s), lead) + [k])
  {
    hide Flat, Unflat;
    FlatAppend(idx, s, rank, k);
    UnflatAppend(Flat(idx, s), lead, rank, k);
  }

  /** An entry of the reshaped A, whose leading axes have length one before and after. */
  lemma {:induction false} ReshapedA(a: Tensor, lead: Shape, rank: nat, n: nat, m: nat, k: nat, j: nat)
    requires a.shape == lead + [rank, n] && k < rank && j < n
    ensures ReshapeTo(a, Ones(m) + [rank, n]).at(Zeroes(m) + [k, j]) == a.at(Zeroes(|lead|) + [k, j])
  {
    hide Flat, Unflat;
    var idx := Zeroes(m) + [k] + [j];
    assert idx == Zeroes(m) + [k, j] && Ones(m) + [rank, n] == Ones(m) + [rank] + [n];
    assert lead + [rank, n] == lead + [rank] + [n];
    FlatAppend(Zeroes(m) + [k], Ones(m) + [rank], n, j);
    FlatAppend(Zeroes(m), Ones(m), rank, k);
    ZeroFlat(Ones(m));
    assert Flat(Zeroes(m) + [k], Ones(m) + [rank]) == 0 * rank + k;
    UnflatAppend(k, lead + [rank], n, j);
    UnflatAppend(0, lead, rank, k);
    ZeroUnflat(lead);
    assert Zeroes(|lead|) + [k] + [j] == Zeroes(|lead|) + [k, j];
  }

  lemma {:induction false} BroadcastOnes(m: nat, idx: Index)
    requires |idx| == m
    ensures Broadcast(Ones(m), idx) == Zeroes(m)
  {}

  lemma {:induction false} EntryAt(l: Lora, idx: Index, j: nat)
    requires Built(l) && |idx| + 1 == |l.A.shape|
    ensures Entry(l, idx + [j]) == Dot(l.B, idx, l.A, Broadcast(Lead(l.A.shape), Front(idx)), j, Rank(l))
  {
    hide Dot, Broadcast;
    assert Front(idx + [j]) == idx && Last(idx + [j]) == j && Lead(idx + [j]) == Front(idx);
  }

  lemma {:induction false} ReshapeTerm(l: Lora, s: Shape, n: nat, idx: Index, src: Index, k: nat, j: nat)
    requires Fits(l) && n == Last(l.A.shape) && |idx| == |s| >= 1 && j < n && k < Rank(l)
    requires Prod(l.A.shape) == Prod(Ones(|l.A.shape| - 2) + [Rank(l), n])
    requires src == Unflat(Flat(idx, s), Front(l.B.shape))
    ensures ReshapeTo(l.B, s + [Rank(l)]).at(idx + [k]) == l.B.at(src + [k])
    ensures ReshapeTo(l.A, Ones(|s| - 1) + [Rank(l), n]).at(Zeroes(|s| - 1) + [k, j]) ==
            l.A.at(Broadcast(Lead(l.A.shape), Front(src)) + [k, j])
  {
    hide Flat, Unflat, Prod, ReshapeTo, Ones, Zeroes, Broadcast;
    LeadIsOnes(l);
    assert l.B.shape == Front(l.B.shape) + [Rank(l)];
    ReshapedB(l.B, Front(l.B.shape), Rank(l), s, idx, k);
    BroadcastOnes(|src| - 1, Front(src));
    assert l.A.shape == Lead(l.A.shape) + [Rank(l), n];
    ReshapedA(l.A, Lead(l.A.shape), Rank(l), n, |s| - 1, k, j);
  }

  lemma {:induction false} ReshapeEntry(l: Lora, s: Shape, n: nat, idx: Index, j: nat)
    requires Fits(l) && n == Last(l.A.shape) && |idx| == |s| >= 1 && j < n
    requires Prod(l.A.shape) == Prod(Ones(|l.A.shape| - 2) + [Rank(l), n])
    ensures var r := Lora(ReshapeTo(l.A, Ones(|s| - 1) + [Rank(l), n]), ReshapeTo(l.B, s + [Rank(l)]));
            Built(r) && Entry(r, idx + [j]) == Entry(l, Unflat(Flat(idx, s), Front(l.B.shape)) + [j])
  {
    hide Dot, Flat, Unflat, Prod, Entry, Ones, Zeroes, Broadcast;
    var rank, m := Rank(l), |s| - 1;
    var r := Lora(ReshapeTo(l.A, Ones(m) + [rank, n]), ReshapeTo(l.B, s + [rank]));
    var src := Unflat(Flat(idx, s), Front(l.B.shape));
    EntryAt(r, idx, j);
    EntryAt(l, src, j);
    assert Lead(r.A.shape) == Ones(m);
    BroadcastOnes(m, Front(idx));
    var za := Broadcast(Lead(l.A.shape), Front(src));
    hide ReshapeTo;
    forall k: nat | k < rank
      ensures r.B.at(idx + [k]) == l.B.at(src + [k])
      ensures r.A.at(Zeroes(m) + [k, j]) == l.A.at(za + [k, j])
    {
      ReshapeTerm(l, s, n, idx, src, k, j);
    }
    DotSame(r.B, idx, r.A, Zeroes(m), j, l.B, src, l.A, za, j, rank);
  }

  lemma {:induction false} OnesProd(m: nat, rank: nat, n: nat)
    ensures Prod(Ones(m) + [rank, n]) == rank * n
  {
    ProdTwo(Ones(m), rank, n);
    ProdOfOnes(m);
    assert Ones(m) + [rank] + [n] == Ones(m) + [rank, n];
  }

  lemma {:induction false} FitsOnes(m: nat, a: Tensor, b: Tensor)
    requires Built(Lora(a, b)) && Lead(a.shape) == Ones(m)
    ensures Fits(Lora(a, b))
  {}

  /** Reshaping the factors is reshaping the product, to as many elements as it has. */
  lemma {:induction false} ReshapeCommutes(l: Lora, shape: seq<int>)
    requires Fits(l) && Reshape(l, shape).Some?
    ensures var s := Expand(shape, Prod(ShapeOf(l)));
            && s.Some? && NonNegatives(s.value)
            && Represents(Reshape(l, shape).value, ReshapeTo(Dense(l), AsNats(s.value)))
            && (Rank(l) > 0 ==> Prod(AsNats(s.value)) == Prod(ShapeOf(l)))
  {
    hide Expand, Prod, Entry, Flat, Unflat, Ones, AsNats;
    var t := AsNats(Expand(shape, Prod(ShapeOf(l))).value);
    var n, rank, r := Last(l.A.shape), Rank(l), Reshape(l, shape).value;
    var s := Front(t);
    assert t == s + [n];
    OnesProd(|s| - 1, rank, n);
    OnesProd(|l.A.shape| - 2, rank, n);
    FitsOnes(|s| - 1, r.A, r.B);
    forall idx: Index | Within(idx, t)
      ensures Entry(r, idx) == ReshapeTo(Dense(l), t).at(idx)
    {
      assert idx == Front(idx) + [Last(idx)] && Last(idx) < n;
      ReshapeEntry(l, s, n, Front(idx), Last(idx));
      FlatAppend(Front(idx), s, n, Last(idx));
      UnflatAppend(Flat(Front(idx), s), Front(l.B.shape), n, Last(idx));
    }
    SameSize(l, s, n);
  }

  lemma {:induction false} SameSize(l: Lora, s: Shape, n: nat)
    requires Built(l) && n == Last(l.A.shape) && Prod(s + [Rank(l)]) == Prod(l.B.shape)
    ensures Rank(l) > 0 ==> Prod(s + [n]) == Prod(ShapeOf(l))
  {
    var rows := Front(l.B.shape);
    assert l.B.shape == rows + [Rank(l)];
    ProdAppend(s, Rank(l));
    ProdAppend(rows, Rank(l));
    ProdAppend(s, n);
    ProdAppend(rows, n);
    if Rank(l) > 0 {
      CancelFactor(Prod(s), Prod(rows), Rank(l));
    }
  }

  lemma {:induction false} CancelFactor(x: nat, y: nat, r: nat)
    requires r > 0 && x * r == y * r
    ensures x == y
  {
    assert r * (x - y) == x * r - y * r;
    Scale(r, x - y);
  }

  /** The code reshapes whenever A has no leading axes to speak of and the row length stays. */
  lemma {:induction false} ReshapeDefined(l: Lora, shape: Shape)
    requires Fits(l) && Lead(l.A.shape) == Ones(|l.A.shape| - 2)
    requires |shape| >= 2 && Last(shape) == Last(l.A.shape) && Prod(Front(shape)) == Prod(Front(l.B.shape))
    ensures Reshape(l, shape).Some?
  {
    hide Prod;
    assert AsNats(shape) == shape;
    OnesProd(|shape| - 2, Rank(l), Last(shape));
    OnesProd(|l.A.shape| - 2, Rank(l), Last(shape));
    assert l.A.shape == Lead(l.A.shape) + [Rank(l), Last(l.A.shape)];
    ProdAppend(Front(shape), Rank(l));
    ProdAppend(Front(l.B.shape), Rank(l));
    assert l.B.shape == Front(l.B.shape) + [Rank(l)];
  }

  // ---------------------------------------------------------------------------
  // Permuting
  // ---------------------------------------------------------------------------

  /** Axes counted from the end become axes counted from the front. */
  function Normal(dims: seq<int>, n: nat): (r: Option<seq<nat>>)
    ensures r.Some? ==> |r.value| == |dims| == n && IsPermutation(r.value)
    ensures r.Some? ==> forall i :: 0 <= i < n ==> r.value[i] == if dims[i] < 0 then dims[i] + n else dims[i]
  {
    if |dims| != n || exists i :: 0 <= i < n && (dims[i] >= n || dims[i] + n < 0) then None
    else
      var ds := FromEnd(dims, n);
      if IsPermutation(ds) then Some(ds) else None
  }

  function FromEnd(dims: seq<int>, n: nat): (r: seq<nat>)
    requires forall i :: 0 <= i < |dims| ==> dims[i] + n >= 0
    ensures |r| == |dims| && forall i :: 0 <= i < |dims| ==> r[i] == if dims[i] < 0 then dims[i] + n else dims[i]
  {
    if dims == [] then [] else [if dims[0] < 0 then dims[0] + n else dims[0]] + FromEnd(dims[1..], n)
  }

  /** The columns stay last and A has no leading axes to speak of, or a matrix is transposed. */
  function Permute(l: Lora, dims: seq<int>): Option<Lora>
    requires Built(l)
  {
    var n := |l.A.shape|;
    var ds := Normal(dims, n);
    if ds.None? then None
    else if ds.value[n - 1] == n - 1 then
      if Lead(l.A.shape) == Ones(n - 2) then Some(Lora(l.A, PermuteTo(l.B, ds.value))) else None
    else if n == 2 then Some(Lora(PermuteTo(l.B, ds.value), PermuteTo(l.A, ds.value)))
    else None
  }

  lemma {:induction false} LastPosition(dims: seq<nat>, d: nat)
    requires IsPermutation(dims) && dims != [] && Last(dims) == |dims| - 1 && d < |dims|
    ensures Position(dims, d) == |dims| - 1 <==> d == |dims| - 1
  {
    assert dims[Position(dims, d)] == d;
  }

  lemma {:induction false} LastStays(dims: seq<nat>, idx: Index, k: nat)
    requires IsPermutation(dims) && dims != [] && Last(dims) == |dims| - 1 && |idx| == |dims|
    ensures Last(Unpermuted(dims, idx, |dims|)) == Last(idx)
    ensures Unpermuted(dims, Front(idx) + [k], |dims|) == Front(Unpermuted(dims, idx, |dims|)) + [k]
  {
    hide Position, Unpermuted, IsPermutation;
    var n := |dims|;
    var src, moved := Unpermuted(dims, idx, n), Unpermuted(dims, Front(idx) + [k], n);
    LastPosition(dims, n - 1);
    forall d | 0 <= d < n - 1
      ensures moved[d] == src[d]
    {
      LastPosition(dims, d);
    }
  }

  lemma {:induction false} PermuteFits(l: Lora, dims: seq<nat>)
    requires Fits(l) && Lead(l.A.shape) == Ones(|l.A.shape| - 2)
    requires IsPermutation(dims) && |dims| == |l.A.shape| && Last(dims) == |dims| - 1
    ensures Fits(Lora(l.A, PermuteTo(l.B, dims))) && Rank(Lora(l.A, PermuteTo(l.B, dims))) == Rank(l)
    ensures ShapeOf(Lora(l.A, PermuteTo(l.B, dims))) == PermutedShape(ShapeOf(l), dims)
  {
    var shape, r := ShapeOf(l), Lora(l.A, PermuteTo(l.B, dims));
    var n := |dims|;
    assert dims[n - 1] == n - 1 && shape[n - 1] == Last(l.A.shape);
    forall i | 0 <= i < n - 1
      ensures shape[dims[i]] == l.B.shape[dims[i]]
    {
      assert dims[i] != dims[n - 1];
    }
  }

  lemma {:induction false} PermuteEntry(l: Lora, dims: seq<nat>, idx: Index)
    requires Fits(l) && Lead(l.A.shape) == Ones(|l.A.shape| - 2)
    requires IsPermutation(dims) && |dims| == |l.A.shape| == |idx| && Last(dims) == |dims| - 1
    ensures Built(Lora(l.A, PermuteTo(l.B, dims)))
    ensures Entry(Lora(l.A, PermuteTo(l.B, dims)), idx) == Entry(l, Unpermuted(dims, idx, |dims|))
  {
    hide Dot, Unpermuted, Broadcast, Ones, Zeroes, PermutedShape, IsPermutation;
    PermuteFits(l, dims);
    var r, src := Lora(l.A, PermuteTo(l.B, dims)), Unpermuted(dims, idx, |dims|);
    LastStays(dims, idx, 0);
    BroadcastOnes(|dims| - 2, Lead(idx));
    BroadcastOnes(|dims| - 2, Lead(src));
    var z := Zeroes(|dims| - 2);
    forall k: nat | k < Rank(l)
      ensures r.B.at(Front(idx) + [k]) == l.B.at(Front(src) + [k])
    {
      LastStays(dims, idx, k);
    }
    DotSame(r.B, Front(idx), l.A, z, Last(idx), l.B, Front(src), l.A, z, Last(src), Rank(l));
  }

  lemma {:induction false} DotSwapped(
    b: Tensor, bi: Index, a: Tensor, ai: Index, j: nat,
    b2: Tensor, bi2: Index, a2: Tensor, ai2: Index, j2: nat, n: nat)
    requires forall k: nat :: k < n ==> b.at(bi + [k]) == a2.at(ai2 + [k, j2])
    requires forall k: nat :: k < n ==> a.at(ai + [k, j]) == b2.at(bi2 + [k])
    ensures Dot(b, bi, a, ai, j, n) == Dot(b2, bi2, a2, ai2, j2, n)
    decreases n
  {
    if n == 0 {
    } else {
      DotSwapped(b, bi, a, ai, j, b2, bi2, a2, ai2, j2, n - 1);
    }
  }

  lemma {:induction false} SwapTwo(t: Tensor, dims: seq<nat>, i: nat, j: nat)
    requires |t.shape| == 2 && dims == [1, 0]
    ensures IsPermutation(dims) && PermuteTo(t, dims).shape == [t.shape[1], t.shape[0]]
    ensures PermuteTo(t, dims).at([i, j]) == t.at([j, i])
  {
    assert dims[0] == 1 && dims[1] == 0;
    assert IsPermutation(dims);
    assert Position(dims, 0) == 1 && Position(dims, 1) == 0;
    var src := Unpermuted(dims, [i, j], 2);
    assert src == [j, i];
  }

  lemma {:induction false} TransposeEntry(l: Lora, i: nat, j: nat)
    requires Fits(l) && |l.A.shape| == 2
    ensures IsPermutation([1, 0])
    ensures var r := Lora(PermuteTo(l.B, [1, 0]), PermuteTo(l.A, [1, 0]));
            Fits(r) && Rank(r) == Rank(l) && ShapeOf(r) == [l.A.shape[1], l.B.shape[0]]
            && Entry(r, [i, j]) == Entry(l, [j, i])
  {
    hide Dot, PermuteTo, IsPermutation, Broadcast;
    SwapTwo(l.A, [1, 0], i, j);
    SwapTwo(l.B, [1, 0], i, j);
    var r := Lora(PermuteTo(l.B, [1, 0]), PermuteTo(l.A, [1, 0]));
    forall k: nat | k < Rank(l)
      ensures r.B.at([i] + [k]) == l.A.at([] + [k, i]) && r.A.at([] + [k, j]) == l.B.at([j] + [k])
    {
      SwapTwo(l.A, [1, 0], i, k);
      SwapTwo(l.B, [1, 0], k, j);
      assert [i] + [k] == [i, k] && [] + [k, j] == [k, j] && [] + [k, i] == [k, i] && [j] + [k] == [j, k];
    }
    TwoIndex(r, i, j);
    TwoIndex(l, j, i);
    DotSwapped(r.B, [i], r.A, [], j, l.B, [j], l.A, [], i, Rank(l));
  }

  lemma {:induction false} TwoIndex(l: Lora, i: nat, j: nat)
    requires Built(l) && |l.A.shape| == 2
    ensures Entry(l, [i, j]) == Dot(l.B, [i], l.A, [], j, Rank(l))
  {
    hide Dot;
    assert Front([i, j]) == [i] && Lead([i, j]) == [];
  }

  /** Permuting the factors permutes the product. */
  lemma {:induction false} PermuteCommutes(l: Lora, dims: seq<int>)
    requires Fits(l) && Permute(l, dims).Some?
    ensures Normal(dims, |l.A.shape|).Some?
    ensures Represents(Permute(l, dims).value, PermuteTo(Dense(l), Normal(dims, |l.A.shape|).value))
  {
    hide Normal, Entry, Ones, IsPermutation, PermutedShape, Unpermuted;
    var n := |l.A.shape|;
    var ds, r := Normal(dims, n).value, Permute(l, dims).value;
    DenseShape(l);
    var t := PermuteTo(Dense(l), ds);
    if ds[n - 1] == n - 1 {
      PermuteFits(l, ds);
      forall idx: Index | Within(idx, ShapeOf(r))
        ensures Entry(r, idx) == t.at(idx)
      {
        PermuteEntry(l, ds, idx);
      }
    } else {
      OnlySwap(ds);
      TransposeEntry(l, 0, 0);
      SwapTwo(Dense(l), ds, 0, 0);
      forall idx: Index | Within(idx, ShapeOf(r))
        ensures Entry(r, idx) == t.at(idx)
      {
        assert idx == [idx[0], idx[1]];
        TransposeEntry(l, idx[0], idx[1]);
        SwapTwo(Dense(l), ds, idx[0], idx[1]);
      }
    }
  }

  lemma {:induction false} OnlySwap(ds: seq<nat>)
    requires |ds| == 2 && IsPermutation(ds) && ds[1] != 1
    ensures ds == [1, 0]
  {}

  /** Exchanging two axes is a permutation. */
  function Transpose(l: Lora, dim0: int, dim1: int): Option<Lora>
    requires Built(l)
  {
    var n := |l.A.shape|;
    if dim0 >= n || dim0 + n < 0 || dim1 >= n || dim1 + n < 0 then None
    else
      var i, j := if dim0 < 0 then dim0 + n else dim0, if dim1 < 0 then dim1 + n else dim1;
      Permute(l, Axes(n)[i := j][j := i])
  }

  function Axes(n: nat): (r: seq<int>)
    ensures |r| == n && forall i :: 0 <= i < n ==> r[i] == i
  {
    if n == 0 then [] else Axes(n - 1) + [n - 1]
  }

  /** The tensor with two axes exchanged. */
  function Exchanged(t: Tensor, i: nat, j: nat): Tensor
    requires i < |t.shape| && j < |t.shape|
  {
    Tensor(t.shape[i := t.shape[j]][j := t.shape[i]],
           (idx: Index) => if |idx| == |t.shape| then t.at(idx[i := idx[j]][j := idx[i]]) else 0.0)
  }

  lemma {:induction false} ExchangeIsPermutation(t: Tensor, i: nat, j: nat, ds: seq<nat>)
    requires i < |t.shape| && j < |t.shape| && IsPermutation(ds) && |ds| == |t.shape|
    requires forall d :: 0 <= d < |ds| ==> ds[d] == if d == j then i else if d == i then j else d
    ensures Same(PermuteTo(t, ds), Exchanged(t, i, j))
  {
    hide Position;
    forall d: nat | d < |ds|
      ensures Position(ds, d) == if d == j then i else if d == i then j else d
    {
      assert ds[Position(ds, d)] == d;
    }
    assert PermutedShape(t.shape, ds) == t.shape[i := t.shape[j]][j := t.shape[i]];
    forall idx: Index | |idx| == |ds|
      ensures Unpermuted(ds, idx, |ds|) == idx[i := idx[j]][j := idx[i]]
    {
    }
  }

  /** Transposing the factors exchanges two axes of the product. */
  lemma {:induction false} TransposeCommutes(l: Lora, dim0: int, dim1: int)
    requires Fits(l) && Transpose(l, dim0, dim1).Some?
    ensures var n := |l.A.shape|;
            var i, j := if dim0 < 0 then dim0 + n else dim0, if dim1 < 0 then dim1 + n else dim1;
            && 0 <= i < n && 0 <= j < n
            && Represents(Transpose(l, dim0, dim1).value, Exchanged(Dense(l), i, j))
  {
    hide Permute, Same, Dense, IsPermutation, Exchanged, PermuteTo;
    var n := |l.A.shape|;
    var i, j := if dim0 < 0 then dim0 + n else dim0, if dim1 < 0 then dim1 + n else dim1;
    var dims := Axes(n)[i := j][j := i];
    PermuteCommutes(l, dims);
    DenseShape(l);
    var ds := Normal(dims, n).value;
    ExchangeIsPermutation(Dense(l), i, j, ds);
    SameTransitive(Dense(Permute(l, dims).value), PermuteTo(Dense(l), ds), Exchanged(Dense(l), i, j));
  }

  // ---------------------------------------------------------------------------
  // Stacking
  // ---------------------------------------------------------------------------

  function As(ls: seq<Lora>): (r: seq<Tensor>)
    ensures |r| == |ls| && forall i :: 0 <= i < |ls| ==> r[i] == ls[i].A
  {
    if ls == [] then [] else [ls[0].A] + As(ls[1..])
  }

  function Bs(ls: seq<Lora>): (r: seq<Tensor>)
    ensures |r| == |ls| && forall i :: 0 <= i < |ls| ==> r[i] == ls[i].B
  {
    if ls == [] then [] else [ls[0].B] + Bs(ls[1..])
  }

  function Denses(ls: seq<Lora>): (r: seq<Tensor>)
    requires forall i :: 0 <= i < |ls| ==> Built(ls[i])
    ensures |r| == |ls| && forall i :: 0 <= i < |ls| ==> r[i] == Dense(ls[i])
  {
    if ls == [] then [] else [Dense(ls[0])] + Denses(ls[1..])
  }

  ghost predicate AllFit(ls: seq<Lora>) { forall i :: 0 <= i < |ls| ==> Fits(ls[i]) }

  /** A new first axis in both factors. */
  function Stack(ls: seq<Lora>): Option<Lora> {
    if SameShapes(As(ls)) && SameShapes(Bs(ls)) then Make(Stacked(As(ls)), Stacked(Bs(ls))) else None
  }

  lemma {:induction false} ConsFits(count: nat, a: Shape, b: Shape)
    requires |a| == |b| >= 2 && Broadcasts(Lead(a), Lead(b))
    ensures Lead([count] + a) == [count] + Lead(a) && Broadcasts(Lead([count] + a), Lead([count] + b))
    ensures Last([count] + a) == Last(a) && Front([count] + b) == [count] + Front(b)
  {
    var la, lb := Lead([count] + a), Lead([count] + b);
    forall i | 0 <= i < |la|
      ensures la[i] == 1 || la[i] == lb[i]
    {
      if i > 0 {
        assert la[i] == Lead(a)[i - 1] && lb[i] == Lead(b)[i - 1];
      }
    }
  }

  lemma {:induction false} PartShapes(ls: seq<Lora>, i: nat)
    requires SameShapes(As(ls)) && SameShapes(Bs(ls)) && i < |ls|
    ensures ls[i].A.shape == ls[0].A.shape && ls[i].B.shape == ls[0].B.shape
  {
    assert As(ls)[i].shape == As(ls)[0].shape && Bs(ls)[i].shape == Bs(ls)[0].shape;
  }

  lemma {:induction false} StackShape(ls: seq<Lora>)
    requires AllFit(ls) && SameShapes(As(ls)) && SameShapes(Bs(ls))
    ensures var r := Lora(Stacked(As(ls)), Stacked(Bs(ls)));
            && Fits(r) && Rank(r) == Rank(ls[0])
            && r.A.shape == [|ls|] + ls[0].A.shape && r.B.shape == [|ls|] + ls[0].B.shape
            && Lead(r.A.shape) == [|ls|] + Lead(ls[0].A.shape)
            && ShapeOf(r) == [|ls|] + ShapeOf(ls[0])
  {
    hide Broadcasts;
    assert Fits(ls[0]);
    ConsFits(|ls|, ls[0].A.shape, ls[0].B.shape);
    ConsFits(|ls|, ls[0].B.shape, ls[0].B.shape);
  }

  lemma {:induction false} DensesStack(ls: seq<Lora>)
    requires AllFit(ls) && SameShapes(As(ls)) && SameShapes(Bs(ls))
    ensures SameShapes(Denses(ls))
  {
    assert As(ls) != [];
    hide As, Bs, Denses, SameShapes;
    forall i | 0 <= i < |ls|
      ensures Denses(ls)[i].shape == ShapeOf(ls[0])
    {
      PartShapes(ls, i);
      DenseShape(ls[i]);
    }
    ShapesSame(Denses(ls), ShapeOf(ls[0]));
  }

  lemma {:induction false} ShapesSame(ts: seq<Tensor>, shape: Shape)
    requires ts != [] && forall i :: 0 <= i < |ts| ==> ts[i].shape == shape
    ensures SameShapes(ts)
  {}

  lemma {:induction false} BroadcastCons(c: nat, count: nat, small: Shape, idx: Index)
    requires c < count && |idx| <= |small|
    ensures Broadcast([count] + small, [c] + idx) == [c] + Broadcast(small, idx)
  {
    hide Broadcast;
  }

  lemma {:induction false} StackedTerm(ts: seq<Tensor>, c: nat, a: Index, b: Index)
    requires SameShapes(ts) && c < |ts|
    ensures Stacked(ts).at([c] + a + b) == ts[c].at(a + b)
  {
    assert ([c] + a + b)[1..] == a + b;
  }

  lemma {:induction false} StackEntry(ls: seq<Lora>, c: nat, idx: Index)
    requires AllFit(ls) && SameShapes(As(ls)) && SameShapes(Bs(ls)) && c < |ls| && |idx| == |ls[0].A.shape|
    ensures var r := Lora(Stacked(As(ls)), Stacked(Bs(ls)));
            Built(r) && |r.A.shape| == |ls[c].A.shape| + 1 == |idx| + 1 && Entry(r, [c] + idx) == Entry(ls[c], idx)
  {
    hide Dot, Broadcast, Stacked;
    StackShape(ls);
    var r, small := Lora(Stacked(As(ls)), Stacked(Bs(ls))), Lead(ls[0].A.shape);
    PartShapes(ls, c);
    hide SameShapes, AllFit;
    assert Front([c] + idx) == [c] + Front(idx) && Lead([c] + idx) == [c] + Lead(idx);
    BroadcastCons(c, |ls|, small, Lead(idx));
    var z := Broadcast(small, Lead(idx));
    forall k: nat | k < Rank(ls[0])
      ensures r.B.at([c] + Front(idx) + [k]) == ls[c].B.at(Front(idx) + [k])
      ensures r.A.at([c] + z + [k, Last(idx)]) == ls[c].A.at(z + [k, Last(idx)])
    {
      StackedTerm(Bs(ls), c, Front(idx), [k]);
      StackedTerm(As(ls), c, z, [k, Last(idx)]);
    }
    DotSame(r.B, [c] + Front(idx), r.A, [c] + z, Last(idx), ls[c].B, Front(idx), ls[c].A, z, Last(idx), Rank(ls[0]));
  }

  /** Stacking the factors stacks the products. */
  lemma {:induction false} StackCommutes(ls: seq<Lora>)
    requires AllFit(ls) && Stack(ls).Some?
    ensures SameShapes(Denses(ls)) && Represents(Stack(ls).value, Stacked(Denses(ls)))
  {
    hide Entry;
    StackShape(ls);
    DensesStack(ls);
    var r, t := Stack(ls).value, Stacked(Denses(ls));
    forall idx: Index | Within(idx, ShapeOf(r))
      ensures Entry(r, idx) == t.at(idx)
    {
      assert idx == [idx[0]] + idx[1..] && idx[0] < |ls|;
      StackEntry(ls, idx[0], idx[1..]);
    }
  }

  // ---------------------------------------------------------------------------
  // Joining
  // ---------------------------------------------------------------------------

  predicate HaveAxes(ts: seq<Tensor>) { forall i :: 0 <= i < |ts| ==> ts[i].shape != [] }

  /** The part that position `i` of the joined first axis falls into, and its place there. */
  function PartOf(ts: seq<Tensor>, i: nat): (r: (nat, nat))
    requires HaveAxes(ts) && i < Lengths(ts)
    ensures r.0 < |ts| && r.1 < ts[r.0].shape[0]
  {
    if i < ts[0].shape[0] then (0, i)
    else
      var r := PartOf(ts[1..], i - ts[0].shape[0]);
      (r.0 + 1, r.1)
  }

  lemma {:induction false} JoinedPart(ts: seq<Tensor>, i: nat, rest: Index)
    requires HaveAxes(ts) && i < Lengths(ts)
    ensures JoinedAt(ts, [i] + rest) == ts[PartOf(ts, i).0].at([PartOf(ts, i).1] + rest)
    decreases |ts|
  {
    if i >= ts[0].shape[0] {
      JoinedPart(ts[1..], i - ts[0].shape[0], rest);
      assert ([i] + rest)[1..] == rest;
    }
  }

  predicate SameLengths(ts: seq<Tensor>, us: seq<Tensor>) {
    HaveAxes(ts) && HaveAxes(us) && |ts| == |us| && forall i :: 0 <= i < |ts| ==> ts[i].shape[0] == us[i].shape[0]
  }

  lemma {:induction false} SameParts(ts: seq<Tensor>, us: seq<Tensor>, i: nat)
    requires SameLengths(ts, us) && i < Lengths(ts)
    ensures Lengths(ts) == Lengths(us) && PartOf(ts, i) == PartOf(us, i)
    decreases |ts|
  {
    SameTotals(ts, us);
    if i >= ts[0].shape[0] {
      SameParts(ts[1..], us[1..], i - ts[0].shape[0]);
    }
  }

  lemma {:induction false} SameTotals(ts: seq<Tensor>, us: seq<Tensor>)
    requires SameLengths(ts, us)
    ensures Lengths(ts) == Lengths(us)
    decreases |ts|
  {
    if ts == [] {
    } else {
      SameTotals(ts[1..], us[1..]);
    }
  }

  /** Joined along the first axis: the factors of stacks of matrices, or B alone if A is the same. */
  ghost function Cat(ls: seq<Lora>): Option<Lora> {
    if ls == [] || !SameRest(Bs(ls)) then None
    else if |ls[0].A.shape| > 2 then
      if SameRest(As(ls)) then Make(Joined(As(ls)), Joined(Bs(ls))) else None
    else if forall i :: 0 <= i < |ls| ==> Same(ls[0].A, ls[i].A) then Make(ls[0].A, Joined(Bs(ls)))
    else None
  }

  /** A is the same throughout, or its first axis is as long as that of B in every part. */
  predicate CatOk(ls: seq<Lora>) {
    forall i :: 0 <= i < |ls| && |ls[i].A.shape| > 2 && ls[i].B.shape != [] ==> ls[i].A.shape[0] == ls[i].B.shape[0]
  }

  lemma {:induction false} RestShapes(ls: seq<Lora>, c: nat)
    requires c < |ls|
    ensures SameRest(Bs(ls)) ==> ls[c].B.shape != [] && ls[c].B.shape[1..] == ls[0].B.shape[1..]
    ensures SameRest(As(ls)) ==> ls[c].A.shape != [] && ls[c].A.shape[1..] == ls[0].A.shape[1..]
  {
    assert Bs(ls)[c] == ls[c].B && As(ls)[c] == ls[c].A;
  }

  lemma {:induction false} DensesRest(ls: seq<Lora>)
    requires AllFit(ls) && ls != [] && SameRest(Bs(ls))
    requires forall i :: 0 <= i < |ls| ==> Last(ls[i].A.shape) == Last(ls[0].A.shape)
    ensures SameRest(Denses(ls)) && SameLengths(Denses(ls), Bs(ls))
    ensures Lengths(Denses(ls)) == Lengths(Bs(ls))
    ensures Joined(Denses(ls)).shape == [Lengths(Bs(ls))] + ShapeOf(ls[0])[1..]
  {
    hide Dense, SameRest, Bs, Denses;
    forall i | 0 <= i < |ls|
      ensures Denses(ls)[i].shape == ShapeOf(ls[i]) && ShapeOf(ls[i])[1..] == ShapeOf(ls[0])[1..]
      ensures ls[i].B.shape != [] && ShapeOf(ls[i])[0] == ls[i].B.shape[0]
    {
      DenseShape(ls[i]);
      RestShapes(ls, i);
      TailOfShape(ls[i]);
      TailOfShape(ls[0]);
    }
    RestSame(Denses(ls), ShapeOf(ls[0])[1..]);
    SameTotals(Denses(ls), Bs(ls));
  }

  lemma {:induction false} TailOfShape(l: Lora)
    requires Built(l)
    ensures ShapeOf(l)[1..] == l.B.shape[1..][..|l.B.shape| - 2] + [Last(l.A.shape)]
  {}

  lemma {:induction false} RestSame(ts: seq<Tensor>, rest: Shape)
    requires ts != [] && forall i :: 0 <= i < |ts| ==> ts[i].shape != [] && ts[i].shape[1..] == rest
    ensures SameRest(ts)
  {}

  /** Joining rows of matrices that share A. */
  lemma {:induction false} CatRowsEntry(ls: seq<Lora>, idx: Index)
    requires AllFit(ls) && ls != [] && |ls[0].A.shape| == 2 && SameRest(Bs(ls))
    requires forall i :: 0 <= i < |ls| ==> Same(ls[0].A, ls[i].A)
    requires Within(idx, [Lengths(Bs(ls)), Last(ls[0].A.shape)])
    ensures SameRest(Denses(ls)) && Built(Lora(ls[0].A, Joined(Bs(ls))))
    ensures Entry(Lora(ls[0].A, Joined(Bs(ls))), idx) == Joined(Denses(ls)).at(idx)
  {
    hide Dot, SameRest, Entry, Joined, JoinedAt, PartOf, Lengths, Denses, Bs, Dense, Same;
    forall i | 0 <= i < |ls|
      ensures ls[i].A.shape == ls[0].A.shape
    {
      SameShape(ls[0].A, ls[i].A);
    }
    var r := Lora(ls[0].A, Joined(Bs(ls)));
    DensesRest(ls);
    RestShapes(ls, 0);
    JoinedShape(Bs(ls));
    var i, j := idx[0], idx[1];
    assert idx == [i, j] == [i] + [j];
    SameParts(Denses(ls), Bs(ls), i);
    JoinedEntry(Denses(ls), i, [j]);
    var (c, p) := PartOf(Bs(ls), i);
    RestShapes(ls, c);
    MatrixRank(ls[0], ls[c]);
    TwoIndex(r, i, j);
    TwoIndex(ls[c], p, j);
    DenseAt(ls[c], p, j);
    forall k: nat | k < Rank(r)
      ensures r.B.at([i] + [k]) == ls[c].B.at([p] + [k])
      ensures r.A.at([] + [k, j]) == ls[c].A.at([] + [k, j])
    {
      JoinedEntry(Bs(ls), i, [k]);
      SameEntry(ls[0].A, ls[c].A, k, j);
    }
    DotSame(r.B, [i], r.A, [], j, ls[c].B, [p], ls[c].A, [], j, Rank(r));
  }

  lemma {:induction false} JoinedShape(ts: seq<Tensor>)
    requires SameRest(ts)
    ensures HaveAxes(ts) && Joined(ts).shape == [Lengths(ts)] + ts[0].shape[1..]
  {}

  lemma {:induction false} JoinedEntry(ts: seq<Tensor>, i: nat, rest: Index)
    requires SameRest(ts) && i < Lengths(ts)
    ensures HaveAxes(ts) && Joined(ts).at([i] + rest) == ts[PartOf(ts, i).0].at([PartOf(ts, i).1] + rest)
  {
    JoinedPart(ts, i, rest);
  }

  lemma {:induction false} MatrixRank(l: Lora, m: Lora)
    requires Built(l) && Built(m) && |l.A.shape| == 2 && l.B.shape[1..] == m.B.shape[1..]
    ensures |m.A.shape| == 2 && Rank(l) == Rank(m)
  {
    assert |l.B.shape[1..]| == 1 && l.B.shape[1..][0] == l.B.shape[1] && m.B.shape[1..][0] == m.B.shape[1];
  }

  lemma {:induction false} DenseAt(l: Lora, i: nat, j: nat)
    requires Built(l) && |l.A.shape| == 2
    ensures Dense(l).at([i] + [j]) == Entry(l, [i, j])
  {
    assert [i] + [j] == [i, j];
  }

  lemma {:induction false} SameEntry(s: Tensor, t: Tensor, k: nat, j: nat)
    requires Same(s, t) && |s.shape| == 2 && k < s.shape[0] && j < s.shape[1]
    ensures s.at([] + [k, j]) == t.at([] + [k, j])
  {
    assert [] + [k, j] == [k, j] && Within([k, j], s.shape);
  }

  lemma {:induction false} CatRowsCommutes(ls: seq<Lora>)
    requires AllFit(ls) && ls != [] && |ls[0].A.shape| == 2 && Cat(ls).Some?
    ensures SameRest(Denses(ls)) && Represents(Cat(ls).value, Joined(Denses(ls)))
  {
    hide Entry, SameRest, Lengths, As, Bs, Denses, JoinedAt;
    DensesRest(ls);
    RestShapes(ls, 0);
    var r, t := Cat(ls).value, Joined(Denses(ls));
    assert ShapeOf(r) == [Lengths(Bs(ls)), Last(ls[0].A.shape)] == t.shape;
    forall idx: Index | Within(idx, ShapeOf(r))
      ensures Entry(r, idx) == t.at(idx)
    {
      CatRowsEntry(ls, idx);
    }
  }

  lemma {:induction false} JoinFits(ls: seq<Lora>)
    requires AllFit(ls) && ls != [] && |ls[0].A.shape| > 2 && SameRest(As(ls)) && SameRest(Bs(ls))
    requires Lengths(As(ls)) == Lengths(Bs(ls))
    ensures var r, small, big := Lora(Joined(As(ls)), Joined(Bs(ls))), Lead(ls[0].A.shape), Lead(ls[0].B.shape);
            && Fits(r) && Rank(r) == Rank(ls[0])
            && Lead(r.A.shape) == [Lengths(As(ls))] + small[1..] && Last(r.A.shape) == Last(ls[0].A.shape)
            && ShapeOf(r) == [Lengths(Bs(ls))] + ShapeOf(ls[0])[1..]
  {
    hide SameRest, Lengths, JoinedAt, As, Bs;
    JoinedShape(As(ls));
    JoinedShape(Bs(ls));
    RestShapes(ls, 0);
    assert As(ls)[0] == ls[0].A && Bs(ls)[0] == ls[0].B;
    var r, small, big := Lora(Joined(As(ls)), Joined(Bs(ls))), Lead(ls[0].A.shape), Lead(ls[0].B.shape);
    assert Lead(r.A.shape) == [Lengths(As(ls))] + small[1..];
    assert Lead(r.B.shape) == [Lengths(Bs(ls))] + big[1..];
    forall i | 1 <= i < |small|
      ensures Lead(r.A.shape)[i] == 1 || Lead(r.A.shape)[i] == Lead(r.B.shape)[i]
    {
      assert Lead(r.A.shape)[i] == small[i] && Lead(r.B.shape)[i] == big[i];
    }
  }

  lemma {:induction false} SameTails(ls: seq<Lora>, c: nat)
    requires AllFit(ls) && c < |ls| && |ls[0].A.shape| > 2 && SameRest(As(ls)) && SameRest(Bs(ls))
    ensures |ls[c].A.shape| == |ls[0].A.shape| && Rank(ls[c]) == Rank(ls[0])
    ensures Last(ls[c].A.shape) == Last(ls[0].A.shape)
    ensures Lead(ls[c].A.shape) == [ls[c].A.shape[0]] + Lead(ls[0].A.shape)[1..]
  {
    hide SameRest, As, Bs;
    RestShapes(ls, c);
    var a, b, n := ls[c].A.shape, ls[0].A.shape, |ls[0].A.shape|;
    assert forall i :: 1 <= i < n ==> a[i] == a[1..][i - 1] && b[i] == b[1..][i - 1];
    var x, y := ls[c].B.shape, ls[0].B.shape;
    assert x[n - 1] == x[1..][n - 2] && y[n - 1] == y[1..][n - 2];
  }

  /** An entry of a tensor with leading axes, the first of them apart. */
  lemma {:induction false} EntryCons(l: Lora, i: nat, rest: Index, count: nat, small: Shape)
    requires Built(l) && |rest| >= 2 && |l.A.shape| == |rest| + 1
    requires Lead(l.A.shape) == [count] + small && i < count
    ensures |small| == |rest| - 2
    ensures Entry(l, [i] + rest) ==
            Dot(l.B, [i] + Front(rest), l.A, [i] + Broadcast(small, Lead(rest)), Last(rest), Rank(l))
  {
    hide Dot, Broadcast;
    assert Front([i] + rest) == [i] + Front(rest) && Lead([i] + rest) == [i] + Lead(rest);
    BroadcastCons(i, count, small, Lead(rest));
  }

  lemma {:induction false} CatLeadEntry(ls: seq<Lora>, i: nat, rest: Index)
    requires AllFit(ls) && ls != [] && |ls[0].A.shape| > 2 && SameRest(As(ls)) && SameRest(Bs(ls))
    requires SameLengths(As(ls), Bs(ls)) && i < Lengths(Bs(ls)) && |rest| + 1 == |ls[0].A.shape|
    ensures SameRest(Denses(ls))
    ensures var r := Lora(Joined(As(ls)), Joined(Bs(ls)));
            Fits(r) && |r.A.shape| == |rest| + 1 && Entry(r, [i] + rest) == Joined(Denses(ls)).at([i] + rest)
  {
    hide Dot, SameRest, Entry, Joined, JoinedAt, PartOf, Lengths, Denses, As, Bs, Dense, Same, Broadcast;
    forall c | 0 <= c < |ls|
      ensures Last(ls[c].A.shape) == Last(ls[0].A.shape)
    {
      SameTails(ls, c);
    }
    SameTotals(As(ls), Bs(ls));
    DensesRest(ls);
    JoinFits(ls);
    var r, small := Lora(Joined(As(ls)), Joined(Bs(ls))), Lead(ls[0].A.shape)[1..];
    SameParts(Denses(ls), Bs(ls), i);
    SameParts(As(ls), Bs(ls), i);
    var (c, p) := PartOf(Bs(ls), i);
    SameTails(ls, c);
    JoinedEntry(Denses(ls), i, rest);
    DenseEntry(ls[c], [p] + rest);
    EntryCons(r, i, rest, Lengths(As(ls)), small);
    EntryCons(ls[c], p, rest, ls[c].A.shape[0], small);
    var z, j := Broadcast(small, Lead(rest)), Last(rest);
    forall k: nat | k < Rank(r)
      ensures r.B.at([i] + Front(rest) + [k]) == ls[c].B.at([p] + Front(rest) + [k])
      ensures r.A.at([i] + z + [k, j]) == ls[c].A.at([p] + z + [k, j])
    {
      JoinedEntry(Bs(ls), i, Front(rest) + [k]);
      JoinedEntry(As(ls), i, z + [k, j]);
      Reassociate(i, Front(rest), [k]);
      Reassociate(p, Front(rest), [k]);
      Reassociate(i, z, [k, j]);
      Reassociate(p, z, [k, j]);
    }
    DotSame(r.B, [i] + Front(rest), r.A, [i] + z, j, ls[c].B, [p] + Front(rest), ls[c].A, [p] + z, j, Rank(r));
  }

  lemma {:induction false} Reassociate(i: nat, a: Index, b: Index)
    ensures [i] + a + b == [i] + (a + b)
  {}

  lemma {:induction false} DenseEntry(l: Lora, idx: Index)
    requires Built(l) && |idx| == |l.A.shape|
    ensures Dense(l).at(idx) == Entry(l, idx)
  {}

  lemma {:induction false} CatLeadCommutes(ls: seq<Lora>)
    requires AllFit(ls) && ls != [] && |ls[0].A.shape| > 2 && Cat(ls).Some? && CatOk(ls)
    ensures SameRest(Denses(ls)) && Represents(Cat(ls).value, Joined(Denses(ls)))
  {
    hide Entry, SameRest, Lengths, Joined, Denses, Broadcast;
    forall c | 0 <= c < |ls|
      ensures As(ls)[c].shape != [] && Bs(ls)[c].shape != [] && As(ls)[c].shape[0] == Bs(ls)[c].shape[0]
      ensures Last(ls[c].A.shape) == Last(ls[0].A.shape)
    {
      SameTails(ls, c);
    }
    SameTotals(As(ls), Bs(ls));
    JoinFits(ls);
    DensesRest(ls);
    var r, t := Cat(ls).value, Joined(Denses(ls));
    forall idx: Index | Within(idx, ShapeOf(r))
      ensures Entry(r, idx) == t.at(idx)
    {
      assert idx == [idx[0]] + idx[1..] && idx[0] < ShapeOf(r)[0];
      CatLeadEntry(ls, idx[0], idx[1..]);
    }
  }

  lemma {:induction false} ShortTotals(ls: seq<Lora>)
    requires AllFit(ls) && forall i :: 0 <= i < |ls| ==> |ls[i].A.shape| > 2 && ls[i].B.shape[0] >= 1
    ensures HaveAxes(As(ls)) && HaveAxes(Bs(ls))
    ensures |ls| <= Lengths(As(ls)) <= Lengths(Bs(ls))
    ensures !CatOk(ls) ==> Lengths(As(ls)) < Lengths(Bs(ls))
    decreases |ls|
  {
    if ls == [] {
    } else {
      assert Lead(ls[0].A.shape)[0] == ls[0].A.shape[0] && Lead(ls[0].B.shape)[0] == ls[0].B.shape[0];
      ShortTotals(ls[1..]);
    }
  }

  /**
   Joining two or more tensors with leading axes is joining the products exactly when A is nowhere
   broadcast along the joined axis.
   */
  lemma {:induction false} CatCommutes(ls: seq<Lora>)
    requires AllFit(ls) && |ls| >= 2 && |ls[0].A.shape| > 2 && Cat(ls).Some?
    requires forall i :: 0 <= i < |ls| ==> ls[i].B.shape[0] >= 1
    ensures SameRest(Denses(ls))
    ensures Represents(Cat(ls).value, Joined(Denses(ls))) <==> CatOk(ls)
  {
    hide Joined, Lengths, Denses, Same, SameRest, CatOk;
    forall c | 0 <= c < |ls|
      ensures |ls[c].A.shape| > 2 && Last(ls[c].A.shape) == Last(ls[0].A.shape)
    {
      SameTails(ls, c);
    }
    DensesRest(ls);
    if CatOk(ls) {
      CatLeadCommutes(ls);
    } else {
      ShortTotals(ls);
      CatMisfit(ls);
    }
  }

  lemma {:induction false} CatMisfit(ls: seq<Lora>)
    requires AllFit(ls) && ls != [] && |ls[0].A.shape| > 2 && SameRest(As(ls)) && SameRest(Bs(ls))
    requires HaveAxes(As(ls)) && HaveAxes(Bs(ls)) && 2 <= Lengths(As(ls)) < Lengths(Bs(ls))
    ensures !Fits(Lora(Joined(As(ls)), Joined(Bs(ls))))
  {
    var r := Lora(Joined(As(ls)), Joined(Bs(ls)));
    if Built(r) {
      assert Lead(r.A.shape)[0] == Lengths(As(ls)) && Lead(r.B.shape)[0] == Lengths(Bs(ls));
    }
  }
}
