/** When an operation on the factors succeeds, in terms of the shapes and the arguments alone. */
module LoraDefined {
  import opened Arithmetic
  import opened Tensors
  import opened LoraTensor
  import opened LoraIndexing
  import opened LoraReshaping
  import opened Wrappers

  // ---------------------------------------------------------------------------
  // Permuting
  // ---------------------------------------------------------------------------

  /** An axis counted from the front or from the end. */
  function AxisOf(d: int, n: nat): int { if d < 0 then d + n else d }

  predicate InAxis(i: int, d: nat) { 0 <= i + d && i < d }

  /** Axis `d` is named, from either end. */
  predicate NamesAxis(dims: seq<int>, n: nat, d: nat) { exists i :: 0 <= i < |dims| && AxisOf(dims[i], n) == d }

  /** Every axis is named once. */
  predicate NamesEveryAxis(dims: seq<int>, n: nat) {
    && |dims| == n
    && (forall i :: 0 <= i < n ==> InAxis(dims[i], n))
    && (forall d: nat :: d < n ==> NamesAxis(dims, n, d))
    && (forall i, j :: 0 <= i < j < n ==> AxisOf(dims[i], n) != AxisOf(dims[j], n))
  }

  /** A has no leading axis longer than one, and none of length zero. */
  predicate LeadingOnes(l: Lora)
    requires Built(l)
  {
    forall i :: 0 <= i < |l.A.shape| - 2 ==> l.A.shape[i] == 1
  }

  lemma {:induction false} NormalDefined(dims: seq<int>, n: nat)
    ensures Normal(dims, n).Some? <==> NamesEveryAxis(dims, n)
  {
    if |dims| == n && forall i :: 0 <= i < n ==> InAxis(dims[i], n) {
      var ds := FromEnd(dims, n);
      assert forall i :: 0 <= i < n ==> ds[i] == AxisOf(dims[i], n);
      forall d: nat | d < n
        ensures d in ds <==> NamesAxis(dims, n, d)
      {
        if d in ds {
          var i :| 0 <= i < n && ds[i] == d;
          assert AxisOf(dims[i], n) == d;
        }
      }
    } else if |dims| == n {
      var i :| 0 <= i < n && !InAxis(dims[i], n);
      assert dims[i] >= n || dims[i] + n < 0;
    }
  }

  lemma {:induction false} OnesAre(l: Lora)
    requires Built(l)
    ensures Lead(l.A.shape) == Ones(|l.A.shape| - 2) <==> LeadingOnes(l)
  {
    var a, o := Lead(l.A.shape), Ones(|l.A.shape| - 2);
    assert forall i :: 0 <= i < |a| ==> a[i] == l.A.shape[i] && o[i] == 1;
  }

  /**
   A permutation of the axes succeeds exactly if the last axis stays and A has only leading axes of
   length one, or if it swaps the two axes of a matrix.
   */
  lemma {:induction false} PermuteDefined(l: Lora, dims: seq<int>)
    requires Built(l)
    ensures var n := |l.A.shape|;
            Permute(l, dims).Some? <==>
              && NamesEveryAxis(dims, n)
              && ((AxisOf(dims[n - 1], n) == n - 1 && LeadingOnes(l))
                  || (n == 2 && AxisOf(dims[0], 2) == 1 && AxisOf(dims[1], 2) == 0))
  {
    var n := |l.A.shape|;
    NormalDefined(dims, n);
    OnesAre(l);
    hide NamesEveryAxis, LeadingOnes, Ones, PermuteTo;
    if NamesEveryAxis(dims, n) && n == 2 {
      TwoAxes(dims);
    }
  }

  lemma {:induction false} TwoAxes(dims: seq<int>)
    requires NamesEveryAxis(dims, 2)
    ensures AxisOf(dims[1], 2) == 1 || (AxisOf(dims[0], 2) == 1 && AxisOf(dims[1], 2) == 0)
  {}

  /** Exchanging two axes succeeds exactly if neither is the last and A has no leading axes to speak of, or for a matrix. */
  lemma {:induction false} TransposeDefined(l: Lora, dim0: int, dim1: int)
    requires Built(l)
    ensures var n := |l.A.shape|;
            Transpose(l, dim0, dim1).Some? <==>
              && InAxis(dim0, n) && InAxis(dim1, n)
              && var i, j := AxisOf(dim0, n), AxisOf(dim1, n);
                 if i == j || (i < n - 1 && j < n - 1) then LeadingOnes(l) else n == 2
  {
    var n := |l.A.shape|;
    if InAxis(dim0, n) && InAxis(dim1, n) {
      var i, j := AxisOf(dim0, n), AxisOf(dim1, n);
      var dims := Axes(n)[i := j][j := i];
      ExchangeNames(n, i, j);
      PermuteDefined(l, dims);
      hide Permute, NamesEveryAxis, LeadingOnes;
      if n == 2 {
        assert LeadingOnes(l) by { MatrixOnes(l); }
      }
    }
  }

  lemma {:induction false} MatrixOnes(l: Lora)
    requires Built(l) && |l.A.shape| == 2
    ensures LeadingOnes(l)
  {}

  lemma {:induction false} ExchangeNames(n: nat, i: nat, j: nat)
    requires i < n && j < n
    ensures NamesEveryAxis(Axes(n)[i := j][j := i], n)
  {
    var dims := Axes(n)[i := j][j := i];
    forall d: nat | d < n
      ensures NamesAxis(dims, n, d)
    {
      var k := if d == i then j else if d == j then i else d;
      assert AxisOf(dims[k], n) == d;
    }
  }

  // ---------------------------------------------------------------------------
  // Indexing
  // ---------------------------------------------------------------------------

  /** An integer index succeeds exactly with leading axes, and in range of the first axis of both factors. */
  lemma {:induction false} IntDefined(l: Lora, i: int)
    requires Built(l)
    ensures GetInt(l, i).Some? <==>
            |l.A.shape| > 2 && InAxis(i, l.A.shape[0]) && InAxis(i, l.B.shape[0])
  {
    if |l.A.shape| > 2 {
      FirstAxis(l.A, Int(i));
      FirstAxis(l.B, Int(i));
      hide TorchIndex;
      if Resolve(Int(i), l.A.shape[0]).Some? && Resolve(Int(i), l.B.shape[0]).Some? {
        FirstShape(l.A.shape, Resolve(Int(i), l.A.shape[0]).value);
        FirstShape(l.B.shape, Resolve(Int(i), l.B.shape[0]).value);
      }
    }
  }

  lemma {:induction false} FirstShape(shape: Shape, ix: Ix)
    requires shape != []
    ensures IxShape([ix] + AllOf(shape[1..])) == (if ix.Take? then [ix.count] else []) + shape[1..]
    decreases |shape|
  {
    var rest := shape[1..];
    if rest == [] {
      IxShapeAppend([], ix);
      assert [ix] + AllOf(rest) == [] + [ix];
    } else {
      FirstShape(Front(shape), ix);
      assert Front(shape)[1..] == Front(rest);
      IxShapeAppend([ix] + AllOf(Front(rest)), All(Last(rest)));
      assert [ix] + AllOf(rest) == [ix] + AllOf(Front(rest)) + [All(Last(rest))];
      assert Front(rest) + [Last(rest)] == rest;
    }
  }

  /** A slice succeeds exactly if it goes forward. */
  lemma {:induction false} SliceDefined(l: Lora, p: PyIx)
    requires Built(l) && p.Slice?
    ensures GetSlice(l, p).Some? <==> p.step >= 1
  {
    hide TorchIndex, Resolve;
    FirstAxis(l.A, p);
    FirstAxis(l.B, p);
    Resolves(p, l.A.shape[0]);
    Resolves(p, l.B.shape[0]);
    if p.step >= 1 {
      FirstShape(l.A.shape, Resolve(p, l.A.shape[0]).value);
      FirstShape(l.B.shape, Resolve(p, l.B.shape[0]).value);
      hide IxShape, AllOf;
    }
  }

  /** An index applies to an axis exactly if it is in range, or goes forward. */
  predicate Applies(p: PyIx, d: nat) { if p.Int? then InAxis(p.i, d) else p.step >= 1 }

  lemma {:induction false} Resolves(p: PyIx, d: nat)
    ensures Resolve(p, d).Some? <==> Applies(p, d)
    ensures Resolve(p, d).Some? ==> (Resolve(p, d).value.Take? <==> p.Slice?)
  {}

  /** `m` is the last of the indices that is a slice. */
  predicate LastSliceAt(ps: seq<PyIx>, m: nat) {
    m < |ps| && ps[m].Slice? && forall i :: m < i < |ps| ==> ps[i].Int?
  }

  lemma {:induction false} LeadShape(ps: seq<PyIx>, shape: Shape, ixs: seq<Ix>)
    requires |ps| == |shape| == |ixs| && forall i :: 0 <= i < |ps| ==> LeadIx(ps[i], shape[i]) == Some(ixs[i])
    ensures IxShape(ixs) == [] ==> forall m: nat :: !LastSliceAt(ps, m)
    ensures forall m: nat :: LastSliceAt(ps, m) ==> IxShape(ixs) != [] && Last(IxShape(ixs)) == shape[m]
    ensures IxShape(ixs) != [] ==> exists m: nat :: LastSliceAt(ps, m)
    decreases |ps|
  {
    if ps == [] {
    } else {
      var n := |ps| - 1;
      assert LeadIx(ps[n], shape[n]) == Some(ixs[n]);
      LeadShape(Front(ps), Front(shape), Front(ixs));
      if ps[n].Slice? {
        assert LastSliceAt(ps, n);
      } else {
        assert forall m: nat :: LastSliceAt(ps, m) <==> LastSliceAt(Front(ps), m) by { LastSliceBefore(ps); }
      }
    }
  }

  lemma {:induction false} LastSliceBefore(ps: seq<PyIx>)
    requires ps != [] && Last(ps).Int?
    ensures forall m: nat :: LastSliceAt(ps, m) <==> LastSliceAt(Front(ps), m)
  {}

  lemma {:induction false} SlicesOf(ps: seq<PyIx>, ixs: seq<Ix>, jxs: seq<Ix>)
    requires |ps| == |ixs| == |jxs|
    requires forall i :: 0 <= i < |ps| ==> (ixs[i].Take? <==> ps[i].Slice?) && (jxs[i].Take? <==> ps[i].Slice?)
    ensures |IxShape(ixs)| == |IxShape(jxs)|
    decreases |ps|
  {
    if ps == [] {
    } else {
      SlicesOf(Front(ps), Front(ixs), Front(jxs));
    }
  }

  /** Every index applies to its axis: leading ones and the row's to B, the column's to A. */
  predicate AllApply(l: Lora, ps: seq<PyIx>)
    requires Built(l) && |ps| == |l.A.shape|
  {
    var n := |ps|;
    && (forall i :: 0 <= i < n - 1 ==> Applies(ps[i], l.B.shape[i]))
    && (forall i :: 0 <= i < n - 2 && ps[i].Int? ==> l.A.shape[i] > 0)
    && Applies(ps[n - 1], l.A.shape[n - 1])
  }

  /**
   A full tuple index succeeds exactly if every index applies and row and column are slices; or if both
   are integers and the last slice in front of them stands on an axis of A that happens to be as long
   as the rank.
   */
  lemma {:induction false} PaddedDefined(l: Lora, ps: seq<PyIx>)
    requires Built(l) && |ps| == |l.A.shape|
    ensures var n := |ps|;
            GetPadded(l, ps).Some? <==>
              && AllApply(l, ps)
              && ((ps[n - 2].Slice? && ps[n - 1].Slice?)
                  || (ps[n - 2].Int? && ps[n - 1].Int?
                      && exists m: nat :: LastSliceAt(ps[..n - 2], m) && l.A.shape[m] == Rank(l)))
  {
    var n := |ps|;
    PaddedApplies(l, ps);
    if AllApply(l, ps) {
      var lead := LeadIxs(ps[..n - 2], Lead(l.A.shape)).value;
      var last := Resolve(ps[n - 1], Last(l.A.shape)).value;
      var rows := ResolveAll(Front(ps) + [FullSlice], l.B.shape).value;
      PaddedShapes(l, ps, lead, last, rows);
    }
  }

  lemma {:induction false} PaddedApplies(l: Lora, ps: seq<PyIx>)
    requires Built(l) && |ps| == |l.A.shape|
    ensures var n := |ps|;
            AllApply(l, ps) <==>
              && LeadIxs(ps[..n - 2], Lead(l.A.shape)).Some? && Resolve(ps[n - 1], Last(l.A.shape)).Some?
              && ResolveAll(Front(ps) + [FullSlice], l.B.shape).Some?
  {
    hide Resolve, Applies;
    var n := |ps|;
    var qs := Front(ps) + [FullSlice];
    forall i | 0 <= i < n
      ensures Resolve(qs[i], l.B.shape[i]).Some? <==> i == n - 1 || Applies(ps[i], l.B.shape[i])
    {
      Resolves(qs[i], l.B.shape[i]);
      FullResolves(l.B.shape[i]);
    }
    Resolves(ps[n - 1], l.A.shape[n - 1]);
    forall i | 0 <= i < n - 2
      ensures LeadIx(ps[..n - 2][i], Lead(l.A.shape)[i]).Some? <==> (ps[i].Int? ==> l.A.shape[i] > 0)
    {
    }
  }

  lemma {:induction false} PaddedShapes(l: Lora, ps: seq<PyIx>, lead: seq<Ix>, last: Ix, rows: seq<Ix>)
    requires Built(l) && |ps| == |l.A.shape| && |lead| == |ps| - 2 && |rows| == |ps|
    requires LeadIxs(ps[..|ps| - 2], Lead(l.A.shape)) == Some(lead)
    requires Resolve(ps[|ps| - 1], Last(l.A.shape)) == Some(last)
    requires ResolveAll(Front(ps) + [FullSlice], l.B.shape) == Some(rows)
    ensures var n := |ps|;
            Built(Lora(Gather(l.A, lead + [All(Rank(l)), last]), Gather(l.B, rows))) <==>
              ((ps[n - 2].Slice? && ps[n - 1].Slice?)
               || (ps[n - 2].Int? && ps[n - 1].Int?
                   && exists m: nat :: LastSliceAt(ps[..n - 2], m) && l.A.shape[m] == Rank(l)))
  {
    hide Resolve, LeadIx, IxShape, LastSliceAt;
    var n, rank := |ps|, Rank(l);
    var qs := Front(ps) + [FullSlice];
    FullResolves(rank);
    assert qs[n - 1] == FullSlice && l.B.shape[n - 1] == rank;
    forall i | 0 <= i < n - 1
      ensures rows[i].Take? <==> ps[i].Slice?
    {
      assert qs[i] == ps[i];
      Resolves(qs[i], l.B.shape[i]);
    }
    Resolves(ps[n - 1], Last(l.A.shape));
    var front := rows[..n - 2];
    assert rows == front + [rows[n - 2], All(rank)];
    LeadsAlike(ps, Lead(l.A.shape), lead, front);
    RankAxis(l, ps, lead);
    TwoShapes(lead, All(rank), last);
    TwoShapes(front, rows[n - 2], All(rank));
    BuiltShapes(IxShape(lead), IxShape(front), rank, last, rows[n - 2]);
  }

  /** Which factors can be put together, by the shapes of their parts. */
  lemma {:induction false} BuiltShapes(a: Shape, b: Shape, rank: nat, last: Ix, row: Ix)
    requires |a| == |b|
    ensures var x := a + [rank] + (if last.Take? then [last.count] else []);
            var y := b + (if row.Take? then [row.count] else []) + [rank];
            (|x| == |y| >= 2 && x[|x| - 2] == Last(y)) <==>
              (last.Take? && row.Take?) || (last.Pick? && row.Pick? && a != [] && Last(a) == rank)
  {}

  lemma {:induction false} RankAxis(l: Lora, ps: seq<PyIx>, lead: seq<Ix>)
    requires Built(l) && |ps| == |l.A.shape| && LeadIxs(ps[..|ps| - 2], Lead(l.A.shape)) == Some(lead)
    ensures (IxShape(lead) != [] && Last(IxShape(lead)) == Rank(l)) <==>
            exists m: nat :: LastSliceAt(ps[..|ps| - 2], m) && l.A.shape[m] == Rank(l)
  {
    hide LeadIx, IxShape;
    var qs, small := ps[..|ps| - 2], Lead(l.A.shape);
    LeadShape(qs, small, lead);
    assert forall m: nat :: LastSliceAt(qs, m) ==> small[m] == l.A.shape[m];
    if IxShape(lead) != [] && Last(IxShape(lead)) == Rank(l) {
      var m: nat :| LastSliceAt(qs, m);
      assert l.A.shape[m] == Rank(l);
    }
  }

  lemma {:induction false} LeadsAlike(ps: seq<PyIx>, shape: Shape, lead: seq<Ix>, front: seq<Ix>)
    requires |ps| >= 2 && |shape| == |lead| == |front| == |ps| - 2 && LeadIxs(ps[..|ps| - 2], shape) == Some(lead)
    requires forall i :: 0 <= i < |front| ==> (front[i].Take? <==> ps[i].Slice?)
    ensures |IxShape(lead)| == |IxShape(front)|
  {
    var qs := ps[..|ps| - 2];
    forall i | 0 <= i < |qs|
      ensures lead[i].Take? <==> qs[i].Slice?
    {
      assert LeadIx(qs[i], shape[i]) == Some(lead[i]);
    }
    SlicesOf(qs, lead, front);
  }

  lemma {:induction false} TwoShapes(front: seq<Ix>, p: Ix, q: Ix)
    ensures IxShape(front + [p, q]) ==
            IxShape(front) + (if p.Take? then [p.count] else []) + (if q.Take? then [q.count] else [])
  {
    IxShapeAppend(front, p);
    IxShapeAppend(front + [p], q);
    assert front + [p, q] == front + [p] + [q];
  }

  // ---------------------------------------------------------------------------
  // Stacking and joining
  // ---------------------------------------------------------------------------

  /** The lengths behind the first axis. */
  function Behind(t: Tensor): Shape { if t.shape == [] then [] else t.shape[1..] }

  /** Stacking succeeds exactly for one or more tensors of one form. */
  lemma {:induction false} StackDefined(ls: seq<Lora>)
    requires forall i :: 0 <= i < |ls| ==> Built(ls[i])
    ensures Stack(ls).Some? <==>
            && ls != []
            && forall i :: 0 <= i < |ls| ==> ls[i].A.shape == ls[0].A.shape && ls[i].B.shape == ls[0].B.shape
  {
    hide Stacked;
    if SameShapes(As(ls)) && SameShapes(Bs(ls)) {
      StackedShape(As(ls));
      StackedShape(Bs(ls));
      assert Built(ls[0]);
    }
  }

  lemma {:induction false} StackedShape(ts: seq<Tensor>)
    requires SameShapes(ts)
    ensures Stacked(ts).shape == [|ts|] + ts[0].shape
  {}

  /**
   Joining succeeds exactly if the shapes agree behind the first axis, those of B always and those of
   A with leading axes, and if matrices have the same A.
   */
  lemma {:induction false} CatDefined(ls: seq<Lora>)
    requires forall i :: 0 <= i < |ls| ==> Built(ls[i])
    ensures Cat(ls).Some? <==>
            && ls != []
            && (forall i :: 0 <= i < |ls| ==> Behind(ls[i].B) == Behind(ls[0].B))
            && (if |ls[0].A.shape| > 2 then forall i :: 0 <= i < |ls| ==> Behind(ls[i].A) == Behind(ls[0].A)
                else forall i :: 0 <= i < |ls| ==> Same(ls[0].A, ls[i].A))
  {
    hide Joined, Same, As, Bs, SameRest, Behind;
    if ls != [] {
      assert Built(ls[0]);
      RestsSame(ls);
      if SameRest(Bs(ls)) {
        JoinedShape(Bs(ls));
        assert Bs(ls)[0] == ls[0].B && As(ls)[0] == ls[0].A;
        if |ls[0].A.shape| > 2 && SameRest(As(ls)) {
          JoinedShape(As(ls));
        }
      }
    }
  }

  lemma {:induction false} RestsSame(ls: seq<Lora>)
    requires ls != [] && forall i :: 0 <= i < |ls| ==> Built(ls[i])
    ensures SameRest(Bs(ls)) <==> forall i :: 0 <= i < |ls| ==> Behind(ls[i].B) == Behind(ls[0].B)
    ensures SameRest(As(ls)) <==> forall i :: 0 <= i < |ls| ==> Behind(ls[i].A) == Behind(ls[0].A)
  {
    var a, b := As(ls), Bs(ls);
    assert forall i :: 0 <= i < |ls| ==> a[i] == ls[i].A && b[i] == ls[i].B && Built(ls[i]);
  }

  // ---------------------------------------------------------------------------
  // What arguments mean
  // ---------------------------------------------------------------------------

  /** The positions a forward slice picks, as Python has it. */
  lemma {:induction false} SlicePicks(a: nat, b: nat, step: int, d: nat, x: nat)
    requires a <= d && step >= 1
    ensures Resolve(Slice(Some(a), Some(b), step), d).Some?
    ensures var ix := Resolve(Slice(Some(a), Some(b), step), d).value;
            (exists k: nat :: k < ix.count && x == ix.start + ix.step * k) <==>
            a <= x < b && x < d && (x - a) % step == 0
  {
    var ix := Resolve(Slice(Some(a), Some(b), step), d).value;
    var e := if b > d then d else b;
    if a <= x < b && x < d && (x - a) % step == 0 {
      DivMod(x - a, step);
      DivMod(e - a + step - 1, step);
      var k := (x - a) / step;
      CountCovers(e - a, step, x - a, k);
      assert k < ix.count && x == ix.start + ix.step * k;
    }
    if k: nat :| k < ix.count && x == ix.start + ix.step * k {
      DivMod(e - a + step - 1, step);
      CountStays(e - a, step, k);
      DivUnique(x - a, step, k, 0);
    }
  }

  lemma {:induction false} CountCovers(n: int, step: int, y: int, k: int)
    requires step >= 1 && 0 <= y < n && y == step * k
    ensures k < (n + step - 1) / step
  {
    var q := (n + step - 1) / step;
    DivMod(n + step - 1, step);
    Scale(step, k - q);
    assert step * (k - q) == step * k - step * q;
  }

  lemma {:induction false} CountStays(n: int, step: int, k: int)
    requires step >= 1 && 0 <= k < (n + step - 1) / step
    ensures 0 <= step * k < n
  {
    var q := (n + step - 1) / step;
    DivMod(n + step - 1, step);
    Scale(step, q - 1 - k);
    Scale(step, k);
    assert step * (q - 1 - k) == step * q - step - step * k;
  }

  /** Bounds may be left out, and count from the end when they are negative. */
  lemma {:induction false} SliceBounds(start: Option<int>, stop: Option<int>, step: int, d: nat, k: int)
    requires 0 < k <= d
    ensures Resolve(Slice(None, stop, step), d) == Resolve(Slice(Some(0), stop, step), d)
    ensures Resolve(Slice(start, None, step), d) == Resolve(Slice(start, Some(d), step), d)
    ensures Resolve(Slice(Some(-k), stop, step), d) == Resolve(Slice(Some(d - k), stop, step), d)
    ensures Resolve(Slice(start, Some(-k), step), d) == Resolve(Slice(start, Some(d - k), step), d)
    ensures Resolve(Slice(Some(d + k), stop, step), d) == Resolve(Slice(Some(d), stop, step), d)
    ensures Resolve(Slice(start, Some(-(d as int) - k), step), d) == Resolve(Slice(start, Some(0), step), d)
  {}

  /** Every chunk but the last has the length asked for; the last has what is left. */
  lemma {:induction false} ChunksEven(d: nat, size: nat)
    requires size > 0
    ensures var r := ChunkSizes(d, size);
            && r != [] && (forall i :: 0 <= i < |r| - 1 ==> r[i] == size)
            && Last(r) <= size && (d > 0 ==> Last(r) > 0)
    decreases d
  {
    if d <= size {
    } else {
      ChunksEven(d - size, size);
      var r, rest := ChunkSizes(d, size), ChunkSizes(d - size, size);
      assert forall i :: 1 <= i < |r| ==> r[i] == rest[i - 1];
    }
  }

  /** One open length becomes what is left of the total, if it comes out even. */
  lemma {:induction false} OpenLength(s: seq<int>, k: nat, total: nat)
    requires k < |s| && forall i :: 0 <= i < |s| ==> if i == k then s[i] == -1 else s[i] >= 0
    ensures var known := Prod(AsNats(s[k := 1]));
            Expand(s, total) ==
            if known > 0 && total % known == 0 then Some(s[k := total / known]) else None
  {
    KnownLengths(s, k, |s|);
    assert s[..|s|] == s && s[k := 1][..|s|] == s[k := 1];
    assert s[k] in s;
    var known := Known(s);
    if known > 0 && total % known == 0 {
      assert Filled(s, total / known) == s[k := total / known];
    }
  }

  lemma {:induction false} KnownLengths(s: seq<int>, k: nat, n: nat)
    requires k < |s| && n <= |s| && forall i :: 0 <= i < |s| ==> if i == k then s[i] == -1 else s[i] >= 0
    ensures Known(s[..n]) == Prod(AsNats(s[k := 1][..n]))
    decreases n
  {
    if n == 0 {
    } else {
      KnownLengths(s, k, n - 1);
      var t := AsNats(s[k := 1][..n]);
      assert s[..n][..n - 1] == s[..n - 1];
      assert Front(t) == AsNats(s[k := 1][..n - 1]);
    }
  }
}
