/**
 Indexing and splitting a deferred tensor: each operation on the factors against the same operation
 on the product.
 */
module LoraIndexing {
  import opened Arithmetic
  import opened Tensors
  import opened LoraTensor
  import opened Wrappers

  // ---------------------------------------------------------------------------
  // An index on the first axis
  // ---------------------------------------------------------------------------

  /** An integer index either fails or is the index of the product. */
  lemma {:induction false} IntCommutes(l: Lora, i: int)
    requires Fits(l)
    ensures GetInt(l, i).Some? ==>
              && TorchIndex(Dense(l), [Int(i)]).Some?
              && Represents(GetInt(l, i).value, TorchIndex(Dense(l), [Int(i)]).value)
  {
    if |l.A.shape| > 2 {
      FirstAxis(l.A, Int(i));
      FirstAxis(l.B, Int(i));
      hide TorchIndex, Dense, Same, Resolve;
      FirstAxisCommutes(l, Int(i));
    }
  }

  /** A slice of a tensor with leading axes is right exactly when the broadcast axis survives. */
  lemma {:induction false} SliceCommutes(l: Lora, p: PyIx)
    requires Fits(l) && p.Slice? && GetSlice(l, p).Some?
    ensures TorchIndex(Dense(l), [p]).Some?
    ensures Represents(GetSlice(l, p).value, TorchIndex(Dense(l), [p]).value) <==>
            |l.A.shape| == 2 || FirstAxisOk(l, p)
  {
    hide TorchIndex, Resolve, Dense, Same;
    if |l.A.shape| > 2 {
      FirstAxisCommutes(l, p);
    } else {
      RowsCommute(l, p);
    }
  }

  /** Rows of a matrix. */
  lemma {:induction false} RowsCommute(l: Lora, p: PyIx)
    requires Fits(l) && p.Slice? && |l.A.shape| == 2 && GetSlice(l, p).Some?
    ensures TorchIndex(Dense(l), [p]).Some?
    ensures Represents(GetSlice(l, p).value, TorchIndex(Dense(l), [p]).value)
  {
    hide Resolve, Dense, Source, Same;
    FirstAxis(l.B, p);
    DenseShape(l);
    FirstAxis(Dense(l), p);
    var im, jn := Resolve(p, l.B.shape[0]).value, All(Last(l.A.shape));
    ResolveKind(p, l.B.shape[0]);
    AxesFollow([], [], []);
    GatherCommutes(l, [], [], im, jn);
    var g := GatherLora(l, [], [], im, jn);
    assert AllOf(l.A.shape) == [] + [All(Rank(l)), jn];
    assert [im] + AllOf(l.B.shape[1..]) == [] + [im, All(Rank(l))];
    assert [im] + AllOf(ShapeOf(l)[1..]) == [] + [im, jn];
    WholeIsSame(l.A);
    var r := GetSlice(l, p).value;
    SameItself(g.B);
    SameFactors(g, r);
    SameBack(Dense(g), Dense(r));
    SameTransitive(Dense(r), Dense(g), TorchIndex(Dense(l), [p]).value);
  }

  lemma {:induction false} SameItself(t: Tensor)
    ensures Same(t, t)
  {}

  lemma {:induction false} SameBack(s: Tensor, t: Tensor)
    requires Same(s, t)
    ensures Same(t, s)
  {}

  // ---------------------------------------------------------------------------
  // A tuple of indices
  // ---------------------------------------------------------------------------

  /** How the code indexes a leading axis of A: integers modulo its length, slices not at all. */
  function LeadIx(p: PyIx, d: nat): Option<Ix> {
    match p
    case Int(j) => if d == 0 then None else Some(Pick(Remainder(j, d)))
    case Slice(_, _, _) => Some(All(d))
  }

  function LeadIxs(ps: seq<PyIx>, shape: Shape): (r: Option<seq<Ix>>)
    requires |ps| == |shape|
    ensures r.Some? ==> |r.value| == |ps| && forall i :: 0 <= i < |ps| ==> LeadIx(ps[i], shape[i]) == Some(r.value[i])
    ensures r.None? ==> exists i :: 0 <= i < |ps| && LeadIx(ps[i], shape[i]) == None
  {
    if ps == [] then Some([])
    else
      var front, last := LeadIxs(Front(ps), Front(shape)), LeadIx(Last(ps), Last(shape));
      if front.None? || last.None? then
        assert last.None? ==> LeadIx(ps[|ps| - 1], shape[|ps| - 1]) == None;
        None
      else Some(front.value + [last.value])
  }

  /** One index per axis: A gets the leading ones and the last, B all but the last. */
  function GetPadded(l: Lora, ps: seq<PyIx>): Option<Lora>
    requires Built(l) && |ps| == |l.A.shape|
  {
    var n := |ps|;
    var lead := LeadIxs(ps[..n - 2], Lead(l.A.shape));
    var last := Resolve(ps[n - 1], Last(l.A.shape));
    var rows := ResolveAll(Front(ps) + [FullSlice], l.B.shape);
    if lead.None? || last.None? || rows.None? then None
    else Make(Gather(l.A, lead.value + [All(Rank(l)), last.value]), Gather(l.B, rows.value))
  }

  /** Rows and columns are slices; slices of a leading axis keep it whole unless A is broadcast. */
  predicate TupleOk(l: Lora, ps: seq<PyIx>)
    requires Built(l) && |ps| == |l.A.shape|
  {
    && ps[|ps| - 2].Slice? && ps[|ps| - 1].Slice?
    && forall i :: 0 <= i < |ps| - 2 && ps[i].Slice? ==>
         l.A.shape[i] == 1
         || (Resolve(ps[i], l.B.shape[i]).Some? && Resolve(ps[i], l.B.shape[i]).value.count == l.B.shape[i])
  }

  lemma {:induction false} ModuloResolves(j: int, d: nat)
    requires Resolve(Int(j), d).Some?
    ensures LeadIx(Int(j), d) == Resolve(Int(j), d)
  {
    DivUnique(j, d, if j < 0 then -1 else 0, if j < 0 then j + d else j);
  }

  lemma {:induction false} LeadFollows(p: PyIx, small: nat, big: nat)
    requires small == 1 || small == big
    requires LeadIx(p, small).Some? && Resolve(p, big).Some?
    requires p.Slice? ==> small == 1 || Resolve(p, big).value.count == big
    ensures AxisFollows(small, LeadIx(p, small).value, Resolve(p, big).value)
  {
    if p.Int? {
      if small == 1 {
        DivMod(p.i, 1);
      } else {
        ModuloResolves(p.i, big);
      }
    } else if small != 1 && big >= 2 {
      FullLengthIsFull(p, big);
    }
  }

  /** What the code resolved, in the terms of the product's axes. */
  lemma {:induction false} PaddedParts(l: Lora, ps: seq<PyIx>)
    requires Fits(l) && |ps| == |l.A.shape| && GetPadded(l, ps).Some?
    ensures var n := |ps|;
            var lead, rows := LeadIxs(ps[..n - 2], Lead(l.A.shape)), ResolveAll(Front(ps) + [FullSlice], l.B.shape);
            && lead.Some? && rows.Some? && Resolve(ps[n - 1], Last(l.A.shape)).Some?
            && var ba, bb, im, jn := lead.value, rows.value[..n - 2], rows.value[n - 2], Resolve(ps[n - 1], Last(l.A.shape)).value;
               && GetPadded(l, ps) == Some(GatherLora(l, ba, bb, im, jn))
               && TorchIndex(Dense(l), ps) == Some(Gather(Dense(l), bb + [im, jn]))
               && ResolveAll(ps, ShapeOf(l)) == Some(bb + [im, jn])
               && Resolve(ps[n - 2], l.B.shape[n - 2]) == Some(im)
               && forall i :: 0 <= i < n - 2 ==>
                    LeadIx(ps[i], l.A.shape[i]) == Some(ba[i]) && Resolve(ps[i], l.B.shape[i]) == Some(bb[i])
  {
    hide Resolve, LeadIx, Gather;
    var n, shape := |ps|, ShapeOf(l);
    var rows := ResolveAll(Front(ps) + [FullSlice], l.B.shape).value;
    var qs := Front(ps) + [FullSlice];
    FullResolves(Rank(l));
    assert qs[n - 1] == FullSlice && l.B.shape[n - 1] == Rank(l);
    forall i | 0 <= i < n - 1
      ensures Resolve(ps[i], shape[i]) == Some(rows[i]) && Resolve(ps[i], l.B.shape[i]) == Some(rows[i])
    {
      assert qs[i] == ps[i] && shape[i] == l.B.shape[i];
    }
    var jn := Resolve(ps[n - 1], Last(l.A.shape)).value;
    assert rows == rows[..n - 2] + [rows[n - 2], All(Rank(l))];
    var all := ResolveAll(ps, shape);
    assert shape[n - 1] == Last(l.A.shape);
    assert all.Some? && all.value == rows[..n - 2] + [rows[n - 2], jn];
    assert ps + Fulls(0) == ps;
    var small := Lead(l.A.shape);
    var lead := LeadIxs(ps[..n - 2], small).value;
    forall i | 0 <= i < n - 2
      ensures LeadIx(ps[i], l.A.shape[i]) == Some(lead[i])
    {
      assert ps[..n - 2][i] == ps[i] && small[i] == l.A.shape[i];
    }
  }

  /** An unfit tuple leaves factors that do not fit, or a tensor with another number of axes. */
  lemma {:induction false} UnfitTuple(l: Lora, ps: seq<PyIx>)
    requires Fits(l) && |ps| == |l.A.shape| && GetPadded(l, ps).Some? && !TupleOk(l, ps)
    ensures ResolveAll(ps, ShapeOf(l)).Some?
    ensures var r := GetPadded(l, ps).value; Fits(r) ==> |ShapeOf(r)| != |IxShape(ResolveAll(ps, ShapeOf(l)).value)|
  {
    hide Resolve, LeadIx, Gather, TorchIndex, GetPadded, GatherLora, Dense, IxShape;
    PaddedParts(l, ps);
    var n := |ps|;
    var rows := ResolveAll(Front(ps) + [FullSlice], l.B.shape).value;
    var ba, bb, im := LeadIxs(ps[..n - 2], Lead(l.A.shape)).value, rows[..n - 2], rows[n - 2];
    var jn := Resolve(ps[n - 1], Last(l.A.shape)).value;
    ResolveKind(ps[n - 2], l.B.shape[n - 2]);
    ResolveKind(ps[n - 1], Last(l.A.shape));
    TupleMisfit(l, ps, ba, bb, im, jn);
  }

  /** A tuple index that succeeds is the index of the product exactly when the tuple is fit for it. */
  lemma {:induction false} TupleCommutes(l: Lora, ps: seq<PyIx>)
    requires Fits(l) && |ps| == |l.A.shape| && GetPadded(l, ps).Some?
    ensures ResolveAll(ps, ShapeOf(l)).Some?
    ensures TorchIndex(Dense(l), ps) == Some(Gather(Dense(l), ResolveAll(ps, ShapeOf(l)).value))
    ensures Represents(GetPadded(l, ps).value, TorchIndex(Dense(l), ps).value) <==> TupleOk(l, ps)
  {
    hide Resolve, LeadIx, Gather, TorchIndex, GetPadded, GatherLora, Dense, Same;
    PaddedParts(l, ps);
    if TupleOk(l, ps) {
      var n := |ps|;
      var rows := ResolveAll(Front(ps) + [FullSlice], l.B.shape).value;
      var ba, bb, im := LeadIxs(ps[..n - 2], Lead(l.A.shape)).value, rows[..n - 2], rows[n - 2];
      var jn := Resolve(ps[n - 1], Last(l.A.shape)).value;
      ResolveKind(ps[n - 2], l.B.shape[n - 2]);
      ResolveKind(ps[n - 1], Last(l.A.shape));
      TupleFollows(l, ps, ba, bb);
      GatherCommutes(l, ba, bb, im, jn);
    } else {
      UnfitTuple(l, ps);
      MisfitFails(GetPadded(l, ps).value, Dense(l), ResolveAll(ps, ShapeOf(l)).value);
    }
  }

  lemma {:induction false} MisfitFails(r: Lora, t: Tensor, ixs: seq<Ix>)
    requires Fits(r) ==> |ShapeOf(r)| != |IxShape(ixs)|
    ensures !Represents(r, Gather(t, ixs))
  {
    if Fits(r) {
      SameShape(Dense(r), Gather(t, ixs));
    }
  }

  lemma {:induction false} TupleFollows(l: Lora, ps: seq<PyIx>, ba: seq<Ix>, bb: seq<Ix>)
    requires Fits(l) && |ps| == |l.A.shape| && TupleOk(l, ps) && |ba| == |bb| == |ps| - 2
    requires forall i :: 0 <= i < |ps| - 2 ==>
               LeadIx(ps[i], l.A.shape[i]) == Some(ba[i]) && Resolve(ps[i], l.B.shape[i]) == Some(bb[i])
    ensures Follows(Lead(l.A.shape), ba, bb)
  {
    hide Resolve, LeadIx, AxisFollows;
    var small, big := Lead(l.A.shape), Lead(l.B.shape);
    forall i | 0 <= i < |small|
      ensures AxisFollows(small[i], ba[i], bb[i])
    {
      assert small[i] == l.A.shape[i] && big[i] == l.B.shape[i];
      LeadFollows(ps[i], small[i], big[i]);
    }
    AxesFollow(small, ba, bb);
  }

  lemma {:induction false} LeadKind(p: PyIx, small: nat, big: nat)
    requires LeadIx(p, small).Some? && Resolve(p, big).Some?
    ensures LeadIx(p, small).value.Take? <==> p.Slice?
    ensures Resolve(p, big).value.Take? <==> p.Slice?
    ensures p.Slice? ==> LeadIx(p, small).value.count == small
  {}

  lemma {:induction false} TupleMisfit(l: Lora, ps: seq<PyIx>, ba: seq<Ix>, bb: seq<Ix>, im: Ix, jn: Ix)
    requires Fits(l) && |ps| == |l.A.shape| && !TupleOk(l, ps) && |ba| == |bb| == |ps| - 2
    requires forall i :: 0 <= i < |ps| - 2 ==>
               LeadIx(ps[i], l.A.shape[i]) == Some(ba[i]) && Resolve(ps[i], l.B.shape[i]) == Some(bb[i])
    requires (im.Take? <==> ps[|ps| - 2].Slice?) && (jn.Take? <==> ps[|ps| - 1].Slice?)
    ensures var r := GatherLora(l, ba, bb, im, jn); Fits(r) ==> |ShapeOf(r)| != |IxShape(bb + [im, jn])|
  {
    hide Resolve, LeadIx, Source;
    var r, rank := GatherLora(l, ba, bb, im, jn), Rank(l);
    forall i | 0 <= i < |ba|
      ensures (ba[i].Take? <==> ps[i].Slice?) && (bb[i].Take? <==> ps[i].Slice?)
      ensures ps[i].Slice? ==> ba[i].count == l.A.shape[i]
    {
      LeadKind(ps[i], l.A.shape[i], l.B.shape[i]);
    }
    BroadcastAxes(ba, bb);
    TwoAxes(ba, All(rank), jn);
    TwoAxes(bb, im, All(rank));
    TwoAxes(bb, im, jn);
    if im.Take? && jn.Take? {
      TwoMore(ba, All(rank), jn);
      TwoMore(bb, im, All(rank));
      LeadMisfit(l, ps, ba, bb);
    }
  }

  /** A slice that shortens a leading axis of B leaves an axis of A that no longer fits. */
  lemma {:induction false} LeadMisfit(l: Lora, ps: seq<PyIx>, ba: seq<Ix>, bb: seq<Ix>)
    requires Fits(l) && |ps| == |l.A.shape| && |ba| == |bb| == |ps| - 2
    requires !TupleOk(l, ps) && ps[|ps| - 2].Slice? && ps[|ps| - 1].Slice?
    requires forall i :: 0 <= i < |ba| ==> (ba[i].Take? <==> ps[i].Slice?) && (bb[i].Take? <==> ps[i].Slice?)
    requires forall i :: 0 <= i < |ba| && ps[i].Slice? ==> ba[i].count == l.A.shape[i]
    requires forall i :: 0 <= i < |ba| ==> Resolve(ps[i], l.B.shape[i]) == Some(bb[i])
    ensures !Broadcasts(IxShape(ba), IxShape(bb))
  {
    hide Resolve, IxShape;
    BroadcastAxes(ba, bb);
    var i :| 0 <= i < |ps| - 2 && ps[i].Slice? && l.A.shape[i] != 1
             && Resolve(ps[i], l.B.shape[i]).value.count != l.B.shape[i];
    assert Lead(l.A.shape)[i] == l.A.shape[i] && Lead(l.B.shape)[i] == l.B.shape[i];
    assert ba[i].count == l.A.shape[i] == l.B.shape[i] != bb[i].count;
  }

  lemma {:induction false} SameShape(s: Tensor, t: Tensor)
    ensures Same(s, t) ==> s.shape == t.shape
  {}

  lemma {:induction false} TwoAxes(front: seq<Ix>, p: Ix, q: Ix)
    ensures |IxShape(front + [p, q])| == |IxShape(front)| + (if p.Take? then 1 else 0) + (if q.Take? then 1 else 0)
  {
    IxShapeAppend(front, p);
    IxShapeAppend(front + [p], q);
    assert front + [p, q] == front + [p] + [q];
  }

  // ---------------------------------------------------------------------------
  // Splitting
  // ---------------------------------------------------------------------------

  /** `size` positions of axis `dim` from `off` on. */
  function Narrow(t: Tensor, dim: nat, off: nat, size: nat): Tensor
    requires dim < |t.shape|
  {
    Gather(t, AllOf(t.shape)[dim := Take(off, size, 1)])
  }

  /** One chunk: columns come from A, everything else from B, and from A where it is not broadcast. */
  function Chunk(l: Lora, dim: nat, off: nat, size: nat): Lora
    requires Built(l) && dim < |l.A.shape|
  {
    var n := |l.A.shape|;
    if dim == n - 1 then Lora(Narrow(l.A, dim, off, size), l.B)
    else if dim == n - 2 || l.A.shape[dim] == 1 then Lora(l.A, Narrow(l.B, dim, off, size))
    else Lora(Narrow(l.A, dim, off, size), Narrow(l.B, dim, off, size))
  }

  lemma {:induction false} AllOfParts(shape: Shape)
    requires |shape| >= 2
    ensures AllOf(shape) == AllOf(Lead(shape)) + [All(shape[|shape| - 2]), All(Last(shape))]
  {}

  lemma {:induction false} LeadChunk(shape: Shape, dim: nat, ix: Ix)
    requires dim + 2 < |shape|
    ensures AllOf(shape)[dim := ix] == AllOf(Lead(shape))[dim := ix] + [All(shape[|shape| - 2]), All(Last(shape))]
  {
    AllOfParts(shape);
    hide AllOf;
    UpdateFront(AllOf(Lead(shape)), [All(shape[|shape| - 2]), All(Last(shape))], dim, ix);
  }

  lemma {:induction false} UpdateFront(a: seq<Ix>, b: seq<Ix>, i: nat, x: Ix)
    requires i < |a|
    ensures (a + b)[i := x] == a[i := x] + b
  {}

  lemma {:induction false} UpdateBack(a: seq<Ix>, p: Ix, q: Ix, x: Ix)
    ensures (a + [p, q])[|a| := x] == a + [x, q] && (a + [p, q])[|a| + 1 := x] == a + [p, x]
  {}

  /** A chunk of the factors is the chunk of the product. */
  lemma {:induction false} ChunkCommutes(l: Lora, dim: nat, off: nat, size: nat)
    requires Fits(l) && dim < |l.A.shape|
    ensures Represents(Chunk(l, dim, off, size), Narrow(Dense(l), dim, off, size))
  {
    hide Gather, Dense, AllOf, Same;
    DenseShape(l);
    var n, shape, part := |l.A.shape|, ShapeOf(l), Take(off, size, 1);
    var small, big := Lead(l.A.shape), Lead(l.B.shape);
    assert Lead(shape) == big && shape[n - 2] == l.B.shape[n - 2];
    var im, jn := All(shape[n - 2]), All(Last(shape));
    AllOfParts(l.A.shape);
    AllOfParts(l.B.shape);
    AllOfParts(shape);
    WholeIsSame(l.A);
    WholeIsSame(l.B);
    SameItself(Narrow(l.A, dim, off, size));
    SameItself(Narrow(l.B, dim, off, size));
    if dim >= n - 2 {
      AllFollow(small, big);
      UpdateBack(AllOf(small), All(Rank(l)), jn, part);
      UpdateBack(AllOf(big), im, All(Rank(l)), part);
      UpdateBack(AllOf(big), im, jn, part);
      if dim == n - 1 {
        ChunkIs(l, dim, off, size, AllOf(small), AllOf(big), im, part);
      } else {
        ChunkIs(l, dim, off, size, AllOf(small), AllOf(big), part, jn);
      }
    } else {
      LeadChunk(l.A.shape, dim, part);
      LeadChunk(l.B.shape, dim, part);
      LeadChunk(shape, dim, part);
      PartFollows(small, big, dim, part);
      var ba := if small[dim] == 1 then AllOf(small) else AllOf(small)[dim := part];
      ChunkIs(l, dim, off, size, ba, AllOf(big)[dim := part], im, jn);
    }
  }

  lemma {:induction false} ChunkIs(l: Lora, dim: nat, off: nat, size: nat, ba: seq<Ix>, bb: seq<Ix>, im: Ix, jn: Ix)
    requires Fits(l) && dim < |l.A.shape| && im.Take? && jn.Take? && |ba| == |bb| == |l.A.shape| - 2
    requires Follows(Lead(l.A.shape), ba, bb)
    requires bb + [im, jn] == AllOf(ShapeOf(l))[dim := Take(off, size, 1)]
    requires Same(GatherLora(l, ba, bb, im, jn).A, Chunk(l, dim, off, size).A)
    requires Same(GatherLora(l, ba, bb, im, jn).B, Chunk(l, dim, off, size).B)
    ensures Represents(Chunk(l, dim, off, size), Narrow(Dense(l), dim, off, size))
  {
    hide Gather, Same, Chunk, AllOf, Follows;
    var g, r := GatherLora(l, ba, bb, im, jn), Chunk(l, dim, off, size);
    GatherCommutes(l, ba, bb, im, jn);
    SameFactors(g, r);
    DenseShape(l);
    hide Dense;
    SameBack(Dense(g), Dense(r));
    SameTransitive(Dense(r), Dense(g), Narrow(Dense(l), dim, off, size));
  }

  lemma {:induction false} AllFollow(small: Shape, big: Shape)
    requires Broadcasts(small, big)
    ensures Follows(small, AllOf(small), AllOf(big))
  {
    AxesFollow(small, AllOf(small), AllOf(big));
  }

  lemma {:induction false} PartFollows(small: Shape, big: Shape, dim: nat, part: Ix)
    requires Broadcasts(small, big) && dim < |small| && part.Take?
    ensures Follows(small, if small[dim] == 1 then AllOf(small) else AllOf(small)[dim := part], AllOf(big)[dim := part])
  {
    AxesFollow(small, if small[dim] == 1 then AllOf(small) else AllOf(small)[dim := part], AllOf(big)[dim := part]);
  }

  /** A chunk length, or the length of every chunk. */
  datatype SplitSpec = Each(size: int) | Sizes(sizes: seq<int>)

  function ChunkSizes(d: nat, size: nat): (r: seq<nat>)
    requires size > 0
    ensures Total(r) == d
    decreases d
  {
    if d <= size then [d] else [size] + ChunkSizes(d - size, size)
  }

  function Total(sizes: seq<nat>): nat {
    if sizes == [] then 0 else sizes[0] + Total(sizes[1..])
  }

  predicate NonNegatives(xs: seq<int>) { forall i :: 0 <= i < |xs| ==> xs[i] >= 0 }

  function AsNats(xs: seq<int>): (r: seq<nat>)
    requires NonNegatives(xs)
    ensures |r| == |xs| && forall i :: 0 <= i < |xs| ==> r[i] == xs[i]
  {
    if xs == [] then [] else [xs[0]] + AsNats(xs[1..])
  }

  /** The chunk lengths on an axis of length `d`; given lengths have to add up to it. */
  function SplitSizes(d: nat, spec: SplitSpec): (r: Option<seq<nat>>)
    ensures r.Some? ==> Total(r.value) == d
  {
    match spec
    case Each(size) =>
      if size > 0 then Some(ChunkSizes(d, size))
      else if size == 0 && d == 0 then Some([0])
      else None
    case Sizes(sizes) =>
      if NonNegatives(sizes) && Total(AsNats(sizes)) == d then Some(AsNats(sizes)) else None
  }

  function Chunks(l: Lora, dim: nat, off: nat, sizes: seq<nat>): (r: seq<Lora>)
    requires Built(l) && dim < |l.A.shape|
    ensures |r| == |sizes|
    decreases |sizes|
  {
    if sizes == [] then []
    else [Chunk(l, dim, off, sizes[0])] + Chunks(l, dim, off + sizes[0], sizes[1..])
  }

  function Split(l: Lora, spec: SplitSpec, dim: int): Option<seq<Lora>>
    requires Built(l)
  {
    var n := |l.A.shape|;
    var d := if dim < 0 then dim + n else dim;
    if !(0 <= d < n) then None
    else
      match SplitSizes(ShapeOf(l)[d], spec)
      case None => None
      case Some(sizes) => Some(Chunks(l, d, 0, sizes))
  }

  lemma {:induction false} ChunksCommute(l: Lora, dim: nat, off: nat, sizes: seq<nat>, c: nat)
    requires Fits(l) && dim < |l.A.shape| && c < |sizes|
    ensures Represents(Chunks(l, dim, off, sizes)[c], Narrow(Dense(l), dim, off + Total(sizes[..c]), sizes[c]))
    decreases c
  {
    hide Chunk, Narrow, Dense, Same;
    if c == 0 {
      DenseShape(l);
      ChunkCommutes(l, dim, off, sizes[0]);
    } else {
      ChunksCommute(l, dim, off + sizes[0], sizes[1..], c - 1);
      assert sizes[..c][1..] == sizes[1..][..c - 1];
    }
  }

  /** Splitting the factors splits the product, on every axis and into chunks that cover it. */
  lemma {:induction false} SplitCommutes(l: Lora, spec: SplitSpec, dim: int)
    requires Fits(l) && -|l.A.shape| <= dim < |l.A.shape|
    ensures var d := if dim < 0 then dim + |l.A.shape| else dim;
            match SplitSizes(Dense(l).shape[d], spec)
            case None => Split(l, spec, dim) == None
            case Some(sizes) =>
              && Split(l, spec, dim).Some? && |Split(l, spec, dim).value| == |sizes|
              && Total(sizes) == Dense(l).shape[d]
              && forall c :: 0 <= c < |sizes| ==>
                   Represents(Split(l, spec, dim).value[c], Narrow(Dense(l), d, Total(sizes[..c]), sizes[c]))
  {
    hide SplitSizes, Chunks, Represents, Narrow, Total;
    DenseShape(l);
    var d := if dim < 0 then dim + |l.A.shape| else dim;
    var split := SplitSizes(Dense(l).shape[d], spec);
    if split.Some? {
      forall c | 0 <= c < |split.value|
        ensures Represents(Split(l, spec, dim).value[c],
                           Narrow(Dense(l), d, Total(split.value[..c]), split.value[c]))
      {
        ChunksCommute(l, d, 0, split.value, c);
      }
    }
  }
}
