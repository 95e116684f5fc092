/**
 Ellipses in the index of a deferred tensor: the code replaces each one by as many full slices as
 there are other indices, and pads at the end. This is compared with what an ellipsis means.
 */
module LoraEllipsis {
  import opened Tensors
  import opened LoraTensor
  import opened LoraIndexing
  import opened Wrappers

  // ---------------------------------------------------------------------------
  // What the code does
  // ---------------------------------------------------------------------------

  datatype Item = Item(p: PyIx) | Ellipsis

  function Items(ps: seq<PyIx>): (r: seq<Item>)
    ensures |r| == |ps| && forall i :: 0 <= i < |ps| ==> r[i] == Item(ps[i])
  {
    if ps == [] then [] else Items(Front(ps)) + [Item(Last(ps))]
  }

  /** Every ellipsis becomes `n` full slices. */
  function Expanded(items: seq<Item>, n: nat): seq<PyIx> {
    if items == [] then []
    else Expanded(Front(items), n) + (if Last(items).Ellipsis? then Fulls(n) else [Last(items).p])
  }

  /** A tuple index: a trailing ellipsis is dropped, others are expanded, the rest is padded. */
  function GetTuple(l: Lora, items: seq<Item>): Option<Lora>
    requires Built(l)
    decreases |items|
  {
    if items == [] then None
    else if Last(items).Ellipsis? then GetTuple(l, Front(items))
    else
      var ps := Expanded(items, |items| - 1);
      if |ps| > |l.A.shape| then None else GetPadded(l, Padded(ps, |l.A.shape|))
  }

  /** The axes that are not mentioned are kept. */
  function Padded(ps: seq<PyIx>, n: nat): (r: seq<PyIx>)
    requires |ps| <= n
    ensures |r| == n
  {
    ps + Fulls(n - |ps|)
  }

  /** What the code makes of an ellipsis between other indices. */
  function Inserted(pre: seq<PyIx>, post: seq<PyIx>): (r: seq<PyIx>)
    ensures |r| == 2 * (|pre| + |post|)
  {
    pre + Fulls(|pre| + |post|) + post
  }

  lemma {:induction false} ExpandedPlain(ps: seq<PyIx>, n: nat)
    ensures Expanded(Items(ps), n) == ps
    decreases |ps|
  {
    if ps == [] {
    } else {
      ExpandedPlain(Front(ps), n);
      assert Front(Items(ps)) == Items(Front(ps));
      assert ps == Front(ps) + [Last(ps)];
    }
  }

  lemma {:induction false} ExpandedAppend(a: seq<Item>, b: seq<Item>, n: nat)
    ensures Expanded(a + b, n) == Expanded(a, n) + Expanded(b, n)
    decreases |b|
  {
    if b == [] {
      assert a + b == a;
    } else {
      ExpandedAppend(a, Front(b), n);
      assert Front(a + b) == a + Front(b) && Last(a + b) == Last(b);
    }
  }

  /** What the ellipsis stands for: as many full slices as there are axes left over. */
  function Meant(pre: seq<PyIx>, post: seq<PyIx>, n: nat): (r: seq<PyIx>)
    requires |pre| + |post| <= n
    ensures |r| == n
  {
    pre + Fulls(n - |pre| - |post|) + post
  }

  /** `pre`, an ellipsis, `post`. */
  function Spread(pre: seq<PyIx>, post: seq<PyIx>): seq<Item> { Items(pre) + [Ellipsis] + Items(post) }

  lemma {:induction false} NoTrailing(l: Lora, items: seq<Item>)
    requires Built(l) && items != [] && Last(items).Item?
    ensures var ps := Expanded(items, |items| - 1);
            GetTuple(l, items) ==
            if |ps| > |l.A.shape| then None else GetPadded(l, Padded(ps, |l.A.shape|))
  {
    hide GetPadded, Expanded;
  }

  lemma {:induction false} ExpandedEllipsis(k: nat)
    ensures Expanded([Ellipsis], k) == Fulls(k)
  {
    assert Front([Ellipsis]) == [];
  }

  lemma {:induction false} EllipsisExpands(pre: seq<PyIx>, post: seq<PyIx>)
    requires post != []
    ensures var k, items := |pre| + |post|, Items(pre) + [Ellipsis] + Items(post);
            |items| == k + 1 && Last(items) == Item(Last(post)) && Expanded(items, k) == Inserted(pre, post)
  {
    hide Fulls, Items, Last;
    LastItem(pre, post);
    ItemsExpand(pre, post, |pre| + |post|);
  }

  lemma {:induction false} LastItem(pre: seq<PyIx>, post: seq<PyIx>)
    requires post != []
    ensures Last(Items(pre) + [Ellipsis] + Items(post)) == Item(Last(post))
  {
    hide Items;
    var items := Items(post);
    assert (Items(pre) + [Ellipsis] + items)[|pre| + |post|] == items[|post| - 1];
  }

  lemma {:induction false} ItemsExpand(pre: seq<PyIx>, post: seq<PyIx>, k: nat)
    ensures Expanded(Items(pre) + [Ellipsis] + Items(post), k) == pre + Fulls(k) + post
  {
    ExpandedEllipsis(k);
    hide Expanded, Fulls, Items;
    ExpandedAppend(Items(pre) + [Ellipsis], Items(post), k);
    ExpandedAppend(Items(pre), [Ellipsis], k);
    ExpandedPlain(pre, k);
    ExpandedPlain(post, k);
  }

  lemma {:induction false} EllipsisGets(l: Lora, pre: seq<PyIx>, post: seq<PyIx>)
    requires Built(l) && post != []
    ensures var n, ps := |l.A.shape|, Inserted(pre, post);
            GetTuple(l, Spread(pre, post)) == if |ps| > n then None else GetPadded(l, Padded(ps, n))
  {
    hide GetPadded, GetTuple, Items, Expanded, Inserted, Padded, Fulls;
    EllipsisExpands(pre, post);
    NoTrailing(l, Spread(pre, post));
  }

  // ---------------------------------------------------------------------------
  // Index lists that pick the same entries
  // ---------------------------------------------------------------------------

  function First(ix: Ix): nat { if ix.Pick? then ix.i else ix.start }

  function Number(ix: Ix): nat { if ix.Pick? then 1 else ix.count }

  /** Both pick the same positions of an axis in the same order. */
  predicate SamePick(x: Ix, y: Ix) {
    First(x) == First(y) && Number(x) == Number(y) && (Number(x) >= 2 ==> x.step == y.step)
  }

  predicate SamePicks(xs: seq<Ix>, ys: seq<Ix>) {
    |xs| == |ys| && forall i :: 0 <= i < |xs| ==> SamePick(xs[i], ys[i])
  }

  /** An index without its coordinates on axes of length one. */
  function Squeezed(idx: Index, shape: Shape): Index
    requires |idx| == |shape|
  {
    if idx == [] then []
    else Squeezed(Front(idx), Front(shape)) + if Last(shape) == 1 then [] else [Last(idx)]
  }

  lemma {:induction false} SqueezedSnoc(idx: Index, shape: Shape, d: nat)
    requires Within(idx, shape + [d])
    ensures idx != [] && Within(Front(idx), shape) && (d == 1 ==> Last(idx) == 0)
    ensures Squeezed(idx, shape + [d]) == Squeezed(Front(idx), shape) + if d == 1 then [] else [Last(idx)]
  {
    WithinFront(idx, shape, d);
    assert Front(shape + [d]) == shape;
  }

  /** One axis less: the index that is left, and what is picked on the axis. */
  lemma {:induction false} LastPart(xs: seq<Ix>, idx: Index)
    requires xs != [] && Within(idx, IxShape(xs))
    ensures var x, i2 := Last(xs), if Last(xs).Take? then Front(idx) else idx;
            && (x.Take? ==> idx != []) && Within(i2, IxShape(Front(xs)))
            && Source(xs, idx) == Source(Front(xs), i2) + [if x.Pick? then x.i else x.start + x.step * Last(idx)]
            && Squeezed(idx, IxShape(xs)) == Squeezed(i2, IxShape(Front(xs))) + (if Number(x) == 1 then [] else [Last(idx)])
            && (x.Take? ==> Last(idx) < x.count)
  {
    hide Source, IxShape;
    TakeSource(xs, idx);
    if Last(xs).Take? {
      SqueezedSnoc(idx, IxShape(Front(xs)), Last(xs).count);
    }
  }

  lemma {:induction false} SnocSame(a: Index, b: Index, x: nat, y: nat)
    requires a + [x] == b + [y]
    ensures a == b && x == y
  {
    assert (a + [x])[..|a|] == a && (b + [y])[..|b|] == b;
    assert (a + [x])[|a|] == x && (b + [y])[|b|] == y;
  }

  lemma {:induction false} SourceOfParts(xs: seq<Ix>, ys: seq<Ix>, idx: Index, jdx: Index)
    requires SamePicks(xs, ys) && Within(idx, IxShape(xs)) && Within(jdx, IxShape(ys))
    requires Squeezed(idx, IxShape(xs)) == Squeezed(jdx, IxShape(ys))
    ensures Source(xs, idx) == Source(ys, jdx)
    decreases |xs|
  {
    hide Source, IxShape, Squeezed;
    if xs == [] {
      NoAxes(xs, ys, idx);
      assert Source([], jdx) == [] && Source([], idx) == [];
    } else {
      var x, y := Last(xs), Last(ys);
      assert SamePick(x, y);
      LastPart(xs, idx);
      LastPart(ys, jdx);
      var i2 := if x.Take? then Front(idx) else idx;
      var j2 := if y.Take? then Front(jdx) else jdx;
      var a, b := Squeezed(i2, IxShape(Front(xs))), Squeezed(j2, IxShape(Front(ys)));
      if Number(x) != 1 {
        assert a + [Last(idx)] == b + [Last(jdx)];
        SnocSame(a, b, Last(idx), Last(jdx));
      } else {
        assert a == a + [] == b + [] == b;
      }
      SourceOfParts(Front(xs), Front(ys), i2, j2);
    }
  }

  /** The index whose coordinate on an axis of length `d` is `f(d)`. */
  function Probe(f: nat -> nat, shape: Shape): (r: Index)
    ensures |r| == |shape|
  {
    if shape == [] then [] else Probe(f, Front(shape)) + [f(Last(shape))]
  }

  /** Where an axis index points to for that coordinate. */
  function Coordinate(f: nat -> nat, ix: Ix): nat { if ix.Pick? then ix.i else ix.start + ix.step * f(ix.count) }

  lemma {:induction false} ProbeWithin(f: nat -> nat, shape: Shape)
    requires 0 !in shape && forall d: nat :: d > 0 ==> f(d) < d
    ensures Within(Probe(f, shape), shape)
  {
    if shape == [] {
    } else {
      ProbeWithin(f, Front(shape));
    }
  }

  lemma {:induction false} ProbeSource(f: nat -> nat, xs: seq<Ix>, i: nat)
    requires i < |xs|
    ensures Source(xs, Probe(f, IxShape(xs)))[i]
         == Coordinate(f, xs[i])
    decreases |xs|
  {
    var idx := Probe(f, IxShape(xs));
    TakeSource(xs, idx);
    if i < |xs| - 1 {
      ProbeSource(f, Front(xs), i);
      assert Front(xs)[i] == xs[i];
    }
  }

  predicate Forward(xs: seq<Ix>) { forall i :: 0 <= i < |xs| && xs[i].Take? ==> xs[i].step >= 1 }

  lemma {:induction false} CountsInShape(xs: seq<Ix>, i: nat)
    requires i < |xs| && xs[i].Take?
    ensures xs[i].count in IxShape(xs)
    decreases |xs|
  {
    if i < |xs| - 1 {
      CountsInShape(Front(xs), i);
    } else {
      assert IxShape(xs)[|IxShape(xs)| - 1] == xs[i].count;
    }
  }

  function FirstOf(d: nat): nat { 0 }
  function SecondOf(d: nat): nat { if d >= 2 then 1 else 0 }
  function LastOf(d: nat): nat { if d > 0 then d - 1 else 0 }

  lemma {:induction false} SameFactor(s: nat, a: nat, b: nat)
    requires s >= 1 && s * a == s * b
    ensures a == b
  {
    assert s * (a - b) == 0;
  }

  /** Three probes tell what an axis index picks. */
  lemma {:induction false} PartByProbes(x: Ix, y: Ix)
    requires Number(x) > 0 && Number(y) > 0 && (x.Take? ==> x.step >= 1) && (y.Take? ==> y.step >= 1)
    requires Coordinate(FirstOf, x) == Coordinate(FirstOf, y)
    requires Coordinate(SecondOf, x) == Coordinate(SecondOf, y)
    requires Coordinate(LastOf, x) == Coordinate(LastOf, y)
    ensures SamePick(x, y)
  {
    if Number(x) >= 2 && Number(y) >= 2 {
      SameFactor(x.step, x.count - 1, y.count - 1);
    }
  }

  /** Index lists that do not pick the same positions on every axis differ at some entry. */
  lemma {:induction false} PartsByProbes(xs: seq<Ix>, ys: seq<Ix>) returns (idx: Index)
    requires |xs| == |ys| && Forward(xs) && Forward(ys)
    requires IxShape(xs) == IxShape(ys) && 0 !in IxShape(xs) && !SamePicks(xs, ys)
    ensures Within(idx, IxShape(xs)) && Source(xs, idx) != Source(ys, idx)
  {
    var shape := IxShape(xs);
    ProbeWithin(FirstOf, shape);
    ProbeWithin(SecondOf, shape);
    ProbeWithin(LastOf, shape);
    var i :| 0 <= i < |xs| && !SamePick(xs[i], ys[i]);
    assert Number(xs[i]) > 0 && Number(ys[i]) > 0 by {
      if xs[i].Take? { CountsInShape(xs, i); }
      if ys[i].Take? { CountsInShape(ys, i); }
    }
    ProbeSource(FirstOf, xs, i);
    ProbeSource(FirstOf, ys, i);
    ProbeSource(SecondOf, xs, i);
    ProbeSource(SecondOf, ys, i);
    ProbeSource(LastOf, xs, i);
    ProbeSource(LastOf, ys, i);
    if Source(xs, Probe(FirstOf, shape)) != Source(ys, Probe(FirstOf, shape)) {
      return Probe(FirstOf, shape);
    }
    if Source(xs, Probe(SecondOf, shape)) != Source(ys, Probe(SecondOf, shape)) {
      return Probe(SecondOf, shape);
    }
    if Source(xs, Probe(LastOf, shape)) == Source(ys, Probe(LastOf, shape)) {
      PartByProbes(xs[i], ys[i]);
    }
    return Probe(LastOf, shape);
  }

  // ---------------------------------------------------------------------------
  // A product with a single entry
  // ---------------------------------------------------------------------------

  /** Factors of the given shapes whose product is 1 at `p` and 0 elsewhere. */
  function Indicator(l: Lora, p: Index): Lora
    requires Built(l) && |p| == |l.A.shape|
  {
    Lora(Tensor(l.A.shape, (idx: Index) => if idx != [] && Last(idx) == Last(p) then 1.0 else 0.0),
         Tensor(l.B.shape, (idx: Index) => if idx != [] && idx == Front(p) + [0] then 1.0 else 0.0))
  }

  lemma {:induction false} IndicatorDot(l: Lora, p: Index, row: Index, a: Index, j: nat, n: nat)
    requires Built(l) && |p| == |l.A.shape|
    ensures var m := Indicator(l, p);
            Dot(m.B, row, m.A, a, j, n) == if n > 0 && row == Front(p) && j == Last(p) then 1.0 else 0.0
    decreases n
  {
    if n == 0 {
    } else {
      IndicatorDot(l, p, row, a, j, n - 1);
      assert (row + [n - 1])[..|row|] == row && (Front(p) + [0])[..|Front(p)|] == Front(p);
      assert Last(row + [n - 1]) == n - 1 && Last(Front(p) + [0]) == 0 && Last(a + [n - 1, j]) == j;
      assert n > 1 ==> row + [n - 1] != Front(p) + [0];
    }
  }

  lemma {:induction false} IndicatorDense(l: Lora, p: Index, q: Index)
    requires Fits(l) && |p| == |q| == |l.A.shape| && Rank(l) > 0
    ensures Fits(Indicator(l, p)) && ShapeOf(Indicator(l, p)) == ShapeOf(l)
    ensures Dense(Indicator(l, p)).at(q) == if p == q then 1.0 else 0.0
  {
    hide Dot;
    var m := Indicator(l, p);
    IndicatorDot(l, p, Front(q), Broadcast(Lead(m.A.shape), Lead(q)), Last(q), Rank(l));
    assert p == Front(p) + [Last(p)] && q == Front(q) + [Last(q)];
  }

  // ---------------------------------------------------------------------------
  // When the code's expansion is right
  // ---------------------------------------------------------------------------

  predicate SameForm(l: Lora, m: Lora) { l.A.shape == m.A.shape && l.B.shape == m.B.shape }

  /** If the indexing succeeds, it is what the ellipsis means on the product. */
  ghost predicate EllipsisRight(l: Lora, pre: seq<PyIx>, post: seq<PyIx>) {
    && Built(l) && |pre| + |post| <= |l.A.shape|
    && (GetTuple(l, Spread(pre, post)).Some? ==>
          var t := TorchIndex(Dense(l), Meant(pre, post, |l.A.shape|));
          t.Some? && Represents(GetTuple(l, Spread(pre, post)).value, t.value))
  }

  /** The indices the code uses, one per axis. */
  function Used(pre: seq<PyIx>, post: seq<PyIx>, n: nat): (r: seq<PyIx>)
    requires 2 * (|pre| + |post|) <= n
    ensures |r| == n
  {
    Padded(Inserted(pre, post), n)
  }

  /**
   The tuple the code uses is fit, the meant one is in range and leaves the same shape, and on every
   axis both pick the same positions, where there are entries that could tell.
   */
  predicate EllipsisOk(l: Lora, pre: seq<PyIx>, post: seq<PyIx>)
    requires Built(l) && 2 * (|pre| + |post|) <= |l.A.shape|
  {
    var n := |l.A.shape|;
    var xs, ys := ResolveAll(Used(pre, post, n), ShapeOf(l)), ResolveAll(Meant(pre, post, n), ShapeOf(l));
    && TupleOk(l, Used(pre, post, n))
    && xs.Some? && ys.Some? && IxShape(xs.value) == IxShape(ys.value)
    && (Rank(l) == 0 || 0 in IxShape(xs.value) || SamePicks(xs.value, ys.value))
  }

  function Slices(ps: seq<PyIx>): nat {
    if ps == [] then 0 else Slices(Front(ps)) + if Last(ps).Slice? then 1 else 0
  }

  lemma {:induction false} SlicesAppend(a: seq<PyIx>, b: seq<PyIx>)
    ensures Slices(a + b) == Slices(a) + Slices(b)
    decreases |b|
  {
    if b == [] {
      assert a + b == a;
    } else {
      SlicesAppend(a, Front(b));
      assert Front(a + b) == a + Front(b) && Last(a + b) == Last(b);
    }
  }

  lemma {:induction false} SlicesOfFulls(n: nat)
    ensures Slices(Fulls(n)) == n
  {
    if n == 0 {
    } else {
      SlicesOfFulls(n - 1);
      SlicesAppend(Fulls(n - 1), [FullSlice]);
    }
  }

  lemma {:induction false} AxesLeft(ps: seq<PyIx>, shape: Shape)
    requires |ps| == |shape| && ResolveAll(ps, shape).Some?
    ensures |IxShape(ResolveAll(ps, shape).value)| == Slices(ps)
    decreases |ps|
  {
    if ps == [] {
    } else {
      AxesLeft(Front(ps), Front(shape));
      ResolveKind(Last(ps), Last(shape));
      hide Resolve;
      var ixs := ResolveAll(ps, shape).value;
      assert Front(ixs) == ResolveAll(Front(ps), Front(shape)).value;
    }
  }

  lemma {:induction false} SameSlices(pre: seq<PyIx>, post: seq<PyIx>, n: nat)
    requires 2 * (|pre| + |post|) <= n
    ensures Slices(Used(pre, post, n)) == Slices(Meant(pre, post, n))
  {
    hide Slices, Fulls;
    var k := |pre| + |post|;
    SlicesAppend(pre + Fulls(k) + post, Fulls(n - 2 * k));
    SlicesAppend(pre + Fulls(k), post);
    SlicesAppend(pre, Fulls(k));
    SlicesAppend(pre + Fulls(n - k), post);
    SlicesAppend(pre, Fulls(n - k));
    SlicesOfFulls(k);
    SlicesOfFulls(n - k);
    SlicesOfFulls(n - 2 * k);
  }

  lemma {:induction false} TorchWhole(t: Tensor, ps: seq<PyIx>)
    requires |ps| == |t.shape|
    ensures TorchIndex(t, ps) ==
            match ResolveAll(ps, t.shape) case None => None case Some(ixs) => Some(Gather(t, ixs))
  {
    assert ps + Fulls(0) == ps;
  }

  lemma {:induction false} DifferentAxes(r: Lora, t: Tensor)
    requires Fits(r) ==> |ShapeOf(r)| != |t.shape|
    ensures !Represents(r, t)
  {}

  lemma {:induction false} RepresentsBoth(r: Lora, s: Tensor, t: Tensor)
    requires Represents(r, s)
    ensures Represents(r, t) <==> Same(s, t)
  {
    hide Same, Dense;
    SameBack(Dense(r), s);
    if Represents(r, t) {
      SameTransitive(s, Dense(r), t);
    } else if Same(s, t) {
      SameTransitive(Dense(r), s, t);
    }
  }

  /** For given factors: right exactly if the used tuple is fit and the meant one picks equal entries. */
  lemma {:induction false} EllipsisMeans(l: Lora, pre: seq<PyIx>, post: seq<PyIx>)
    requires Fits(l) && post != [] && 2 * (|pre| + |post|) <= |l.A.shape|
    requires GetTuple(l, Spread(pre, post)).Some?
    ensures var n := |l.A.shape|;
            var xs, ys := ResolveAll(Used(pre, post, n), ShapeOf(l)), ResolveAll(Meant(pre, post, n), ShapeOf(l));
            && xs.Some? && (ys.Some? ==> |IxShape(xs.value)| == |IxShape(ys.value)|)
            && (EllipsisRight(l, pre, post) <==>
                 && TupleOk(l, Used(pre, post, n)) && ys.Some?
                 && Same(Gather(Dense(l), xs.value), Gather(Dense(l), ys.value)))
  {
    hide GetPadded, GetTuple, Spread, Padded, Inserted, Meant, TupleOk, Gather, Dense, Same, IxShape, TorchIndex, Represents;
    var n := |l.A.shape|;
    var ps, ms := Used(pre, post, n), Meant(pre, post, n);
    EllipsisGets(l, pre, post);
    InsertedLength(pre, post);
    var r := GetPadded(l, ps).value;
    DenseShape(l);
    TupleCommutes(l, ps);
    TorchWhole(Dense(l), ps);
    TorchWhole(Dense(l), ms);
    var xs, ys := ResolveAll(ps, ShapeOf(l)), ResolveAll(ms, ShapeOf(l));
    AxesLeft(ps, ShapeOf(l));
    if ys.Some? {
      AxesLeft(ms, ShapeOf(l));
      SameSlices(pre, post, n);
      if TupleOk(l, ps) {
        RepresentsBoth(r, Gather(Dense(l), xs.value), Gather(Dense(l), ys.value));
      } else {
        UnfitTuple(l, ps);
        GatheredShape(Dense(l), ys.value);
        DifferentAxes(r, Gather(Dense(l), ys.value));
      }
    }
  }

  lemma {:induction false} InsertedLength(pre: seq<PyIx>, post: seq<PyIx>)
    ensures |Inserted(pre, post)| == 2 * (|pre| + |post|)
  {}

  lemma {:induction false} GatheredShape(t: Tensor, ixs: seq<Ix>)
    ensures Gather(t, ixs).shape == IxShape(ixs)
  {}

  lemma {:induction false} ResolvedForward(ps: seq<PyIx>, shape: Shape)
    requires |ps| == |shape| && ResolveAll(ps, shape).Some?
    ensures Forward(ResolveAll(ps, shape).value)
  {
    var ixs := ResolveAll(ps, shape).value;
    forall i | 0 <= i < |ixs| && ixs[i].Take?
      ensures ixs[i].step >= 1
    {
      assert Resolve(ps[i], shape[i]) == Some(ixs[i]);
    }
  }

  lemma {:induction false} EmptyRank(l: Lora, idx: Index)
    requires Built(l) && Rank(l) == 0
    ensures Dense(l).at(idx) == 0.0
  {}

  lemma {:induction false} NoEmptyAxis(idx: Index, shape: Shape)
    requires Within(idx, shape)
    ensures 0 !in shape
  {
    assert forall i :: 0 <= i < |shape| ==> idx[i] < shape[i];
  }

  /** Index lists that pick the same positions pick equal entries from every product of that form. */
  lemma {:induction false} SamePicksAgree(l: Lora, xs: seq<Ix>, ys: seq<Ix>)
    requires Built(l) && IxShape(xs) == IxShape(ys)
    requires Rank(l) == 0 || 0 in IxShape(xs) || SamePicks(xs, ys)
    ensures Same(Gather(Dense(l), xs), Gather(Dense(l), ys))
  {
    hide Source, IxShape, Dense, SamePicks;
    forall idx: Index | Within(idx, IxShape(xs))
      ensures Dense(l).at(Source(xs, idx)) == Dense(l).at(Source(ys, idx))
    {
      if Rank(l) == 0 {
        EmptyRank(l, Source(xs, idx));
        EmptyRank(l, Source(ys, idx));
      } else {
        NoEmptyAxis(idx, IxShape(xs));
        SourceOfParts(xs, ys, idx, idx);
      }
    }
  }

  /** Otherwise some product of that form tells them apart. */
  lemma {:induction false} OtherPartsDiffer(l: Lora, xs: seq<Ix>, ys: seq<Ix>) returns (m: Lora)
    requires Fits(l) && |xs| == |ys| == |l.A.shape| && Forward(xs) && Forward(ys) && IxShape(xs) == IxShape(ys)
    requires Rank(l) > 0 && 0 !in IxShape(xs) && !SamePicks(xs, ys)
    ensures SameForm(l, m) && Fits(m) && !Same(Gather(Dense(m), xs), Gather(Dense(m), ys))
  {
    hide Source, IxShape, Dense, SamePicks, Forward;
    var idx := PartsByProbes(xs, ys);
    var p := Source(xs, idx);
    m := Indicator(l, p);
    IndicatorDense(l, p, p);
    IndicatorDense(l, p, Source(ys, idx));
    assert Gather(Dense(m), xs).at(idx) == 1.0 && Gather(Dense(m), ys).at(idx) == 0.0;
  }

  lemma {:induction false} SameFormPadded(l: Lora, m: Lora, ps: seq<PyIx>)
    requires Built(l) && SameForm(l, m) && |ps| == |l.A.shape|
    ensures GetPadded(l, ps).Some? <==> GetPadded(m, ps).Some?
  {
    hide LeadIxs, ResolveAll, Resolve, IxShape, Fulls;
  }

  /** Whether the indexing succeeds depends on the shapes only. */
  lemma {:induction false} SameFormGets(l: Lora, m: Lora, pre: seq<PyIx>, post: seq<PyIx>)
    requires Built(l) && SameForm(l, m) && post != []
    ensures GetTuple(l, Spread(pre, post)).Some? <==> GetTuple(m, Spread(pre, post)).Some?
  {
    hide GetTuple, Spread, Inserted, Padded, GetPadded;
    EllipsisGets(l, pre, post);
    EllipsisGets(m, pre, post);
    if |Inserted(pre, post)| <= |l.A.shape| {
      SameFormPadded(l, m, Padded(Inserted(pre, post), |l.A.shape|));
    }
  }

  /**
   With an ellipsis in front of other indices the code inserts one full slice for each of the other
   indices and pads at the end. If that succeeds on factors of a given form, it is what the ellipsis
   means for all factors of that form exactly under the condition on shapes and indices above.
   */
  lemma {:induction false} EllipsisLaw(l: Lora, pre: seq<PyIx>, post: seq<PyIx>)
    requires Fits(l) && post != [] && |pre| + |post| <= |l.A.shape|
    ensures GetTuple(l, Spread(pre, post)).Some? ==>
              && 2 * (|pre| + |post|) <= |l.A.shape|
              && ((forall m :: SameForm(l, m) ==> EllipsisRight(m, pre, post)) <==> EllipsisOk(l, pre, post))
  {
    hide GetTuple, Spread, Used, Meant, Gather, Same, IxShape, Dense, SamePicks, Inserted, EllipsisRight, TupleOk, ResolveAll;
    EllipsisGets(l, pre, post);
    InsertedLength(pre, post);
    if GetTuple(l, Spread(pre, post)).Some? {
      if EllipsisOk(l, pre, post) {
        forall m | SameForm(l, m)
          ensures EllipsisRight(m, pre, post)
        {
          OkSameForm(l, m, pre, post);
          SameFormGets(l, m, pre, post);
          EllipsisOkRight(m, pre, post);
        }
      } else {
        var m := EllipsisFails(l, pre, post);
        assert SameForm(l, m) && !EllipsisRight(m, pre, post);
      }
    }
  }

  lemma {:induction false} OkSameForm(l: Lora, m: Lora, pre: seq<PyIx>, post: seq<PyIx>)
    requires Built(l) && SameForm(l, m) && 2 * (|pre| + |post|) <= |l.A.shape|
    ensures EllipsisOk(l, pre, post) == EllipsisOk(m, pre, post)
    ensures TupleOk(l, Used(pre, post, |l.A.shape|)) == TupleOk(m, Used(pre, post, |l.A.shape|))
  {
    hide Used, Meant, IxShape, SamePicks, ResolveAll, Resolve;
  }

  lemma {:induction false} EllipsisOkRight(l: Lora, pre: seq<PyIx>, post: seq<PyIx>)
    requires Fits(l) && post != [] && 2 * (|pre| + |post|) <= |l.A.shape|
    requires GetTuple(l, Spread(pre, post)).Some? && EllipsisOk(l, pre, post)
    ensures EllipsisRight(l, pre, post)
  {
    hide GetTuple, Spread, Used, Meant, Gather, Same, IxShape, Dense, SamePicks, EllipsisRight, TupleOk, ResolveAll;
    var n := |l.A.shape|;
    var xs, ys := ResolveAll(Used(pre, post, n), ShapeOf(l)), ResolveAll(Meant(pre, post, n), ShapeOf(l));
    SamePicksAgree(l, xs.value, ys.value);
    EllipsisMeans(l, pre, post);
  }

  lemma {:induction false} EllipsisFails(l: Lora, pre: seq<PyIx>, post: seq<PyIx>) returns (m: Lora)
    requires Fits(l) && post != [] && 2 * (|pre| + |post|) <= |l.A.shape|
    requires GetTuple(l, Spread(pre, post)).Some? && !EllipsisOk(l, pre, post)
    ensures SameForm(l, m) && !EllipsisRight(m, pre, post)
  {
    hide GetTuple, Spread, Used, Meant, Gather, Same, IxShape, Dense, SamePicks, EllipsisRight, TupleOk, Forward;
    var n := |l.A.shape|;
    var xs, ys := ResolveAll(Used(pre, post, n), ShapeOf(l)), ResolveAll(Meant(pre, post, n), ShapeOf(l));
    EllipsisMeans(l, pre, post);
    m := l;
    if TupleOk(l, Used(pre, post, n)) && ys.Some? {
      if IxShape(xs.value) != IxShape(ys.value) {
        OtherShapes(Dense(l), xs.value, ys.value);
      } else {
        ResolvedForward(Used(pre, post, n), ShapeOf(l));
        ResolvedForward(Meant(pre, post, n), ShapeOf(l));
        m := OtherPartsDiffer(l, xs.value, ys.value);
        SameFormGets(l, m, pre, post);
        OkSameForm(l, m, pre, post);
        EllipsisMeans(m, pre, post);
      }
    }
  }

  lemma {:induction false} OtherShapes(t: Tensor, xs: seq<Ix>, ys: seq<Ix>)
    requires IxShape(xs) != IxShape(ys)
    ensures !Same(Gather(t, xs), Gather(t, ys))
  {}

  // ---------------------------------------------------------------------------
  // Any tuple the tensor library takes
  // ---------------------------------------------------------------------------

  /** A tuple with at most one ellipsis. */
  datatype TupleIx = Plain(ps: seq<PyIx>) | Dotted(pre: seq<PyIx>, post: seq<PyIx>)

  function ItemsOf(tuple: TupleIx): seq<Item> {
    match tuple
    case Plain(ps) => Items(ps)
    case Dotted(pre, post) => Spread(pre, post)
  }

  /** The tensor library's meaning of it. */
  function TorchTuple(t: Tensor, tuple: TupleIx): Option<Tensor> {
    match tuple
    case Plain(ps) => TorchIndex(t, ps)
    case Dotted(pre, post) =>
      if |pre| + |post| > |t.shape| then None else TorchIndex(t, Meant(pre, post, |t.shape|))
  }

  /** What a tuple index asks of the shapes. */
  predicate TupleIxOk(l: Lora, tuple: TupleIx)
    requires Built(l)
  {
    var n := |l.A.shape|;
    match tuple
    case Plain(ps) => |ps| <= n && TupleOk(l, Padded(ps, n))
    case Dotted(pre, post) =>
      if post == [] then |pre| <= n && TupleOk(l, Padded(pre, n))
      else 2 * (|pre| + |post|) <= n && EllipsisOk(l, pre, post)
  }

  lemma {:induction false} PlainGets(l: Lora, ps: seq<PyIx>)
    requires Built(l)
    ensures GetTuple(l, Items(ps)) ==
            if ps == [] || |ps| > |l.A.shape| then None else GetPadded(l, Padded(ps, |l.A.shape|))
  {
    hide GetPadded, Padded;
    if ps != [] {
      assert Last(Items(ps)) == Item(Last(ps));
      ExpandedPlain(ps, |ps| - 1);
      NoTrailing(l, Items(ps));
    }
  }

  lemma {:induction false} TrailingGets(l: Lora, pre: seq<PyIx>)
    requires Built(l)
    ensures GetTuple(l, Spread(pre, [])) == GetTuple(l, Items(pre))
  {
    var items := Spread(pre, []);
    assert items == Items(pre) + [Ellipsis];
    assert Front(items) == Items(pre) && Last(items) == Ellipsis;
  }

  lemma {:induction false} TorchPadded(t: Tensor, ps: seq<PyIx>)
    requires |ps| <= |t.shape|
    ensures TorchIndex(t, ps) == TorchIndex(t, Padded(ps, |t.shape|))
  {
    hide Fulls, ResolveAll, Gather;
    TorchWhole(t, Padded(ps, |t.shape|));
  }

  /** A tuple index that succeeds and is fit is the index of the product. */
  lemma {:induction false} TupleIxCommutes(l: Lora, tuple: TupleIx)
    requires Fits(l) && GetTuple(l, ItemsOf(tuple)).Some? && TupleIxOk(l, tuple)
    ensures TorchTuple(Dense(l), tuple).Some?
    ensures Represents(GetTuple(l, ItemsOf(tuple)).value, TorchTuple(Dense(l), tuple).value)
  {
    hide GetTuple, GetPadded, Padded, TorchIndex, Represents, Dense, Spread, Meant, EllipsisOk, TupleOk;
    DenseShape(l);
    match tuple {
      case Plain(ps) => PaddedCommutes(l, ps);
      case Dotted(pre, post) =>
        if post == [] {
          TrailingGets(l, pre);
          PaddedCommutes(l, pre);
          MeantPadded(pre, |l.A.shape|);
          TorchPadded(Dense(l), pre);
        } else {
          EllipsisOkRight(l, pre, post);
        }
    }
  }

  lemma {:induction false} MeantPadded(pre: seq<PyIx>, n: nat)
    requires |pre| <= n
    ensures Meant(pre, [], n) == Padded(pre, n)
  {}

  lemma {:induction false} PaddedCommutes(l: Lora, ps: seq<PyIx>)
    requires Fits(l) && GetTuple(l, Items(ps)).Some? && |ps| <= |l.A.shape| && TupleOk(l, Padded(ps, |l.A.shape|))
    ensures TorchIndex(Dense(l), ps).Some?
    ensures Represents(GetTuple(l, Items(ps)).value, TorchIndex(Dense(l), ps).value)
  {
    hide GetTuple, GetPadded, Padded, TorchIndex, Represents, Dense, TupleOk;
    DenseShape(l);
    PlainGets(l, ps);
    TorchPadded(Dense(l), ps);
    TupleCommutes(l, Padded(ps, |l.A.shape|));
  }
}
