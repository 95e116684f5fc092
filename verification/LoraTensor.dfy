/**
 The deferred tensor of convert_lora_to_gguf.py: a pair of factors A (.., rank, columns) and
 B (.., rows, rank) that stands for their product B A without forming it.
 */
module LoraTensor {
  import opened Tensors
  import opened Wrappers

  datatype Lora = Lora(A: Tensor, B: Tensor)

  // ---------------------------------------------------------------------------
  // What a pair stands for
  // ---------------------------------------------------------------------------

  /** The constructor's assertions. */
  predicate Built(l: Lora) {
    && |l.A.shape| == |l.B.shape| >= 2
    && l.A.shape[|l.A.shape| - 2] == Last(l.B.shape)
  }

  /** Every leading axis of A is that of B or broadcast over it. */
  predicate Broadcasts(small: Shape, big: Shape) {
    |small| == |big| && forall i :: 0 <= i < |small| ==> small[i] == 1 || small[i] == big[i]
  }

  function Lead(s: Shape): Shape
    requires |s| >= 2
  {
    s[..|s| - 2]
  }

  predicate Fits(l: Lora) { Built(l) && Broadcasts(Lead(l.A.shape), Lead(l.B.shape)) }

  function Rank(l: Lora): nat
    requires Built(l)
  {
    Last(l.B.shape)
  }

  /** The `shape` property. */
  function ShapeOf(l: Lora): (s: Shape)
    requires Built(l)
    ensures |s| == |l.A.shape|
  {
    Front(l.B.shape) + [Last(l.A.shape)]
  }

  function Broadcast(small: Shape, idx: Index): (r: Index)
    requires |idx| <= |small|
    ensures |r| == |idx| && forall i :: 0 <= i < |idx| ==> r[i] == if small[i] == 1 then 0 else idx[i]
  {
    if idx == [] then [] else Broadcast(small, Front(idx)) + [if small[|idx| - 1] == 1 then 0 else Last(idx)]
  }

  /** The sum over the rank of a row of B times a column of A. */
  function Dot(b: Tensor, bi: Index, a: Tensor, ai: Index, j: nat, n: nat): real {
    if n == 0 then 0.0 else Dot(b, bi, a, ai, j, n - 1) + b.at(bi + [n - 1]) * a.at(ai + [n - 1, j])
  }

  function Entry(l: Lora, idx: Index): real
    requires Built(l) && |idx| == |l.A.shape|
  {
    Dot(l.B, Front(idx), l.A, Broadcast(Lead(l.A.shape), Lead(idx)), Last(idx), Rank(l))
  }

  /** The product B A, broadcast over the leading axes. */
  function Dense(l: Lora): Tensor
    requires Built(l)
  {
    Tensor(ShapeOf(l), (idx: Index) => if |idx| == |l.A.shape| then Entry(l, idx) else 0.0)
  }

  ghost predicate Represents(l: Lora, t: Tensor) { Fits(l) && Same(Dense(l), t) }

  function Make(a: Tensor, b: Tensor): Option<Lora> {
    if Built(Lora(a, b)) then Some(Lora(a, b)) else None
  }

  lemma {:induction false} DotSame(
    b: Tensor, bi: Index, a: Tensor, ai: Index, j: nat,
    b2: Tensor, bi2: Index, a2: Tensor, ai2: Index, j2: nat, n: nat)
    requires forall k: nat :: k < n ==> b.at(bi + [k]) == b2.at(bi2 + [k])
    requires forall k: nat :: k < n ==> a.at(ai + [k, j]) == a2.at(ai2 + [k, j2])
    ensures Dot(b, bi, a, ai, j, n) == Dot(b2, bi2, a2, ai2, j2, n)
    decreases n
  {
    if n == 0 {
    } else {
      DotSame(b, bi, a, ai, j, b2, bi2, a2, ai2, j2, n - 1);
    }
  }

  /** The parts of an index: leading axes, row and column. */
  lemma {:induction false} Parts(idx: Index)
    requires |idx| >= 2
    ensures idx == Lead(idx) + [idx[|idx| - 2], Last(idx)]
    ensures Front(idx) == Lead(idx) + [idx[|idx| - 2]] && idx == Front(idx) + [Last(idx)]
  {}

  // ---------------------------------------------------------------------------
  // Any indexing that keeps rows and columns as axes
  // ---------------------------------------------------------------------------

  /** Picking in the factors: the same leading axes, rows from B and columns from A. */
  function GatherLora(l: Lora, ba: seq<Ix>, bb: seq<Ix>, im: Ix, jn: Ix): Lora
    requires Built(l)
  {
    Lora(Gather(l.A, ba + [All(Rank(l)), jn]), Gather(l.B, bb + [im, All(Rank(l))]))
  }

  /** The leading axes of A follow those of B. */
  ghost predicate Follows(small: Shape, ba: seq<Ix>, bb: seq<Ix>) {
    && |ba| == |bb| == |small|
    && Broadcasts(IxShape(ba), IxShape(bb))
    && forall idx: Index :: Within(idx, IxShape(bb)) ==>
         Source(ba, Broadcast(IxShape(ba), idx)) == Broadcast(small, Source(bb, idx))
  }

  lemma {:induction false} TwoMore(front: seq<Ix>, p: Ix, q: Ix)
    requires p.Take? && q.Take?
    ensures IxShape(front + [p, q]) == IxShape(front) + [p.count, q.count]
    ensures Lead(IxShape(front + [p, q])) == IxShape(front)
  {
    IxShapeAppend(front, p);
    IxShapeAppend(front + [p], q);
    assert front + [p, q] == front + [p] + [q];
  }

  lemma {:induction false} SourceTwo(front: seq<Ix>, p: Ix, q: Ix, idx: Index, x: nat, y: nat)
    requires p.Take? && q.Take? && |idx| == |IxShape(front)|
    ensures |IxShape(front + [p, q])| == |idx| + 2
    ensures Source(front + [p, q], idx + [x, y]) == Source(front, idx) + [p.start + p.step * x, q.start + q.step * y]
  {
    TwoMore(front, p, q);
    SourceAppend(front, p, idx, x);
    SourceAppend(front + [p], q, idx + [x], y);
    assert front + [p, q] == front + [p] + [q] && idx + [x, y] == idx + [x] + [y];
  }

  lemma {:induction false} GatherShape(l: Lora, ba: seq<Ix>, bb: seq<Ix>, im: Ix, jn: Ix)
    requires Fits(l) && im.Take? && jn.Take? && |ba| == |bb| == |l.A.shape| - 2
    requires Follows(Lead(l.A.shape), ba, bb)
    ensures Fits(GatherLora(l, ba, bb, im, jn))
    ensures var r := GatherLora(l, ba, bb, im, jn);
            && Rank(r) == Rank(l) && Lead(r.A.shape) == IxShape(ba)
            && r.A.shape == IxShape(ba) + [Rank(l), jn.count] && r.B.shape == IxShape(bb) + [im.count, Rank(l)]
            && ShapeOf(r) == IxShape(bb + [im, jn]) == IxShape(bb) + [im.count, jn.count]
  {
    TwoMore(ba, All(Rank(l)), jn);
    TwoMore(bb, im, All(Rank(l)));
    TwoMore(bb, im, jn);
  }

  lemma {:induction false} GatherEntry(l: Lora, ba: seq<Ix>, bb: seq<Ix>, im: Ix, jn: Ix, lead: Index, i: nat, j: nat)
    requires Fits(l) && im.Take? && jn.Take? && |ba| == |bb| == |l.A.shape| - 2
    requires Follows(Lead(l.A.shape), ba, bb) && Within(lead, IxShape(bb))
    requires Fits(GatherLora(l, ba, bb, im, jn)) && |GatherLora(l, ba, bb, im, jn).A.shape| == |lead| + 2
    ensures |IxShape(bb + [im, jn])| == |lead| + 2
    ensures Entry(GatherLora(l, ba, bb, im, jn), lead + [i, j]) == Entry(l, Source(bb + [im, jn], lead + [i, j]))
  {
    hide Source, IxShape, Dot;
    var r, rank, small := GatherLora(l, ba, bb, im, jn), Rank(l), Lead(l.A.shape);
    var idx := lead + [i, j];
    GatherShape(l, ba, bb, im, jn);
    Parts(idx);
    assert Lead(idx) == lead && Last(idx) == j;
    SourceTwo(bb, im, jn, lead, i, j);
    var src := Source(bb + [im, jn], idx);
    var row, col := im.start + im.step * i, jn.start + jn.step * j;
    assert src == Source(bb, lead) + [row, col];
    Parts(src);
    var la, sa := Broadcast(IxShape(ba), lead), Broadcast(small, Source(bb, lead));
    assert Source(ba, la) == sa;
    forall k: nat | k < rank
      ensures r.B.at(lead + [i] + [k]) == l.B.at(Source(bb, lead) + [row] + [k])
      ensures r.A.at(la + [k, j]) == l.A.at(sa + [k, col])
    {
      SourceTwo(bb, im, All(rank), lead, i, k);
      assert lead + [i] + [k] == lead + [i, k] && Source(bb, lead) + [row] + [k] == Source(bb, lead) + [row, k];
      SourceTwo(ba, All(rank), jn, la, k, j);
    }
    DotSame(r.B, lead + [i], r.A, la, j, l.B, Source(bb, lead) + [row], l.A, sa, col, rank);
  }

  /** Indexing the factors is indexing the product. */
  lemma {:induction false} GatherCommutes(l: Lora, ba: seq<Ix>, bb: seq<Ix>, im: Ix, jn: Ix)
    requires Fits(l) && im.Take? && jn.Take? && |ba| == |bb| == |l.A.shape| - 2
    requires Follows(Lead(l.A.shape), ba, bb)
    ensures Represents(GatherLora(l, ba, bb, im, jn), Gather(Dense(l), bb + [im, jn]))
  {
    hide Entry, Source, IxShape, Follows;
    var r := GatherLora(l, ba, bb, im, jn);
    GatherShape(l, ba, bb, im, jn);
    var t := Gather(Dense(l), bb + [im, jn]);
    forall idx: Index | Within(idx, ShapeOf(r))
      ensures Dense(r).at(idx) == t.at(idx)
    {
      Parts(idx);
      var lead := Lead(idx);
      WithinLead(idx, IxShape(bb), im.count, jn.count);
      GatherEntry(l, ba, bb, im, jn, lead, idx[|idx| - 2], Last(idx));
    }
  }

  lemma {:induction false} WithinLead(idx: Index, lead: Shape, m: nat, n: nat)
    requires Within(idx, lead + [m, n])
    ensures |idx| >= 2 && Within(Lead(idx), lead)
  {
    forall i | 0 <= i < |lead|
      ensures idx[i] < lead[i]
    {
      assert (lead + [m, n])[i] == lead[i];
    }
  }

  /** How one leading axis of A has to be indexed when that of B is. */
  predicate AxisFollows(small: nat, pa: Ix, pb: Ix) {
    match pa
    case Pick(i) => pb.Pick? && (if small == 1 then i == 0 else pa == pb)
    case Take(start, count, _) =>
      && pb.Take? && (count == 1 || count == pb.count)
      && (pb.count == 0 || (if small == 1 then start == 0 && count == 1 else pa == pb))
  }

  lemma {:induction false} AxesBroadcast(small: Shape, ba: seq<Ix>, bb: seq<Ix>)
    requires |ba| == |bb| == |small| && forall i :: 0 <= i < |small| ==> AxisFollows(small[i], ba[i], bb[i])
    ensures Broadcasts(IxShape(ba), IxShape(bb))
    decreases |small|
  {
    if small == [] {
    } else {
      AxesBroadcast(Front(small), Front(ba), Front(bb));
      assert AxisFollows(Last(small), Last(ba), Last(bb));
    }
  }

  lemma {:induction false} BroadcastSnoc(small: Shape, front: Shape, idx: Index, x: nat)
    requires |idx| == |front| < |small| && front == small[..|front|]
    ensures Broadcast(small, idx + [x]) == Broadcast(front, idx) + [if small[|front|] == 1 then 0 else x]
  {
    hide Broadcast;
  }

  lemma {:induction false} TakeSource(ba: seq<Ix>, idx: Index)
    requires ba != [] && |idx| == |IxShape(ba)|
    ensures Last(ba).Take? ==>
              && idx != [] && IxShape(ba) == IxShape(Front(ba)) + [Last(ba).count]
              && Source(ba, idx) == Source(Front(ba), Front(idx)) + [Last(ba).start + Last(ba).step * Last(idx)]
    ensures Last(ba).Pick? ==>
              IxShape(ba) == IxShape(Front(ba)) && Source(ba, idx) == Source(Front(ba), idx) + [Last(ba).i]
  {}

  lemma {:induction false} AxesSource(small: Shape, ba: seq<Ix>, bb: seq<Ix>, idx: Index)
    requires |ba| == |bb| == |small| && forall i :: 0 <= i < |small| ==> AxisFollows(small[i], ba[i], bb[i])
    requires |IxShape(ba)| == |IxShape(bb)| && Within(idx, IxShape(bb))
    ensures Source(ba, Broadcast(IxShape(ba), idx)) == Broadcast(small, Source(bb, idx))
    decreases |small|
  {
    hide Source, IxShape, Broadcast;
    if small != [] {
      AxesBroadcast(Front(small), Front(ba), Front(bb));
      assert AxisFollows(Last(small), Last(ba), Last(bb));
      var bi := Broadcast(IxShape(ba), idx);
      TakeSource(bb, idx);
      TakeSource(ba, bi);
      if Last(ba).Pick? {
        AxesSource(Front(small), Front(ba), Front(bb), idx);
        BroadcastSnoc(small, Front(small), Source(Front(bb), idx), Last(bb).i);
      } else {
        WithinFront(idx, IxShape(Front(bb)), Last(bb).count);
        AxesSource(Front(small), Front(ba), Front(bb), Front(idx));
        assert idx == Front(idx) + [Last(idx)];
        BroadcastSnoc(IxShape(ba), IxShape(Front(ba)), Front(idx), Last(idx));
        BroadcastSnoc(small, Front(small), Source(Front(bb), Front(idx)), Last(bb).start + Last(bb).step * Last(idx));
      }
    } else {
      NoAxes(ba, bb, idx);
    }
  }

  lemma {:induction false} NoAxes(ba: seq<Ix>, bb: seq<Ix>, idx: Index)
    requires ba == bb == [] && |idx| == |IxShape(bb)|
    ensures Source(ba, Broadcast(IxShape(ba), idx)) == Broadcast([], Source(bb, idx))
  {}

  lemma {:induction false} WithinFront(idx: Index, shape: Shape, n: nat)
    requires Within(idx, shape + [n])
    ensures idx != [] && Within(Front(idx), shape) && Last(idx) < n
  {
    forall i | 0 <= i < |shape|
      ensures idx[i] < shape[i]
    {
      assert (shape + [n])[i] == shape[i];
    }
    assert (shape + [n])[|shape|] == n;
  }

  lemma {:induction false} AxesFollow(small: Shape, ba: seq<Ix>, bb: seq<Ix>)
    requires |ba| == |bb| == |small| && forall i :: 0 <= i < |small| ==> AxisFollows(small[i], ba[i], bb[i])
    ensures Follows(small, ba, bb)
  {
    hide AxisFollows, Source, IxShape;
    AxesBroadcast(small, ba, bb);
    forall idx: Index | Within(idx, IxShape(bb))
      ensures Source(ba, Broadcast(IxShape(ba), idx)) == Broadcast(small, Source(bb, idx))
    {
      AxesSource(small, ba, bb, idx);
    }
  }

  predicate SameKinds(ba: seq<Ix>, bb: seq<Ix>) {
    |ba| == |bb| && forall i :: 0 <= i < |ba| ==> (ba[i].Take? <==> bb[i].Take?)
  }

  /** If the indexed factors broadcast, every sliced leading axis does. */
  lemma {:induction false} BroadcastAxes(ba: seq<Ix>, bb: seq<Ix>)
    requires SameKinds(ba, bb)
    ensures |IxShape(ba)| == |IxShape(bb)|
    ensures Broadcasts(IxShape(ba), IxShape(bb)) ==>
              forall i :: 0 <= i < |ba| && ba[i].Take? ==> ba[i].count == 1 || ba[i].count == bb[i].count
    decreases |ba|
  {
    if ba == [] {
    } else {
      BroadcastAxes(Front(ba), Front(bb));
      assert Last(ba) == ba[|ba| - 1] && Last(bb) == bb[|bb| - 1];
      var sa, sb := IxShape(ba), IxShape(bb);
      if Broadcasts(sa, sb) {
        BroadcastsFront(sa, sb, IxShape(Front(ba)), IxShape(Front(bb)));
        if Last(ba).Take? {
          assert sa[|sa| - 1] == Last(ba).count && sb[|sb| - 1] == Last(bb).count;
        }
      }
    }
  }

  lemma {:induction false} BroadcastsFront(sa: Shape, sb: Shape, fa: Shape, fb: Shape)
    requires Broadcasts(sa, sb) && |fa| == |fb| && fa <= sa && fb <= sb
    ensures Broadcasts(fa, fb)
  {}

  // ---------------------------------------------------------------------------
  // Equal factors
  // ---------------------------------------------------------------------------

  lemma {:induction false} EntryWithin(l: Lora, idx: Index, k: nat)
    requires Fits(l) && Within(idx, ShapeOf(l)) && k < Rank(l)
    ensures Within(Front(idx) + [k], l.B.shape)
    ensures Within(Broadcast(Lead(l.A.shape), Lead(idx)) + [k, Last(idx)], l.A.shape)
  {
    var n := |idx|;
    assert ShapeOf(l)[n - 1] == Last(l.A.shape);
    forall i | 0 <= i < n - 1
      ensures idx[i] < l.B.shape[i]
    {
      assert ShapeOf(l)[i] == l.B.shape[i];
    }
    forall i | 0 <= i < n - 2
      ensures Broadcast(Lead(l.A.shape), Lead(idx))[i] < l.A.shape[i]
    {
      assert Lead(l.A.shape)[i] == l.A.shape[i] && Lead(l.B.shape)[i] == l.B.shape[i];
    }
  }

  /** The product depends only on the entries of the factors. */
  lemma {:induction false} SameFactors(l: Lora, r: Lora)
    requires Fits(l) && Same(l.A, r.A) && Same(l.B, r.B)
    ensures Fits(r) && Same(Dense(l), Dense(r))
  {
    hide Dot;
    forall idx: Index | Within(idx, ShapeOf(l))
      ensures Entry(l, idx) == Entry(r, idx)
    {
      forall k: nat | k < Rank(l)
        ensures l.B.at(Front(idx) + [k]) == r.B.at(Front(idx) + [k])
        ensures var ai := Broadcast(Lead(l.A.shape), Lead(idx));
                l.A.at(ai + [k, Last(idx)]) == r.A.at(ai + [k, Last(idx)])
      {
        EntryWithin(l, idx, k);
      }
      var ai := Broadcast(Lead(l.A.shape), Lead(idx));
      DotSame(l.B, Front(idx), l.A, ai, Last(idx), r.B, Front(idx), r.A, ai, Last(idx), Rank(l));
    }
  }

  lemma {:induction false} WholeIsSame(t: Tensor)
    ensures Same(Gather(t, AllOf(t.shape)), t)
  {
    ShapeOfAll(t.shape);
    forall idx: Index | Within(idx, t.shape)
      ensures Source(AllOf(t.shape), idx) == idx
    {
      SourceOfAll(t.shape, idx);
    }
  }

  lemma {:induction false} SameTransitive(s: Tensor, t: Tensor, u: Tensor)
    requires Same(s, t) && Same(t, u)
    ensures Same(s, u)
  {}

  // ---------------------------------------------------------------------------
  // t[i] and t[a:b]
  // ---------------------------------------------------------------------------

  function Both(a: Option<Tensor>, b: Option<Tensor>): Option<Lora> {
    if a.Some? && b.Some? then Make(a.value, b.value) else None
  }

  /** An integer index: both factors are indexed, with more than two axes. */
  function GetInt(l: Lora, i: int): Option<Lora>
    requires Built(l)
  {
    if |l.A.shape| > 2 then Both(TorchIndex(l.A, [Int(i)]), TorchIndex(l.B, [Int(i)])) else None
  }

  function GetSlice(l: Lora, p: PyIx): Option<Lora>
    requires Built(l) && p.Slice?
  {
    if |l.A.shape| > 2 then Both(TorchIndex(l.A, [p]), TorchIndex(l.B, [p]))
    else Both(Some(l.A), TorchIndex(l.B, [p]))
  }

  /** An index on the first axis only, in full. */
  lemma {:induction false} FirstAxis(t: Tensor, p: PyIx)
    requires t.shape != []
    ensures var r := Resolve(p, t.shape[0]);
            TorchIndex(t, [p]) == if r.Some? then Some(Gather(t, [r.value] + AllOf(t.shape[1..]))) else None
  {
    hide Resolve, Gather, Fulls, AllOf;
    var ps := [p] + Fulls(|t.shape| - 1);
    var all := ResolveAll(ps, t.shape);
    assert ps[0] == p;
    forall i | 1 <= i < |ps|
      ensures ps[i] == FullSlice && Resolve(ps[i], t.shape[i]) == Some(All(t.shape[i]))
    {
      FullResolves(t.shape[i]);
    }
    if all.Some? {
      assert all.value == [Resolve(p, t.shape[0]).value] + AllOf(t.shape[1..]);
    }
  }

  lemma {:induction false} FullResolves(d: nat)
    ensures Resolve(FullSlice, d) == Some(All(d))
  {}

  /** What has to hold of the first axis for an index on it to commute with the product. */
  predicate FirstAxisOk(l: Lora, p: PyIx)
    requires Built(l)
  {
    var a, b := l.A.shape[0], l.B.shape[0];
    && Resolve(p, a).Some? && Resolve(p, b).Some?
    && (p.Slice? ==> a == b || Resolve(p, a).value.count == 1 || Resolve(p, b).value.count == 0)
  }

  lemma {:induction false} ResolveOne(p: PyIx)
    requires Resolve(p, 1).Some?
    ensures match Resolve(p, 1).value
            case Pick(i) => i == 0
            case Take(start, count, _) => count <= 1 && (count == 1 ==> start == 0)
  {
    if p.Slice? {
      var s := if p.start.Some? then Clamp(p.start.value, 1) else 0;
      var e := if p.stop.Some? then Clamp(p.stop.value, 1) else 1;
      if e > s {
        OneStep(p.step);
      }
    }
  }

  lemma {:induction false} OneStep(step: int)
    requires step >= 1
    ensures (1 + step - 1) / step == 1
  {}

  lemma {:induction false} FirstFollows(l: Lora, p: PyIx)
    requires Fits(l) && |l.A.shape| > 2 && FirstAxisOk(l, p)
    ensures var small, big := Lead(l.A.shape), Lead(l.B.shape);
            Follows(small, [Resolve(p, small[0]).value] + AllOf(small[1..]), [Resolve(p, big[0]).value] + AllOf(big[1..]))
  {
    var small, big := Lead(l.A.shape), Lead(l.B.shape);
    var ba, bb := [Resolve(p, small[0]).value] + AllOf(small[1..]), [Resolve(p, big[0]).value] + AllOf(big[1..]);
    if small[0] == 1 {
      ResolveOne(p);
    }
    assert AxisFollows(small[0], ba[0], bb[0]);
    forall i | 1 <= i < |small|
      ensures AxisFollows(small[i], ba[i], bb[i])
    {
      assert ba[i] == All(small[i]) && bb[i] == All(big[i]);
    }
    AxesFollow(small, ba, bb);
  }

  lemma {:induction false} SplitAxes(shape: Shape, ix: Ix)
    requires |shape| > 2
    ensures [ix] + AllOf(shape[1..]) ==
            [ix] + AllOf(Lead(shape)[1..]) + [All(shape[|shape| - 2]), All(Last(shape))]
  {
    assert |Lead(shape)[1..]| == |shape| - 3;
    assert forall i :: 0 <= i < |shape| - 3 ==> shape[1..][i] == Lead(shape)[1..][i];
  }

  /** An index on the first axis of both factors. */
  lemma {:induction false} FirstAxisCommutes(l: Lora, p: PyIx)
    requires Fits(l) && |l.A.shape| > 2
    ensures var r := Both(TorchIndex(l.A, [p]), TorchIndex(l.B, [p]));
            r.Some? ==>
              && TorchIndex(Dense(l), [p]).Some?
              && (Represents(r.value, TorchIndex(Dense(l), [p]).value) <==> FirstAxisOk(l, p))
  {
    hide Resolve, Dense, IxShape, Source, Follows, Same;
    FirstAxis(l.A, p);
    FirstAxis(l.B, p);
    var shape := ShapeOf(l);
    DenseShape(l);
    FirstAxis(Dense(l), p);
    var small, big := Lead(l.A.shape), Lead(l.B.shape);
    assert Lead(shape) == big && shape[0] == big[0] == l.B.shape[0] && small[0] == l.A.shape[0];
    if Resolve(p, small[0]).Some? && Resolve(p, big[0]).Some? {
      var pa, pb := Resolve(p, small[0]).value, Resolve(p, big[0]).value;
      SplitAxes(l.A.shape, pa);
      SplitAxes(l.B.shape, pb);
      SplitAxes(shape, pb);
      var ba, bb := [pa] + AllOf(small[1..]), [pb] + AllOf(big[1..]);
      var m, n := All(l.B.shape[|l.B.shape| - 2]), All(Last(l.A.shape));
      if FirstAxisOk(l, p) {
        FirstFollows(l, p);
        GatherCommutes(l, ba, bb, m, n);
      } else {
        ResolveKind(p, small[0]);
        ResolveKind(p, big[0]);
        MisfitFirst(l, p, ba, bb, m, n);
      }
    }
  }

  lemma {:induction false} DenseShape(l: Lora)
    requires Built(l)
    ensures Dense(l).shape == ShapeOf(l)
  {}

  lemma {:induction false} ResolveKind(p: PyIx, d: nat)
    requires Resolve(p, d).Some?
    ensures Resolve(p, d).value.Take? <==> p.Slice?
  {}

  lemma {:induction false} MisfitFirst(l: Lora, p: PyIx, ba: seq<Ix>, bb: seq<Ix>, m: Ix, n: Ix)
    requires Fits(l) && |ba| == |bb| == |l.A.shape| - 2 > 0 && m.Take? && n.Take?
    requires Resolve(p, l.A.shape[0]).Some? && Resolve(p, l.B.shape[0]).Some? && !FirstAxisOk(l, p)
    requires ba[0] == Resolve(p, l.A.shape[0]).value && bb[0] == Resolve(p, l.B.shape[0]).value
    requires forall i :: 1 <= i < |ba| ==> ba[i].Take? && bb[i].Take?
    ensures !Fits(GatherLora(l, ba, bb, m, n))
  {
    hide Source;
    assert Lead(l.A.shape)[0] == l.A.shape[0] == 1 && Lead(l.B.shape)[0] == l.B.shape[0];
    ResolveOne(p);
    BroadcastAxes(ba, bb);
    TwoMore(ba, All(Rank(l)), n);
    TwoMore(bb, m, All(Rank(l)));
    assert ba[0].count == 0 && bb[0].count != 0;
  }
}
