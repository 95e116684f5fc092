/**
 Prompt checkpoints of common.cpp and common.h: objects that own handles to device storage, copied,
 moved, assigned, updated and destroyed in any order.
 */
module Checkpoints {
  import opened Utf8
  import opened Wrappers

  type Handle = nat

  const Null: Handle := 0

  /** The device storage: the handles that were given out and not freed, with what they hold. */
  class Pool {
    var live: map<Handle, Bytes>
    var next: Handle

    ghost predicate Valid()
      reads this
    {
      Null !in live && next > Null && forall h :: h in live ==> h < next
    }

    constructor ()
      ensures Valid() && live == map[]
    {
      live, next := map[], 1;
    }

    method Init() returns (h: Handle)
      requires Valid()
      modifies this
      ensures Valid() && h != Null && h !in old(live) && live == old(live)[h := []]
    {
      h := next;
      live := live[h := []];
      next := next + 1;
    }

    /** A new handle with the same contents; none for none. */
    method Clone(h: Handle) returns (r: Handle)
      requires Valid() && (h == Null || h in live)
      modifies this
      ensures Valid() && (r == Null <==> h == Null)
      ensures h == Null ==> live == old(live)
      ensures h != Null ==> r !in old(live) && live == old(live)[r := old(live)[h]]
    {
      if h == Null {
        return Null;
      }
      r := next;
      live := live[r := live[h]];
      next := next + 1;
    }

    /** Freeing a handle twice is not possible here; freeing none does nothing. */
    method Free(h: Handle)
      requires Valid() && (h == Null || h in live)
      modifies this
      ensures Valid() && live == old(live) - {h}
    {
      if h != Null {
        live := live - {h};
      }
    }

    method Store(h: Handle, contents: Bytes)
      requires Valid() && (h == Null || h in live)
      modifies this
      ensures Valid() && live == if h == Null then old(live) else old(live)[h := contents]
    {
      if h != Null {
        live := live[h := contents];
      }
    }
  }

  datatype Stored = Nothing | Holds(contents: Bytes)

  /** What a checkpoint means, apart from which handles it uses. */
  datatype Value = Value(
    nTokens: int, posMin: int, posMax: int,
    dataTgt: Bytes, dataDft: Bytes, drafter: nat, dataSpec: Bytes,
    storedTgt: Stored, storedDft: Stored)

  const Empty := Value(0, 0, 0, [], [], 0, [], Nothing, Nothing)

  /** A sequence's state: the bytes copied to the host and the bytes that stay on the device. */
  datatype Context = Context(host: Bytes, device: Bytes)

  datatype MaybeContext = NoContext | With(ctx: Context)

  class Checkpoint {
    const pool: Pool

    var nTokens: int
    var posMin: int
    var posMax: int
    var dataTgt: Bytes
    var dataDft: Bytes
    var drafter: nat
    var dataSpec: Bytes
    var storageTgt: Handle
    var storageDft: Handle

    ghost function Held(): set<Handle>
      reads this
    {
      {storageTgt, storageDft} - {Null}
    }

    /** The handles are live, and the two are different. */
    ghost predicate Owning()
      reads this, pool
    {
      && pool.Valid() && Held() <= pool.live.Keys
      && (storageTgt != Null ==> storageTgt != storageDft)
    }

    ghost function StoredAt(h: Handle): Stored
      reads pool
    {
      if h in pool.live then Holds(pool.live[h]) else Nothing
    }

    ghost function Meaning(): Value
      reads this, pool
    {
      Value(nTokens, posMin, posMax, dataTgt, dataDft, drafter, dataSpec, StoredAt(storageTgt), StoredAt(storageDft))
    }

    constructor (pool: Pool)
      requires pool.Valid()
      ensures this.pool == pool && Owning() && Held() == {} && Meaning() == Empty
    {
      this.pool := pool;
      nTokens, posMin, posMax := 0, 0, 0;
      dataTgt, dataDft, drafter, dataSpec := [], [], 0, [];
      storageTgt, storageDft := Null, Null;
    }

    constructor Copy(other: Checkpoint)
      requires other.Owning()
      modifies other.pool
      ensures pool == other.pool && Owning() && Meaning() == old(other.Meaning())
      ensures Held() !! old(other.pool.live).Keys
      ensures pool.live.Keys == old(other.pool.live).Keys + Held()
      ensures forall h :: h in old(other.pool.live) ==> pool.live[h] == old(other.pool.live)[h]
    {
      pool := other.pool;
      nTokens, posMin, posMax := other.nTokens, other.posMin, other.posMax;
      dataTgt, dataDft, drafter, dataSpec := other.dataTgt, other.dataDft, other.drafter, other.dataSpec;
      storageTgt, storageDft := Null, Null;
      new;
      CloneStorage(other);
    }

    constructor Move(other: Checkpoint)
      requires other.Owning()
      modifies other
      ensures pool == other.pool && Owning() && other.Owning()
      ensures Held() == old(other.Held()) && other.Held() == {}
      ensures Meaning() == old(other.Meaning()) && other.Meaning() == Emptied(old(other.Meaning()))
    {
      pool := other.pool;
      nTokens, posMin, posMax := other.nTokens, other.posMin, other.posMax;
      dataTgt, dataDft, drafter, dataSpec := other.dataTgt, other.dataDft, other.drafter, other.dataSpec;
      storageTgt, storageDft := other.storageTgt, other.storageDft;
      new;
      other.MovedFrom();
    }

    /** What moving leaves behind: empty vectors and no handles. */
    method MovedFrom()
      modifies this`dataTgt, this`dataDft, this`dataSpec, this`storageTgt, this`storageDft
      ensures dataTgt == dataDft == dataSpec == [] && storageTgt == storageDft == Null
    {
      dataTgt, dataDft, dataSpec := [], [], [];
      storageTgt, storageDft := Null, Null;
    }

    /** Frees both handles, which is all the destructor does. */
    method FreeStorage()
      requires Owning()
      modifies pool
      ensures pool.Valid() && pool.live == old(pool.live) - Held()
    {
      pool.Free(storageTgt);
      pool.Free(storageDft);
    }

    /** New handles with the contents of another checkpoint's. */
    method CloneStorage(other: Checkpoint)
      requires this != other && pool == other.pool && other.Owning()
      modifies this`storageTgt, this`storageDft, pool
      ensures Owning() && Held() !! old(pool.live).Keys
      ensures StoredAt(storageTgt) == old(StoredAt(other.storageTgt))
      ensures StoredAt(storageDft) == old(StoredAt(other.storageDft))
      ensures pool.live.Keys == old(pool.live).Keys + Held()
      ensures forall h :: h in old(pool.live) ==> pool.live[h] == old(pool.live)[h]
    {
      assert other.storageTgt != Null ==> other.storageTgt in other.Held();
      assert other.storageDft != Null ==> other.storageDft in other.Held();
      storageTgt := pool.Clone(other.storageTgt);
      storageDft := pool.Clone(other.storageDft);
    }

    method CopyAssign(other: Checkpoint)
      requires Owning() && other.Owning() && pool == other.pool
      requires this != other ==> Held() !! other.Held()
      modifies this, pool
      ensures Owning() && Meaning() == old(other.Meaning()) && (this == other ==> Held() == old(Held()))
      ensures this != other ==> Held() !! old(pool.live).Keys - old(Held())
      ensures pool.live.Keys == old(pool.live).Keys - old(Held()) + Held()
      ensures forall h :: h in old(pool.live) && h !in old(Held()) ==> h in pool.live && pool.live[h] == old(pool.live)[h]
    {
      if this == other {
        return;
      }
      HandlesApart(other);
      nTokens, posMin, posMax := other.nTokens, other.posMin, other.posMax;
      dataTgt, dataDft, drafter, dataSpec := other.dataTgt, other.dataDft, other.drafter, other.dataSpec;
      FreeStorage();
      CloneStorage(other);
    }

    lemma HandlesApart(other: Checkpoint)
      requires Owning() && other.Owning() && Held() !! other.Held()
      ensures storageTgt != Null ==> storageTgt != other.storageTgt && storageTgt != other.storageDft
      ensures storageDft != Null ==> storageDft != other.storageTgt && storageDft != other.storageDft
      ensures other.storageTgt != Null ==> other.storageTgt in other.pool.live
      ensures other.storageDft != Null ==> other.storageDft in other.pool.live
    {
      assert storageTgt != Null ==> storageTgt in Held();
      assert storageDft != Null ==> storageDft in Held();
      assert other.storageTgt != Null ==> other.storageTgt in other.Held();
      assert other.storageDft != Null ==> other.storageDft in other.Held();
    }

    method MoveAssign(other: Checkpoint)
      requires Owning() && other.Owning() && pool == other.pool
      requires this != other ==> Held() !! other.Held()
      modifies this, other, pool
      ensures Owning() && other.Owning() && Meaning() == old(other.Meaning())
      ensures this == other ==> Held() == old(Held()) && pool.live == old(pool.live)
      ensures this != other ==> Held() == old(other.Held()) && other.Held() == {}
      ensures this != other ==> other.Meaning() == Emptied(old(other.Meaning()))
      ensures this != other ==> pool.live == old(pool.live) - old(Held())
    {
      if this == other {
        return;
      }
      HandlesApart(other);
      FreeStorage();
      nTokens, posMin, posMax := other.nTokens, other.posMin, other.posMax;
      dataTgt, dataDft, drafter, dataSpec := other.dataTgt, other.dataDft, other.drafter, other.dataSpec;
      storageTgt, storageDft := other.storageTgt, other.storageDft;
      other.MovedFrom();
    }

    method Clear()
      requires Owning()
      modifies this, pool
      ensures Owning() && Held() == {} && Meaning() == Empty && pool.live == old(pool.live) - old(Held())
    {
      nTokens, posMin, posMax := 0, 0, 0;
      dataTgt, dataDft, drafter, dataSpec := [], [], 0, [];
      FreeStorage();
      storageTgt, storageDft := Null, Null;
    }

    method UpdatePos(nTokens: int, posMin: int, posMax: int)
      requires Owning()
      modifies this`nTokens, this`posMin, this`posMax
      ensures Owning() && Held() == old(Held())
      ensures Meaning() == old(Meaning()).(nTokens := nTokens, posMin := posMin, posMax := posMax)
    {
      this.nTokens, this.posMin, this.posMax := nTokens, posMin, posMax;
    }

    /** Captures the target's state; `false` where the code aborts because of a size mismatch. */
    method UpdateTgt(ctx: MaybeContext, onDevice: bool, copied: nat) returns (ok: bool)
      requires Owning()
      modifies this, pool
      ensures Owning() && (ok <==> ctx.NoContext? || copied == |ctx.ctx.host|)
      ensures ctx.NoContext? ==> Meaning() == old(Meaning()) && Held() == old(Held()) && pool.live == old(pool.live)
      ensures ctx.With? ==>
                Meaning() == old(Meaning()).(dataTgt := ctx.ctx.host,
                                             storedTgt := if onDevice then Holds(ctx.ctx.device) else Nothing)
      ensures Held() - old(Held()) !! old(pool.live).Keys
      ensures pool.live.Keys == old(pool.live).Keys - old(Held()) + Held()
      ensures forall h :: h in old(pool.live) && h !in old(Held()) ==> h in pool.live && pool.live[h] == old(pool.live)[h]
    {
      if ctx.NoContext? {
        return true;
      }
      dataTgt := ctx.ctx.host;
      if onDevice {
        if storageTgt == Null {
          storageTgt := pool.Init();
        }
      } else {
        pool.Free(storageTgt);
        storageTgt := Null;
      }
      pool.Store(storageTgt, ctx.ctx.device);
      ok := copied == |ctx.ctx.host|;
    }

    method UpdateDft(ctx: MaybeContext, onDevice: bool, copied: nat) returns (ok: bool)
      requires Owning()
      modifies this, pool
      ensures Owning() && (ok <==> ctx.NoContext? || copied == |ctx.ctx.host|)
      ensures ctx.NoContext? ==> Meaning() == old(Meaning()) && Held() == old(Held()) && pool.live == old(pool.live)
      ensures ctx.With? ==>
                Meaning() == old(Meaning()).(dataDft := ctx.ctx.host,
                                             storedDft := if onDevice then Holds(ctx.ctx.device) else Nothing)
      ensures Held() - old(Held()) !! old(pool.live).Keys
      ensures pool.live.Keys == old(pool.live).Keys - old(Held()) + Held()
      ensures forall h :: h in old(pool.live) && h !in old(Held()) ==> h in pool.live && pool.live[h] == old(pool.live)[h]
    {
      if ctx.NoContext? {
        return true;
      }
      dataDft := ctx.ctx.host;
      if onDevice {
        if storageDft == Null {
          storageDft := pool.Init();
        }
      } else {
        pool.Free(storageDft);
        storageDft := Null;
      }
      pool.Store(storageDft, ctx.ctx.device);
      ok := copied == |ctx.ctx.host|;
    }

    method ClearTgt()
      requires Owning()
      modifies this`dataTgt, this`storageTgt, pool
      ensures Owning() && Meaning() == old(Meaning()).(dataTgt := [], storedTgt := Nothing)
      ensures Held() <= old(Held()) && pool.live == old(pool.live) - (old(Held()) - Held())
    {
      dataTgt := [];
      pool.Free(storageTgt);
      storageTgt := Null;
    }

    method ClearDft()
      requires Owning()
      modifies this`dataDft, this`storageDft, pool
      ensures Owning() && Meaning() == old(Meaning()).(dataDft := [], storedDft := Nothing)
      ensures Held() <= old(Held()) && pool.live == old(pool.live) - (old(Held()) - Held())
    {
      dataDft := [];
      pool.Free(storageDft);
      storageDft := Null;
    }
  }

  // ---------------------------------------------------------------------------
  // Any program over checkpoints
  // ---------------------------------------------------------------------------

  datatype Op =
    | New
    | CopyOf(i: nat)
    | MoveOf(i: nat)
    | Assign(i: nat, j: nat)
    | MoveInto(i: nat, j: nat)
    | ClearIt(i: nat)
    | SetPos(i: nat, nTokens: int, posMin: int, posMax: int)
    | CaptureTgt(i: nat, ctx: MaybeContext, onDevice: bool)
    | CaptureDft(i: nat, ctx: MaybeContext, onDevice: bool)
    | DropTgt(i: nat)
    | DropDft(i: nat)
    | Destroy(i: nat)

  /** What a moved-from checkpoint still says. */
  function Emptied(v: Value): Value {
    v.(dataTgt := [], dataDft := [], dataSpec := [], storedTgt := Nothing, storedDft := Nothing)
  }

  function Captured(v: Value, ctx: MaybeContext, onDevice: bool, target: bool): Value {
    if ctx.NoContext? then v
    else
      var stored := if onDevice then Holds(ctx.ctx.device) else Nothing;
      if target then v.(dataTgt := ctx.ctx.host, storedTgt := stored)
      else v.(dataDft := ctx.ctx.host, storedDft := stored)
  }

  /** A list without its entry `i`; those behind it close up. */
  function Without<T>(s: seq<T>, i: nat): (r: seq<T>)
    requires i < |s|
    ensures |r| == |s| - 1
    ensures forall k :: 0 <= k < |r| ==> r[k] == s[if k < i then k else k + 1]
  {
    s[..i] + s[i + 1..]
  }

  /** Checkpoints as plain values: nothing is shared, an operation changes only what it names. */
  function Apply(vs: seq<Value>, op: Op): seq<Value> {
    match op
    case New => vs + [Empty]
    case CopyOf(i) => if i < |vs| then vs + [vs[i]] else vs
    case MoveOf(i) => if i < |vs| then vs[i := Emptied(vs[i])] + [vs[i]] else vs
    case Assign(i, j) => if i < |vs| && j < |vs| then vs[i := vs[j]] else vs
    case MoveInto(i, j) => if i < |vs| && j < |vs| && i != j then vs[i := vs[j]][j := Emptied(vs[j])] else vs
    case ClearIt(i) => if i < |vs| then vs[i := Empty] else vs
    case SetPos(i, n, lo, hi) => if i < |vs| then vs[i := vs[i].(nTokens := n, posMin := lo, posMax := hi)] else vs
    case CaptureTgt(i, ctx, dev) => if i < |vs| then vs[i := Captured(vs[i], ctx, dev, true)] else vs
    case CaptureDft(i, ctx, dev) => if i < |vs| then vs[i := Captured(vs[i], ctx, dev, false)] else vs
    case DropTgt(i) => if i < |vs| then vs[i := vs[i].(dataTgt := [], storedTgt := Nothing)] else vs
    case DropDft(i) => if i < |vs| then vs[i := vs[i].(dataDft := [], storedDft := Nothing)] else vs
    case Destroy(i) => if i < |vs| then Without(vs, i) else vs
  }

  function ApplyAll(vs: seq<Value>, ops: seq<Op>): seq<Value>
    decreases |ops|
  {
    if ops == [] then vs else ApplyAll(Apply(vs, ops[0]), ops[1..])
  }

  lemma LastEntry(vs: seq<Value>, v: Value, w: Value)
    ensures (vs + [v])[|vs|] == v && (vs + [v])[|vs| := w] == vs + [w] && Without(vs + [v], |vs|) == vs
  {}

  /** A checkpoint that is copied away, cleared and assigned back is as before, beside all others. */
  lemma SavedAndRestored(vs: seq<Value>, i: nat)
    requires i < |vs|
    ensures var n := |vs|;
            Apply(Apply(Apply(Apply(vs, CopyOf(i)), ClearIt(i)), Assign(i, n)), Destroy(n)) == vs
  {
    var n, copied := |vs|, vs + [vs[i]];
    LastEntry(vs, vs[i], vs[i]);
    hide Without;
    assert Apply(vs, CopyOf(i)) == copied && copied[i] == vs[i];
    assert copied[i := Empty][i := vs[i]] == copied && copied[i := Empty][n] == vs[i];
  }

  /** The same when it is moved away and moved back. */
  lemma MovedThereAndBack(vs: seq<Value>, i: nat)
    requires i < |vs|
    ensures Apply(Apply(Apply(vs, MoveOf(i)), MoveInto(i, |vs|)), Destroy(|vs|)) == vs
  {
    var v, w := vs[i], Emptied(vs[i]);
    LastEntry(vs, v, w);
    LastEntry(vs, w, w);
    hide Without, Emptied;
    var moved := vs[i := w] + [v];
    assert Apply(vs, MoveOf(i)) == moved && moved[|vs|] == v;
    assert moved[i := v] == vs + [v];
  }

  /** A new checkpoint holds what was captured, on the host or on the device, and nothing else. */
  lemma CapturedWhole(vs: seq<Value>, n: int, lo: int, hi: int, tgt: Context, dft: Context)
    ensures var k := |vs|;
            Apply(Apply(Apply(Apply(vs, New), SetPos(k, n, lo, hi)), CaptureTgt(k, With(tgt), false)),
                  CaptureDft(k, With(dft), true)) ==
            vs + [Value(n, lo, hi, tgt.host, dft.host, 0, [], Nothing, Holds(dft.device))]
  {
    var a, b := Value(0, 0, 0, [], [], 0, [], Nothing, Nothing), Value(n, lo, hi, [], [], 0, [], Nothing, Nothing);
    var c := Value(n, lo, hi, tgt.host, [], 0, [], Nothing, Nothing);
    LastEntry(vs, a, b);
    LastEntry(vs, b, c);
    LastEntry(vs, c, Value(n, lo, hi, tgt.host, dft.host, 0, [], Nothing, Holds(dft.device)));
  }

  /** What the other operations make of any checkpoint. */
  lemma AnyChange(vs: seq<Value>, v: Value, dft: Context, onDevice: bool)
    ensures var k, ws := |vs|, vs + [v];
            && Apply(ws, MoveOf(k)) ==
               vs + [Value(v.nTokens, v.posMin, v.posMax, [], [], v.drafter, [], Nothing, Nothing)] + [v]
            && Apply(ws, ClearIt(k)) == vs + [Value(0, 0, 0, [], [], 0, [], Nothing, Nothing)]
            && Apply(ws, DropTgt(k)) == vs + [v.(dataTgt := [], storedTgt := Nothing)]
            && Apply(ws, DropDft(k)) == vs + [v.(dataDft := [], storedDft := Nothing)]
            && Apply(ws, CaptureTgt(k, NoContext, onDevice)) == Apply(ws, CaptureDft(k, NoContext, onDevice)) == ws
  {
    LastEntry(vs, v, v);
    LastEntry(vs, v, Value(v.nTokens, v.posMin, v.posMax, [], [], v.drafter, [], Nothing, Nothing));
    LastEntry(vs, v, Value(0, 0, 0, [], [], 0, [], Nothing, Nothing));
    LastEntry(vs, v, v.(dataTgt := [], storedTgt := Nothing));
    LastEntry(vs, v, v.(dataDft := [], storedDft := Nothing));
  }

  // ---------------------------------------------------------------------------
  // Who holds what
  // ---------------------------------------------------------------------------

  /** No handle is held twice, and the live handles are exactly those held. */
  ghost predicate Partition(hs: seq<set<Handle>>, live: set<Handle>) {
    && (forall i, j :: 0 <= i < j < |hs| ==> hs[i] !! hs[j])
    && (forall i :: 0 <= i < |hs| ==> hs[i] <= live)
    && (forall h :: h in live ==> exists i :: 0 <= i < |hs| && h in hs[i])
  }

  lemma HoldersChange(hs: seq<set<Handle>>, live: set<Handle>, i: nat, new_: set<Handle>)
    requires Partition(hs, live) && i < |hs| && new_ !! live - hs[i]
    ensures Partition(hs[i := new_], live - hs[i] + new_)
  {
    var gs, rest := hs[i := new_], live - hs[i] + new_;
    forall j | 0 <= j < |gs|
      ensures gs[j] <= rest
    {
      if j < i {
        assert hs[j] !! hs[i];
      } else if j > i {
        assert hs[i] !! hs[j];
      }
    }
    forall h | h in rest
      ensures exists j :: 0 <= j < |gs| && h in gs[j]
    {
      if h in new_ {
        assert h in gs[i];
      } else {
        var j :| 0 <= j < |hs| && h in hs[j];
        assert h in gs[j];
      }
    }
  }

  lemma HolderAdded(hs: seq<set<Handle>>, live: set<Handle>, new_: set<Handle>)
    requires Partition(hs, live) && new_ !! live
    ensures Partition(hs + [new_], live + new_)
  {
    var gs := hs + [new_];
    forall h | h in live + new_
      ensures exists j :: 0 <= j < |gs| && h in gs[j]
    {
      if h in new_ {
        assert h in gs[|hs|];
      } else {
        var j :| 0 <= j < |hs| && h in hs[j];
        assert h in gs[j];
      }
    }
  }

  lemma HolderMoved(hs: seq<set<Handle>>, live: set<Handle>, i: nat)
    requires Partition(hs, live) && i < |hs|
    ensures Partition(hs[i := {}] + [hs[i]], live)
  {
    HoldersChange(hs, live, i, {});
    assert hs[i] <= live;
    hide Partition;
    assert live - hs[i] + {} == live - hs[i] && live - hs[i] + hs[i] == live;
    HolderAdded(hs[i := {}], live - hs[i], hs[i]);
  }

  lemma HolderGone(hs: seq<set<Handle>>, live: set<Handle>, i: nat)
    requires Partition(hs, live) && i < |hs|
    ensures Partition(Without(hs, i), live - hs[i])
  {
    var gs, rest := Without(hs, i), live - hs[i];
    forall j | 0 <= j < |gs|
      ensures gs[j] <= rest
    {
      HeldApart(hs, live, i, if j < i then j else j + 1);
    }
    forall h | h in rest
      ensures exists j :: 0 <= j < |gs| && h in gs[j]
    {
      var j :| 0 <= j < |hs| && h in hs[j];
      assert h in gs[if j < i then j else j - 1];
    }
  }

  lemma NoHolders(live: set<Handle>)
    requires Partition([], live)
    ensures live == {}
  {}

  class Program {
    const pool: Pool
    var slots: seq<Checkpoint>

    ghost function Helds(): (hs: seq<set<Handle>>)
      reads this, slots
      ensures |hs| == |slots| && forall i :: 0 <= i < |slots| ==> hs[i] == slots[i].Held()
    {
      seq(|slots|, i requires 0 <= i < |slots| reads this, slots => slots[i].Held())
    }

    ghost predicate OnePool()
      reads this, slots
    {
      forall i :: 0 <= i < |slots| ==> slots[i].pool == pool
    }

    ghost predicate Distinct()
      reads this
    {
      forall i, j :: 0 <= i < j < |slots| ==> slots[i] != slots[j]
    }

    ghost predicate Valid()
      reads this, pool, slots
    {
      && OnePool() && Distinct() && Partition(Helds(), pool.live.Keys)
      && pool.Valid() && forall i :: 0 <= i < |slots| ==> slots[i].Owning()
    }

    ghost function Values(): (vs: seq<Value>)
      requires OnePool()
      reads this, pool, slots
      ensures |vs| == |slots| && forall i :: 0 <= i < |slots| ==> vs[i] == slots[i].Meaning()
    {
      seq(|slots|, i requires 0 <= i < |slots| && slots[i].pool == pool reads this, pool, slots => slots[i].Meaning())
    }

    constructor ()
      ensures Valid() && slots == [] && fresh(pool)
    {
      pool := new Pool();
      slots := [];
    }

    /** One checkpoint has changed, in place. */
    twostate lemma OneChanged(i: nat)
      requires old(Valid()) && slots == old(slots) && i < |slots|
      requires forall j :: 0 <= j < |slots| && j != i ==> unchanged(slots[j])
      requires slots[i].Owning()
      requires slots[i].Held() !! old(pool.live).Keys - old(slots[i].Held())
      requires pool.live.Keys == old(pool.live).Keys - old(slots[i].Held()) + slots[i].Held()
      requires forall h :: h in old(pool.live) && h !in old(slots[i].Held()) ==> h in pool.live && pool.live[h] == old(pool.live)[h]
      ensures Valid() && Values() == old(Values())[i := slots[i].Meaning()]
    {
      hide Partition;
      assert pool.Valid();
      assert Helds() == old(Helds())[i := slots[i].Held()];
      HoldersChange(old(Helds()), old(pool.live).Keys, i, slots[i].Held());
      forall j | 0 <= j < |slots| && j != i
        ensures slots[j].Owning() && slots[j].Meaning() == old(slots[j].Meaning())
      {
        HeldApart(old(Helds()), old(pool.live).Keys, i, j);
        assert slots[j].storageTgt != Null ==> slots[j].storageTgt in old(slots[j].Held());
        assert slots[j].storageDft != Null ==> slots[j].storageDft in old(slots[j].Held());
      }
    }

    /** A checkpoint has been added behind the others. */
    twostate lemma OneAdded(new c: Checkpoint)
      requires old(Valid()) && slots == old(slots) + [c] && c !in old(slots) && c.pool == pool
      requires forall j :: 0 <= j < |old(slots)| ==> unchanged(old(slots)[j])
      requires c.Owning() && c.Held() !! old(pool.live).Keys
      requires pool.live.Keys == old(pool.live).Keys + c.Held()
      requires forall h :: h in old(pool.live) ==> pool.live[h] == old(pool.live)[h]
      ensures Valid() && Values() == old(Values()) + [c.Meaning()]
    {
      hide Partition;
      assert Helds() == old(Helds()) + [c.Held()];
      HolderAdded(old(Helds()), old(pool.live).Keys, c.Held());
      forall j | 0 <= j < |old(slots)|
        ensures slots[j].Owning() && slots[j].Meaning() == old(slots[j].Meaning())
      {
        assert slots[j] == old(slots)[j];
        HeldLive(old(Helds()), old(pool.live).Keys, j);
        assert slots[j].storageTgt != Null ==> slots[j].storageTgt in old(slots[j].Held());
        assert slots[j].storageDft != Null ==> slots[j].storageDft in old(slots[j].Held());
      }
    }

    method NewOne()
      requires Valid()
      modifies this
      ensures Valid() && Values() == old(Values()) + [Empty]
      ensures slots[..|slots| - 1] == old(slots) && fresh(slots[|slots| - 1])
    {
      var c := new Checkpoint(pool);
      slots := slots + [c];
      OneAdded(c);
    }

    method CopyOne(i: nat)
      requires Valid() && i < |slots|
      modifies this, pool
      ensures Valid() && Values() == old(Values()) + [old(Values())[i]]
      ensures slots[..|slots| - 1] == old(slots) && fresh(slots[|slots| - 1])
    {
      var c := new Checkpoint.Copy(slots[i]);
      slots := slots + [c];
      OneAdded(c);
    }

    method MoveOne(i: nat)
      requires Valid() && i < |slots|
      modifies this, slots
      ensures Valid() && Values() == old(Values())[i := Emptied(old(Values())[i])] + [old(Values())[i]]
      ensures slots[..|slots| - 1] == old(slots) && fresh(slots[|slots| - 1])
    {
      hide Partition;
      ghost var hs, live := Helds(), pool.live.Keys;
      HolderMoved(hs, live, i);
      var c := new Checkpoint.Move(slots[i]);
      slots := slots + [c];
      assert Helds() == hs[i := {}] + [hs[i]];
    }

    method AssignOne(i: nat, j: nat)
      requires Valid() && i < |slots| && j < |slots|
      modifies slots, pool
      ensures Valid() && slots == old(slots) && Values() == old(Values())[i := old(Values())[j]]
    {
      if i != j {
        HeldApart(Helds(), pool.live.Keys, i, j);
      }
      slots[i].CopyAssign(slots[j]);
      OneChanged(i);
    }

    method MoveIntoOne(i: nat, j: nat)
      requires Valid() && i < |slots| && j < |slots|
      modifies slots, pool
      ensures Valid() && slots == old(slots) && Values() == Apply(old(Values()), MoveInto(i, j))
    {
      if i == j {
        slots[i].MoveAssign(slots[j]);
        return;
      }
      TwoMoved(i, j);
    }

    method TwoMoved(i: nat, j: nat)
      requires Valid() && i < |slots| && j < |slots| && i != j
      modifies slots, pool
      ensures Valid() && slots == old(slots)
      ensures Values() == old(Values())[i := old(Values())[j]][j := Emptied(old(Values())[j])]
    {
      hide Partition;
      ghost var hs, live := Helds(), pool.live.Keys;
      HeldApart(hs, live, i, j);
      HoldersChange(hs, live, j, {});
      HoldersChange(hs[j := {}], live - hs[j] + {}, i, hs[j]);
      slots[i].MoveAssign(slots[j]);
      assert Helds() == hs[j := {}][i := hs[j]];
      assert pool.live.Keys == live - hs[j] + {} - hs[i] + hs[j];
      forall k | 0 <= k < |slots| && k != i && k != j
        ensures slots[k].Owning() && slots[k].Meaning() == old(slots[k].Meaning())
      {
        HeldApart(hs, live, i, k);
        assert slots[k].storageTgt != Null ==> slots[k].storageTgt in old(slots[k].Held());
        assert slots[k].storageDft != Null ==> slots[k].storageDft in old(slots[k].Held());
      }
    }

    method ClearOne(i: nat)
      requires Valid() && i < |slots|
      modifies slots, pool
      ensures Valid() && slots == old(slots) && Values() == old(Values())[i := Empty]
    {
      slots[i].Clear();
      OneChanged(i);
    }

    method PosOne(i: nat, nTokens: int, posMin: int, posMax: int)
      requires Valid() && i < |slots|
      modifies slots
      ensures Valid() && slots == old(slots) && Values() == Apply(old(Values()), SetPos(i, nTokens, posMin, posMax))
    {
      slots[i].UpdatePos(nTokens, posMin, posMax);
      OneChanged(i);
    }

    method CaptureOne(i: nat, ctx: MaybeContext, onDevice: bool, target: bool)
      requires Valid() && i < |slots|
      modifies slots, pool
      ensures Valid() && slots == old(slots)
      ensures Values() == old(Values())[i := Captured(old(Values())[i], ctx, onDevice, target)]
    {
      var size := if ctx.With? then |ctx.ctx.host| else 0;
      if target {
        var _ := slots[i].UpdateTgt(ctx, onDevice, size);
      } else {
        var _ := slots[i].UpdateDft(ctx, onDevice, size);
      }
      OneChanged(i);
    }

    method DropTgtOne(i: nat)
      requires Valid() && i < |slots|
      modifies slots, pool
      ensures Valid() && slots == old(slots) && Values() == Apply(old(Values()), DropTgt(i))
    {
      HeldLive(Helds(), pool.live.Keys, i);
      slots[i].ClearTgt();
      hide Partition;
      OneChanged(i);
    }

    method DropDftOne(i: nat)
      requires Valid() && i < |slots|
      modifies slots, pool
      ensures Valid() && slots == old(slots) && Values() == Apply(old(Values()), DropDft(i))
    {
      HeldLive(Helds(), pool.live.Keys, i);
      slots[i].ClearDft();
      hide Partition;
      OneChanged(i);
    }

    /** The destructor of one checkpoint leaves the others as they are. */
    method FreeAt(i: nat)
      requires Valid() && i < |slots|
      modifies pool
      ensures pool.Valid() && pool.live.Keys == old(pool.live).Keys - slots[i].Held()
      ensures forall k :: 0 <= k < |slots| && k != i ==> slots[k].Owning() && slots[k].Meaning() == old(slots[k].Meaning())
    {
      hide Partition;
      ghost var hs, live := Helds(), pool.live.Keys;
      slots[i].FreeStorage();
      forall k | 0 <= k < |slots| && k != i
        ensures slots[k].Owning() && slots[k].Meaning() == old(slots[k].Meaning())
      {
        HeldApart(hs, live, i, k);
        assert slots[k].storageTgt != Null ==> slots[k].storageTgt in old(slots[k].Held());
        assert slots[k].storageDft != Null ==> slots[k].storageDft in old(slots[k].Held());
      }
    }

    /** A checkpoint is destroyed, wherever it stands; those behind it close up. */
    method DestroyOne(i: nat)
      requires Valid() && i < |slots|
      modifies this, pool
      ensures Valid() && slots == Without(old(slots), i) && Values() == Apply(old(Values()), Destroy(i))
    {
      hide Partition;
      ghost var hs, live := Helds(), pool.live.Keys;
      HolderGone(hs, live, i);
      FreeAt(i);
      hide Checkpoint.Owning, Checkpoint.Meaning, Checkpoint.Held, Pool.Valid, Without;
      slots := Without(slots, i);
      assert Helds() == Without(hs, i);
      assert Values() == Without(old(Values()), i);
    }

    /** The operations that change a checkpoint in place. */
    method Change(op: Op)
      requires Valid() && !op.New? && !op.CopyOf? && !op.MoveOf? && !op.Destroy?
      modifies pool, slots
      ensures Valid() && slots == old(slots) && Values() == Apply(old(Values()), op)
    {
      hide Partition, Captured, Emptied;
      match op {
        case Assign(i, j) => if i < |slots| && j < |slots| { AssignOne(i, j); }
        case MoveInto(i, j) => if i < |slots| && j < |slots| { MoveIntoOne(i, j); }
        case ClearIt(i) => if i < |slots| { ClearOne(i); }
        case SetPos(i, n, lo, hi) => if i < |slots| { PosOne(i, n, lo, hi); }
        case CaptureTgt(i, ctx, onDevice) => if i < |slots| { CaptureOne(i, ctx, onDevice, true); }
        case CaptureDft(i, ctx, onDevice) => if i < |slots| { CaptureOne(i, ctx, onDevice, false); }
        case DropTgt(i) => if i < |slots| { DropTgtOne(i); }
        case DropDft(i) => if i < |slots| { DropDftOne(i); }
        case _ =>
      }
    }

    method Perform(op: Op)
      requires Valid()
      modifies this, pool, slots
      ensures Valid() && Values() == Apply(old(Values()), op)
      ensures forall i :: 0 <= i < |slots| ==> slots[i] in old(slots) || fresh(slots[i])
    {
      hide Partition, Captured, Emptied;
      match op {
        case New => NewOne();
        case CopyOf(i) => if i < |slots| { CopyOne(i); }
        case MoveOf(i) => if i < |slots| { MoveOne(i); }
        case Destroy(i) => if i < |slots| { DestroyOne(i); }
        case _ => Change(op);
      }
    }

    /** Any program keeps the handles in order and computes what it computes on plain values. */
    method PerformAll(ops: seq<Op>)
      requires Valid()
      modifies this, pool, slots
      ensures Valid() && Values() == ApplyAll(old(Values()), ops)
    {
      hide Apply, Partition;
      ghost var goal := ApplyAll(Values(), ops);
      var k := 0;
      assert ops[0..] == ops;
      while k < |ops|
        invariant k <= |ops| && Valid()
        invariant forall i :: 0 <= i < |slots| ==> slots[i] in old(slots) || fresh(slots[i])
        invariant goal == ApplyAll(Values(), ops[k..])
      {
        Perform(ops[k]);
        assert ops[k..][1..] == ops[k + 1..];
        k := k + 1;
      }
    }

    /** When all checkpoints are gone, so is every handle. */
    lemma NothingLeaks()
      requires Valid() && slots == []
      ensures pool.live == map[]
    {
      NoHolders(pool.live.Keys);
      assert pool.live.Keys == {};
    }
  }

  /** Whether an operation names checkpoint `k` as something it changes. */
  predicate Touches(op: Op, k: nat) {
    match op
    case New => false
    case CopyOf(_) => false
    case MoveOf(i) => i == k
    case Assign(i, _) => i == k
    case MoveInto(i, j) => i == k || j == k
    case ClearIt(i) => i == k
    case SetPos(i, _, _, _) => i == k
    case CaptureTgt(i, _, _) => i == k
    case CaptureDft(i, _, _) => i == k
    case DropTgt(i) => i == k
    case DropDft(i) => i == k
    case Destroy(i) => i == k
  }

  /** Where checkpoint `k` stands after the program; none if an operation names it. */
  function Place(ops: seq<Op>, k: nat): Option<nat>
    decreases |ops|
  {
    if ops == [] then Some(k)
    else if Touches(ops[0], k) then None
    else Place(ops[1..], Moved(ops[0], k))
  }

  function Moved(op: Op, k: nat): nat { if op.Destroy? && op.i < k then k - 1 else k }

  lemma UntouchedStep(vs: seq<Value>, op: Op, k: nat)
    requires k < |vs| && !Touches(op, k)
    ensures Moved(op, k) < |Apply(vs, op)| && Apply(vs, op)[Moved(op, k)] == vs[k]
  {
    hide Without, Captured, Emptied;
  }

  /**
   A checkpoint nothing names keeps its value, whichever others go: a copy does not change with its
   original, nor the original with it.
   */
  lemma {:induction false} UntouchedKeeps(vs: seq<Value>, ops: seq<Op>, k: nat)
    requires k < |vs| && Place(ops, k).Some?
    ensures var p := Place(ops, k).value; p < |ApplyAll(vs, ops)| && ApplyAll(vs, ops)[p] == vs[k]
    decreases |ops|
  {
    hide Apply, Touches, Moved;
    if ops == [] {
    } else {
      UntouchedStep(vs, ops[0], k);
      UntouchedKeeps(Apply(vs, ops[0]), ops[1..], Moved(ops[0], k));
    }
  }

  lemma HeldLive(hs: seq<set<Handle>>, live: set<Handle>, j: nat)
    requires Partition(hs, live) && j < |hs|
    ensures hs[j] <= live
  {}

  lemma HeldApart(hs: seq<set<Handle>>, live: set<Handle>, i: nat, j: nat)
    requires Partition(hs, live) && i < |hs| && j < |hs| && i != j
    ensures hs[i] !! hs[j] && hs[j] <= live
  {
    assert i < j ==> hs[i] !! hs[j];
    assert j < i ==> hs[j] !! hs[i];
  }
}
