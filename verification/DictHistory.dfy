/** Any history of dictionary operations, resizes and rehash steps is a history of one finite map. */
module DictHistory {
  import opened Wrappers
  import Words
  import opened DictModel

  datatype Op<+V> =
    | Add(key: Key, val: V, canResize: bool)
    | Replace(key: Key, val: V, canResize: bool)
    | Delete(key: Key)
    | Find(key: Key)
    | Expand(size: nat)
    | Resize(canResize: bool)
    | Rehash(steps: nat)
    | IteratorStarted
    | IteratorReleased

  ghost predicate Represents<V>(s: State<V>, m: map<Key, V>) {
    && Inv(s) && Size(s) == |m|
    && (forall k: Key :: Get(s, k) == MapGet(m, k))
  }

  function MapGet<V>(m: map<Key, V>, k: Key): Option<V> {
    if k in m then Some(m[k]) else None
  }

  /** A dictionary that stays this small never reaches the LONG_MAX cap of _dictNextPower. */
  predicate RoomFor<V>(s: State<V>, ops: nat) {
    2 * (Size(s) + ops) < LONG_MAX
  }

  ghost function Step<V>(s: State<V>, op: Op<V>): State<V>
    requires Inv(s) && RoomFor(s, 0)
  {
    match op
    case Add(k, v, canResize) => DictModel.Add(s, k, v, canResize)
    case Replace(k, v, canResize) => DictModel.Replace(s, k, v, canResize)
    case Delete(k) => DictModel.Delete(s, k)
    case Find(k) => DictModel.Find(s)
    case Expand(size) =>
      if size < LONG_MAX && DictModel.Expand(s, size).Some? then DictModel.Expand(s, size).value else s
    case Resize(canResize) =>
      if DictModel.Resize(s, canResize).Some? then DictModel.Resize(s, canResize).value else s
    case Rehash(n) => DictModel.Rehash(s, n)
    case IteratorStarted => s.(iterators := s.iterators + 1)
    case IteratorReleased => if s.iterators > 0 then s.(iterators := s.iterators - 1) else s
  }

  function MapStep<V>(m: map<Key, V>, op: Op<V>): map<Key, V> {
    match op
    case Add(k, v, _) => if k in m then m else m[k := v]
    case Replace(k, v, _) => m[k := v]
    case Delete(k) => m - {k}
    case _ => m
  }

  /** What an operation does to the value r of key q. */
  function After<V>(op: Op<V>, q: Key, r: Option<V>): Option<V> {
    match op
    case Add(k, v, _) => if q == k && r == None then Some(v) else r
    case Replace(k, v, _) => if q == k then Some(v) else r
    case Delete(k) => if q == k then None else r
    case _ => r
  }

  function SizeChange<V>(op: Op<V>, r: Option<V>): int {
    match op
    case Add(_, _, _) => if r == None then 1 else 0
    case Replace(_, _, _) => if r == None then 1 else 0
    case Delete(_) => if r == None then 0 else -1
    case _ => 0
  }

  function Target<V>(op: Op<V>): Key {
    match op
    case Add(k, _, _) => k
    case Replace(k, _, _) => k
    case Delete(k) => k
    case Find(k) => k
    case _ => Key("", Words.Zero())
  }

  predicate MapsNothing<V>(op: Op<V>) {
    !op.Add? && !op.Replace? && !op.Delete?
  }

  /** Operations that leave the map as it is. */
  lemma StepKeepsMap<V>(s: State<V>, op: Op<V>)
    requires Inv(s) && RoomFor(s, 0) && MapsNothing(op)
    ensures SameMap(s, Step(s, op))
  {
    hide Inv, Get;
    match op
    case Find(k) => FindOk(s);
    case Expand(size) => if size < LONG_MAX { ExpandOk(s, size); }
    case Resize(canResize) =>
      ExpandOk(s, if Used(s.t0) < INITIAL_SIZE then INITIAL_SIZE else Used(s.t0));
    case Rehash(n) => RehashOk(s, n);
    case IteratorStarted => Recounted(s, s.iterators + 1);
    case IteratorReleased => Recounted(s, if s.iterators > 0 then s.iterators - 1 else 0);
  }

  lemma StepAt<V>(s: State<V>, op: Op<V>, q: Key)
    requires Inv(s) && RoomFor(s, 0)
    ensures Inv(Step(s, op))
    ensures Get(Step(s, op), q) == After(op, q, Get(s, q))
    ensures Size(Step(s, op)) == Size(s) + SizeChange(op, Get(s, Target(op)))
  {
    hide Inv, Get, Size, RoomFor;
    if MapsNothing(op) {
      StepKeepsMap(s, op);
    } else {
      StepChangesMap(s, op, q);
    }
  }

  lemma StepChangesMap<V>(s: State<V>, op: Op<V>, q: Key)
    requires Inv(s) && RoomFor(s, 0) && !MapsNothing(op)
    ensures Inv(Step(s, op))
    ensures Get(Step(s, op), q) == After(op, q, Get(s, q))
    ensures Size(Step(s, op)) == Size(s) + SizeChange(op, Get(s, Target(op)))
  {
    hide Inv, Get;
    match op
    case Add(k, v, canResize) => AddOk(s, k, v, canResize);
    case Replace(k, v, canResize) => ReplaceOk(s, k, v, canResize);
    case Delete(k) => DeleteOk(s, k);
  }

  /** The count of iterators is no part of the map. */
  lemma Recounted<V>(s: State<V>, n: nat)
    requires Inv(s)
    ensures var s' := s.(iterators := n); Inv(s') && Size(s') == Size(s) && forall q :: Get(s', q) == Get(s, q)
  {
  }

  lemma StepOk<V>(s: State<V>, op: Op<V>)
    requires Inv(s) && RoomFor(s, 0)
    ensures Inv(Step(s, op))
    ensures forall q :: Get(Step(s, op), q) == After(op, q, Get(s, q))
    ensures Size(Step(s, op)) == Size(s) + SizeChange(op, Get(s, Target(op)))
  {
    StepAt(s, op, Target(op));
    forall q
      ensures Get(Step(s, op), q) == After(op, q, Get(s, q))
    {
      StepAt(s, op, q);
    }
  }

  ghost function Run<V>(s: State<V>, ops: seq<Op<V>>): State<V>
    requires Inv(s) && RoomFor(s, |ops|)
    decreases |ops|
  {
    if ops == [] then s else
      StepOk(s, ops[0]);
      Run(Step(s, ops[0]), ops[1..])
  }

  function RunMap<V>(m: map<Key, V>, ops: seq<Op<V>>): map<Key, V>
    decreases |ops|
  {
    if ops == [] then m else RunMap(MapStep(m, ops[0]), ops[1..])
  }

  lemma MapStepAt<V>(m: map<Key, V>, op: Op<V>, q: Key)
    ensures MapGet(MapStep(m, op), q) == After(op, q, MapGet(m, q))
  {
  }

  lemma MapStepSize<V>(m: map<Key, V>, op: Op<V>)
    ensures |MapStep(m, op)| == |m| + SizeChange(op, MapGet(m, Target(op)))
  {
    match op
    case Delete(k) => SizeWithout(m, k);
    case Add(k, v, _) => SizeWith(m, k, v);
    case Replace(k, v, _) => SizeWith(m, k, v);
    case _ =>
  }

  lemma SizeWithout<V>(m: map<Key, V>, k: Key)
    ensures |m - {k}| == |m| - if k in m then 1 else 0
  {
    var m' := m - {k};
    assert k in m ==> m.Keys == m'.Keys + {k};
    assert k !in m ==> m' == m;
    assert |m| == |m.Keys| && |m'| == |m'.Keys|;
  }

  lemma SizeWith<V>(m: map<Key, V>, k: Key, v: V)
    ensures |m[k := v]| == |m| + if k in m then 0 else 1
  {
  }

  lemma MapStepOk<V>(m: map<Key, V>, op: Op<V>)
    ensures forall q :: MapGet(MapStep(m, op), q) == After(op, q, MapGet(m, q))
    ensures |MapStep(m, op)| == |m| + SizeChange(op, MapGet(m, Target(op)))
  {
    MapStepSize(m, op);
    hide MapStep, MapGet, After, SizeChange;
    forall q
      ensures MapGet(MapStep(m, op), q) == After(op, q, MapGet(m, q))
    {
      MapStepAt(m, op, q);
    }
  }

  /** Whatever the interleaving of operations, resizes and rehash steps, looking a key up in the
      two tables is looking it up in the map the operations describe, and dictSize is its size. */
  lemma {:induction false} HistoryRefinesMap<V>(s: State<V>, ops: seq<Op<V>>, m: map<Key, V>)
    requires Represents(s, m) && RoomFor(s, |ops|)
    ensures Represents(Run(s, ops), RunMap(m, ops))
    decreases |ops|
  {
    if ops != [] {
      StepOk(s, ops[0]);
      MapStepOk(m, ops[0]);
      HistoryRefinesMap(Step(s, ops[0]), ops[1..], MapStep(m, ops[0]));
    }
  }
}
