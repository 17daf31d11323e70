/**
 The plain map that `server/sync.Map` speeds up: what each operation returns and
 how it changes the contents. Both the sequential class and the step model of
 the concurrent map are proved against this module.
 */
module PlainMap {
  import opened Wrappers

  type Key(==, !new)
  type Value(==, !new)

  /** What LoadOrStore stores (a value given by the caller) or what LoadOrCreate stores (whatever `createFn` makes). */
  datatype Source = Given(v: Value) | Created

  datatype Op =
    | Load(key: Key)
    | Store(key: Key, v: Value)
    | LoadOr(key: Key, src: Source)
    | LoadAndDelete(key: Key)
    | Range

  datatype Result =
    | Absent             // (nil, false) of Load and LoadAndDelete
    | Present(v: Value)  // (v, true) of Load and LoadAndDelete
    | Loaded(v: Value)   // (v, true) of LoadOrStore and LoadOrCreate
    | Stored(v: Value)   // (v, false) of LoadOrStore and LoadOrCreate
    | NilFalse           // (nil, false) of LoadOrStore and LoadOrCreate: the retry result whose `ok` is ignored
    | Done               // Store and Range

  function Lookup<K, V>(m: map<K, V>, k: K): Option<V> {
    if k in m then Some(m[k]) else None
  }

  predicate Offers(src: Source, v: Value) {
    src.Created? || src.v == v
  }

  /** `op` run on the plain map `m` returns `r` and leaves `m'`. */
  predicate Apply(op: Op, m: map<Key, Value>, m': map<Key, Value>, r: Result) {
    match op
    case Load(k) => m' == m && r == (if k in m then Present(m[k]) else Absent)
    case Store(k, v) => m' == m[k := v] && r == Done
    case LoadOr(k, src) =>
      if k in m then m' == m && r == Loaded(m[k])
      else r.Stored? && Offers(src, r.v) && m' == m[k := r.v]
    case LoadAndDelete(k) => m' == m - {k} && r == (if k in m then Present(m[k]) else Absent)
    case Range => m' == m && r == Done
  }

  /** The result `r` of `op` is one that leaves the map as it is. */
  predicate ReadOnly(op: Op, r: Result) {
    match op
    case Load(_) => r.Absent? || r.Present?
    case Store(_, _) => false
    case LoadOr(_, _) => r.Loaded?
    case LoadAndDelete(_) => r.Absent?
    case Range => r.Done?
  }
}
