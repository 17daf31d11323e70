/**
 `server/sync.Map` as a transition system. Every atomic load, store and
 compare-and-swap, and every lock-protected update that another thread could
 notice, is one step; each thread has its own program counter. `Exec` follows
 the source branch by branch.
 */
module ConcurrentMap {
  import opened Wrappers
  import opened PlainMap

  type Tid = nat
  type EntryId = nat

  /** `entry.p`: nil, the expunged marker, or the address of a value of its own. */
  datatype Ptr = Nil | Expunged | At(addr: nat, v: Value)

  /** An entry; `key` is a history field naming the key it was made for. */
  datatype Entry = Entry(key: Key, p: Ptr)

  /** Which of its three call sites `tryLoadOrStore`/`tryLoadOrCreate` was entered from. */
  datatype Mode = Fast | LockedRead | LockedDirty

  datatype PC =
    | ReadSnap                                                // read, _ := m.read.Load(), lock not held
    | LoadEntry(e: EntryId)                                   // e.load()
    | StoreLoad(e: EntryId)                                   // tryStore: p := LoadPointer
    | StoreCas(e: EntryId, p: Ptr)                            // tryStore: CAS(p, i)
    | TryLoad(e: EntryId, mode: Mode)                         // tryLoadOrStore: first LoadPointer
    | TryCas(e: EntryId, val: Value, mode: Mode)              // tryLoadOrStore: CAS(nil, &ic)
    | TryReload(e: EntryId, val: Value, mode: Mode)           // tryLoadOrStore: LoadPointer after a lost CAS
    | DeleteLoad(e: EntryId)                                  // delete: LoadPointer
    | DeleteCas(e: EntryId, p: Ptr)                           // delete: CAS(p, nil)
    | Lock                                                    // m.mu.Lock()
    | ReadLocked                                              // second look at read (and at dirty), lock held
    | Unexpunge(e: EntryId)                                   // unexpungeLocked: CAS(expunged, nil)
    | AddDirty(e: EntryId)                                    // m.dirty[key] = e
    | LockedStore(e: EntryId)                                 // storeLocked
    | CopyInit                                                // dirtyLocked: nil check and make
    | CopyPick(todo: set<Key>)                                // dirtyLocked: next key of the range loop
    | CopyLoad(todo: set<Key>, k: Key)                        // tryExpungeLocked: LoadPointer
    | CopyCas(todo: set<Key>, k: Key)                         // tryExpungeLocked: CAS(nil, expunged)
    | Amend                                                   // m.read.Store(readOnly{m: read.m, amended: true})
    | Insert                                                  // m.dirty[key] = newEntry(value)
    | Miss(next: PC)                                          // missLocked
    | Unlock(next: PC)                                        // m.mu.Unlock()
    | Iterate(left: map<Key, EntryId>)                        // Range's loop
    | Return(r: Result)
    | Panicked                                                // assignment to an entry of a nil map

  /** A pending operation. `lin` is a history field: the result, once the operation has taken effect. */
  datatype Thread = Thread(op: Op, pc: PC, lin: Option<Result>)

  datatype State = State(
    ents: seq<Entry>, read: map<Key, EntryId>, amended: bool, dirty: Option<map<Key, EntryId>>,
    misses: nat, lock: Option<Tid>, threads: map<Tid, Thread>, alloc: nat)

  /**
   What the scheduler and `createFn` decide: the key a map iteration yields, the
   value made, whether Range's callback stops.
   */
  datatype Choice = Choice(key: Key, val: Value, stop: bool)

  datatype Action = Invoke(t: Tid, op: Op) | Tau(t: Tid, c: Choice) | Respond(t: Tid, r: Result)

  predicate Init(s: State) {
    s.ents == [] && s.read == map[] && !s.amended && s.dirty == None && s.misses == 0 && s.lock == None &&
      s.threads == map[]
  }

  function DirtyMap(s: State): map<Key, EntryId> {
    if s.dirty.Some? then s.dirty.value else map[]
  }

  function P(s: State, e: EntryId): Ptr {
    if e < |s.ents| then s.ents[e].p else Nil
  }

  function SetP(s: State, e: EntryId, p: Ptr): State {
    if e < |s.ents| then s.(ents := s.ents[e := s.ents[e].(p := p)]) else s
  }

  function Goto(s: State, t: Tid, pc: PC): State
    requires t in s.threads
  {
    s.(threads := s.threads[t := s.threads[t].(pc := pc)])
  }

  /** Goto that also records the operation's effect, unless it took effect before. */
  function Commit(s: State, t: Tid, pc: PC, r: Result): State
    requires t in s.threads
  {
    var th := s.threads[t];
    s.(threads := s.threads[t := Thread(th.op, pc, if th.lin.Some? then th.lin else Some(r))])
  }

  function OfferedBy(src: Source, c: Choice): Value {
    if src.Given? then src.v else c.val
  }

  /** What Store and LoadOr do with an entry found in `read` under the lock, once it is not expunged. */
  function Locked(op: Op, e: EntryId): PC {
    if op.Store? then LockedStore(e) else TryLoad(e, LockedRead)
  }

  /** The same for an entry that only `dirty` holds. */
  function LockedInDirty(op: Op, e: EntryId): PC {
    if op.Store? then LockedStore(e) else TryLoad(e, LockedDirty)
  }

  /** Where `tryLoadOrStore` returns to when its `ok` is true, or ignored. */
  function Finish(mode: Mode, r: Result): PC {
    match mode
    case Fast => Return(r)
    case LockedRead => Unlock(Return(r))
    case LockedDirty => Miss(Return(r))
  }

  function FailExpunged(mode: Mode): PC {
    if mode.Fast? then Lock else Finish(mode, NilFalse)
  }

  /** map.go:103-106, 137-141, 200-208, 269-272, 319-325 and create.go:11-18. */
  function ExecReadSnap(s: State, t: Tid): State
    requires t in s.threads
  {
    var op := s.threads[t].op;
    match op
    case Range => Goto(s, t, if s.amended then Lock else Iterate(s.read))
    case Load(k) =>
      Goto(s, t, if k in s.read then LoadEntry(s.read[k]) else if s.amended then Lock else Return(Absent))
    case Store(k, _) => Goto(s, t, if k in s.read then StoreLoad(s.read[k]) else Lock)
    case LoadOr(k, _) => Goto(s, t, if k in s.read then TryLoad(s.read[k], Fast) else Lock)
    case LoadAndDelete(k) =>
      Goto(s, t, if k in s.read then DeleteLoad(s.read[k]) else if s.amended then Lock else Return(Absent))
  }

  /** map.go:111-119, 144-161, 211-226, 274-283, 331-337 and create.go:21-34. */
  function ExecReadLocked(s: State, t: Tid): State
    requires t in s.threads
  {
    var op := s.threads[t].op;
    var dirty := DirtyMap(s);
    match op
    case Range =>
      if s.amended then Goto(Promote(s), t, Unlock(Iterate(dirty))) else Goto(s, t, Unlock(Iterate(s.read)))
    case Load(k) =>
      Goto(s, t,
           if k in s.read then Unlock(LoadEntry(s.read[k]))
           else if !s.amended then Unlock(Return(Absent))
           else Miss(if k in dirty then LoadEntry(dirty[k]) else Return(Absent)))
    case LoadAndDelete(k) =>
      if k in s.read then Goto(s, t, Unlock(DeleteLoad(s.read[k])))
      else if !s.amended then Goto(s, t, Unlock(Return(Absent)))
      else if k !in dirty then Goto(s, t, Miss(Return(Absent)))
      else
        var e := dirty[k];
        var s' := s.(dirty := Some(dirty - {k}));
        if P(s, e).At? then Commit(s', t, Miss(DeleteLoad(e)), Present(P(s, e).v))
        else Goto(s', t, Miss(DeleteLoad(e)))
    case _ =>
      var k := op.key;
      Goto(s, t,
           if k in s.read then Unexpunge(s.read[k])
           else if k in dirty then LockedInDirty(op, dirty[k])
           else if !s.amended then CopyInit else Insert)
  }

  function Promote(s: State): State {
    s.(read := DirtyMap(s), amended := false, dirty := None, misses := 0)
  }

  /** map.go:352-360. */
  function ExecMiss(s: State, t: Tid, next: PC): State
    requires t in s.threads
  {
    if s.misses + 1 < |DirtyMap(s)| then Goto(s.(misses := s.misses + 1), t, Unlock(next))
    else Goto(Promote(s), t, Unlock(next))
  }

  /** map.go:362-385, and the two lines after the call of dirtyLocked. */
  function ExecCopy(s: State, t: Tid, c: Choice): State
    requires t in s.threads
  {
    match s.threads[t].pc
    case CopyInit =>
      if s.dirty.Some? then Goto(s, t, Amend) else Goto(s.(dirty := Some(map[])), t, CopyPick(s.read.Keys))
    case CopyPick(todo) =>
      if todo == {} then Goto(s, t, Amend)
      else if c.key in todo then Goto(s, t, CopyLoad(todo, c.key)) else s
    case CopyLoad(todo, k) =>
      if k !in s.read then s
      else
        var e := s.read[k];
        if P(s, e).Nil? then Goto(s, t, CopyCas(todo, k))
        else if P(s, e).Expunged? then Goto(s, t, CopyPick(todo - {k}))
        else Goto(s.(dirty := Some(DirtyMap(s)[k := e])), t, CopyPick(todo - {k}))
    case CopyCas(todo, k) =>
      if k !in s.read then s
      else if P(s, s.read[k]).Nil? then Goto(SetP(s, s.read[k], Expunged), t, CopyPick(todo - {k}))
      else Goto(s, t, CopyLoad(todo, k))
    case Amend => Goto(s.(amended := true), t, Insert)
    case _ => s
  }

  /** map.go:161, 227-228 and create.go:35-37: a new entry for a key in neither map. */
  function ExecInsert(s: State, t: Tid, c: Choice): State
    requires t in s.threads
  {
    var op := s.threads[t].op;
    if s.dirty.None? then Goto(s, t, Panicked)
    else if !op.Store? && !op.LoadOr? then s
    else
      var v := if op.Store? then op.v else OfferedBy(op.src, c);
      var r := if op.Store? then Done else Stored(v);
      var s' := s.(ents := s.ents + [Entry(op.key, At(s.alloc, v))], alloc := s.alloc + 1,
                   dirty := Some(s.dirty.value[op.key := |s.ents|]));
      Commit(s', t, Unlock(Return(r)), r)
  }

  /** The entry methods: map.go:128-134, 170-195, 240-265, 297-307 and create.go:44-66. */
  function ExecEntry(s: State, t: Tid, c: Choice): State
    requires t in s.threads
  {
    var op := s.threads[t].op;
    match s.threads[t].pc
    case LoadEntry(e) => Goto(s, t, Return(if P(s, e).At? then Present(P(s, e).v) else Absent))
    case StoreLoad(e) => Goto(s, t, if P(s, e).Expunged? then Lock else StoreCas(e, P(s, e)))
    case StoreCas(e, p) =>
      if !op.Store? then s
      else if P(s, e) == p then Commit(SetP(s, e, At(s.alloc, op.v)).(alloc := s.alloc + 1), t, Return(Done), Done)
      else Goto(s, t, StoreLoad(e))
    case TryLoad(e, mode) =>
      if !op.LoadOr? then s
      else Goto(s, t,
                match P(s, e)
                case Expunged => FailExpunged(mode)
                case At(_, v) => Finish(mode, Loaded(v))
                case Nil => TryCas(e, OfferedBy(op.src, c), mode))
    case TryCas(e, val, mode) =>
      if P(s, e).Nil?
      then Commit(SetP(s, e, At(s.alloc, val)).(alloc := s.alloc + 1), t, Finish(mode, Stored(val)), Stored(val))
      else Goto(s, t, TryReload(e, val, mode))
    case TryReload(e, val, mode) =>
      Goto(s, t,
           match P(s, e)
           case Expunged => FailExpunged(mode)
           case At(_, v) => Finish(mode, Loaded(v))
           case Nil => TryCas(e, val, mode))
    case DeleteLoad(e) =>
      Goto(s, t, if P(s, e).At? then DeleteCas(e, P(s, e)) else Return(Absent))
    case DeleteCas(e, p) =>
      if P(s, e) == p && p.At? then Commit(SetP(s, e, Nil), t, Return(Present(p.v)), Present(p.v))
      else Goto(s, t, DeleteLoad(e))
    case Unexpunge(e) =>
      if P(s, e).Expunged? then Goto(SetP(s, e, Nil), t, AddDirty(e)) else Goto(s, t, Locked(op, e))
    case AddDirty(e) =>
      if s.dirty.None? then Goto(s, t, Panicked)
      else if op.Range? then s
      else Goto(s.(dirty := Some(s.dirty.value[op.key := e])), t, Locked(op, e))
    case LockedStore(e) =>
      if !op.Store? then s
      else Commit(SetP(s, e, At(s.alloc, op.v)).(alloc := s.alloc + 1), t, Unlock(Return(Done)), Done)
    case _ => s
  }

  /** One atomic step of thread `t`. */
  function Exec(s: State, t: Tid, c: Choice): State
    requires t in s.threads
  {
    match s.threads[t].pc
    case ReadSnap => ExecReadSnap(s, t)
    case Lock => Goto(s.(lock := Some(t)), t, ReadLocked)
    case ReadLocked => ExecReadLocked(s, t)
    case CopyInit => ExecCopy(s, t, c)
    case CopyPick(_) => ExecCopy(s, t, c)
    case CopyLoad(_, _) => ExecCopy(s, t, c)
    case CopyCas(_, _) => ExecCopy(s, t, c)
    case Amend => ExecCopy(s, t, c)
    case Insert => ExecInsert(s, t, c)
    case Miss(next) => ExecMiss(s, t, next)
    case Unlock(next) => Goto(s.(lock := None), t, next)
    case Iterate(left) =>
      if left == map[] || (c.key in left && P(s, left[c.key]).At? && c.stop) then Goto(s, t, Return(Done))
      else Goto(s, t, Iterate(left - {c.key}))
    case Return(_) => s
    case Panicked => s
    case _ => ExecEntry(s, t, c)
  }

  /** A thread waits at the mutex; everywhere else it can move. */
  predicate Enabled(s: State, t: Tid) {
    t in s.threads && (s.threads[t].pc.Lock? ==> s.lock == None)
  }

  predicate Next(s: State, a: Action, s': State) {
    match a
    case Invoke(t, op) => t !in s.threads && s' == s.(threads := s.threads[t := Thread(op, ReadSnap, None)])
    case Tau(t, c) => Enabled(s, t) && s' == Exec(s, t, c)
    case Respond(t, r) => t in s.threads && s.threads[t].pc == Return(r) && s' == s.(threads := s.threads - {t})
  }

  predicate NextAt(run: seq<State>, acts: seq<Action>, i: nat)
    requires |run| == |acts| + 1
  {
    i < |acts| ==> Next(run[i], acts[i], run[i + 1])
  }

  ghost predicate IsRun(run: seq<State>, acts: seq<Action>) {
    |run| == |acts| + 1 && Init(run[0]) && forall i: nat :: NextAt(run, acts, i)
  }

  function Val(p: Ptr): Option<Value> {
    if p.At? then Some(p.v) else None
  }

  /** What a plain map would hold at `k`: the live entry of `read`, else that of `dirty`. */
  function AbsAt(s: State, k: Key): Option<Value> {
    if k in s.read then Val(P(s, s.read[k]))
    else if k in DirtyMap(s) then Val(P(s, DirtyMap(s)[k]))
    else None
  }

  function Abs(s: State): map<Key, Value> {
    map k | k in s.read.Keys + DirtyMap(s).Keys && AbsAt(s, k).Some? :: AbsAt(s, k).value
  }
}
