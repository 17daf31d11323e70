/**
 The protocol invariant of the step model, in rely/guarantee style: what holds
 of the shared state, what holds of each thread at each program counter, and
 what one thread's step may do to the others.

 `seen` gives, for a pending operation, the contents its key has had at some
 instant since the call.
 */
module ConcurrentMapInv {
  import opened Wrappers
  import opened PlainMap
  import opened ConcurrentMap

  type Seen = set<Option<Value>>

  ghost predicate InRead(s: State, e: EntryId) {
    e < |s.ents| && s.ents[e].key in s.read && s.read[s.ents[e].key] == e
  }

  ghost predicate InDirty(s: State, e: EntryId) {
    e < |s.ents| && s.ents[e].key in DirtyMap(s) && DirtyMap(s)[s.ents[e].key] == e
  }

  /** The entry is the one a lookup of its key finds. */
  ghost predicate Current(s: State, e: EntryId) {
    InRead(s, e) || InDirty(s, e)
  }

  /** The thread runs between `m.mu.Lock()` and `m.mu.Unlock()`. */
  ghost predicate InCS(pc: PC) {
    match pc
    case TryLoad(_, mode) => !mode.Fast?
    case TryCas(_, _, mode) => !mode.Fast?
    case TryReload(_, _, mode) => !mode.Fast?
    case ReadLocked => true
    case Unexpunge(_) => true
    case AddDirty(_) => true
    case LockedStore(_) => true
    case CopyInit => true
    case CopyPick(_) => true
    case CopyLoad(_, _) => true
    case CopyCas(_, _) => true
    case Amend => true
    case Insert => true
    case Miss(_) => true
    case Unlock(_) => true
    case _ => false
  }

  /** The lock holder's own window: keys of `read` it is about to copy, or has just unexpunged. */
  ghost predicate Exempt(s: State, k: Key) {
    s.lock.Some? && s.lock.value in s.threads &&
    var th := s.threads[s.lock.value];
    match th.pc
    case CopyPick(todo) => k in todo
    case CopyLoad(todo, _) => k in todo
    case CopyCas(todo, _) => k in todo
    case AddDirty(_) => !th.op.Range? && k == th.op.key
    case _ => false
  }

  /** Maps hold entries made for their keys, and shared keys share the entry. */
  ghost predicate MapsOk(s: State) {
    && (forall k :: k in s.read ==> s.read[k] < |s.ents| && s.ents[s.read[k]].key == k)
    && (forall k :: k in DirtyMap(s) ==> DirtyMap(s)[k] < |s.ents| && s.ents[DirtyMap(s)[k]].key == k)
    && (forall k :: k in s.read && k in DirtyMap(s) ==> s.read[k] == DirtyMap(s)[k])
    && (s.amended ==> s.dirty.Some?)
    && (!s.amended ==> DirtyMap(s).Keys <= s.read.Keys)
  }

  /** Outside the window, an entry of `read` is expunged iff its key is missing from a non-nil `dirty`. */
  ghost predicate ExpungedOk(s: State) {
    && (forall k :: k in DirtyMap(s) ==> !P(s, DirtyMap(s)[k]).Expunged?)
    && (forall k :: k in DirtyMap(s) && k !in s.read ==> P(s, DirtyMap(s)[k]).At?)
    && (s.dirty.None? ==> forall k :: k in s.read ==> !P(s, s.read[k]).Expunged?)
    && (s.dirty.Some? ==> forall k :: k in s.read && k !in DirtyMap(s) && !Exempt(s, k) ==> P(s, s.read[k]).Expunged?)
  }

  ghost predicate LockOk(s: State) {
    && (s.lock.Some? ==> s.lock.value in s.threads && InCS(s.threads[s.lock.value].pc))
    && (forall t :: t in s.threads && InCS(s.threads[t].pc) ==> s.lock == Some(t))
  }

  /** A LoadAndDelete that took `e` out of `dirty` and has yet to empty it. */
  ghost predicate Detached(th: Thread, e: EntryId) {
    th.lin.Some? &&
    match th.pc
    case DeleteLoad(x) => x == e
    case DeleteCas(x, _) => x == e
    case Miss(DeleteLoad(x)) => x == e
    case Unlock(DeleteLoad(x)) => x == e
    case _ => false
  }

  ghost predicate OneOwner(s: State) {
    forall t, u, e: EntryId ::
      t in s.threads && u in s.threads && Detached(s.threads[t], e) && Detached(s.threads[u], e) ==> t == u
  }

  ghost predicate Shared(s: State) {
    MapsOk(s) && ExpungedOk(s) && LockOk(s) && OneOwner(s)
  }

  ghost predicate ForKey(s: State, th: Thread, e: EntryId) {
    e < |s.ents| && !th.op.Range? && s.ents[e].key == th.op.key
  }

  /** An entry found in some `read` snapshot: still in `read`, or expunged for good and the key was absent meanwhile. */
  ghost predicate FastHeld(s: State, th: Thread, e: EntryId, seen: Seen) {
    ForKey(s, th, e) && th.lin == None &&
    (InRead(s, e) || (P(s, e).Expunged? && None in seen))
  }

  /** An entry the lock holder may store into: in `dirty`, or in `read` while `dirty` is nil. */
  ghost predicate LockHeld(s: State, th: Thread, e: EntryId) {
    ForKey(s, th, e) && th.lin == None &&
    (InDirty(s, e) || (InRead(s, e) && s.dirty.None?))
  }

  ghost predicate TryHeld(s: State, th: Thread, e: EntryId, mode: Mode, seen: Seen) {
    if mode.Fast? then FastHeld(s, th, e, seen) else LockHeld(s, th, e) && (mode.LockedDirty? ==> s.dirty.Some?)
  }

  ghost predicate LoadHeld(s: State, th: Thread, e: EntryId, seen: Seen) {
    ForKey(s, th, e) && th.op.Load? && th.lin == None &&
    Val(P(s, e)) in seen && (Current(s, e) || None in seen)
  }

  ghost predicate DeleteHeld(s: State, th: Thread, e: EntryId, seen: Seen) {
    th.op.LoadAndDelete? && ForKey(s, th, e) &&
    if th.lin.None? then FastHeld(s, th, e, seen)
    else !Current(s, e) && P(s, e).At? && th.lin == Some(Present(P(s, e).v))
  }

  /**
   A result may be returned if the operation took effect with it, or if it leaves
   the map alone and was right at some instant.
   */
  ghost predicate ResultOk(th: Thread, r: Result, seen: Seen) {
    th.lin == Some(r) ||
    (th.lin == None && ReadOnly(th.op, r) &&
     match r
     case Absent => None in seen
     case Present(v) => Some(v) in seen
     case Loaded(v) => Some(v) in seen
     case _ => true)
  }

  /** Program counters a thread can have right after unlocking. */
  ghost predicate AfterUnlock(s: State, th: Thread, pc: PC, seen: Seen) {
    match pc
    case LoadEntry(e) => LoadHeld(s, th, e, seen)
    case DeleteLoad(e) => DeleteHeld(s, th, e, seen)
    case Return(r) => ResultOk(th, r, seen)
    case Iterate(_) => th.op.Range? && th.lin == None
    case _ => false
  }

  /** In the middle of making `dirty` out of `read`, for a key in neither. */
  ghost predicate Copying(s: State, th: Thread) {
    (th.op.Store? || th.op.LoadOr?) && th.lin == None && s.dirty.Some? && !s.amended && th.op.key !in s.read
  }

  ghost predicate Todo(s: State, todo: set<Key>) {
    forall k :: k in todo ==> k in s.read && k !in DirtyMap(s) && !P(s, s.read[k]).Expunged?
  }

  ghost predicate ThreadOk(s: State, th: Thread, seen: Seen) {
    match th.pc
    case ReadSnap => th.lin == None
    case LoadEntry(e) => LoadHeld(s, th, e, seen)
    case StoreLoad(e) => th.op.Store? && FastHeld(s, th, e, seen)
    case StoreCas(e, p) => th.op.Store? && FastHeld(s, th, e, seen) && !p.Expunged?
    case TryLoad(e, mode) => th.op.LoadOr? && TryHeld(s, th, e, mode, seen)
    case TryCas(e, v, mode) => th.op.LoadOr? && Offers(th.op.src, v) && TryHeld(s, th, e, mode, seen)
    case TryReload(e, v, mode) => th.op.LoadOr? && Offers(th.op.src, v) && TryHeld(s, th, e, mode, seen)
    case DeleteLoad(e) => DeleteHeld(s, th, e, seen)
    case DeleteCas(e, p) => DeleteHeld(s, th, e, seen) && p.At?
    case Lock => th.lin == None
    case ReadLocked => th.lin == None
    case Unexpunge(e) => (th.op.Store? || th.op.LoadOr?) && th.lin == None && InRead(s, e) && s.ents[e].key == th.op.key
    case AddDirty(e) =>
      (th.op.Store? || th.op.LoadOr?) && th.lin == None && InRead(s, e) && s.ents[e].key == th.op.key &&
      s.dirty.Some? && th.op.key !in DirtyMap(s) && !P(s, e).Expunged?
    case LockedStore(e) => th.op.Store? && LockHeld(s, th, e)
    case CopyInit => (th.op.Store? || th.op.LoadOr?) && th.lin == None && !s.amended && th.op.key !in s.read
    case CopyPick(todo) => Copying(s, th) && Todo(s, todo)
    case CopyLoad(todo, k) => Copying(s, th) && Todo(s, todo) && k in todo
    case CopyCas(todo, k) => Copying(s, th) && Todo(s, todo) && k in todo
    case Amend => Copying(s, th)
    case Insert =>
      (th.op.Store? || th.op.LoadOr?) && th.lin == None && s.dirty.Some? && s.amended &&
      th.op.key !in s.read && th.op.key !in DirtyMap(s)
    case Miss(next) => s.dirty.Some? && AfterUnlock(s, th, next, seen)
    case Unlock(next) => AfterUnlock(s, th, next, seen)
    case Iterate(_) => th.op.Range? && th.lin == None
    case Return(r) => ResultOk(th, r, seen)
    case Panicked => false
  }

  /** Each pending operation's key has its present contents among those seen. */
  ghost predicate SeenOk(s: State, seen: map<Tid, Seen>) {
    seen.Keys == s.threads.Keys &&
    forall t :: t in s.threads && !s.threads[t].op.Range? ==> AbsAt(s, s.threads[t].op.key) in seen[t]
  }

  ghost predicate Inv(s: State, seen: map<Tid, Seen>) {
    Shared(s) && SeenOk(s, seen) && forall t :: t in s.threads ==> ThreadOk(s, s.threads[t], seen[t])
  }

  /** What a step of thread `t` guarantees to every other thread. */
  ghost predicate Guarantee(s: State, s': State, t: Tid) {
    && |s.ents| <= |s'.ents|
    && (forall e: EntryId :: e < |s.ents| ==> s'.ents[e].key == s.ents[e].key)
    && (forall e: EntryId :: InRead(s, e) ==> InRead(s', e) || (P(s', e).Expunged? && AbsAt(s', s.ents[e].key) == None))
    && (forall e: EntryId :: e < |s.ents| && !InRead(s, e) && P(s, e).Expunged? ==>
        !InRead(s', e) && P(s', e).Expunged?)
    && (forall e: EntryId :: Current(s, e) ==> Current(s', e) || AbsAt(s', s.ents[e].key) == None)
    && (forall e: EntryId :: e < |s.ents| && !Current(s, e) ==> !Current(s', e))
    && (forall e: EntryId :: e < |s.ents| && P(s', e) != P(s, e) ==>
          Val(P(s', e)) == AbsAt(s', s.ents[e].key) || Val(P(s', e)) == Val(P(s, e)) ||
            (P(s', e).Nil? && !Current(s, e)))
    && (forall e: EntryId :: e < |s.ents| && !Current(s, e) && P(s', e) != P(s, e) ==>
          t in s.threads && Detached(s.threads[t], e))
    && (s.lock.Some? && s.lock != Some(t) ==>
          s'.read == s.read && s'.dirty == s.dirty && s'.amended == s.amended && s'.lock == s.lock &&
          forall e: EntryId :: e < |s.ents| ==> P(s', e).Expunged? == P(s, e).Expunged?)
  }

  /** A step of `t` changes no other thread, and not what `t` was called for. */
  ghost predicate OnlyMoves(s: State, s': State, t: Tid) {
    t in s.threads && s'.threads.Keys == s.threads.Keys && s'.threads[t].op == s.threads[t].op &&
    forall u :: u in s.threads && u != t ==> s'.threads[u] == s.threads[u]
  }

  /** The one change `op` makes at its own key when it takes effect with result `r`. */
  ghost predicate EffectAt(op: Op, before: Option<Value>, after: Option<Value>, r: Result) {
    match op
    case Store(_, v) => after == Some(v) && r == Done
    case LoadOr(_, src) => before == None && r.Stored? && Offers(src, r.v) && after == Some(r.v)
    case LoadAndDelete(_) => before.Some? && after == None && r == Present(before.value)
    case _ => false
  }

  /** A step is either invisible, or the one effect of the operation that makes it. */
  ghost predicate Effect(s: State, s': State, t: Tid)
    requires OnlyMoves(s, s', t)
  {
    var th, th' := s.threads[t], s'.threads[t];
    if th'.lin == th.lin then forall k :: AbsAt(s', k) == AbsAt(s, k)
    else
      th.lin == None && th'.lin.Some? && !th.op.Range? &&
      (forall k :: k != th.op.key ==> AbsAt(s', k) == AbsAt(s, k)) &&
      EffectAt(th.op, AbsAt(s, th.op.key), AbsAt(s', th.op.key), th'.lin.value)
  }

  ghost function Extend(s: State, th: Thread, seen: Seen): Seen {
    if th.op.Range? then seen else seen + {AbsAt(s, th.op.key)}
  }

  /**
   A step of `t` takes the lock when it is free, gives it up, or leaves it; `t` is
   in its critical section iff it has it.
   */
  ghost predicate LockStep(s: State, s': State, t: Tid)
    requires t in s'.threads
  {
    && (s'.lock == s.lock || (s.lock == None && s'.lock == Some(t)) || (s.lock == Some(t) && s'.lock == None))
    && (InCS(s'.threads[t].pc) <==> s'.lock == Some(t))
  }

  /** An entry is detached by taking it out of the maps. */
  ghost predicate DetachStep(s: State, s': State, t: Tid)
    requires t in s.threads && t in s'.threads
  {
    forall e: EntryId :: Detached(s'.threads[t], e) ==> Detached(s.threads[t], e) || Current(s, e)
  }

  /** What a step of `t` starts from. */
  ghost predicate StepPre(s: State, t: Tid, seen: Seen) {
    MapsOk(s) && ExpungedOk(s) && Enabled(s, t) && ThreadOk(s, s.threads[t], seen) &&
    (InCS(s.threads[t].pc) <==> s.lock == Some(t)) &&
    (!s.threads[t].op.Range? ==> AbsAt(s, s.threads[t].op.key) in seen)
  }

  /** Everything a step establishes, but for the other threads, whom `Guarantee` serves. */
  ghost predicate StepOk(s: State, s': State, t: Tid, seen: Seen) {
    && OnlyMoves(s, s', t) && LockStep(s, s', t) && DetachStep(s, s', t)
    && MapsOk(s') && ExpungedOk(s') && Guarantee(s, s', t) && Effect(s, s', t)
    && ThreadOk(s', s'.threads[t], Extend(s', s'.threads[t], seen)) == true // one fact, not one per program counter
  }
}
