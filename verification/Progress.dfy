/**
 Progress of the concurrent map. An operation that runs without interference
 returns after a bounded number of its own steps, with the result and the
 contents of a plain map; and no state of a run is a deadlock.
 */
module Progress {
  import opened Wrappers
  import opened PlainMap
  import opened ConcurrentMap
  import opened ConcurrentMapInv
  import opened ConcurrentMapSteps
  import opened Linearizability

  /** A map iteration yields keys it has not yielded yet. */
  predicate Fits(pc: PC, c: Choice) {
    match pc
    case CopyPick(todo) => todo != {} ==> c.key in todo
    case Iterate(left) => left != map[] ==> c.key in left
    case _ => true
  }

  /** No other thread has the lock. */
  predicate Free(s: State, t: Tid) {
    s.lock == None || s.lock == Some(t)
  }

  /** Steps that suffice from `m.mu.Lock()` on. */
  function LockedSteps(s: State): nat {
    8 + 3 * |s.read| + |DirtyMap(s)|
  }

  /** How many steps of its own suffice for a thread at `pc`, if nobody interferes. */
  function Steps(s: State, pc: PC): nat {
    match pc
    case Return(_) => 0
    case Panicked => 0
    case ReadSnap => LockedSteps(s) + 2
    case LoadEntry(_) => 1
    case StoreLoad(e) => if P(s, e).Expunged? then LockedSteps(s) + 1 else 2
    case StoreCas(e, p) => if P(s, e) == p then 1 else if P(s, e).Expunged? then LockedSteps(s) + 2 else 3
    case TryLoad(e, mode) => if mode.Fast? && P(s, e).Expunged? then LockedSteps(s) + 1 else 4
    case TryCas(e, _, mode) =>
      if P(s, e).Nil? then 3 else if mode.Fast? && P(s, e).Expunged? then LockedSteps(s) + 2 else 5
    case TryReload(e, _, mode) => if mode.Fast? && P(s, e).Expunged? then LockedSteps(s) + 1 else 4
    case DeleteLoad(e) => if P(s, e).At? then 2 else 1
    case DeleteCas(e, p) => if P(s, e) == p then 1 else 3
    case Lock => LockedSteps(s)
    case ReadLocked => LockedSteps(s) - 1
    case Unexpunge(_) => 6
    case AddDirty(_) => 5
    case LockedStore(_) => 2
    case CopyInit => 5 + 3 * |s.read|
    case CopyPick(todo) => 4 + 3 * |todo|
    case CopyLoad(todo, k) => if k in s.read && P(s, s.read[k]).Nil? then 3 + 3 * |todo| else 2 + 3 * |todo|
    case CopyCas(todo, k) => if k in s.read && P(s, s.read[k]).Nil? then 2 + 3 * |todo| else 3 + 3 * |todo|
    case Amend => 3
    case Insert => 2
    case Miss(next) => 2 + Steps(s, next)
    case Unlock(next) => 1 + Steps(s, next)
    case Iterate(left) => 1 + |left|
  }

  lemma OneKeyLess(left: map<Key, EntryId>, k: Key)
    requires k in left
    ensures |left - {k}| == |left| - 1
  {
    assert (left - {k}).Keys == left.Keys - {k};
    assert |left.Keys| == |left| && |(left - {k}).Keys| == |left - {k}|;
  }

  /** The thread is nearer to its return in `s'`. */
  ghost predicate Nearer(s: State, s': State, t: Tid) {
    t in s.threads && t in s'.threads && Steps(s', s'.threads[t].pc) < Steps(s, s.threads[t].pc)
  }

  /** The count depends on the entries and the maps alone. */
  lemma {:induction false} SameSteps(s: State, s': State, pc: PC)
    requires s'.ents == s.ents && s'.read == s.read && s'.dirty == s.dirty
    ensures Steps(s', pc) == Steps(s, pc)
    decreases pc
  {
    if pc.Miss? || pc.Unlock? { SameSteps(s, s', pc.next); }
  }

  lemma Moves(s: State, s': State, t: Tid)
    requires s'.ents == s.ents && s'.read == s.read && s'.dirty == s.dirty
    requires t in s.threads && t in s'.threads && Steps(s, s'.threads[t].pc) < Steps(s, s.threads[t].pc)
    ensures Nearer(s, s', t)
  {
    hide Steps;
    SameSteps(s, s', s'.threads[t].pc);
  }

  /** Where the lock-free look at `read` can lead. */
  lemma AfterSnap(s: State, pc: PC)
    requires pc.Lock? || pc.Return? || pc.LoadEntry? || pc.StoreLoad? || pc.TryLoad? || pc.DeleteLoad? ||
             pc == Iterate(s.read)
    ensures Steps(s, pc) < Steps(s, ReadSnap)
  {
  }

  lemma SnapFalls(s: State, t: Tid, c: Choice)
    requires t in s.threads && s.threads[t].pc.ReadSnap?
    ensures Nearer(s, Exec(s, t, c), t)
  {
    hide Nearer, Steps;
    var s' := Exec(s, t, c);
    AfterSnap(s, s'.threads[t].pc);
    Moves(s, s', t);
  }

  /** Where the look under the lock can lead. */
  lemma AfterLook(s: State, s': State, pc: PC)
    requires
      match pc
      case Unlock(next) =>
        next.LoadEntry? || next.DeleteLoad? || next.Return? || next == Iterate(s.read) || next == Iterate(DirtyMap(s))
      case Miss(next) => next.LoadEntry? || next.DeleteLoad? || next.Return?
      case TryLoad(_, mode) => !mode.Fast?
      case CopyInit => s'.read == s.read
      case _ => pc.Unexpunge? || pc.LockedStore? || pc.Insert?
    ensures Steps(s', pc) < Steps(s, ReadLocked)
  {
    hide P;
  }

  lemma LookFalls(s: State, t: Tid, c: Choice)
    requires t in s.threads && s.threads[t].pc.ReadLocked?
    ensures Nearer(s, Exec(s, t, c), t)
  {
    hide Steps;
    var s' := Exec(s, t, c);
    AfterLook(s, s', s'.threads[t].pc);
  }

  lemma Finishes(s: State, mode: Mode, r: Result)
    ensures Steps(s, Finish(mode, r)) <= 2
  {
  }

  lemma TryLoadFalls(s: State, t: Tid, c: Choice)
    requires t in s.threads && s.threads[t].op.LoadOr? && (s.threads[t].pc.TryLoad? || s.threads[t].pc.TryReload?)
    ensures Nearer(s, Exec(s, t, c), t)
  {
    var pc := s.threads[t].pc;
    Finishes(s, pc.mode, NilFalse);
    if P(s, pc.e).At? { Finishes(s, pc.mode, Loaded(P(s, pc.e).v)); }
    assert Steps(s, Exec(s, t, c).threads[t].pc) < Steps(s, pc);
    hide Steps, Nearer;
    Moves(s, Exec(s, t, c), t);
  }

  lemma TryCasFalls(s: State, t: Tid, c: Choice)
    requires t in s.threads && s.threads[t].pc.TryCas?
    ensures Nearer(s, Exec(s, t, c), t)
  {
    var pc := s.threads[t].pc;
    if P(s, pc.e).Nil? {
      assert Steps(s, pc) == 3;
      Finishes(Exec(s, t, c), pc.mode, Stored(pc.val));
      hide Steps;
    } else {
      assert Steps(s, TryReload(pc.e, pc.val, pc.mode)) < Steps(s, pc);
      hide Steps, Nearer;
      Moves(s, Exec(s, t, c), t);
    }
  }

  lemma StoreLoadFalls(s: State, t: Tid, c: Choice)
    requires t in s.threads && s.threads[t].pc.StoreLoad?
    ensures Nearer(s, Exec(s, t, c), t)
  {
  }

  lemma StoreCasFalls(s: State, t: Tid, c: Choice)
    requires t in s.threads && s.threads[t].pc.StoreCas? && s.threads[t].op.Store?
    ensures Nearer(s, Exec(s, t, c), t)
  {
  }

  lemma DeleteFalls(s: State, t: Tid, c: Choice)
    requires t in s.threads && (s.threads[t].pc.DeleteLoad? || (s.threads[t].pc.DeleteCas? && s.threads[t].pc.p.At?))
    ensures Nearer(s, Exec(s, t, c), t)
  {
  }

  lemma LockedFinishes(s: State, op: Op, e: EntryId)
    ensures Steps(s, Locked(op, e)) <= 4
    ensures Steps(s, AddDirty(e)) == 5 && Steps(s, Unexpunge(e)) == 6
  {
  }

  /** `unexpungeLocked`, and the assignment to `dirty` behind it. */
  lemma UnexpungeFalls(s: State, t: Tid, c: Choice)
    requires t in s.threads && (s.threads[t].op.Store? || s.threads[t].op.LoadOr?)
    requires s.threads[t].pc.Unexpunge? || (s.threads[t].pc.AddDirty? && s.dirty.Some?)
    ensures Nearer(s, Exec(s, t, c), t)
  {
    hide Steps;
    LockedFinishes(s, s.threads[t].op, s.threads[t].pc.e);
    LockedFinishes(Exec(s, t, c), s.threads[t].op, s.threads[t].pc.e);
  }

  lemma UnlockCost(s: State, r: Result)
    ensures Steps(s, Unlock(Return(r))) == 1
  {
  }

  lemma InsertFalls(s: State, t: Tid, c: Choice)
    requires t in s.threads && (s.threads[t].op.Store? || s.threads[t].op.LoadOr?)
    requires (s.threads[t].pc.LockedStore? && s.threads[t].op.Store?) || (s.threads[t].pc.Insert? && s.dirty.Some?)
    ensures Nearer(s, Exec(s, t, c), t)
  {
    var s' := Exec(s, t, c);
    assert Steps(s, s.threads[t].pc) == 2;
    hide Steps;
    assert s'.threads[t].pc.Unlock? && s'.threads[t].pc.next.Return?;
    UnlockCost(s', s'.threads[t].pc.next.r);
  }

  /** The loop of dirtyLocked takes at most three steps for each key. */
  lemma CopyCosts(s: State, todo: set<Key>, k: Key)
    requires k in todo && k in s.read
    ensures Steps(s, CopyPick(todo)) == 4 + 3 * |todo| && Steps(s, CopyPick(todo - {k})) == 1 + 3 * |todo|
    ensures
      var nil := P(s, s.read[k]).Nil?;
      Steps(s, CopyLoad(todo, k)) == (if nil then 3 else 2) + 3 * |todo| &&
      Steps(s, CopyCas(todo, k)) == (if nil then 2 else 3) + 3 * |todo|
  {
  }

  lemma CopyFalls(s: State, t: Tid, c: Choice)
    requires t in s.threads && Fits(s.threads[t].pc, c)
    requires
      match s.threads[t].pc
      case CopyPick(todo) => todo <= s.read.Keys && todo != {}
      case CopyLoad(todo, k) => k in s.read && k in todo
      case CopyCas(todo, k) => k in s.read && k in todo
      case _ => false
    ensures Nearer(s, Exec(s, t, c), t)
  {
    hide Steps;
    var pc, s' := s.threads[t].pc, Exec(s, t, c);
    var k := if pc.CopyPick? then c.key else pc.k;
    CopyCosts(s, pc.todo, k);
    CopyCosts(s', pc.todo, k);
  }

  lemma MakeFalls(s: State, t: Tid, c: Choice)
    requires t in s.threads
    requires s.threads[t].pc.CopyInit? || s.threads[t].pc.Amend? || s.threads[t].pc == CopyPick({})
    ensures Nearer(s, Exec(s, t, c), t)
  {
    var pc, s' := s.threads[t].pc, Exec(s, t, c);
    MakeCosts(s);
    MakeCosts(s');
    hide Steps, P;
  }

  lemma MakeCosts(s: State)
    ensures Steps(s, CopyInit) == 5 + 3 * |s.read| && Steps(s, CopyPick(s.read.Keys)) == 4 + 3 * |s.read|
    ensures Steps(s, CopyPick({})) == 4 && Steps(s, Amend) == 3 && Steps(s, Insert) == 2
  {
    assert |s.read.Keys| == |s.read|;
  }

  /** What follows an unlock takes as long whatever the maps are. */
  lemma AfterMiss(s: State, s': State, next: PC)
    requires next.LoadEntry? || next.DeleteLoad? || next.Return? || next.Iterate?
    requires s'.ents == s.ents
    ensures Steps(s', Unlock(next)) < Steps(s, Miss(next))
  {
  }

  lemma MissFalls(s: State, t: Tid, c: Choice)
    requires t in s.threads && s.threads[t].pc.Miss?
    requires
      var next := s.threads[t].pc.next;
      next.LoadEntry? || next.DeleteLoad? || next.Return? || next.Iterate?
    ensures Nearer(s, Exec(s, t, c), t)
  {
    hide Steps;
    AfterMiss(s, Exec(s, t, c), s.threads[t].pc.next);
  }

  lemma UnlockFalls(s: State, t: Tid, c: Choice)
    requires t in s.threads && s.threads[t].pc.Unlock?
    ensures Nearer(s, Exec(s, t, c), t)
  {
    var pc := s.threads[t].pc;
    assert Steps(s, pc) == 1 + Steps(s, pc.next);
    hide Steps, Nearer;
    Moves(s, Exec(s, t, c), t);
  }

  lemma IterateFalls(s: State, t: Tid, c: Choice)
    requires t in s.threads && s.threads[t].pc.Iterate? && Fits(s.threads[t].pc, c)
    ensures Nearer(s, Exec(s, t, c), t)
  {
    var left := s.threads[t].pc.left;
    if left != map[] { OneKeyLess(left, c.key); }
    assert Steps(s, Return(Done)) < Steps(s, Iterate(left));
    assert left != map[] ==> Steps(s, Iterate(left - {c.key})) < Steps(s, Iterate(left));
    hide Steps, Nearer;
    Moves(s, Exec(s, t, c), t);
  }

  lemma OneStepFalls(s: State, t: Tid, c: Choice)
    requires t in s.threads && (s.threads[t].pc.LoadEntry? || s.threads[t].pc.Lock?)
    ensures Nearer(s, Exec(s, t, c), t)
  {
  }

  /** Each step of a thread brings it nearer to its return. */
  lemma Falls(s: State, t: Tid, c: Choice, seen: Seen)
    requires StepPre(s, t, seen) && !s.threads[t].pc.Return? && Fits(s.threads[t].pc, c)
    ensures Nearer(s, Exec(s, t, c), t)
  {
    hide Exec, Steps, Nearer, MapsOk, ExpungedOk, AbsAt, LoadHeld, FastHeld, LockHeld, TryHeld, ResultOk, Fits;
    match s.threads[t].pc
    case ReadSnap => SnapFalls(s, t, c);
    case LoadEntry(_) => OneStepFalls(s, t, c);
    case StoreLoad(_) => StoreLoadFalls(s, t, c);
    case StoreCas(_, _) => StoreCasFalls(s, t, c);
    case TryLoad(_, _) => TryLoadFalls(s, t, c);
    case TryCas(_, _, _) => TryCasFalls(s, t, c);
    case TryReload(_, _, _) => TryLoadFalls(s, t, c);
    case DeleteLoad(_) => DeleteFalls(s, t, c);
    case DeleteCas(_, _) => DeleteFalls(s, t, c);
    case Lock => OneStepFalls(s, t, c);
    case ReadLocked => LookFalls(s, t, c);
    case Miss(_) => MissFalls(s, t, c);
    case Unlock(_) => UnlockFalls(s, t, c);
    case Iterate(_) => IterateFalls(s, t, c);
    case Return(_) =>
    case Panicked =>
    case Unexpunge(_) => UnexpungeFalls(s, t, c);
    case AddDirty(_) => UnexpungeFalls(s, t, c);
    case LockedStore(_) => InsertFalls(s, t, c);
    case Insert => InsertFalls(s, t, c);
    case CopyInit => MakeFalls(s, t, c);
    case Amend => MakeFalls(s, t, c);
    case CopyPick(todo) => if todo == {} { MakeFalls(s, t, c); } else { CopyFalls(s, t, c); }
    case CopyLoad(_, _) => CopyFalls(s, t, c);
    case CopyCas(_, _) => CopyFalls(s, t, c);
  }

  /** Actions `i` to `i + n` are steps of `t`, and map iterations yield keys still to be visited. */
  ghost predicate Alone(run: seq<State>, acts: seq<Action>, i: nat, n: nat, t: Tid)
    requires |run| == |acts| + 1 && i + n <= |acts|
  {
    forall j :: i <= j < i + n ==>
      acts[j].Tau? && acts[j].t == t && t in run[j].threads && Fits(run[j].threads[t].pc, acts[j].c)
  }

  /** What an operation has done to the contents between `s` and `s'`. */
  ghost predicate Accounts(s: State, s': State, t: Tid) {
    t in s.threads && t in s'.threads && s'.threads[t].op == s.threads[t].op &&
    if s.threads[t].lin == s'.threads[t].lin then Abs(s') == Abs(s)
    else
      s.threads[t].lin == None && s'.threads[t].lin.Some? &&
      Apply(s.threads[t].op, Abs(s), Abs(s'), s'.threads[t].lin.value)
  }

  lemma StepPreOf(s: State, t: Tid, seen: map<Tid, Seen>)
    requires Inv(s, seen) && Enabled(s, t)
    ensures StepPre(s, t, seen[t]) == true
  {
    hide MapsOk, ExpungedOk, OneOwner, ThreadOk, AbsAt;
  }

  lemma FreeStays(s: State, s': State, t: Tid)
    requires Free(s, t) && LockOk(s) && LockOk(s') && OnlyMoves(s, s', t)
    ensures Free(s', t)
  {
  }

  /** While an operation has no effect, the contents of its key are those seen before. */
  lemma NothingNew(s: State, s': State, t: Tid, seen: map<Tid, Seen>)
    requires SeenOk(s, seen) && OnlyMoves(s, s', t)
    requires forall k :: AbsAt(s', k) == AbsAt(s, k)
    ensures t in SeenAfter(s', seen) && SeenAfter(s', seen)[t] == seen[t]
  {
    hide AbsAt;
  }

  lemma StepAccounts(s: State, s': State, t: Tid, seen: map<Tid, Seen>)
    requires SeenOk(s, seen) && OnlyMoves(s, s', t) && Effect(s, s', t)
    ensures Accounts(s, s', t)
    ensures t in SeenAfter(s', seen) && (s'.threads[t].lin == None ==> SeenAfter(s', seen)[t] == seen[t])
  {
    hide Abs, Apply, AbsAt, EffectAt, SeenAfter, SeenOk;
    if s.threads[t].lin != s'.threads[t].lin {
      EffectApplies(s, s', t);
      hide Effect;
      assert t in SeenAfter(s', seen) by { InSeen(s', t, seen); }
    } else {
      SameAbs(s, s');
      NothingNew(s, s', t, seen);
    }
  }

  lemma InSeen(s: State, t: Tid, seen: map<Tid, Seen>)
    requires t in s.threads
    ensures t in SeenAfter(s, seen)
  {
    hide AbsAt;
  }

  /** An entry into which a value can be stored without the lock. */
  predicate Open(s: State, e: EntryId) {
    !P(s, e).Expunged?
  }

  /** The operation is one for the lock-free path: its key is in `read`, or `read` tells all there is. */
  predicate QuickCall(s: State, op: Op) {
    match op
    case Load(k) => k in s.read || !s.amended
    case LoadAndDelete(k) => k in s.read || !s.amended
    case Store(k, _) => k in s.read && Open(s, s.read[k])
    case LoadOr(k, _) => k in s.read && Open(s, s.read[k])
    case Range => !s.amended
  }

  /** The thread is on that path. */
  predicate Quick(s: State, t: Tid) {
    t in s.threads &&
    match s.threads[t].pc
    case ReadSnap => QuickCall(s, s.threads[t].op)
    case LoadEntry(_) => true
    case DeleteLoad(_) => true
    case DeleteCas(_, _) => true
    case Iterate(_) => true
    case Return(_) => true
    case StoreLoad(e) => Open(s, e)
    case StoreCas(e, _) => Open(s, e)
    case TryLoad(e, mode) => mode.Fast? && Open(s, e)
    case TryCas(e, _, mode) => mode.Fast? && Open(s, e)
    case TryReload(e, _, mode) => mode.Fast? && Open(s, e)
    case _ => false
  }

  /** The lock, the maps and the count of misses are as they were. */
  predicate SameMap(s: State, s': State) {
    s'.lock == s.lock && s'.read == s.read && s'.amended == s.amended && s'.dirty == s.dirty && s'.misses == s.misses
  }

  lemma QuickSnap(s: State, t: Tid, c: Choice)
    requires Quick(s, t) && s.threads[t].pc.ReadSnap?
    ensures Quick(Exec(s, t, c), t) && SameMap(s, Exec(s, t, c))
  {
  }

  lemma QuickLoads(s: State, t: Tid, c: Choice)
    requires Quick(s, t) && !s.threads[t].pc.ReadSnap?
    requires !s.threads[t].pc.StoreCas? && !s.threads[t].pc.TryCas? && !s.threads[t].pc.DeleteCas?
    ensures Quick(Exec(s, t, c), t) && SameMap(s, Exec(s, t, c))
  {
  }

  lemma QuickSwaps(s: State, t: Tid, c: Choice)
    requires Quick(s, t) && (s.threads[t].pc.StoreCas? || s.threads[t].pc.TryCas? || s.threads[t].pc.DeleteCas?)
    ensures Quick(Exec(s, t, c), t) && SameMap(s, Exec(s, t, c))
  {
  }

  lemma QuickStays(s: State, t: Tid, c: Choice)
    requires Quick(s, t)
    ensures Quick(Exec(s, t, c), t) && SameMap(s, Exec(s, t, c))
  {
    hide Exec;
    match s.threads[t].pc
    case ReadSnap => QuickSnap(s, t, c);
    case StoreCas(_, _) => QuickSwaps(s, t, c);
    case TryCas(_, _, _) => QuickSwaps(s, t, c);
    case DeleteCas(_, _) => QuickSwaps(s, t, c);
    case _ => QuickLoads(s, t, c);
  }

  /** Nobody can make the thread wait. */
  predicate Unhindered(s: State, t: Tid) {
    Free(s, t) || Quick(s, t)
  }

  /** One step of a thread that runs alone. */
  lemma OneStepAlone(s: State, t: Tid, c: Choice, seen: map<Tid, Seen>)
    requires Inv(s, seen) && Enabled(s, t) && !s.threads[t].pc.Return? && Fits(s.threads[t].pc, c)
    ensures Inv(Exec(s, t, c), SeenAfter(Exec(s, t, c), seen)) == true
    ensures
      var s' := Exec(s, t, c);
      Nearer(s, s', t) && Accounts(s, s', t) && t in SeenAfter(s', seen) &&
      (s'.threads[t].lin == None ==> SeenAfter(s', seen)[t] == seen[t]) &&
      (Free(s, t) ==> Free(s', t)) && (Quick(s, t) ==> Quick(s', t) && SameMap(s, s'))
  {
    hide Exec, Nearer, Fits, Steps, MapsOk, ExpungedOk, OneOwner, ThreadOk, Accounts, Effect, AbsAt, Moved, SeenAfter,
         Quick, SameMap;
    var s' := Exec(s, t, c);
    TauKeepsInv(s, t, c, seen);
    StepPreOf(s, t, seen);
    Falls(s, t, c, seen[t]);
    if Free(s, t) { FreeStays(s, s', t); }
    if Quick(s, t) { QuickStays(s, t, c); }
    StepAccounts(s, s', t, seen);
  }

  /** The thread has returned in `s'`, having done what it does in `s` or later. */
  ghost predicate Returned(s: State, s': State, t: Tid, seen: Seen) {
    Accounts(s, s', t) && s'.threads[t].pc.Return? &&
    (Free(s, t) ==> s'.lock == None) && (Quick(s, t) ==> SameMap(s, s')) &&
    ResultOk(s'.threads[t], s'.threads[t].pc.r, if s'.threads[t].lin == None then seen else {})
  }

  lemma NoStepsLeft(s: State, t: Tid, seen: map<Tid, Seen>)
    requires Inv(s, seen) && t in s.threads && Unhindered(s, t)
    ensures s.threads[t].pc.Return? <==> Steps(s, s.threads[t].pc) == 0
    ensures s.threads[t].pc.Return? ==> Returned(s, s, t, seen[t])
    ensures Enabled(s, t)
  {
    hide MapsOk, ExpungedOk, OneOwner, AbsAt, LoadHeld, FastHeld, LockHeld, TryHeld, DeleteHeld, P;
    assert ThreadOk(s, s.threads[t], seen[t]);
  }

  lemma AccountsOn(s: State, mid: State, s': State, t: Tid, seen: Seen)
    requires Accounts(s, mid, t) && Returned(mid, s', t, seen)
    requires (Free(s, t) ==> Free(mid, t)) && (Quick(s, t) ==> Quick(mid, t) && SameMap(s, mid))
    ensures Returned(s, s', t, seen)
    ensures s'.threads[t].lin == None ==> mid.threads[t].lin == None
  {
    hide Abs, Apply, ResultOk, Quick;
  }

  lemma {:induction false} ReturnsAlone(run: seq<State>, acts: seq<Action>, i: nat, n: nat, t: Tid,
                                        seen: map<Tid, Seen>)
    requires |run| == |acts| + 1 && i + n <= |acts| && forall j: nat :: NextAt(run, acts, j)
    requires Inv(run[i], seen) && t in run[i].threads && Unhindered(run[i], t)
    requires Alone(run, acts, i, n, t) && Steps(run[i], run[i].threads[t].pc) <= n
    ensures Returned(run[i], run[i + n], t, seen[t])
    decreases n
  {
    hide Inv, Exec, Steps, Abs, ResultOk, Fits, Apply, SeenAfter, Nearer, Quick, Free, SameMap;
    var s := run[i];
    NoStepsLeft(s, t, seen);
    if n > 0 {
      assert NextAt(run, acts, i);
      var c := acts[i].c;
      if s.threads[t].pc.Return? {
        ReturnStays(s, t, c);
        ReturnsAlone(run, acts, i + 1, n - 1, t, seen);
      } else {
        OneStepAlone(s, t, c, seen);
        assert Steps(run[i + 1], run[i + 1].threads[t].pc) <= n - 1 by { StepsLess(s, run[i + 1], t); }
        ReturnsAlone(run, acts, i + 1, n - 1, t, SeenAfter(run[i + 1], seen));
        AccountsOn(s, run[i + 1], run[i + n], t, SeenAfter(run[i + 1], seen)[t]);
      }
    }
  }

  lemma StepsLess(s: State, s': State, t: Tid)
    requires Nearer(s, s', t)
    ensures t in s.threads && t in s'.threads && Steps(s', s'.threads[t].pc) < Steps(s, s.threads[t].pc)
  {
    hide Steps;
  }

  /**
   Progress. Let the operation called at action `c` be pending in state `i`, with
   the lock free or its own. If only its thread steps from there, it has returned
   after `Steps` of them, with the lock free: with the result it had, if it took
   effect before; else with a result and contents by which a plain map goes on from
   the contents of state `i`, or leaving the contents as they are, with a result
   that was right in some state since the call.
   */
  lemma Returns(run: seq<State>, acts: seq<Action>, c: nat, i: nat, n: nat, t: Tid, op: Op)
    requires IsRun(run, acts) && PendingSince(acts, c, i, t, op) && i + n <= |acts|
    requires t in run[i].threads && Free(run[i], t)
    requires Alone(run, acts, i, n, t) && Steps(run[i], run[i].threads[t].pc) <= n
    ensures t in run[i + n].threads && run[i + n].threads[t].pc.Return? && run[i + n].lock == None
    ensures
      var s, s', r := run[i], run[i + n], run[i + n].threads[t].pc.r;
      match s.threads[t].lin
      case Some(q) => r == q && Abs(s') == Abs(s)
      case None =>
        || Apply(op, Abs(s), Abs(s'), r)
        || (ReadOnly(op, r) && Abs(s') == Abs(s) && exists k :: c < k <= i && RightIn(run[k], op, r))
  {
    hide Inv, Exec, Steps, Abs, AbsAt, Apply, Alone, Free;
    RunInv(run, acts, i);
    Pending(run, acts, c, i, t, op);
    ReturnsAlone(run, acts, i, n, t, SeenAt(run, i));
    var r := run[i + n].threads[t].pc.r;
    if run[i + n].threads[t].lin == None {
      WasRight(run, acts, c, i, t, op, r);
    }
  }

  /** Right after its call an operation knows the present contents of its key, and needs no others. */
  lemma JustCalled(s: State, t: Tid, seen: map<Tid, Seen>)
    requires Inv(s, seen) && t in s.threads && s.threads[t].pc.ReadSnap?
    ensures Inv(s, seen[t := Extend(s, s.threads[t], {})])
  {
    hide MapsOk, ExpungedOk, OneOwner, AbsAt;
  }

  lemma RightNow(s: State, op: Op, r: Result)
    requires ResultOk(Thread(op, Return(r), None), r, if op.Range? then {} else {AbsAt(s, op.key)})
    ensures RightIn(s, op, r)
  {
    if !op.Range? {
      AbsOf(s, op.key);
      hide Abs, AbsAt;
    }
  }

  /**
   A call with the lock free, and nobody interfering: at most ten steps, and four
   for each key, later it has returned what a plain map returns, and the contents
   are what a plain map then has.
   */
  lemma ReturnsFromCall(run: seq<State>, acts: seq<Action>, c: nat, n: nat, t: Tid, op: Op)
    requires IsRun(run, acts) && c < c + 1 + n <= |acts|
    requires acts[c] == Invoke(t, op) && run[c].lock == None
    requires Alone(run, acts, c + 1, n, t) && 10 + 3 * |run[c].read| + |DirtyMap(run[c])| <= n
    ensures
      var s' := run[c + 1 + n];
      t in s'.threads && s'.threads[t].pc.Return? && s'.lock == None &&
      Apply(op, Abs(run[c]), Abs(s'), s'.threads[t].pc.r)
  {
    hide Inv, Exec, Abs, AbsAt, Apply, Alone, Extend;
    var s, s' := run[c + 1], run[c + 1 + n];
    assert NextAt(run, acts, c);
    RunInv(run, acts, c + 1);
    JustCalled(s, t, SeenAt(run, c + 1));
    ReturnsAlone(run, acts, c + 1, n, t, SeenAt(run, c + 1)[t := Extend(s, s.threads[t], {})]);
    assert Abs(s) == Abs(run[c]) by { SameEntries(run[c], s); }
    if s'.threads[t].lin == None { NowIs(s, op, t, s'.threads[t].pc.r); }
  }

  lemma QuickCost(s: State, t: Tid, c: Choice)
    requires Quick(s, t) && s.threads[t].pc.ReadSnap?
    ensures t in Exec(s, t, c).threads
    ensures Steps(Exec(s, t, c), Exec(s, t, c).threads[t].pc) <= 4 + if s.threads[t].op.Range? then |s.read| else 0
  {
  }

  lemma QuickReturns(run: seq<State>, acts: seq<Action>, i: nat, n: nat, t: Tid, seen: map<Tid, Seen>)
    requires |run| == |acts| + 1 && 0 < n && i + n <= |acts| && forall j: nat :: NextAt(run, acts, j)
    requires Inv(run[i], seen) && t in run[i].threads && Quick(run[i], t) && run[i].threads[t].pc.ReadSnap?
    requires Alone(run, acts, i, n, t) && 5 + (if run[i].threads[t].op.Range? then |run[i].read| else 0) <= n
    ensures Returned(run[i], run[i + n], t, seen[t])
  {
    hide Inv, Exec, Steps, Abs, ResultOk, Fits, Apply, SeenAfter, Nearer, Quick, Free, SameMap;
    assert NextAt(run, acts, i);
    var s, mid := run[i], run[i + 1];
    NoStepsLeft(s, t, seen);
    QuickCost(s, t, acts[i].c);
    OneStepAlone(s, t, acts[i].c, seen);
    ReturnsAlone(run, acts, i + 1, n - 1, t, SeenAfter(mid, seen));
    AccountsOn(s, mid, run[i + n], t, SeenAfter(mid, seen)[t]);
  }

  /**
   The path without the lock: a call of an operation whose key is in `read`, or for
   which `read` tells all there is, returns after five steps of its own, and one for
   each key where it visits all of them, whoever has the lock; and it leaves the
   lock, the maps and the count of misses alone.
   */
  lemma QuickFromCall(run: seq<State>, acts: seq<Action>, c: nat, n: nat, t: Tid, op: Op)
    requires IsRun(run, acts) && c < c + 1 + n <= |acts|
    requires acts[c] == Invoke(t, op) && QuickCall(run[c], op)
    requires Alone(run, acts, c + 1, n, t) && 5 + (if op.Range? then |run[c].read| else 0) <= n
    ensures
      var s' := run[c + 1 + n];
      t in s'.threads && s'.threads[t].pc.Return? && SameMap(run[c], s') &&
      Apply(op, Abs(run[c]), Abs(s'), s'.threads[t].pc.r)
  {
    hide Inv, Exec, Abs, AbsAt, Apply, Alone, Extend, QuickCall, Fits;
    var s, s' := run[c + 1], run[c + 1 + n];
    assert NextAt(run, acts, c);
    RunInv(run, acts, c + 1);
    SameCall(run[c], s, op);
    JustCalled(s, t, SeenAt(run, c + 1));
    QuickReturns(run, acts, c + 1, n, t, SeenAt(run, c + 1)[t := Extend(s, s.threads[t], {})]);
    assert Abs(s) == Abs(run[c]) by { SameEntries(run[c], s); }
    if s'.threads[t].lin == None { NowIs(s, op, t, s'.threads[t].pc.r); }
  }

  lemma SameCall(s: State, s': State, op: Op)
    requires s'.ents == s.ents && s'.read == s.read && s'.amended == s.amended
    ensures QuickCall(s', op) == QuickCall(s, op)
  {
  }

  lemma SameEntries(s: State, s': State)
    requires s'.ents == s.ents && s'.read == s.read && s'.dirty == s.dirty
    ensures Abs(s') == Abs(s)
  {
    SameContents(s, s');
    hide AbsAt;
    SameAbs(s, s');
  }

  lemma NowIs(s: State, op: Op, t: Tid, r: Result)
    requires t in s.threads && s.threads[t].op == op
    requires ResultOk(Thread(op, Return(r), None), r, Extend(s, s.threads[t], {}))
    ensures RightIn(s, op, r)
  {
    hide Abs, AbsAt, RightIn;
    RightNow(s, op, r);
  }

  ghost function Last(run: seq<State>): State
    requires run != []
  {
    run[|run| - 1]
  }

  /** The longer run goes on with steps of threads, and no call or return. */
  ghost predicate GoesOn(run: seq<State>, acts: seq<Action>, run': seq<State>, acts': seq<Action>) {
    && IsRun(run', acts') && run != [] && run <= run' && acts <= acts'
    && Last(run').threads.Keys == Last(run).threads.Keys
    && forall j :: |acts| <= j < |acts'| ==> acts'[j].Tau?
  }

  lemma Appends(run: seq<State>, acts: seq<Action>, a: Action, s': State)
    requires IsRun(run, acts) && Next(Last(run), a, s')
    ensures IsRun(run + [s'], acts + [a])
  {
    hide Next;
    var run', acts' := run + [s'], acts + [a];
    forall i: nat ensures NextAt(run', acts', i) {
      assert NextAt(run, acts, i);
    }
  }

  /** A map iteration can always yield a key. */
  lemma SomeChoice(pc: PC, any: Choice) returns (c: Choice)
    ensures Fits(pc, c)
  {
    c := any;
    if pc.CopyPick? && pc.todo != {} {
      var k :| k in pc.todo;
      c := any.(key := k);
    } else if pc.Iterate? && pc.left != map[] {
      var k :| k in pc.left;
      c := any.(key := k);
    }
  }

  /** With the lock free or its own, a thread can run until it has returned. */
  lemma CanReturn(run: seq<State>, acts: seq<Action>, t: Tid, any: Choice)
    returns (run': seq<State>, acts': seq<Action>)
    requires IsRun(run, acts) && t in Last(run).threads && Free(Last(run), t)
    ensures GoesOn(run, acts, run', acts') && forall j :: |acts| <= j < |acts'| ==> acts'[j].t == t
    ensures t in Last(run').threads && Last(run').threads[t].pc.Return? && Last(run').lock == None
    decreases Steps(Last(run), Last(run).threads[t].pc)
  {
    hide Inv, Exec, Steps, Fits, SeenAfter, Nearer;
    var s := Last(run);
    RunInv(run, acts, |acts|);
    var seen := SeenAt(run, |acts|);
    NoStepsLeft(s, t, seen);
    if s.threads[t].pc.Return? {
      run', acts' := run, acts;
    } else {
      var c := SomeChoice(s.threads[t].pc, any);
      OneStepAlone(s, t, c, seen);
      TauKeepsInv(s, t, c, seen);
      var s' := Exec(s, t, c);
      Appends(run, acts, Tau(t, c), s');
      StepsLess(s, s', t);
      run', acts' := CanReturn(run + [s'], acts + [Tau(t, c)], t, any);
    }
  }

  /**
   No state of a run is a deadlock: every pending operation can return, the one
   that has the lock first.
   */
  lemma NoDeadlock(run: seq<State>, acts: seq<Action>, t: Tid, any: Choice)
    requires IsRun(run, acts) && t in Last(run).threads
    ensures exists run', acts' ::
              GoesOn(run, acts, run', acts') && t in Last(run').threads && Last(run').threads[t].pc.Return?
  {
    hide Inv, Exec;
    var s := Last(run);
    if s.lock.Some? && s.lock.value != t {
      Holder(run, acts);
      var run1, acts1 := CanReturn(run, acts, s.lock.value, any);
      var run2, acts2 := CanReturn(run1, acts1, t, any);
      assert GoesOn(run, acts, run2, acts2);
    } else {
      var run2, acts2 := CanReturn(run, acts, t, any);
      assert GoesOn(run, acts, run2, acts2);
    }
  }

  lemma Holder(run: seq<State>, acts: seq<Action>)
    requires IsRun(run, acts) && Last(run).lock.Some?
    ensures Last(run).lock.value in Last(run).threads
  {
    RunInv(run, acts, |acts|);
  }

  /** `dirty` has more keys than misses have been counted, but where the lock holder is making it or counting one. */
  ghost predicate MissesOk(s: State) {
    if s.dirty.None? then s.misses == 0
    else
      s.misses < |DirtyMap(s)| ||
      (s.lock.Some? && s.lock.value in s.threads && Making(s.threads[s.lock.value].pc, s.misses))
  }

  ghost predicate Making(pc: PC, misses: nat) {
    pc.Miss? || (misses == 0 && (pc.CopyPick? || pc.CopyLoad? || pc.CopyCas? || pc.Amend? || pc.Insert?))
  }

  lemma OneKeyMore(m: map<Key, EntryId>, k: Key, e: EntryId)
    ensures |m[k := e]| >= |m| && |m[k := e]| > 0
  {
    assert m.Keys <= m[k := e].Keys && k in m[k := e];
    Subset(m.Keys, m[k := e].Keys);
    assert |m.Keys| == |m| && |m[k := e].Keys| == |m[k := e]|;
  }

  lemma {:induction false} Subset(a: set<Key>, b: set<Key>)
    requires a <= b
    ensures |a| <= |b|
  {
    if a != {} {
      var k :| k in a;
      Subset(a - {k}, b - {k});
    }
  }

  /** Steps that touch neither `dirty` nor the count. */
  predicate LeavesDirty(pc: PC) {
    match pc
    case ReadSnap => true
    case LoadEntry(_) => true
    case StoreLoad(_) => true
    case StoreCas(_, _) => true
    case TryLoad(_, _) => true
    case TryCas(_, _, _) => true
    case TryReload(_, _, _) => true
    case DeleteLoad(_) => true
    case DeleteCas(_, _) => true
    case Lock => true
    case Unexpunge(_) => true
    case LockedStore(_) => true
    case Unlock(_) => true
    case Iterate(_) => true
    case Return(_) => true
    case _ => false
  }

  lemma SwapsLeft(s: State, t: Tid, c: Choice)
    requires t in s.threads
    requires s.threads[t].pc.StoreCas? || s.threads[t].pc.TryCas? || s.threads[t].pc.DeleteCas? ||
             s.threads[t].pc.Unexpunge? || s.threads[t].pc.LockedStore?
    ensures SameMap(s, ExecEntry(s, t, c))
  {
    hide P, Finish, FailExpunged, Locked;
  }

  lemma LoadsLeft(s: State, t: Tid, c: Choice)
    requires t in s.threads && !s.threads[t].pc.AddDirty?
    requires !s.threads[t].pc.StoreCas? && !s.threads[t].pc.TryCas? && !s.threads[t].pc.DeleteCas?
    requires !s.threads[t].pc.Unexpunge? && !s.threads[t].pc.LockedStore?
    ensures SameMap(s, ExecEntry(s, t, c))
  {
    hide P, Finish, FailExpunged, Locked, SetP;
  }

  lemma EntryLeft(s: State, t: Tid, c: Choice)
    requires t in s.threads && !s.threads[t].pc.AddDirty?
    ensures SameMap(s, ExecEntry(s, t, c))
  {
    hide ExecEntry, SameMap;
    var pc := s.threads[t].pc;
    if pc.StoreCas? || pc.TryCas? || pc.DeleteCas? || pc.Unexpunge? || pc.LockedStore? {
      SwapsLeft(s, t, c);
    } else {
      LoadsLeft(s, t, c);
    }
  }

  lemma DirtyLeft(s: State, t: Tid, c: Choice)
    requires t in s.threads && LeavesDirty(s.threads[t].pc)
    ensures
      var s' := Exec(s, t, c);
      s'.dirty == s.dirty && s'.misses == s.misses &&
      (s'.lock == s.lock || s.threads[t].pc.Lock? || s.threads[t].pc.Unlock?)
  {
    EntryLeft(s, t, c);
    hide P, ExecEntry;
  }

  lemma MissesStay(s: State, t: Tid, c: Choice, seen: Seen)
    requires StepPre(s, t, seen) && OnlyMoves(s, Exec(s, t, c), t) && MissesOk(s)
    ensures MissesOk(Exec(s, t, c))
  {
    hide MapsOk, ExpungedOk, AbsAt, LoadHeld, FastHeld, LockHeld, TryHeld, DeleteHeld, ResultOk, P;
    if LeavesDirty(s.threads[t].pc) {
      hide Exec, ThreadOk;
      DirtyLeft(s, t, c);
    } else if s.threads[t].pc.ReadLocked? || s.threads[t].pc.Miss? {
      hide Exec, ThreadOk;
      LookOrMiss(s, t, c);
    } else {
      hide Exec, ThreadOk;
      MakingStays(s, t, c, seen);
    }
  }

  lemma LookOrMiss(s: State, t: Tid, c: Choice)
    requires t in s.threads && s.lock == Some(t) && MissesOk(s)
    requires s.threads[t].pc.ReadLocked? || s.threads[t].pc.Miss?
    ensures MissesOk(Exec(s, t, c))
  {
    hide P;
  }

  lemma MakingStays(s: State, t: Tid, c: Choice, seen: Seen)
    requires StepPre(s, t, seen) && MissesOk(s)
    requires !LeavesDirty(s.threads[t].pc) && !s.threads[t].pc.ReadLocked? && !s.threads[t].pc.Miss?
    ensures MissesOk(Exec(s, t, c))
  {
    hide MapsOk, ExpungedOk, AbsAt, LoadHeld, FastHeld, LockHeld, TryHeld, DeleteHeld, ResultOk, P;
    var op, pc, dirty := s.threads[t].op, s.threads[t].pc, DirtyMap(s);
    if pc.Insert? { OneKeyMore(dirty, op.key, |s.ents|); }
    if pc.AddDirty? { OneKeyMore(dirty, op.key, pc.e); }
    if pc.CopyLoad? { OneKeyMore(dirty, pc.k, s.read[pc.k]); }
  }

  lemma MissesKept(s: State, a: Action, s': State, seen: map<Tid, Seen>)
    requires Inv(s, seen) && Next(s, a, s') && MissesOk(s)
    ensures MissesOk(s')
  {
    hide Exec, StepPre, MissesOk, MapsOk, ExpungedOk, OneOwner, LockOk, ThreadOk, AbsAt, OnlyMoves, Moved, Effect;
    if a.Tau? && s.threads[a.t].pc.Return? {
      ReturnStays(s, a.t, a.c);
    } else if a.Tau? {
      StepPreOf(s, a.t, seen);
      TauKeepsInv(s, a.t, a.c, seen);
      MissesStay(s, a.t, a.c, seen[a.t]);
    } else {
      NotHolding(s, a, s', seen);
    }
  }

  lemma InitMisses(s: State)
    requires Init(s)
    ensures MissesOk(s)
  {
  }

  lemma {:induction false} MissesRun(run: seq<State>, acts: seq<Action>, i: nat)
    requires IsRun(run, acts) && i < |run|
    ensures MissesOk(run[i])
  {
    hide Inv, Next, SeenAt, MissesOk, Init;
    if i > 0 {
      MissesRun(run, acts, i - 1);
      assert NextAt(run, acts, i - 1);
      RunInv(run, acts, i - 1);
      MissesKept(run[i - 1], acts[i - 1], run[i], SeenAt(run, i - 1));
    } else {
      InitMisses(run[0]);
    }
  }

  /** With the lock free, a dirty map has had fewer misses than it has keys: it is promoted in time. */
  lemma MissesBounded(run: seq<State>, acts: seq<Action>, i: nat)
    requires IsRun(run, acts) && i < |run| && run[i].lock == None
    ensures if run[i].dirty.Some? then run[i].misses < |run[i].dirty.value| else run[i].misses == 0
  {
    hide Next;
    MissesRun(run, acts, i);
  }

  lemma NotHolding(s: State, a: Action, s': State, seen: map<Tid, Seen>)
    requires Inv(s, seen) && Next(s, a, s') && !a.Tau? && MissesOk(s)
    ensures MissesOk(s')
  {
    hide MapsOk, ExpungedOk, OneOwner, ThreadOk, AbsAt;
  }

  /** The key is not in `read`, so that `dirty` is to be asked. */
  predicate MissCall(s: State, op: Op) {
    s.amended && s.dirty.Some? &&
    match op
    case Load(k) => k !in s.read
    case LoadAndDelete(k) => k !in s.read
    case LoadOr(k, _) => k !in s.read && k in DirtyMap(s)
    case _ => false
  }

  /** The keys that are left of `dirty` when the miss is counted. */
  function Left(s: State, op: Op): map<Key, EntryId> {
    if op.LoadAndDelete? then DirtyMap(s) - {op.key} else DirtyMap(s)
  }

  /** One more miss has been counted, or `dirty` has been promoted. */
  ghost predicate Counted(s: State, op: Op, s': State) {
    if s.misses + 1 < |Left(s, op)|
    then s'.read == s.read && s'.amended && s'.dirty == Some(Left(s, op)) && s'.misses == s.misses + 1
    else s'.read == Left(s, op) && !s'.amended && s'.dirty == None && s'.misses == 0
  }

  /** How far the operation, called in state `s`, has got on this path in `s'`. */
  ghost predicate Missing(s: State, op: Op, s': State, t: Tid) {
    var same := s'.read == s.read && s'.amended && s'.dirty == s.dirty && s'.misses == s.misses;
    MissCall(s, op) && t in s'.threads && s'.threads[t].op == op &&
    match s'.threads[t].pc
    case ReadSnap => same
    case Lock => same
    case ReadLocked => same
    case TryLoad(_, mode) => same && op.LoadOr? && mode.LockedDirty?
    case TryCas(_, _, mode) => same && op.LoadOr? && mode.LockedDirty?
    case TryReload(_, _, mode) => same && op.LoadOr? && mode.LockedDirty?
    case Miss(next) =>
      (next.LoadEntry? || next.DeleteLoad? || next.Return?) &&
      s'.read == s.read && s'.amended && s'.dirty == Some(Left(s, op)) && s'.misses == s.misses
    case Unlock(next) => (next.LoadEntry? || next.DeleteLoad? || next.Return?) && Counted(s, op, s')
    case LoadEntry(_) => Counted(s, op, s')
    case DeleteLoad(_) => Counted(s, op, s')
    case DeleteCas(_, _) => Counted(s, op, s')
    case Return(_) => Counted(s, op, s')
    case _ => false
  }

  lemma MissingLocks(s: State, op: Op, s': State, t: Tid, c: Choice)
    requires Missing(s, op, s', t) && (s'.threads[t].pc.ReadSnap? || s'.threads[t].pc.Lock?)
    ensures Missing(s, op, Exec(s', t, c), t)
  {
    hide P, Counted, Left;
  }

  lemma MissingLooks(s: State, op: Op, s': State, t: Tid, c: Choice)
    requires Missing(s, op, s', t) && s'.threads[t].pc.ReadLocked?
    ensures Missing(s, op, Exec(s', t, c), t)
  {
    hide P, Counted;
    if op.LoadAndDelete? && op.key !in DirtyMap(s) { assert DirtyMap(s) - {op.key} == DirtyMap(s); }
  }

  lemma MissingTries(s: State, op: Op, s': State, t: Tid, c: Choice)
    requires Missing(s, op, s', t)
    requires s'.threads[t].pc.TryLoad? || s'.threads[t].pc.TryCas? || s'.threads[t].pc.TryReload?
    ensures Missing(s, op, Exec(s', t, c), t)
  {
    hide P;
  }

  lemma MissingCounts(s: State, op: Op, s': State, t: Tid, c: Choice)
    requires Missing(s, op, s', t) && (s'.threads[t].pc.Miss? || s'.threads[t].pc.Unlock?)
    ensures Missing(s, op, Exec(s', t, c), t)
  {
  }

  lemma MissingEnds(s: State, op: Op, s': State, t: Tid, c: Choice)
    requires Missing(s, op, s', t)
    requires s'.threads[t].pc.LoadEntry? || s'.threads[t].pc.DeleteLoad? || s'.threads[t].pc.DeleteCas? ||
             s'.threads[t].pc.Return?
    ensures Missing(s, op, Exec(s', t, c), t)
  {
    hide P, Counted, MissCall, Left;
    EntryLeft(s', t, c);
    CountedSame(s, op, s', Exec(s', t, c));
  }

  lemma CountedSame(s: State, op: Op, s1: State, s2: State)
    requires s2.read == s1.read && s2.amended == s1.amended && s2.dirty == s1.dirty && s2.misses == s1.misses
    ensures Counted(s, op, s2) == Counted(s, op, s1)
  {
    hide Left;
  }

  lemma MissingOn(s: State, op: Op, s': State, t: Tid, c: Choice)
    requires Missing(s, op, s', t)
    ensures Missing(s, op, Exec(s', t, c), t)
  {
    var pc := s'.threads[t].pc;
    hide Exec, Counted, MissCall, Left;
    if pc.ReadSnap? || pc.Lock? {
      MissingLocks(s, op, s', t, c);
    } else if pc.ReadLocked? {
      MissingLooks(s, op, s', t, c);
    } else if pc.TryLoad? || pc.TryCas? || pc.TryReload? {
      MissingTries(s, op, s', t, c);
    } else if pc.Miss? || pc.Unlock? {
      MissingCounts(s, op, s', t, c);
    } else {
      MissingEnds(s, op, s', t, c);
    }
  }

  lemma {:induction false} MissingRun(run: seq<State>, acts: seq<Action>, c: nat, n: nat, t: Tid, op: Op)
    requires IsRun(run, acts) && c < c + 1 + n <= |acts| && acts[c] == Invoke(t, op) && MissCall(run[c], op)
    requires Alone(run, acts, c + 1, n, t)
    ensures Missing(run[c], op, run[c + 1 + n], t)
    decreases n
  {
    hide Exec, Fits, Missing;
    if n == 0 {
      assert NextAt(run, acts, c);
      MissingStarts(run[c], op, run[c + 1], t);
    } else {
      assert NextAt(run, acts, c + n);
      MissingRun(run, acts, c, n - 1, t, op);
      MissingOn(run[c], op, run[c + n], t, acts[c + n].c);
    }
  }

  lemma MissingStarts(s: State, op: Op, s': State, t: Tid)
    requires MissCall(s, op) && s' == s.(threads := s.threads[t := Thread(op, ReadSnap, None)])
    ensures Missing(s, op, s', t)
  {
  }

  /**
   Where `dirty` has to be asked, with the lock free and nobody interfering, the
   operation counts one miss, and the last miss promotes what is left of `dirty`.
   */
  lemma MissFromCall(run: seq<State>, acts: seq<Action>, c: nat, n: nat, t: Tid, op: Op)
    requires IsRun(run, acts) && c < c + 1 + n <= |acts|
    requires acts[c] == Invoke(t, op) && run[c].lock == None && MissCall(run[c], op)
    requires Alone(run, acts, c + 1, n, t) && 10 + 3 * |run[c].read| + |DirtyMap(run[c])| <= n
    ensures Counted(run[c], op, run[c + 1 + n])
  {
    hide Exec, Fits, Counted, MissCall, Alone, Missing, Apply, Abs, Next;
    MissingRun(run, acts, c, n, t, op);
    ReturnsFromCall(run, acts, c, n, t, op);
    MissingEnded(run[c], op, run[c + 1 + n], t);
  }

  lemma MissingEnded(s: State, op: Op, s': State, t: Tid)
    requires Missing(s, op, s', t) && s'.threads[t].pc.Return?
    ensures Counted(s, op, s')
  {
    hide Counted, MissCall;
  }
}
