/**
 What the protocol invariant gives over whole runs of the concurrent map: every
 operation returns what a plain map would have returned at one instant between
 its call and its return, whatever the interleaving.
 */
module Linearizability {
  import opened Wrappers
  import opened PlainMap
  import opened ConcurrentMap
  import opened ConcurrentMapInv
  import opened ConcurrentMapSteps

  lemma NotPanicked(s: State, t: Tid, seen: Seen)
    requires StepPre(s, t, seen)
    ensures !s.threads[t].pc.Panicked?
  {
    hide MapsOk, ExpungedOk, AbsAt;
  }

  /** Any step of a thread, by its program counter. */
  lemma AnyStep(s: State, t: Tid, c: Choice, seen: Seen)
    requires StepPre(s, t, seen) == true
    requires t in s.threads && !s.threads[t].pc.Return?
    ensures StepOk(s, Exec(s, t, c), t, seen) == true
  {
    NotPanicked(s, t, seen);
    hide *;
    match s.threads[t].pc
    case ReadSnap => StepReadSnap(s, t, c, seen);
    case LoadEntry(_) => StepLoadEntry(s, t, c, seen);
    case StoreLoad(_) => StepStoreLoad(s, t, c, seen);
    case StoreCas(_, _) => StepStoreCas(s, t, c, seen);
    case TryLoad(_, _) => StepTryLoad(s, t, c, seen);
    case TryCas(_, _, mode) =>
      if mode.Fast? { StepTryCasFast(s, t, c, seen); } else { StepTryCasLocked(s, t, c, seen); }
    case TryReload(_, _, _) => StepTryReload(s, t, c, seen);
    case DeleteLoad(_) => StepDeleteLoad(s, t, c, seen);
    case DeleteCas(_, _) => StepDeleteCas(s, t, c, seen);
    case Lock => StepLock(s, t, c, seen);
    case ReadLocked =>
      if s.threads[t].op.Range? { StepRangeLocked(s, t, c, seen); }
      else if s.threads[t].op.LoadAndDelete? { StepDeleteLocked(s, t, c, seen); }
      else { StepReadLocked(s, t, c, seen); }
    case Unexpunge(_) => StepUnexpunge(s, t, c, seen);
    case AddDirty(_) => StepAddDirty(s, t, c, seen);
    case LockedStore(_) => StepLockedStore(s, t, c, seen);
    case CopyInit => StepCopyInit(s, t, c, seen);
    case CopyPick(_) => StepCopyPick(s, t, c, seen);
    case CopyLoad(_, _) => StepCopyLoad(s, t, c, seen);
    case CopyCas(_, _) => StepCopyCas(s, t, c, seen);
    case Amend => StepAmend(s, t, c, seen);
    case Insert => StepInsert(s, t, c, seen);
    case Miss(_) => StepMiss(s, t, c, seen);
    case Unlock(_) => StepUnlock(s, t, c, seen);
    case Iterate(_) => StepIterate(s, t, c, seen);
    case Return(_) =>
    case Panicked =>
  }

  /** The contents of a pending operation's key, collected state by state. */
  ghost function SeenAfter(s: State, seen: map<Tid, Seen>): map<Tid, Seen> {
    map u | u in s.threads :: Extend(s, s.threads[u], if u in seen then seen[u] else {})
  }

  /** What every action leaves to the threads that do not take it. */
  ghost predicate Moved(s: State, s': State, t: Tid) {
    Guarantee(s, s', t) &&
    forall u :: u in s.threads && u != t ==> u in s'.threads && s'.threads[u] == s.threads[u]
  }

  lemma LockAndOwners(s: State, s': State, t: Tid, seen: map<Tid, Seen>)
    requires LockOk(s) && OneOwner(s) && OnlyMoves(s, s', t) && LockStep(s, s', t) && DetachStep(s, s', t)
    requires forall u :: u in s.threads ==> u in seen && ThreadOk(s, s.threads[u], seen[u])
    ensures LockOk(s') && OneOwner(s')
  {
    hide MapsOk, ExpungedOk, Current, P;
  }

  lemma TauKeepsInv(s: State, t: Tid, c: Choice, seen: map<Tid, Seen>)
    requires Inv(s, seen) && Enabled(s, t) && !s.threads[t].pc.Return?
    ensures Inv(Exec(s, t, c), SeenAfter(Exec(s, t, c), seen)) == true
    ensures OnlyMoves(s, Exec(s, t, c), t) && Moved(s, Exec(s, t, c), t) == true && Effect(s, Exec(s, t, c), t) == true
  {
    hide Exec, MapsOk, ExpungedOk, Guarantee, Effect, ThreadOk, AbsAt, OneOwner, DetachStep;
    var s' := Exec(s, t, c);
    AnyStep(s, t, c, seen[t]);
    LockAndOwners(s, s', t, seen);
    forall u | u in s'.threads ensures ThreadOk(s', s'.threads[u], SeenAfter(s', seen)[u]) == true {
      if u != t { OthersKeep(s, s', t, u, seen[u]); }
    }
  }

  /** A thread comes or goes outside the critical section. */
  lemma ComesOrGoes(s: State, s': State, t: Tid)
    requires Shared(s) && s.lock != Some(t) && s' == s.(threads := s'.threads)
    requires forall u :: u != t ==> (u in s'.threads <==> u in s.threads)
    requires forall u :: u != t && u in s.threads ==> s'.threads[u] == s.threads[u]
    requires t in s'.threads ==> s'.threads[t].pc.ReadSnap?
    ensures Shared(s') == true
    ensures Moved(s, s', t) == true
  {
    assert forall k :: Exempt(s', k) == Exempt(s, k);
    SharedStays(s, s', t);
  }

  lemma SharedStays(s: State, s': State, t: Tid)
    requires Shared(s) && s.lock != Some(t) && s' == s.(threads := s'.threads)
    requires forall u :: u != t ==> (u in s'.threads <==> u in s.threads)
    requires forall u :: u != t && u in s.threads ==> s'.threads[u] == s.threads[u]
    requires t in s'.threads ==> s'.threads[t].pc.ReadSnap?
    requires forall k :: Exempt(s', k) == Exempt(s, k)
    ensures MapsOk(s') && ExpungedOk(s')
    ensures LockOk(s')
    ensures OneOwner(s')
  {
  }

  lemma InvokeKeepsInv(s: State, t: Tid, op: Op, s': State, seen: map<Tid, Seen>)
    requires Inv(s, seen) && t !in s.threads && s' == s.(threads := s.threads[t := Thread(op, ReadSnap, None)])
    ensures Inv(s', SeenAfter(s', seen)) == true
    ensures Moved(s, s', t) == true
  {
    hide MapsOk, ExpungedOk, Guarantee, OneOwner, AbsAt;
    ComesOrGoes(s, s', t);
    forall u | u in s'.threads ensures ThreadOk(s', s'.threads[u], SeenAfter(s', seen)[u]) == true {
      if u != t { OthersKeep(s, s', t, u, seen[u]); }
    }
  }

  lemma RespondKeepsInv(s: State, t: Tid, s': State, seen: map<Tid, Seen>)
    requires Inv(s, seen) && t in s.threads && s.threads[t].pc.Return? && s' == s.(threads := s.threads - {t})
    ensures Inv(s', SeenAfter(s', seen)) == true
    ensures Moved(s, s', t) == true
  {
    hide MapsOk, ExpungedOk, Guarantee, OneOwner, AbsAt;
    ComesOrGoes(s, s', t);
    forall u | u in s'.threads ensures ThreadOk(s', s'.threads[u], SeenAfter(s', seen)[u]) == true {
      OthersKeep(s, s', t, u, seen[u]);
    }
  }

  ghost function SeenAt(run: seq<State>, i: nat): map<Tid, Seen>
    requires i < |run|
  {
    if i == 0 then SeenAfter(run[0], map[]) else SeenAfter(run[i], SeenAt(run, i - 1))
  }

  lemma InitInv(s: State)
    requires Init(s)
    ensures Inv(s, SeenAfter(s, map[])) == true
  {
  }

  /** The protocol invariant holds in every state of every run. */
  lemma {:induction false} RunInv(run: seq<State>, acts: seq<Action>, i: nat)
    requires IsRun(run, acts) && i < |run|
    ensures Inv(run[i], SeenAt(run, i)) == true
  {
    hide Inv, Next, Init, SeenAfter;
    if i > 0 {
      RunInv(run, acts, i - 1);
      assert NextAt(run, acts, i - 1);
      ActionKeepsInv(run[i - 1], acts[i - 1], run[i], SeenAt(run, i - 1));
    } else {
      InitInv(run[0]);
    }
  }

  lemma ReturnStays(s: State, t: Tid, c: Choice)
    requires t in s.threads && s.threads[t].pc.Return?
    ensures Exec(s, t, c) == s
  {
  }

  lemma ActionKeepsInv(s: State, a: Action, s': State, seen: map<Tid, Seen>)
    requires Inv(s, seen) && Next(s, a, s')
    ensures Inv(s', SeenAfter(s', seen)) == true
    ensures Moved(s, s', a.t) == true
    ensures a.Tau? && !s.threads[a.t].pc.Return? ==> OnlyMoves(s, s', a.t) && Effect(s, s', a.t) == true
    ensures a.Tau? && s.threads[a.t].pc.Return? ==> s' == s
    ensures !a.Tau? || s.threads[a.t].pc.Return? ==> forall k :: AbsAt(s', k) == AbsAt(s, k)
  {
    hide Inv, Exec, Guarantee, Effect;
    match a
    case Invoke(t, op) => InvokeKeepsInv(s, t, op, s', seen);
    case Respond(t, _) => RespondKeepsInv(s, t, s', seen);
    case Tau(t, c) =>
      if s.threads[t].pc.Return? {
        ReturnStays(s, t, c);
        Idle(s, t, seen);
      } else {
        TauKeepsInv(s, t, c, seen);
      }
  }

  /** A thread that has its result waits for the caller to take it. */
  lemma Idle(s: State, t: Tid, seen: map<Tid, Seen>)
    requires Inv(s, seen)
    ensures (Inv(s, SeenAfter(s, seen)) == true) && (Moved(s, s, t) == true)
  {
    assert Guarantee(s, s, t + 1) && Guarantee(s, s, t);
    forall u | u in s.threads ensures ThreadOk(s, s.threads[u], SeenAfter(s, seen)[u]) == true {
      OthersKeep(s, s, u + 1, u, seen[u]);
    }
  }

  /** Action `i` is the one by which the pending operation of `t` changes the map. */
  ghost predicate TakesEffect(run: seq<State>, acts: seq<Action>, i: nat, t: Tid, r: Result)
    requires |run| == |acts| + 1 && i < |acts|
  {
    acts[i].Tau? && acts[i].t == t && t in run[i].threads && t in run[i + 1].threads &&
    run[i].threads[t].lin == None && run[i + 1].threads[t].lin == Some(r)
  }

  /** The contents of the map, key by key, as a map. */
  lemma AbsOf(s: State, k: Key)
    ensures AbsAt(s, k) == Lookup(Abs(s), k)
  {
  }

  lemma SameAbs(s: State, s': State)
    requires forall k :: AbsAt(s', k) == AbsAt(s, k)
    ensures Abs(s') == Abs(s)
  {
    forall k ensures k in Abs(s') <==> k in Abs(s) { AbsOf(s, k); AbsOf(s', k); }
  }

  lemma EffectApplies(s: State, s': State, t: Tid)
    requires OnlyMoves(s, s', t) && Effect(s, s', t) && s.threads[t].lin != s'.threads[t].lin
    ensures s.threads[t].lin == None && s'.threads[t].lin.Some?
    ensures Apply(s.threads[t].op, Abs(s), Abs(s'), s'.threads[t].lin.value)
    ensures !ReadOnly(s.threads[t].op, s'.threads[t].lin.value)
  {
    var op, r := s.threads[t].op, s'.threads[t].lin.value;
    forall k
      ensures AbsAt(s, k) == Lookup(Abs(s), k) && AbsAt(s', k) == Lookup(Abs(s'), k)
    {
      AbsOf(s, k);
      AbsOf(s', k);
    }
    forall k | k != op.key ensures Lookup(Abs(s'), k) == Lookup(Abs(s), k) {
      assert AbsAt(s', k) == AbsAt(s, k);
    }
    match op
    case Store(k, v) => assert Abs(s') == Abs(s)[k := v];
    case LoadOr(k, _) => assert Abs(s') == Abs(s)[k := r.v];
    case LoadAndDelete(k) => assert Abs(s') == Abs(s) - {k};
  }

  /**
   The contents of the map change only by effects: each action leaves them alone
   or is the effect of a pending operation, and then they change as a plain map
   changes by that operation, with the result it will return.
   */
  lemma ChangesAreEffects(run: seq<State>, acts: seq<Action>, i: nat)
    requires IsRun(run, acts) && i < |acts|
    ensures
      Abs(run[i + 1]) == Abs(run[i])
      || exists t, r :: TakesEffect(run, acts, i, t, r) && Apply(run[i].threads[t].op, Abs(run[i]), Abs(run[i + 1]), r)
    ensures
      forall t, r :: TakesEffect(run, acts, i, t, r) ==>
        Apply(run[i].threads[t].op, Abs(run[i]), Abs(run[i + 1]), r) && !ReadOnly(run[i].threads[t].op, r)
  {
    hide Inv, Exec, Guarantee, Moved, Abs, AbsAt, Apply, EffectAt;
    var s, s', t := run[i], run[i + 1], acts[i].t;
    RunInv(run, acts, i);
    assert NextAt(run, acts, i);
    ActionKeepsInv(s, acts[i], s', SeenAt(run, i));
    if acts[i].Tau? && !s.threads[t].pc.Return? && s.threads[t].lin != s'.threads[t].lin {
      EffectApplies(s, s', t);
      assert TakesEffect(run, acts, i, t, s'.threads[t].lin.value);
    } else {
      SameAbs(s, s');
    }
  }

  /** From its call at action `c` up to state `j`, the operation of `t` is pending. */
  ghost predicate PendingSince(acts: seq<Action>, c: nat, j: nat, t: Tid, op: Op) {
    c < j <= |acts| && acts[c] == Invoke(t, op) && forall m :: c < m < j ==> !(acts[m].Respond? && acts[m].t == t)
  }

  ghost predicate NoEffect(run: seq<State>, acts: seq<Action>, c: nat, j: nat, t: Tid)
    requires |run| == |acts| + 1 && j <= |acts|
  {
    forall m, r :: c < m < j ==> !TakesEffect(run, acts, m, t, r)
  }

  ghost predicate OneEffect(run: seq<State>, acts: seq<Action>, c: nat, j: nat, k: nat, t: Tid, r: Result)
    requires |run| == |acts| + 1 && j <= |acts|
  {
    c < k < j && TakesEffect(run, acts, k, t, r) &&
    forall m, q :: c < m < j && m != k ==> !TakesEffect(run, acts, m, t, q)
  }

  /** What one action does to a pending operation. */
  lemma OneAction(run: seq<State>, acts: seq<Action>, i: nat, t: Tid)
    requires IsRun(run, acts) && i < |acts| && t in run[i].threads && !(acts[i].Respond? && acts[i].t == t)
    ensures t in run[i + 1].threads && run[i + 1].threads[t].op == run[i].threads[t].op
    ensures run[i].threads[t].lin.Some? ==> run[i + 1].threads[t].lin == run[i].threads[t].lin
    ensures run[i].threads[t].lin == None && run[i + 1].threads[t].lin.Some? ==>
             TakesEffect(run, acts, i, t, run[i + 1].threads[t].lin.value)
  {
    hide Inv, Exec, Guarantee, AbsAt, EffectAt;
    assert NextAt(run, acts, i);
    RunInv(run, acts, i);
    ActionKeepsInv(run[i], acts[i], run[i + 1], SeenAt(run, i));
  }

  /** While the operation is pending its thread works on it, and `lin` is set by its effect alone. */
  lemma {:induction false} Pending(run: seq<State>, acts: seq<Action>, c: nat, j: nat, t: Tid, op: Op)
    requires IsRun(run, acts) && PendingSince(acts, c, j, t, op)
    ensures t in run[j].threads && run[j].threads[t].op == op
    ensures
      match run[j].threads[t].lin
      case None => NoEffect(run, acts, c, j, t)
      case Some(r) => exists k :: OneEffect(run, acts, c, j, k, t, r)
    decreases j
  {
    var i := j - 1;
    if i == c {
      assert NextAt(run, acts, c);
    } else {
      Pending(run, acts, c, i, t, op);
      OneAction(run, acts, i, t);
      match run[i].threads[t].lin
      case Some(r) =>
        var k :| OneEffect(run, acts, c, i, k, t, r);
        assert OneEffect(run, acts, c, j, k, t, r);
      case None =>
        if run[j].threads[t].lin.Some? { assert OneEffect(run, acts, c, j, i, t, run[j].threads[t].lin.value); }
    }
  }

  /** Contents in `SeenAt` were the contents of the key in some state since the call. */
  lemma {:induction false} SeenAtSomeInstant(run: seq<State>, acts: seq<Action>, c: nat, j: nat, t: Tid, op: Op,
                                             x: Option<Value>)
    requires IsRun(run, acts) && PendingSince(acts, c, j, t, op) && !op.Range?
    requires t in run[j].threads && t in SeenAt(run, j) && x in SeenAt(run, j)[t]
    ensures exists k :: c < k <= j && AbsAt(run[k], op.key) == x
    decreases j
  {
    hide Exec, AbsAt, Inv;
    Pending(run, acts, c, j, t, op);
    assert NextAt(run, acts, j - 1);
    if AbsAt(run[j], op.key) != x {
      assert x in SeenAt(run, j - 1)[t];
      SeenAtSomeInstant(run, acts, c, j - 1, t, op, x);
    }
  }

  /**
   Linearizability. An operation called at action `c` that returns `r` at action
   `j` either took effect once, at an action `k` in between, where the contents
   changed as a plain map changes when `op` returns `r`; or it never took effect,
   and in some state `k` in between `op` on a plain map with those contents
   returns `r` and leaves it as it is.
   */
  lemma Linearizable(run: seq<State>, acts: seq<Action>, c: nat, j: nat, t: Tid, op: Op, r: Result)
    requires IsRun(run, acts) && j < |acts| && PendingSince(acts, c, j, t, op) && acts[j] == Respond(t, r)
    ensures
      || (exists k :: OneEffect(run, acts, c, j, k, t, r) && AppliesAt(run, k, op, r))
      || (NoEffect(run, acts, c, j, t) && ReadOnly(op, r) && exists k :: c < k <= j && RightIn(run[k], op, r))
  {
    Pending(run, acts, c, j, t, op);
    if run[j].threads[t].lin.Some? {
      ReturnsWhatTookEffect(run, acts, j, t, r);
      var k :| OneEffect(run, acts, c, j, k, t, r);
      Pending(run, acts, c, k, t, op);
      ChangesAreEffects(run, acts, k);
      assert AppliesAt(run, k, op, r);
    } else {
      ReadOnlyResult(run, acts, c, j, t, op, r);
    }
  }

  ghost predicate AppliesAt(run: seq<State>, k: nat, op: Op, r: Result) {
    k + 1 < |run| && Apply(op, Abs(run[k]), Abs(run[k + 1]), r)
  }

  ghost predicate RightIn(s: State, op: Op, r: Result) {
    Apply(op, Abs(s), Abs(s), r)
  }

  lemma ReturnsWhatTookEffect(run: seq<State>, acts: seq<Action>, j: nat, t: Tid, r: Result)
    requires IsRun(run, acts) && j < |acts| && acts[j] == Respond(t, r)
    requires t in run[j].threads && run[j].threads[t].lin.Some?
    ensures run[j].threads[t].lin == Some(r)
  {
    assert NextAt(run, acts, j);
    RunInv(run, acts, j);
    assert ThreadOk(run[j], run[j].threads[t], SeenAt(run, j)[t]);
  }

  /** A result that is right by what was seen was right in some state since the call. */
  lemma WasRight(run: seq<State>, acts: seq<Action>, c: nat, i: nat, t: Tid, op: Op, r: Result)
    requires IsRun(run, acts) && PendingSince(acts, c, i, t, op)
    requires t in SeenAt(run, i) && t in run[i].threads
    requires ResultOk(Thread(op, Return(r), None), r, SeenAt(run, i)[t])
    ensures ReadOnly(op, r) && exists k :: c < k <= i && RightIn(run[k], op, r)
  {
    hide Inv, Exec, AbsAt, Abs, SeenAt;
    if op.Range? {
      assert RightIn(run[i], op, r);
    } else {
      var x := if r.Absent? then None else Some(r.v);
      SeenAtSomeInstant(run, acts, c, i, t, op, x);
      var k :| c < k <= i && AbsAt(run[k], op.key) == x;
      AbsOf(run[k], op.key);
      assert RightIn(run[k], op, r);
    }
  }

  lemma ReadOnlyResult(run: seq<State>, acts: seq<Action>, c: nat, j: nat, t: Tid, op: Op, r: Result)
    requires IsRun(run, acts) && j < |acts| && PendingSince(acts, c, j, t, op) && acts[j] == Respond(t, r)
    requires t in run[j].threads && run[j].threads[t].op == op && run[j].threads[t].lin == None
    ensures ReadOnly(op, r) && exists k :: c < k <= j && RightIn(run[k], op, r)
  {
    hide Exec, Shared, AbsAt, Abs, RightIn;
    assert NextAt(run, acts, j);
    RunInv(run, acts, j);
    assert ThreadOk(run[j], run[j].threads[t], SeenAt(run, j)[t]);
    WasRight(run, acts, c, j, t, op, r);
  }

  /** The effect of action `i`, if it is one. */
  ghost function EffectOf(run: seq<State>, acts: seq<Action>, i: nat): seq<(Op, Result)>
    requires |run| == |acts| + 1 && i < |acts|
  {
    var t := acts[i].t;
    var before, after := run[i].threads, run[i + 1].threads;
    if acts[i].Tau? && t in before && t in after && before[t].lin == None && after[t].lin.Some?
    then [(before[t].op, after[t].lin.value)] else []
  }

  /** The effects of a run, in the order they happen. */
  ghost function Effects(run: seq<State>, acts: seq<Action>, n: nat): seq<(Op, Result)>
    requires |run| == |acts| + 1 && n <= |acts|
  {
    if n == 0 then [] else Effects(run, acts, n - 1) + EffectOf(run, acts, n - 1)
  }

  /** A plain map goes from `m` to `m'` by the operations of `effects`, each returning its result. */
  ghost predicate Replays(effects: seq<(Op, Result)>, m: map<Key, Value>, m': map<Key, Value>)
  {
    if effects == [] then m == m'
    else
      var last := |effects| - 1;
      exists mid :: Replays(effects[..last], m, mid) && Apply(effects[last].0, mid, m', effects[last].1)
  }

  lemma ReplaysMore(effects: seq<(Op, Result)>, m: map<Key, Value>, mid: map<Key, Value>, m': map<Key, Value>,
                    x: (Op, Result))
    requires Replays(effects, m, mid) && Apply(x.0, mid, m', x.1)
    ensures Replays(effects + [x], m, m')
  {
    hide Apply;
    assert (effects + [x])[..|effects|] == effects;
  }

  /** An action changes the contents by its effect alone. */
  lemma ByItsEffect(run: seq<State>, acts: seq<Action>, i: nat)
    requires IsRun(run, acts) && i < |acts|
    ensures
      var es := EffectOf(run, acts, i);
      if es == [] then Abs(run[i + 1]) == Abs(run[i])
        else |es| == 1 && Apply(es[0].0, Abs(run[i]), Abs(run[i + 1]), es[0].1)
  {
    hide Apply, Abs;
    ChangesAreEffects(run, acts, i);
    var t, es := acts[i].t, EffectOf(run, acts, i);
    if es != [] {
      assert TakesEffect(run, acts, i, t, es[0].1);
    } else {
      assert forall u, r :: !TakesEffect(run, acts, i, u, r);
    }
  }

  /** The contents after any run are what a plain map has after the effects of that run, in order. */
  lemma {:induction false} ContentsReplay(run: seq<State>, acts: seq<Action>, n: nat)
    requires IsRun(run, acts) && n <= |acts|
    ensures Replays(Effects(run, acts, n), map[], Abs(run[n]))
  {
    hide EffectOf, Apply;
    if n == 0 {
      assert Abs(run[0]) == map[];
    } else {
      hide Abs, Replays;
      ContentsReplay(run, acts, n - 1);
      ByItsEffect(run, acts, n - 1);
      var before, es := Effects(run, acts, n - 1), EffectOf(run, acts, n - 1);
      if es == [] {
        assert before + es == before;
      } else {
        ReplaysMore(before, map[], Abs(run[n - 1]), Abs(run[n]), es[0]);
        assert es == [es[0]];
      }
    }
  }

  lemma OneActionEntries(run: seq<State>, acts: seq<Action>, k: nat, e: EntryId)
    requires IsRun(run, acts) && k < |acts| && e < |run[k].ents|
    ensures e < |run[k + 1].ents|
    ensures InRead(run[k], e) ==> InRead(run[k + 1], e) || P(run[k + 1], e).Expunged?
    ensures !InRead(run[k], e) && P(run[k], e).Expunged? ==> !InRead(run[k + 1], e) && P(run[k + 1], e).Expunged?
  {
    RunInv(run, acts, k);
    assert NextAt(run, acts, k);
    ActionKeepsInv(run[k], acts[k], run[k + 1], SeenAt(run, k));
  }

  /**
   An entry that was in `read` at state `i` is still there in every later state
   `j`, or it is expunged; and one that has left `read` stays out and expunged.
   */
  lemma {:induction false} SnapshotEntries(run: seq<State>, acts: seq<Action>, i: nat, j: nat, e: EntryId)
    requires IsRun(run, acts) && i <= j < |run|
    requires InRead(run[i], e) || (e < |run[i].ents| && P(run[i], e).Expunged?)
    ensures e < |run[j].ents|
    ensures InRead(run[j], e) || P(run[j], e).Expunged?
    ensures !InRead(run[i], e) ==> !InRead(run[j], e) && P(run[j], e).Expunged?
    decreases j
  {
    if i < j {
      SnapshotEntries(run, acts, i, j - 1, e);
      OneActionEntries(run, acts, j - 1, e);
    }
  }

  /** An entry of an old snapshot that is in neither map is expunged, now and forever. */
  lemma GoneIsExpunged(run: seq<State>, acts: seq<Action>, i: nat, j: nat, l: nat, e: EntryId)
    requires IsRun(run, acts) && i <= j <= l < |run| && InRead(run[i], e) && !Current(run[j], e)
    ensures !Current(run[l], e) && P(run[l], e).Expunged?
  {
    SnapshotEntries(run, acts, i, j, e);
    SnapshotEntries(run, acts, j, l, e);
    RunInv(run, acts, l);
  }

  /**
   With the lock free, a `read` entry is expunged iff its key is missing from a
   non-nil `dirty`, and shared keys share the entry.
   */
  lemma ExpungedIffMissing(run: seq<State>, acts: seq<Action>, i: nat, k: Key)
    requires IsRun(run, acts) && i < |run| && run[i].lock == None && k in run[i].read
    ensures P(run[i], run[i].read[k]).Expunged? <==> run[i].dirty.Some? && k !in run[i].dirty.value
    ensures run[i].dirty.Some? && k in run[i].dirty.value ==> run[i].dirty.value[k] == run[i].read[k]
  {
    RunInv(run, acts, i);
  }

  /** The `ok` ignored in the locked branches is true, and no key is assigned in a nil map. */
  lemma IgnoredOkIsTrue(run: seq<State>, acts: seq<Action>, i: nat, t: Tid)
    requires IsRun(run, acts) && i < |run| && t in run[i].threads
    ensures !run[i].threads[t].pc.Panicked?
    ensures
      match run[i].threads[t].pc
      case TryLoad(e, mode) => !mode.Fast? ==> !P(run[i], e).Expunged?
      case TryReload(e, _, mode) => !mode.Fast? ==> !P(run[i], e).Expunged?
      case AddDirty(_) => run[i].dirty.Some?
      case Insert => run[i].dirty.Some?
      case _ => true
  {
    RunInv(run, acts, i);
    var s, th := run[i], run[i].threads[t];
    assert ThreadOk(s, th, SeenAt(run, i)[t]);
    if (th.pc.TryLoad? || th.pc.TryReload?) && !th.pc.mode.Fast? { LockHeldLive(s, th, th.pc.e); }
  }
}
