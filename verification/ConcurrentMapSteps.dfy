/**
 Every step keeps the protocol invariant and is either invisible or the one
 effect of its operation: one lemma per program counter. Conclusions are written
 as equations where the verifier would otherwise check every clause of every
 program counter on its own.
 */
module ConcurrentMapSteps {
  import opened Wrappers
  import opened PlainMap
  import opened ConcurrentMap
  import opened ConcurrentMapInv

  ghost predicate Arrives(s': State, t: Tid, seen: Seen) {
    t in s'.threads && ThreadOk(s', s'.threads[t], Extend(s', s'.threads[t], seen))
  }

  /** A step that only moves a program counter, and perhaps takes or gives up the lock. */
  lemma Quiet(s: State, s': State, t: Tid, seen: Seen)
    requires StepPre(s, t, seen) == true
    requires t in s'.threads && s' == s.(threads := s.threads[t := s'.threads[t]], lock := s'.lock, misses := s'.misses)
    requires s'.threads[t].op == s.threads[t].op && s'.threads[t].lin == s.threads[t].lin
    requires LockStep(s, s', t) && DetachStep(s, s', t)
    requires forall k :: Exempt(s, k) && k in s.read && !P(s, s.read[k]).Expunged? ==> Exempt(s', k) || k in DirtyMap(s)
    requires Arrives(s', t, seen) == true
    ensures StepOk(s, s', t, seen) == true
  {
    QuietMaps(s, s', t);
  }

  /** A step that leaves every entry, and what lookups find, as it was. */
  lemma SameLookups(s: State, s': State, t: Tid)
    requires OnlyMoves(s, s', t) && s'.ents == s.ents && s'.threads[t].lin == s.threads[t].lin
    requires forall e: EntryId :: InRead(s', e) == InRead(s, e) && Current(s', e) == Current(s, e)
    requires forall k :: AbsAt(s', k) == AbsAt(s, k)
    requires s.lock.Some? && s.lock != Some(t) ==>
               s'.read == s.read && s'.dirty == s.dirty && s'.amended == s.amended && s'.lock == s.lock
    ensures Guarantee(s, s', t) && Effect(s, s', t)
  {
    hide InRead, Current, AbsAt, Detached;
  }

  lemma QuietMaps(s: State, s': State, t: Tid)
    requires MapsOk(s) && ExpungedOk(s) && OnlyMoves(s, s', t)
    requires s'.ents == s.ents && s'.read == s.read && s'.amended == s.amended && s'.dirty == s.dirty
    requires s'.lock == s.lock || s.lock == None || s.lock == Some(t)
    requires s'.threads[t].lin == s.threads[t].lin
    requires forall k :: Exempt(s, k) && k in s.read && !P(s, s.read[k]).Expunged? ==> Exempt(s', k) || k in DirtyMap(s)
    ensures MapsOk(s') && ExpungedOk(s') && Guarantee(s, s', t) && Effect(s, s', t)
  {
    hide Guarantee, Effect, Exempt, MapsOk, ExpungedOk;
    SameLookups(s, s', t);
    SameMaps(s, s');
    SameExpunged(s, s');
  }

  lemma SameMaps(s: State, s': State)
    requires MapsOk(s) && s'.ents == s.ents && s'.read == s.read && s'.amended == s.amended && s'.dirty == s.dirty
    ensures MapsOk(s')
  {
    assert DirtyMap(s') == DirtyMap(s);
  }

  lemma SameExpunged(s: State, s': State)
    requires ExpungedOk(s) && s'.ents == s.ents && s'.read == s.read && s'.dirty == s.dirty
    requires forall k :: Exempt(s, k) && k in s.read && !P(s, s.read[k]).Expunged? ==> Exempt(s', k) || k in DirtyMap(s)
    ensures ExpungedOk(s')
  {
    hide Exempt;
    assert DirtyMap(s') == DirtyMap(s) && forall e: EntryId :: P(s', e) == P(s, e);
    forall k | s.dirty.Some? && k in s.read && k !in DirtyMap(s) && !Exempt(s', k) ensures P(s', s'.read[k]).Expunged? {
      assert Exempt(s, k) || P(s, s.read[k]).Expunged?;
    }
  }

  /** `s'` differs from `s` in what entry `e` holds, which becomes `p`. */
  ghost predicate SetsPtr(s: State, s': State, t: Tid, e: EntryId, p: Ptr) {
    OnlyMoves(s, s', t) && e < |s.ents| && s'.ents == s.ents[e := s.ents[e].(p := p)] &&
    s'.read == s.read && s'.amended == s.amended && s'.dirty == s.dirty && s'.lock == s.lock
  }

  lemma PtrFrame(s: State, s': State, t: Tid, e: EntryId, p: Ptr)
    requires MapsOk(s) && SetsPtr(s, s', t, e, p)
    ensures MapsOk(s')
    ensures forall x: EntryId :: P(s', x) == if x == e then p else P(s, x)
    ensures forall x: EntryId :: InRead(s', x) == InRead(s, x) && InDirty(s', x) == InDirty(s, x)
    ensures forall k :: k != s.ents[e].key ==> AbsAt(s', k) == AbsAt(s, k)
    ensures AbsAt(s', s.ents[e].key) == if Current(s, e) then Val(p) else AbsAt(s, s.ents[e].key)
  {
  }

  /** Storing nil or a value where there was nil or a value, in a live entry or in one's own detached entry. */
  lemma StoreMaps(s: State, s': State, t: Tid, e: EntryId, p: Ptr)
    requires MapsOk(s) && ExpungedOk(s) && SetsPtr(s, s', t, e, p)
    requires !p.Expunged? && !P(s, e).Expunged?
    requires Current(s, e) || (p.Nil? && Detached(s.threads[t], e))
    requires p.At? || InRead(s, e) || !InDirty(s, e)
    requires forall k :: Exempt(s, k) ==> Exempt(s', k)
    ensures MapsOk(s') && (ExpungedOk(s') == true) && (Guarantee(s, s', t) == true)
    ensures forall k :: k != s.ents[e].key ==> AbsAt(s', k) == AbsAt(s, k)
    ensures AbsAt(s', s.ents[e].key) == if Current(s, e) then Val(p) else AbsAt(s, s.ents[e].key)
  {
    hide MapsOk, ExpungedOk, Guarantee;
    PtrFrame(s, s', t, e, p);
    StoreExpunged(s, s', t, e, p);
    StoreGuarantee(s, s', t, e, p);
  }

  lemma StoreExpunged(s: State, s': State, t: Tid, e: EntryId, p: Ptr)
    requires MapsOk(s) && ExpungedOk(s) && SetsPtr(s, s', t, e, p) && !p.Expunged? && !P(s, e).Expunged?
    requires Current(s, e) || p.Nil?
    requires p.At? || InRead(s, e) || !InDirty(s, e)
    requires forall k :: Exempt(s, k) ==> Exempt(s', k)
    ensures ExpungedOk(s') == true
  {
    hide Exempt, AbsAt;
    PtrFrame(s, s', t, e, p);
  }

  lemma StoreGuarantee(s: State, s': State, t: Tid, e: EntryId, p: Ptr)
    requires MapsOk(s) && SetsPtr(s, s', t, e, p) && !p.Expunged? && !P(s, e).Expunged?
    requires Current(s, e) || (p.Nil? && Detached(s.threads[t], e))
    ensures Guarantee(s, s', t) == true
  {
    hide Detached;
    PtrFrame(s, s', t, e, p);
  }

  /** The compare-and-swaps and stores by which operations take effect. */
  lemma Stores(s: State, s': State, t: Tid, e: EntryId, p: Ptr, seen: Seen)
    requires (StepPre(s, t, seen) == true) && SetsPtr(s, s', t, e, p) && ForKey(s, s.threads[t], e)
    requires !p.Expunged? && !P(s, e).Expunged?
    requires LockStep(s, s', t) && DetachStep(s, s', t)
    requires forall k :: !Exempt(s, k) || s.lock != Some(t)
    requires p.At? || InRead(s, e) || !InDirty(s, e)
    requires
      var th, th' := s.threads[t], s'.threads[t];
      if Current(s, e) then th.lin == None && th'.lin.Some? && EffectAt(th.op, Val(P(s, e)), Val(p), th'.lin.value)
      else p.Nil? && Detached(th, e) && th'.lin == th.lin
    requires Arrives(s', t, seen) == true
    ensures StepOk(s, s', t, seen) == true
  {
    StoreMaps(s, s', t, e, p);
  }

  /** The lock holder may store into an entry it holds: it is live and not expunged. */
  lemma LockHeldLive(s: State, th: Thread, e: EntryId)
    requires MapsOk(s) && ExpungedOk(s) && LockHeld(s, th, e)
    ensures Current(s, e) && !P(s, e).Expunged? && AbsAt(s, th.op.key) == Val(P(s, e))
  {
  }

  lemma FastHeldLive(s: State, th: Thread, e: EntryId, seen: Seen)
    requires MapsOk(s) && FastHeld(s, th, e, seen) && !P(s, e).Expunged?
    ensures InRead(s, e) && AbsAt(s, th.op.key) == Val(P(s, e))
  {
  }

  /** Making `dirty` the new `read`: keys it lacks were expunged, so absent. */
  lemma PromoteLookups(s: State, s': State)
    requires MapsOk(s) && ExpungedOk(s) && s.dirty.Some? && s'.ents == s.ents
    requires s'.read == DirtyMap(s) && s'.dirty == None
    requires forall k :: !Exempt(s, k)
    ensures forall k :: AbsAt(s', k) == AbsAt(s, k)
    ensures forall e: EntryId :: InRead(s, e) ==>
            InRead(s', e) || (P(s', e).Expunged? && AbsAt(s, s.ents[e].key) == None)
    ensures forall e: EntryId :: e < |s.ents| && !InRead(s, e) && P(s, e).Expunged? ==> !InRead(s', e)
    ensures forall e: EntryId :: Current(s, e) ==> Current(s', e) || AbsAt(s, s.ents[e].key) == None
    ensures forall e: EntryId :: Current(s', e) ==> Current(s, e)
  {
    hide Exempt;
    forall k ensures AbsAt(s', k) == AbsAt(s, k) {
      if k in s.read && k !in DirtyMap(s) { assert P(s, s.read[k]).Expunged?; }
    }
  }

  lemma PromoteMaps(s: State, s': State, t: Tid)
    requires MapsOk(s) && ExpungedOk(s) && OnlyMoves(s, s', t) && s.lock == Some(t) && s'.lock == s.lock
    requires s.dirty.Some? && s'.ents == s.ents && s'.read == DirtyMap(s) && !s'.amended && s'.dirty == None
    requires s'.threads[t].lin == s.threads[t].lin
    requires forall k :: !Exempt(s, k)
    ensures MapsOk(s') && ExpungedOk(s') && Guarantee(s, s', t) && Effect(s, s', t)
  {
    PromoteLookups(s, s');
    hide Exempt, AbsAt, InRead, Current, Detached;
  }

  lemma AfterUnlockKept(s: State, s': State, t: Tid, th: Thread, pc: PC, seen: Seen)
    requires MapsOk(s) && Guarantee(s, s', t) && (AfterUnlock(s, th, pc, seen) == true)
    requires s'.ents == s.ents
    ensures AfterUnlock(s', th, pc, Extend(s', th, seen)) == true
  {
  }

  lemma Promotes(s: State, s': State, t: Tid, seen: Seen)
    requires (StepPre(s, t, seen) == true) && OnlyMoves(s, s', t) && s.lock == Some(t) && s'.lock == s.lock
    requires s.dirty.Some? && s'.ents == s.ents && s'.read == DirtyMap(s) && !s'.amended && s'.dirty == None
    requires s'.threads[t].lin == s.threads[t].lin && s'.threads[t].pc.Unlock?
    requires forall k :: !Exempt(s, k)
    requires forall e: EntryId :: Detached(s'.threads[t], e) ==> Detached(s.threads[t], e)
    requires AfterUnlock(s, s.threads[t], s'.threads[t].pc.next, seen) == true
    ensures StepOk(s, s', t, seen) == true
  {
    PromoteMaps(s, s', t);
    AfterUnlockKept(s, s', t, s.threads[t], s'.threads[t].pc.next, seen);
  }

  /** LoadAndDelete takes an entry only `dirty` has out of it: the key is absent from here on. */
  ghost predicate Detaches(s: State, s': State, t: Tid, k: Key) {
    && OnlyMoves(s, s', t) && s.lock == Some(t) && s'.lock == s.lock
    && k in DirtyMap(s) && k !in s.read && s.amended
    && s'.ents == s.ents && s'.read == s.read && s'.amended == s.amended && s'.dirty == Some(DirtyMap(s) - {k})
  }

  lemma DetachLookups(s: State, s': State, t: Tid, k: Key)
    requires MapsOk(s) && Detaches(s, s', t, k)
    ensures forall e: EntryId :: InRead(s', e) == InRead(s, e)
    ensures forall e: EntryId :: Current(s', e) == (Current(s, e) && e != DirtyMap(s)[k])
    ensures DirtyMap(s)[k] < |s.ents| && s.ents[DirtyMap(s)[k]].key == k
    ensures forall x :: AbsAt(s', x) == if x == k then None else AbsAt(s, x)
  {
  }

  lemma DetachOk(s: State, s': State, t: Tid, k: Key)
    requires MapsOk(s) && ExpungedOk(s) && Detaches(s, s', t, k) && forall x :: !Exempt(s, x)
    ensures MapsOk(s') && ExpungedOk(s')
  {
    hide AbsAt, Exempt;
  }

  lemma DetachMaps(s: State, s': State, t: Tid, k: Key)
    requires MapsOk(s) && ExpungedOk(s) && Detaches(s, s', t, k) && forall x :: !Exempt(s, x)
    ensures MapsOk(s') && ExpungedOk(s') && Guarantee(s, s', t)
    ensures forall x :: AbsAt(s', x) == if x == k then None else AbsAt(s, x)
    ensures !Current(s', DirtyMap(s)[k])
  {
    DetachLookups(s, s', t, k);
    DetachOk(s, s', t, k);
    assert forall e: EntryId :: InRead(s, e) ==> e < |s.ents|;
    hide MapsOk, ExpungedOk, Exempt, AbsAt, InRead, InDirty, Detached, Current;
  }

  /** Copying an entry of `read` into `dirty`. */
  lemma CopyMaps(s: State, s': State, t: Tid, k: Key)
    requires MapsOk(s) && ExpungedOk(s) && OnlyMoves(s, s', t) && s.lock == Some(t) && s'.lock == s.lock
    requires k in s.read && s.dirty.Some? && !P(s, s.read[k]).Expunged?
    requires s'.ents == s.ents && s'.read == s.read && s'.amended == s.amended
    requires s'.dirty == Some(DirtyMap(s)[k := s.read[k]])
    requires s'.threads[t].lin == s.threads[t].lin
    requires forall x :: Exempt(s, x) && x != k ==> Exempt(s', x)
    ensures MapsOk(s') && ExpungedOk(s') && Guarantee(s, s', t) && Effect(s, s', t)
  {
    hide Guarantee, Effect, Exempt;
    CopyLookups(s, s', k);
    SameLookups(s, s', t);
  }

  lemma CopyLookups(s: State, s': State, k: Key)
    requires MapsOk(s) && k in s.read && s.dirty.Some?
    requires s'.ents == s.ents && s'.read == s.read && s'.dirty == Some(DirtyMap(s)[k := s.read[k]])
    ensures forall e: EntryId :: InRead(s', e) == InRead(s, e) && Current(s', e) == Current(s, e)
    ensures forall x :: AbsAt(s', x) == AbsAt(s, x)
  {
  }

  /** dirtyLocked begins with an empty `dirty`, and every key of `read` to copy. */
  lemma EmptyMaps(s: State, s': State, t: Tid)
    requires MapsOk(s) && ExpungedOk(s) && OnlyMoves(s, s', t) && s.lock == Some(t) && s'.lock == s.lock
    requires s.dirty == None && s'.ents == s.ents && s'.read == s.read
    requires s'.amended == s.amended && s'.dirty == Some(map[])
    requires s'.threads[t].lin == s.threads[t].lin
    requires forall x :: x in s.read ==> Exempt(s', x)
    ensures MapsOk(s') && ExpungedOk(s') && Guarantee(s, s', t) && Effect(s, s', t)
  {
    hide Guarantee, Effect, Exempt;
    SameLookups(s, s', t);
  }

  /** And ends by marking `read` as amended. */
  lemma AmendMaps(s: State, s': State, t: Tid)
    requires MapsOk(s) && ExpungedOk(s) && OnlyMoves(s, s', t) && s.lock == Some(t) && s'.lock == s.lock
    requires s.dirty.Some? && s'.ents == s.ents && s'.read == s.read && s'.amended && s'.dirty == s.dirty
    requires s'.threads[t].lin == s.threads[t].lin && forall x :: !Exempt(s, x)
    ensures MapsOk(s') && ExpungedOk(s') && Guarantee(s, s', t) && Effect(s, s', t)
  {
    hide Guarantee, Effect, Exempt;
    SameLookups(s, s', t);
  }

  /** Taking the expunged mark off an entry that goes into `dirty` next. */
  lemma UnexpungeMaps(s: State, s': State, t: Tid, e: EntryId)
    requires MapsOk(s) && ExpungedOk(s) && SetsPtr(s, s', t, e, Nil) && s.lock == Some(t)
    requires InRead(s, e) && P(s, e).Expunged? && s'.threads[t].lin == s.threads[t].lin
    requires Exempt(s', s.ents[e].key) && forall x :: !Exempt(s, x)
    ensures MapsOk(s') && ExpungedOk(s') && Guarantee(s, s', t) && Effect(s, s', t)
    ensures s'.dirty.Some? && s.ents[e].key !in DirtyMap(s')
  {
    hide Exempt;
    PtrFrame(s, s', t, e, Nil);
  }

  /** Expunging a deleted entry while `dirty` is being made. */
  lemma ExpungeMaps(s: State, s': State, t: Tid, k: Key)
    requires MapsOk(s) && ExpungedOk(s) && s.lock == Some(t) && k in s.read && k !in DirtyMap(s)
    requires SetsPtr(s, s', t, s.read[k], Expunged) && P(s, s.read[k]).Nil? && s.dirty.Some?
    requires s'.threads[t].lin == s.threads[t].lin
    requires forall x :: Exempt(s, x) && x != k ==> Exempt(s', x)
    ensures MapsOk(s') && ExpungedOk(s') && Guarantee(s, s', t) && Effect(s, s', t)
  {
    PtrFrame(s, s', t, s.read[k], Expunged);
  }

  /** A new entry, for a key neither map has. */
  ghost predicate Inserts(s: State, s': State, t: Tid, k: Key, p: Ptr) {
    && OnlyMoves(s, s', t) && s.lock == Some(t) && s'.lock == s.lock
    && s.dirty.Some? && s.amended && k !in s.read && k !in DirtyMap(s) && p.At?
    && s'.ents == s.ents + [Entry(k, p)] && s'.read == s.read && s'.amended
    && s'.dirty == Some(DirtyMap(s)[k := |s.ents|])
  }

  lemma InsertLookups(s: State, s': State, t: Tid, k: Key, p: Ptr)
    requires MapsOk(s) && Inserts(s, s', t, k, p)
    ensures |s.ents| < |s'.ents| && forall e: EntryId :: e < |s.ents| ==> s'.ents[e] == s.ents[e] && P(s', e) == P(s, e)
    ensures forall e: EntryId :: e < |s.ents| ==> InRead(s', e) == InRead(s, e) && InDirty(s', e) == InDirty(s, e)
    ensures AbsAt(s, k) == None
    ensures forall x :: AbsAt(s', x) == if x == k then Some(p.v) else AbsAt(s, x)
  {
    assert forall e: EntryId :: e < |s.ents| ==> s'.ents[e] == s.ents[e];
  }

  lemma InsertOk(s: State, s': State, t: Tid, k: Key, p: Ptr)
    requires MapsOk(s) && ExpungedOk(s) && Inserts(s, s', t, k, p) && forall x :: !Exempt(s, x)
    ensures MapsOk(s') && ExpungedOk(s')
  {
    hide AbsAt, Exempt;
    assert forall e: EntryId :: e < |s.ents| ==> s'.ents[e] == s.ents[e];
  }

  lemma InsertMaps(s: State, s': State, t: Tid, k: Key, p: Ptr)
    requires MapsOk(s) && ExpungedOk(s) && Inserts(s, s', t, k, p) && forall x :: !Exempt(s, x)
    ensures MapsOk(s') && ExpungedOk(s') && Guarantee(s, s', t)
    ensures AbsAt(s, k) == None
    ensures forall x :: AbsAt(s', x) == if x == k then Some(p.v) else AbsAt(s, x)
  {
    InsertLookups(s, s', t, k, p);
    InsertOk(s, s', t, k, p);
    hide MapsOk, ExpungedOk, Exempt, AbsAt, InRead, InDirty, Detached, P;
    assert forall e: EntryId :: Current(s, e) ==> e < |s.ents|;
  }

  lemma Effective(s': State, t: Tid, seen: Seen, r: Result)
    requires t in s'.threads && s'.threads[t].pc == Unlock(Return(r)) && s'.threads[t].lin == Some(r)
    ensures Arrives(s', t, seen) == true
  {
  }

  /** What a lookup finds was made for its key. */
  lemma LookUp(s: State, k: Key)
    requires MapsOk(s)
    ensures k in s.read ==> InRead(s, s.read[k]) && s.ents[s.read[k]].key == k
    ensures k in DirtyMap(s) ==> InDirty(s, DirtyMap(s)[k]) && s.ents[DirtyMap(s)[k]].key == k
    ensures if s.amended then s.dirty.Some? else k !in s.read ==> k !in DirtyMap(s)
  {
  }

  /** The lock holder is in the middle of making `dirty`, or of putting an entry into it. */
  ghost predicate Window(pc: PC) {
    pc.CopyPick? || pc.CopyLoad? || pc.CopyCas? || pc.AddDirty?
  }

  /** What a thread knows depends on the entries and the maps. */
  lemma SameKnowledge(s: State, s': State, th: Thread, seen: Seen)
    requires s'.ents == s.ents && s'.read == s.read && s'.amended == s.amended && s'.dirty == s.dirty
    ensures ThreadOk(s', th, seen) == ThreadOk(s, th, seen)
    ensures Extend(s', th, seen) == Extend(s, th, seen)
  {
    hide FastHeld, LockHeld, LoadHeld, DeleteHeld, ResultOk, AbsAt, Todo, AfterUnlock;
    assert DirtyMap(s') == DirtyMap(s);
    assert forall e: EntryId :: P(s', e) == P(s, e) && InRead(s', e) == InRead(s, e) && InDirty(s', e) == InDirty(s, e);
    assert forall k :: AbsAt(s', k) == AbsAt(s, k) by { SameContents(s, s'); }
    SameHolds(s, s', th, seen);
    SameAfter(s, s', th, seen);
    assert forall todo :: Todo(s', todo) == Todo(s, todo) by { SameTodo(s, s'); }
  }

  lemma SameContents(s: State, s': State)
    requires s'.ents == s.ents && s'.read == s.read && s'.dirty == s.dirty
    ensures forall k :: AbsAt(s', k) == AbsAt(s, k)
  {
    assert DirtyMap(s') == DirtyMap(s);
    assert forall e: EntryId :: P(s', e) == P(s, e);
  }

  lemma SameTodo(s: State, s': State)
    requires s'.ents == s.ents && s'.read == s.read && s'.dirty == s.dirty
    ensures forall todo :: Todo(s', todo) == Todo(s, todo)
  {
    assert DirtyMap(s') == DirtyMap(s);
    assert forall e: EntryId :: P(s', e) == P(s, e);
  }

  lemma SameHolds(s: State, s': State, th: Thread, seen: Seen)
    requires s'.ents == s.ents && s'.read == s.read && s'.dirty == s.dirty
    ensures forall e: EntryId :: FastHeld(s', th, e, seen) == FastHeld(s, th, e, seen)
    ensures forall e: EntryId :: LockHeld(s', th, e) == LockHeld(s, th, e)
    ensures forall e: EntryId :: LoadHeld(s', th, e, seen) == LoadHeld(s, th, e, seen)
    ensures forall e: EntryId :: DeleteHeld(s', th, e, seen) == DeleteHeld(s, th, e, seen)
  {
    assert DirtyMap(s') == DirtyMap(s);
    assert forall e: EntryId :: P(s', e) == P(s, e) && InRead(s', e) == InRead(s, e) && InDirty(s', e) == InDirty(s, e);
  }

  lemma SameAfter(s: State, s': State, th: Thread, seen: Seen)
    requires s'.ents == s.ents && s'.read == s.read && s'.dirty == s.dirty
    ensures forall pc :: AfterUnlock(s', th, pc, seen) == AfterUnlock(s, th, pc, seen)
  {
    hide FastHeld, LoadHeld, DeleteHeld, ResultOk;
    SameHolds(s, s', th, seen);
  }

  /** A step to the program counter `pc` and nothing else. */
  lemma Goes(s: State, t: Tid, pc: PC, seen: Seen)
    requires StepPre(s, t, seen) == true
    requires !Window(s.threads[t].pc) && (InCS(pc) <==> InCS(s.threads[t].pc))
    requires
      var th' := s.threads[t].(pc := pc);
      (forall e: EntryId :: Detached(th', e) ==> Detached(s.threads[t], e) || Current(s, e)) &&
      ThreadOk(s, th', Extend(s, th', seen)) == true
    ensures StepOk(s, Goto(s, t, pc), t, seen) == true
  {
    hide StepOk, ThreadOk, MapsOk, ExpungedOk, InCS, Detached, Current, Extend, Window;
    var s', th' := Goto(s, t, pc), s.threads[t].(pc := pc);
    SameKnowledge(s, s', th', Extend(s, th', seen));
    SameKnowledge(s, s', th', seen);
    NoWindow(s, t);
    Quiet(s, s', t, seen);
  }

  lemma NoWindow(s: State, t: Tid)
    requires t in s.threads && !Window(s.threads[t].pc)
    ensures s.lock == Some(t) ==> forall k :: !Exempt(s, k)
    ensures s.lock != Some(t) ==> forall pc, k :: Exempt(Goto(s, t, pc), k) == Exempt(s, k)
  {
  }

  lemma StepReadSnap(s: State, t: Tid, c: Choice, seen: Seen)
    requires StepPre(s, t, seen) && s.threads[t].pc.ReadSnap?
    ensures StepOk(s, Exec(s, t, c), t, seen) == true
  {
    hide StepOk, MapsOk, ExpungedOk;
    var op := s.threads[t].op;
    match op
    case Range => Goes(s, t, if s.amended then Lock else Iterate(s.read), seen);
    case Load(k) =>
      LookUp(s, k);
      Goes(s, t, if k in s.read then LoadEntry(s.read[k]) else if s.amended then Lock else Return(Absent), seen);
    case Store(k, _) =>
      LookUp(s, k);
      Goes(s, t, if k in s.read then StoreLoad(s.read[k]) else Lock, seen);
    case LoadOr(k, _) =>
      LookUp(s, k);
      Goes(s, t, if k in s.read then TryLoad(s.read[k], Fast) else Lock, seen);
    case LoadAndDelete(k) =>
      LookUp(s, k);
      Goes(s, t, if k in s.read then DeleteLoad(s.read[k]) else if s.amended then Lock else Return(Absent), seen);
  }

  lemma StepLock(s: State, t: Tid, c: Choice, seen: Seen)
    requires StepPre(s, t, seen) && s.threads[t].pc.Lock?
    ensures StepOk(s, Exec(s, t, c), t, seen) == true
  {
    hide StepOk, Guarantee, Effect, MapsOk, ExpungedOk;
    Quiet(s, Exec(s, t, c), t, seen);
  }

  lemma StepUnlock(s: State, t: Tid, c: Choice, seen: Seen)
    requires StepPre(s, t, seen) && s.threads[t].pc.Unlock?
    ensures StepOk(s, Exec(s, t, c), t, seen) == true
  {
    hide StepOk, Guarantee, Effect, MapsOk, ExpungedOk;
    Quiet(s, Exec(s, t, c), t, seen);
  }

  lemma StepIterate(s: State, t: Tid, c: Choice, seen: Seen)
    requires StepPre(s, t, seen) && s.threads[t].pc.Iterate?
    ensures StepOk(s, Exec(s, t, c), t, seen) == true
  {
    hide StepOk, MapsOk, ExpungedOk;
    var left := s.threads[t].pc.left;
    var ends := left == map[] || (c.key in left && P(s, left[c.key]).At? && c.stop);
    Goes(s, t, if ends then Return(Done) else Iterate(left - {c.key}), seen);
  }

  lemma StepLoadEntry(s: State, t: Tid, c: Choice, seen: Seen)
    requires StepPre(s, t, seen) && s.threads[t].pc.LoadEntry?
    ensures StepOk(s, Exec(s, t, c), t, seen) == true
  {
    hide StepOk, MapsOk, ExpungedOk;
    var e := s.threads[t].pc.e;
    Goes(s, t, Return(if P(s, e).At? then Present(P(s, e).v) else Absent), seen);
  }

  lemma StepStoreLoad(s: State, t: Tid, c: Choice, seen: Seen)
    requires StepPre(s, t, seen) && s.threads[t].pc.StoreLoad?
    ensures StepOk(s, Exec(s, t, c), t, seen) == true
  {
    hide StepOk, MapsOk, ExpungedOk;
    var e := s.threads[t].pc.e;
    Goes(s, t, if P(s, e).Expunged? then Lock else StoreCas(e, P(s, e)), seen);
  }

  lemma StepDeleteLoad(s: State, t: Tid, c: Choice, seen: Seen)
    requires StepPre(s, t, seen) && s.threads[t].pc.DeleteLoad?
    ensures StepOk(s, Exec(s, t, c), t, seen) == true
  {
    hide StepOk, MapsOk, ExpungedOk;
    var e := s.threads[t].pc.e;
    Goes(s, t, if P(s, e).At? then DeleteCas(e, P(s, e)) else Return(Absent), seen);
  }

  lemma StepTryLoad(s: State, t: Tid, c: Choice, seen: Seen)
    requires StepPre(s, t, seen) && s.threads[t].pc.TryLoad?
    ensures StepOk(s, Exec(s, t, c), t, seen) == true
  {
    hide StepOk, MapsOk, ExpungedOk;
    var th := s.threads[t];
    TryGoes(s, t, th.pc.e, OfferedBy(th.op.src, c), th.pc.mode, seen);
  }

  /** What tryLoadOrStore does with what it loads. */
  function AfterTry(p: Ptr, e: EntryId, val: Value, mode: Mode): PC {
    match p
    case Expunged => FailExpunged(mode)
    case At(_, v) => Finish(mode, Loaded(v))
    case Nil => TryCas(e, val, mode)
  }

  lemma TryGoes(s: State, t: Tid, e: EntryId, val: Value, mode: Mode, seen: Seen)
    requires StepPre(s, t, seen) && (s.threads[t].pc.TryLoad? || s.threads[t].pc.TryReload?)
    requires e == s.threads[t].pc.e && mode == s.threads[t].pc.mode && Offers(s.threads[t].op.src, val)
    ensures StepOk(s, Goto(s, t, AfterTry(P(s, e), e, val, mode)), t, seen) == true
  {
    hide StepOk, MapsOk, ExpungedOk;
    var th := s.threads[t];
    if mode.Fast? {
      if !P(s, e).Expunged? { FastHeldLive(s, th, e, seen); }
    } else {
      LockHeldLive(s, th, e);
    }
    Goes(s, t, AfterTry(P(s, e), e, val, mode), seen);
  }

  lemma StepTryReload(s: State, t: Tid, c: Choice, seen: Seen)
    requires StepPre(s, t, seen) && s.threads[t].pc.TryReload?
    ensures StepOk(s, Exec(s, t, c), t, seen) == true
  {
    hide StepOk, MapsOk, ExpungedOk;
    var th := s.threads[t];
    TryGoes(s, t, th.pc.e, th.pc.val, th.pc.mode, seen);
  }

  lemma StepStoreCas(s: State, t: Tid, c: Choice, seen: Seen)
    requires StepPre(s, t, seen) && s.threads[t].pc.StoreCas?
    ensures StepOk(s, Exec(s, t, c), t, seen) == true
  {
    hide StepOk, Guarantee, Effect, MapsOk, ExpungedOk, Exempt;
    var th := s.threads[t];
    var e, p := th.pc.e, th.pc.p;
    if P(s, e) == p {
      FastHeldLive(s, th, e, seen);
      Stores(s, Exec(s, t, c), t, e, At(s.alloc, th.op.v), seen);
    } else {
      Goes(s, t, StoreLoad(e), seen);
    }
  }

  lemma StepTryCasFast(s: State, t: Tid, c: Choice, seen: Seen)
    requires StepPre(s, t, seen) && s.threads[t].pc.TryCas? && s.threads[t].pc.mode.Fast?
    ensures StepOk(s, Exec(s, t, c), t, seen) == true
  {
    hide StepOk, Guarantee, Effect, MapsOk, ExpungedOk, Exempt;
    var th := s.threads[t];
    var e := th.pc.e;
    if P(s, e).Nil? {
      FastHeldLive(s, th, e, seen);
      Stores(s, Exec(s, t, c), t, e, At(s.alloc, th.pc.val), seen);
    } else {
      Goes(s, t, TryReload(e, th.pc.val, th.pc.mode), seen);
    }
  }

  lemma StepTryCasLocked(s: State, t: Tid, c: Choice, seen: Seen)
    requires StepPre(s, t, seen) && s.threads[t].pc.TryCas? && !s.threads[t].pc.mode.Fast?
    ensures StepOk(s, Exec(s, t, c), t, seen) == true
  {
    hide StepOk, Guarantee, Effect, MapsOk, ExpungedOk;
    var th := s.threads[t];
    var e := th.pc.e;
    LockHeldLive(s, th, e);
    if P(s, e).Nil? {
      Stores(s, Exec(s, t, c), t, e, At(s.alloc, th.pc.val), seen);
    } else {
      Goes(s, t, TryReload(e, th.pc.val, th.pc.mode), seen);
    }
  }

  lemma StepDeleteCas(s: State, t: Tid, c: Choice, seen: Seen)
    requires StepPre(s, t, seen) && s.threads[t].pc.DeleteCas?
    ensures StepOk(s, Exec(s, t, c), t, seen) == true
  {
    hide StepOk, Guarantee, Effect, MapsOk, ExpungedOk, Exempt;
    var th := s.threads[t];
    var e, p := th.pc.e, th.pc.p;
    if P(s, e) == p {
      if th.lin.None? { FastHeldLive(s, th, e, seen); }
      Stores(s, Exec(s, t, c), t, e, Nil, seen);
    } else {
      Goes(s, t, DeleteLoad(e), seen);
    }
  }

  lemma StepLockedStore(s: State, t: Tid, c: Choice, seen: Seen)
    requires StepPre(s, t, seen) && s.threads[t].pc.LockedStore?
    ensures StepOk(s, Exec(s, t, c), t, seen) == true
  {
    hide StepOk, Guarantee, Effect, MapsOk, ExpungedOk;
    var th := s.threads[t];
    LockHeldLive(s, th, th.pc.e);
    Stores(s, Exec(s, t, c), t, th.pc.e, At(s.alloc, th.op.v), seen);
  }

  lemma StepUnexpunge(s: State, t: Tid, c: Choice, seen: Seen)
    requires StepPre(s, t, seen) && s.threads[t].pc.Unexpunge?
    ensures StepOk(s, Exec(s, t, c), t, seen) == true
  {
    hide Guarantee, Effect, MapsOk, ExpungedOk;
    var th := s.threads[t];
    var e := th.pc.e;
    if P(s, e).Expunged? {
      UnexpungeMaps(s, Exec(s, t, c), t, e);
    } else {
      Unexpunged(s, e);
      Goes(s, t, Locked(th.op, e), seen);
    }
  }

  lemma Unexpunged(s: State, e: EntryId)
    requires MapsOk(s) && ExpungedOk(s) && InRead(s, e) && !P(s, e).Expunged? && forall x :: !Exempt(s, x)
    ensures InDirty(s, e) || s.dirty.None?
  {
    hide Exempt;
  }

  lemma StepAddDirty(s: State, t: Tid, c: Choice, seen: Seen)
    requires StepPre(s, t, seen) && s.threads[t].pc.AddDirty?
    ensures StepOk(s, Exec(s, t, c), t, seen) == true
  {
    hide Guarantee, Effect, MapsOk, ExpungedOk;
    CopyMaps(s, Exec(s, t, c), t, s.threads[t].op.key);
  }

  lemma StepRangeLocked(s: State, t: Tid, c: Choice, seen: Seen)
    requires StepPre(s, t, seen) && s.threads[t].pc.ReadLocked? && s.threads[t].op.Range?
    ensures StepOk(s, Exec(s, t, c), t, seen) == true
  {
    hide StepOk, Guarantee, Effect, MapsOk, ExpungedOk;
    LookUp(s, c.key);
    if s.amended { Promotes(s, Exec(s, t, c), t, seen); } else { Goes(s, t, Unlock(Iterate(s.read)), seen); }
  }

  lemma DirtyOnly(s: State, k: Key)
    requires MapsOk(s) && ExpungedOk(s) && k in DirtyMap(s) && k !in s.read
    ensures var e := DirtyMap(s)[k]; InDirty(s, e) && s.ents[e].key == k
    ensures var e := DirtyMap(s)[k]; P(s, e).At? && AbsAt(s, k) == Some(P(s, e).v)
  {
  }

  lemma StepDetach(s: State, t: Tid, c: Choice, seen: Seen)
    requires StepPre(s, t, seen) && s.threads[t].pc.ReadLocked? && s.threads[t].op.LoadAndDelete?
    requires s.threads[t].op.key !in s.read && s.amended && s.threads[t].op.key in DirtyMap(s)
    ensures StepOk(s, Exec(s, t, c), t, seen) == true
  {
    hide Guarantee, MapsOk, ExpungedOk;
    var th, k := s.threads[t], s.threads[t].op.key;
    DirtyOnly(s, k);
    var s' := Exec(s, t, c);
    assert s'.threads[t] == Thread(th.op, Miss(DeleteLoad(DirtyMap(s)[k])), Some(Present(P(s, DirtyMap(s)[k]).v)));
    DetachMaps(s, s', t, k);
  }

  lemma StepDeleteLocked(s: State, t: Tid, c: Choice, seen: Seen)
    requires StepPre(s, t, seen) && s.threads[t].pc.ReadLocked? && s.threads[t].op.LoadAndDelete?
    ensures StepOk(s, Exec(s, t, c), t, seen) == true
  {
    hide StepOk, MapsOk, ExpungedOk;
    var k, dirty := s.threads[t].op.key, DirtyMap(s);
    LookUp(s, k);
    if k in s.read {
      Goes(s, t, Unlock(DeleteLoad(s.read[k])), seen);
    } else if s.amended && k in dirty {
      StepDetach(s, t, c, seen);
    } else {
      Goes(s, t, if s.amended then Miss(Return(Absent)) else Unlock(Return(Absent)), seen);
    }
  }

  lemma StepReadLocked(s: State, t: Tid, c: Choice, seen: Seen)
    requires StepPre(s, t, seen) && s.threads[t].pc.ReadLocked?
    requires !s.threads[t].op.Range? && !s.threads[t].op.LoadAndDelete?
    ensures StepOk(s, Exec(s, t, c), t, seen) == true
  {
    hide StepOk, MapsOk, ExpungedOk;
    var op, k, dirty := s.threads[t].op, s.threads[t].op.key, DirtyMap(s);
    LookUp(s, k);
    if op.Load? {
      Goes(s, t,
           if k in s.read then Unlock(LoadEntry(s.read[k]))
           else if !s.amended then Unlock(Return(Absent))
           else Miss(if k in dirty then LoadEntry(dirty[k]) else Return(Absent)), seen);
    } else {
      LockedGoes(s, t, seen);
    }
  }

  /** Store and LoadOr under the lock. */
  lemma LockedGoes(s: State, t: Tid, seen: Seen)
    requires StepPre(s, t, seen) && s.threads[t].pc.ReadLocked? && (s.threads[t].op.Store? || s.threads[t].op.LoadOr?)
    ensures
      var op, k, dirty := s.threads[t].op, s.threads[t].op.key, DirtyMap(s);
      var pc :=
        if k in s.read then Unexpunge(s.read[k]) else if k in dirty then LockedInDirty(op, dirty[k])
        else if !s.amended then CopyInit else Insert;
      StepOk(s, Goto(s, t, pc), t, seen) == true
  {
    hide StepOk, MapsOk, ExpungedOk;
    var op, k, dirty := s.threads[t].op, s.threads[t].op.key, DirtyMap(s);
    LookUp(s, k);
    if k in s.read {
      Goes(s, t, Unexpunge(s.read[k]), seen);
    } else if k in dirty {
      Goes(s, t, LockedInDirty(op, dirty[k]), seen);
    } else {
      Goes(s, t, if !s.amended then CopyInit else Insert, seen);
    }
  }

  lemma StepMiss(s: State, t: Tid, c: Choice, seen: Seen)
    requires StepPre(s, t, seen) && s.threads[t].pc.Miss?
    ensures StepOk(s, Exec(s, t, c), t, seen) == true
  {
    hide StepOk, Guarantee, Effect, MapsOk, ExpungedOk;
    var s', th := Exec(s, t, c), s.threads[t];
    if s.misses + 1 < |DirtyMap(s)| {
      Quiet(s, s', t, seen);
    } else {
      Promotes(s, s', t, seen);
    }
  }

  lemma StepCopyInit(s: State, t: Tid, c: Choice, seen: Seen)
    requires StepPre(s, t, seen) && s.threads[t].pc.CopyInit?
    ensures StepOk(s, Exec(s, t, c), t, seen) == true
  {
    if s.dirty.Some? {
      hide StepOk, Guarantee, Effect, MapsOk, ExpungedOk;
      Goes(s, t, Amend, seen);
    } else {
      AllToCopy(s);
      hide Guarantee, Effect, MapsOk, ExpungedOk;
      EmptyMaps(s, Exec(s, t, c), t);
    }
  }

  lemma AllToCopy(s: State)
    requires ExpungedOk(s) && s.dirty.None?
    ensures forall k :: k in s.read ==> !P(s, s.read[k]).Expunged?
  {
  }

  lemma StepCopyPick(s: State, t: Tid, c: Choice, seen: Seen)
    requires StepPre(s, t, seen) && s.threads[t].pc.CopyPick?
    ensures StepOk(s, Exec(s, t, c), t, seen) == true
  {
    hide StepOk, Guarantee, Effect, MapsOk, ExpungedOk;
    Quiet(s, Exec(s, t, c), t, seen);
  }

  lemma StepCopyLoad(s: State, t: Tid, c: Choice, seen: Seen)
    requires StepPre(s, t, seen) && s.threads[t].pc.CopyLoad?
    ensures StepOk(s, Exec(s, t, c), t, seen) == true
  {
    hide Guarantee, MapsOk, ExpungedOk;
    var s', k := Exec(s, t, c), s.threads[t].pc.k;
    LookUp(s, k);
    if P(s, s.read[k]).At? {
      CopyMaps(s, s', t, k);
    } else {
      Quiet(s, s', t, seen);
    }
  }

  lemma StepCopyCas(s: State, t: Tid, c: Choice, seen: Seen)
    requires StepPre(s, t, seen) && s.threads[t].pc.CopyCas?
    ensures StepOk(s, Exec(s, t, c), t, seen) == true
  {
    hide Guarantee, MapsOk, ExpungedOk;
    var s', k := Exec(s, t, c), s.threads[t].pc.k;
    LookUp(s, k);
    if P(s, s.read[k]).Nil? {
      ExpungeMaps(s, s', t, k);
    } else {
      Quiet(s, s', t, seen);
    }
  }

  lemma StepAmend(s: State, t: Tid, c: Choice, seen: Seen)
    requires StepPre(s, t, seen) && s.threads[t].pc.Amend?
    ensures StepOk(s, Exec(s, t, c), t, seen) == true
  {
    LookUp(s, s.threads[t].op.key);
    hide Guarantee, Effect, MapsOk, ExpungedOk;
    AmendMaps(s, Exec(s, t, c), t);
  }

  lemma StepInsert(s: State, t: Tid, c: Choice, seen: Seen)
    requires StepPre(s, t, seen) && s.threads[t].pc.Insert?
    ensures StepOk(s, Exec(s, t, c), t, seen) == true
  {
    hide Guarantee, MapsOk, ExpungedOk;
    var th := s.threads[t];
    var v := if th.op.Store? then th.op.v else OfferedBy(th.op.src, c);
    var r := if th.op.Store? then Done else Stored(v);
    var s' := Exec(s, t, c);
    assert s'.threads[t] == Thread(th.op, Unlock(Return(r)), Some(r));
    Effective(s', t, seen, r);
    InsertMaps(s, s', t, th.op.key, At(s.alloc, v));
  }

  lemma FastKept(s: State, s': State, t: Tid, th: Thread, e: EntryId, seen: Seen)
    requires Guarantee(s, s', t) && FastHeld(s, th, e, seen)
    ensures FastHeld(s', th, e, Extend(s', th, seen))
  {
    hide AbsAt, Current, Detached;
  }

  lemma LockKept(s: State, s': State, t: Tid, th: Thread, e: EntryId)
    requires Guarantee(s, s', t) && s.lock.Some? && s.lock != Some(t) && LockHeld(s, th, e)
    ensures LockHeld(s', th, e)
  {
    hide AbsAt, Current, Detached, P;
  }

  lemma LoadKept(s: State, s': State, t: Tid, th: Thread, e: EntryId, seen: Seen)
    requires Guarantee(s, s', t) && LoadHeld(s, th, e, seen)
    ensures LoadHeld(s', th, e, Extend(s', th, seen))
  {
    hide AbsAt, Current, InRead, Detached;
  }

  lemma DeleteKept(s: State, s': State, t: Tid, u: Tid, e: EntryId, seen: Seen)
    requires Shared(s) && Guarantee(s, s', t) && u in s.threads && t != u
    requires DeleteHeld(s, s.threads[u], e, seen)
    requires s.threads[u].lin.Some? ==> Detached(s.threads[u], e)
    ensures DeleteHeld(s', s.threads[u], e, Extend(s', s.threads[u], seen))
  {
    hide MapsOk, ExpungedOk, LockOk, AbsAt, Current, InRead, FastHeld;
    if s.threads[u].lin.None? { FastKept(s, s', t, s.threads[u], e, seen); }
  }

  lemma AfterKept(s: State, s': State, t: Tid, u: Tid, pc: PC, seen: Seen)
    requires Shared(s) && Guarantee(s, s', t) && u in s.threads && t != u && AfterUnlock(s, s.threads[u], pc, seen)
    requires s.threads[u].pc == Miss(pc) || s.threads[u].pc == Unlock(pc)
    ensures AfterUnlock(s', s.threads[u], pc, Extend(s', s.threads[u], seen))
  {
    hide Shared, Guarantee, LoadHeld, DeleteHeld, AbsAt;
    match pc
    case LoadEntry(e) => LoadKept(s, s', t, s.threads[u], e, seen);
    case DeleteLoad(e) => DeleteKept(s, s', t, u, e, seen);
    case _ =>
  }

  /** What the lock holder relies on: nobody else changes the maps, or which entries are expunged. */
  lemma LockedKeep(s: State, s': State, t: Tid, th: Thread, seen: Seen)
    requires Guarantee(s, s', t) && s.lock.Some? && s.lock != Some(t) && MapsOk(s)
    requires ThreadOk(s, th, seen) && InCS(th.pc) && !th.pc.Miss? && !th.pc.Unlock?
    ensures ThreadOk(s', th, Extend(s', th, seen)) == true
  {
    hide FastHeld, LoadHeld, DeleteHeld, LockHeld, AfterUnlock, AbsAt, Current, Detached;
    match th.pc
    case TryLoad(e, _) => LockKept(s, s', t, th, e);
    case TryCas(e, _, _) => LockKept(s, s', t, th, e);
    case TryReload(e, _, _) => LockKept(s, s', t, th, e);
    case LockedStore(e) => LockKept(s, s', t, th, e);
    case _ =>
  }

  /** Rely meets guarantee: a thread's invariant survives any other thread's step. */
  lemma OthersKeep(s: State, s': State, t: Tid, u: Tid, seen: Seen)
    requires Shared(s) && Guarantee(s, s', t) && u in s.threads && t != u
    requires u in s.threads && ThreadOk(s, s.threads[u], seen)
    ensures ThreadOk(s', s.threads[u], Extend(s', s.threads[u], seen)) == true
  {
    hide FastHeld, LoadHeld, DeleteHeld, LockHeld, AfterUnlock, AbsAt, Guarantee, MapsOk, ExpungedOk, OneOwner;
    var th := s.threads[u];
    match th.pc
    case LoadEntry(e) => LoadKept(s, s', t, th, e, seen);
    case StoreLoad(e) => FastKept(s, s', t, th, e, seen);
    case StoreCas(e, _) => FastKept(s, s', t, th, e, seen);
    case DeleteLoad(e) => DeleteKept(s, s', t, u, e, seen);
    case DeleteCas(e, _) => DeleteKept(s, s', t, u, e, seen);
    case Miss(next) => MissKept(s, s', t, u, next, seen);
    case Unlock(next) => AfterKept(s, s', t, u, next, seen);
    case TryLoad(e, mode) => if mode.Fast? { FastKept(s, s', t, th, e, seen); } else { LockedKeep(s, s', t, th, seen); }
    case TryCas(e, _, mode) =>
      if mode.Fast? { FastKept(s, s', t, th, e, seen); } else { LockedKeep(s, s', t, th, seen); }
    case TryReload(e, _, mode) =>
      if mode.Fast? { FastKept(s, s', t, th, e, seen); } else { LockedKeep(s, s', t, th, seen); }
    case _ => if InCS(th.pc) { LockedKeep(s, s', t, th, seen); }
  }

  lemma MissKept(s: State, s': State, t: Tid, u: Tid, pc: PC, seen: Seen)
    requires Shared(s) && Guarantee(s, s', t) && u in s.threads && t != u && AfterUnlock(s, s.threads[u], pc, seen)
    requires s.threads[u].pc == Miss(pc) && s.dirty.Some?
    ensures AfterUnlock(s', s.threads[u], pc, Extend(s', s.threads[u], seen)) && s'.dirty.Some?
  {
    hide AfterUnlock, MapsOk, ExpungedOk, OneOwner, Extend;
    AfterKept(s, s', t, u, pc, seen);
  }
}
