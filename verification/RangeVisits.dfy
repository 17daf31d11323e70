/**
 What a concurrent Range shows its callback: no key twice, every pair as it was at
 some instant of the call, and every key that was there all along, unless the
 callback stops it.
 */
module RangeVisits {
  import opened Wrappers
  import opened PlainMap
  import opened ConcurrentMap
  import opened ConcurrentMapInv
  import opened ConcurrentMapSteps
  import opened Linearizability

  /** Action `i` is a step of Range's loop that calls the callback with `k` and `v`. */
  ghost predicate Shows(run: seq<State>, acts: seq<Action>, i: nat, t: Tid, k: Key, v: Value)
    requires |run| == |acts| + 1 && i < |acts|
  {
    acts[i].Tau? && acts[i].t == t && acts[i].c.key == k && t in run[i].threads && run[i].threads[t].pc.Iterate? &&
    var left := run[i].threads[t].pc.left;
    k in left && Val(P(run[i], left[k])) == Some(v)
  }

  /** And the callback stops the loop. */
  ghost predicate Stops(run: seq<State>, acts: seq<Action>, i: nat, t: Tid)
    requires |run| == |acts| + 1 && i < |acts|
  {
    acts[i].Tau? && acts[i].c.stop && exists k, v :: Shows(run, acts, i, t, k, v)
  }

  /** The entries that the loop has still to visit, once it has its snapshot. */
  function LeftOf(pc: PC): Option<map<Key, EntryId>> {
    match pc
    case Iterate(left) => Some(left)
    case Unlock(next) => if next.Iterate? then Some(next.left) else None
    case _ => None
  }

  /** The contents of `k` in the states behind action `c` up to `i`. */
  ghost function Since(run: seq<State>, c: nat, i: nat, k: Key): Seen
    requires i < |run|
  {
    if i <= c then {} else Since(run, c, i - 1, k) + {AbsAt(run[i], k)}
  }

  lemma {:induction false} SinceIs(run: seq<State>, c: nat, i: nat, k: Key, x: Option<Value>)
    requires i < |run|
    ensures x in Since(run, c, i, k) <==> exists j :: c < j <= i && AbsAt(run[j], k) == x
  {
    hide AbsAt;
    if i > c {
      SinceIs(run, c, i - 1, k, x);
    }
  }

  /** A lookup of `k` that has found the entry `e`. */
  function Asking(k: Key, e: EntryId): Thread {
    Thread(Load(k), LoadEntry(e), None)
  }

  /** Each entry of the snapshot holds what its key has held since, and is the present one unless the key was away. */
  ghost predicate Holds(run: seq<State>, c: nat, i: nat, left: map<Key, EntryId>)
    requires i < |run|
  {
    forall k :: k in left ==> LoadHeld(run[i], Asking(k, left[k]), left[k], Since(run, c, i, k))
  }

  lemma HoldsOn(run: seq<State>, acts: seq<Action>, c: nat, i: nat, left: map<Key, EntryId>)
    requires IsRun(run, acts) && c < i < |acts| && Holds(run, c, i, left)
    ensures Holds(run, c, i + 1, left)
  {
    hide Exec, Inv, Guarantee, LoadHeld, AbsAt, Effect;
    assert NextAt(run, acts, i);
    RunInv(run, acts, i);
    ActionKeepsInv(run[i], acts[i], run[i + 1], SeenAt(run, i));
    forall k | k in left ensures LoadHeld(run[i + 1], Asking(k, left[k]), left[k], Since(run, c, i + 1, k)) {
      LoadKept(run[i], run[i + 1], acts[i].t, Asking(k, left[k]), left[k], Since(run, c, i, k));
    }
  }

  /** The snapshot is `read` at one instant, which then has all there is. */
  lemma HoldsAtFirst(run: seq<State>, c: nat, i: nat)
    requires c < i < |run| && MapsOk(run[i])
    ensures Holds(run, c, i, run[i].read)
  {
    forall k | k in run[i].read ensures AbsAt(run[i], k) in Since(run, c, i, k) {}
  }

  /** Where a Range can be. */
  predicate InRange(pc: PC) {
    pc.ReadSnap? || pc.Lock? || pc.ReadLocked? || LeftOf(pc).Some? || pc.Return?
  }

  /** One step of a Range: on its own loop, or on the way to it. */
  ghost predicate Goes(s: State, pc: PC, s': State, pc': PC, c: Choice) {
    match LeftOf(pc)
    case Some(left) =>
      if pc.Unlock? then pc' == Iterate(left)
      else if left == map[] || (c.key in left && P(s, left[c.key]).At? && c.stop) then pc'.Return?
      else pc' == Iterate(left - {c.key})
    case None =>
      if LeftOf(pc').Some? then LeftOf(pc') == Some(s'.read) && !s'.amended
      else pc'.Return? ==> pc.Return?
  }

  lemma OwnStep(s: State, t: Tid, c: Choice)
    requires t in s.threads && s.threads[t].op.Range? && InRange(s.threads[t].pc)
    ensures t in Exec(s, t, c).threads && InRange(Exec(s, t, c).threads[t].pc)
    ensures Goes(s, s.threads[t].pc, Exec(s, t, c), Exec(s, t, c).threads[t].pc, c)
  {
    hide P;
  }

  /** What holds of a Range called at action `c`, in state `i`. */
  ghost predicate RangeOk(run: seq<State>, c: nat, i: nat, t: Tid)
    requires i < |run|
  {
    t in run[i].threads && run[i].threads[t].op.Range? && InRange(run[i].threads[t].pc) &&
    (LeftOf(run[i].threads[t].pc).Some? ==> Holds(run, c, i, LeftOf(run[i].threads[t].pc).value))
  }

  lemma OwnOn(run: seq<State>, acts: seq<Action>, c: nat, i: nat, t: Tid)
    requires IsRun(run, acts) && c < i < |acts| && RangeOk(run, c, i, t) && acts[i].Tau? && acts[i].t == t
    ensures RangeOk(run, c, i + 1, t)
    ensures Goes(run[i], run[i].threads[t].pc, run[i + 1], run[i + 1].threads[t].pc, acts[i].c)
  {
    hide Exec, Holds, Inv, P;
    assert NextAt(run, acts, i);
    OneAction(run, acts, i, t);
    OwnStep(run[i], t, acts[i].c);
    var pc, pc' := run[i].threads[t].pc, run[i + 1].threads[t].pc;
    if LeftOf(pc).Some? {
      HoldsOn(run, acts, c, i, LeftOf(pc).value);
      HoldsLess(run, c, i + 1, LeftOf(pc).value, acts[i].c.key);
    } else if LeftOf(pc').Some? {
      MapsAt(run, acts, i + 1);
      HoldsAtFirst(run, c, i + 1);
    }
  }

  lemma HoldsLess(run: seq<State>, c: nat, i: nat, left: map<Key, EntryId>, k: Key)
    requires i < |run| && Holds(run, c, i, left)
    ensures Holds(run, c, i, left - {k})
  {
    hide LoadHeld, AbsAt;
  }

  lemma MapsAt(run: seq<State>, acts: seq<Action>, i: nat)
    requires IsRun(run, acts) && i < |run|
    ensures MapsOk(run[i])
  {
    RunInv(run, acts, i);
  }

  lemma OtherOn(run: seq<State>, acts: seq<Action>, c: nat, i: nat, t: Tid)
    requires IsRun(run, acts) && c < i < |acts| && RangeOk(run, c, i, t) && acts[i].t != t
    ensures RangeOk(run, c, i + 1, t) && run[i + 1].threads[t] == run[i].threads[t]
  {
    hide Exec, Holds, Inv, Guarantee;
    assert NextAt(run, acts, i);
    RunInv(run, acts, i);
    ActionKeepsInv(run[i], acts[i], run[i + 1], SeenAt(run, i));
    var pc := run[i].threads[t].pc;
    if LeftOf(pc).Some? { HoldsOn(run, acts, c, i, LeftOf(pc).value); }
  }

  lemma {:induction false} RangeInv(run: seq<State>, acts: seq<Action>, c: nat, i: nat, t: Tid)
    requires IsRun(run, acts) && PendingSince(acts, c, i, t, Range)
    ensures RangeOk(run, c, i, t)
    decreases i
  {
    hide Exec, Holds, RangeOk;
    if i == c + 1 {
      assert NextAt(run, acts, c);
      RangeStarts(run, c, i, t);
    } else {
      RangeInv(run, acts, c, i - 1, t);
      NoSecondCall(run, acts, c, i - 1, t);
      if acts[i - 1].t == t { OwnOn(run, acts, c, i - 1, t); } else { OtherOn(run, acts, c, i - 1, t); }
    }
  }

  lemma RangeStarts(run: seq<State>, c: nat, i: nat, t: Tid)
    requires i < |run| && t in run[i].threads && run[i].threads[t] == Thread(Range, ReadSnap, None)
    ensures RangeOk(run, c, i, t)
  {
  }

  /** While an operation is pending the actions of its thread are steps. */
  lemma NoSecondCall(run: seq<State>, acts: seq<Action>, c: nat, i: nat, t: Tid)
    requires IsRun(run, acts) && i < |acts|
    requires PendingSince(acts, c, i, t, Range) && PendingSince(acts, c, i + 1, t, Range)
    ensures acts[i].t == t ==> acts[i].Tau?
  {
    assert NextAt(run, acts, i);
    Pending(run, acts, c, i, t, Range);
  }

  /** A pair that is shown was in the map in some state since the call. */
  lemma ShownWasThere(run: seq<State>, acts: seq<Action>, c: nat, j: nat, t: Tid, k: Key, v: Value)
    requires IsRun(run, acts) && j < |acts| && PendingSince(acts, c, j, t, Range) && Shows(run, acts, j, t, k, v)
    ensures exists i :: c < i <= j && AbsAt(run[i], k) == Some(v)
  {
    hide Exec, AbsAt, P;
    RangeInv(run, acts, c, j, t);
    SinceIs(run, c, j, k, Some(v));
  }

  /** The keys still to be visited at state `i` are to be visited later, and those that have been are not. */
  lemma {:induction false} LeftShrinks(run: seq<State>, acts: seq<Action>, c: nat, i: nat, j: nat, t: Tid, k: Key)
    requires IsRun(run, acts) && c < i <= j && PendingSince(acts, c, j, t, Range)
    requires t in run[i].threads && run[i].threads[t].pc.Iterate? && k !in run[i].threads[t].pc.left
    ensures t in run[j].threads
    ensures run[j].threads[t].pc.Return? || (run[j].threads[t].pc.Iterate? && k !in run[j].threads[t].pc.left)
    decreases j
  {
    hide Exec, Holds, P;
    RangeInv(run, acts, c, j, t);
    if i < j {
      LeftShrinks(run, acts, c, i, j - 1, t, k);
      RangeInv(run, acts, c, j - 1, t);
      NoSecondCall(run, acts, c, j - 1, t);
      if acts[j - 1].t == t {
        OwnOn(run, acts, c, j - 1, t);
        ReturnStaysAt(run, acts, j - 1, t);
      } else {
        OtherOn(run, acts, c, j - 1, t);
      }
    }
  }

  lemma ReturnStaysAt(run: seq<State>, acts: seq<Action>, i: nat, t: Tid)
    requires IsRun(run, acts) && i < |acts| && acts[i].Tau? && acts[i].t == t && t in run[i].threads
    ensures run[i].threads[t].pc.Return? ==> run[i + 1] == run[i]
  {
    hide Exec;
    assert NextAt(run, acts, i);
    if run[i].threads[t].pc.Return? { ReturnStays(run[i], t, acts[i].c); }
  }

  /** No key is shown twice. */
  lemma ShownOnce(run: seq<State>, acts: seq<Action>, c: nat, i: nat, j: nat, t: Tid, k: Key, v: Value, v': Value)
    requires IsRun(run, acts) && c < i < j < |acts| && PendingSince(acts, c, j, t, Range)
    ensures !(Shows(run, acts, i, t, k, v) && Shows(run, acts, j, t, k, v'))
  {
    hide Exec, Holds, P;
    if Shows(run, acts, i, t, k, v) {
      RangeInv(run, acts, c, i, t);
      OwnOn(run, acts, c, i, t);
      if run[i + 1].threads[t].pc.Iterate? {
        LeftShrinks(run, acts, c, i + 1, j, t, k);
      } else {
        StaysReturned(run, acts, c, i + 1, j, t);
      }
    }
  }

  lemma {:induction false} StaysReturned(run: seq<State>, acts: seq<Action>, c: nat, i: nat, j: nat, t: Tid)
    requires IsRun(run, acts) && c < i <= j && PendingSince(acts, c, j, t, Range)
    requires t in run[i].threads && run[i].threads[t].pc.Return?
    ensures t in run[j].threads && run[j].threads[t].pc.Return?
    decreases j
  {
    hide Exec, Holds;
    if i < j {
      StaysReturned(run, acts, c, i, j - 1, t);
      RangeInv(run, acts, c, j - 1, t);
      NoSecondCall(run, acts, c, j - 1, t);
      if acts[j - 1].t == t { ReturnStaysAt(run, acts, j - 1, t); } else { OtherOn(run, acts, c, j - 1, t); }
    }
  }

  /** The key is in the map in all states behind action `c` up to `j`. */
  ghost predicate Present(run: seq<State>, c: nat, j: nat, k: Key) {
    forall i :: c < i <= j && i < |run| ==> AbsAt(run[i], k).Some?
  }

  /** So far the key has not been shown, and the callback has not stopped the loop. */
  ghost predicate NotYet(run: seq<State>, acts: seq<Action>, c: nat, j: nat, t: Tid, k: Key)
    requires |run| == |acts| + 1 && j <= |acts|
  {
    (forall i, v :: c < i < j ==> !Shows(run, acts, i, t, k, v)) && (forall i :: c < i < j ==> !Stops(run, acts, i, t))
  }

  /** An entry of the snapshot whose key has been there all along holds what the key holds. */
  lemma PresentHolds(run: seq<State>, acts: seq<Action>, c: nat, i: nat, left: map<Key, EntryId>, k: Key)
    requires IsRun(run, acts) && c < i < |run| && Holds(run, c, i, left) && k in left && Present(run, c, i, k)
    ensures Val(P(run[i], left[k])) == AbsAt(run[i], k) && AbsAt(run[i], k).Some?
  {
    MapsAt(run, acts, i);
    SinceIs(run, c, i, k, None);
    hide Since;
  }

  lemma AllInRead(run: seq<State>, acts: seq<Action>, i: nat, k: Key)
    requires IsRun(run, acts) && i < |run| && !run[i].amended && AbsAt(run[i], k).Some?
    ensures k in run[i].read
  {
    MapsAt(run, acts, i);
  }

  lemma {:induction false} StillLeft(run: seq<State>, acts: seq<Action>, c: nat, j: nat, t: Tid, k: Key)
    requires IsRun(run, acts) && PendingSince(acts, c, j, t, Range) && Present(run, c, j, k)
    requires NotYet(run, acts, c, j, t, k)
    ensures t in run[j].threads && !run[j].threads[t].pc.Return?
    ensures LeftOf(run[j].threads[t].pc).Some? ==> k in LeftOf(run[j].threads[t].pc).value
    decreases j
  {
    hide Exec, Holds, P, AbsAt;
    if j == c + 1 {
      assert NextAt(run, acts, c);
    } else {
      var i := j - 1;
      StillLeft(run, acts, c, i, t, k);
      RangeInv(run, acts, c, i, t);
      NoSecondCall(run, acts, c, i, t);
      if acts[i].t != t {
        OtherOn(run, acts, c, i, t);
      } else {
        OwnOn(run, acts, c, i, t);
        OneVisit(run, acts, c, i, t, k);
      }
    }
  }

  lemma ItShows(run: seq<State>, acts: seq<Action>, i: nat, t: Tid)
    requires |run| == |acts| + 1 && i < |acts| && acts[i].Tau? && acts[i].t == t
    requires t in run[i].threads && run[i].threads[t].pc.Iterate? && acts[i].c.key in run[i].threads[t].pc.left
    requires P(run[i], run[i].threads[t].pc.left[acts[i].c.key]).At?
    ensures Shows(run, acts, i, t, acts[i].c.key, P(run[i], run[i].threads[t].pc.left[acts[i].c.key]).v)
    ensures acts[i].c.stop ==> Stops(run, acts, i, t)
  {
    assert Shows(run, acts, i, t, acts[i].c.key, P(run[i], run[i].threads[t].pc.left[acts[i].c.key]).v);
  }

  /** A step of the loop that neither shows the key nor is stopped leaves it to be visited. */
  lemma OneVisit(run: seq<State>, acts: seq<Action>, c: nat, i: nat, t: Tid, k: Key)
    requires IsRun(run, acts) && c < i < |acts| && acts[i].Tau? && acts[i].t == t && RangeOk(run, c, i, t)
    requires !run[i].threads[t].pc.Return? && Present(run, c, i + 1, k) && NotYet(run, acts, c, i + 1, t, k)
    requires LeftOf(run[i].threads[t].pc).Some? ==> k in LeftOf(run[i].threads[t].pc).value
    requires t in run[i + 1].threads
    requires Goes(run[i], run[i].threads[t].pc, run[i + 1], run[i + 1].threads[t].pc, acts[i].c)
    ensures !run[i + 1].threads[t].pc.Return?
    ensures LeftOf(run[i + 1].threads[t].pc).Some? ==> k in LeftOf(run[i + 1].threads[t].pc).value
  {
    hide Exec, Holds, AbsAt, Since, Next, Init;
    var pc, ch := run[i].threads[t].pc, acts[i].c;
    if pc.Iterate? && ch.key in pc.left {
      if P(run[i], pc.left[ch.key]).At? {
        ItShows(run, acts, i, t);
      } else if ch.key == k {
        PresentHolds(run, acts, c, i, pc.left, k);
      }
    } else if LeftOf(pc) == None && LeftOf(run[i + 1].threads[t].pc).Some? {
      AllInRead(run, acts, i + 1, k);
    }
  }

  /** A Range that has not been stopped has shown every key that was there all along. */
  lemma AllShown(run: seq<State>, acts: seq<Action>, c: nat, j: nat, t: Tid, k: Key)
    requires IsRun(run, acts) && PendingSince(acts, c, j, t, Range) && Present(run, c, j, k)
    requires t in run[j].threads && run[j].threads[t].pc.Return? && forall i :: c < i < j ==> !Stops(run, acts, i, t)
    ensures exists i, v :: c < i < j && Shows(run, acts, i, t, k, v)
  {
    hide Shows, Stops, Next, Init;
    if NotYet(run, acts, c, j, t, k) {
      StillLeft(run, acts, c, j, t, k);
    }
  }
}
