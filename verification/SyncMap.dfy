/**
 `server/sync.Map` as the object it is, used by one thread: every method does
 exactly what the plain map does, and copying `dirty` is paid for by misses.
 */
module SyncMap {
  import opened Wrappers
  import opened PlainMap

  datatype Slot = Nil | Expunged | Holds(v: Value)

  function Val(p: Slot): Option<Value> {
    if p.Holds? then Some(p.v) else None
  }

  /** One thread never loses a compare-and-swap against what it has just read. */
  class Entry {
    ghost const key: Key
    var p: Slot

    constructor (ghost k: Key, v: Value)
      ensures key == k && p == Holds(v)
    {
      key := k;
      p := Holds(v);
    }

    method Load() returns (r: Option<Value>)
      ensures r == Val(p)
    {
      if p.Nil? || p.Expunged? { return None; }
      r := Some(p.v);
    }

    method TryStore(v: Value) returns (ok: bool)
      modifies this
      ensures ok == !old(p).Expunged?
      ensures p == if ok then Holds(v) else old(p)
    {
      if p.Expunged? { return false; }
      p := Holds(v);
      ok := true;
    }

    method UnexpungeLocked() returns (was: bool)
      modifies this
      ensures was == old(p).Expunged?
      ensures p == if was then Nil else old(p)
    {
      was := p.Expunged?;
      if was { p := Nil; }
    }

    method StoreLocked(v: Value)
      modifies this
      ensures p == Holds(v)
    {
      p := Holds(v);
    }

    /** tryLoadOrStore, and tryLoadOrCreate with `v` the value `createFn` makes; `made` counts the calls of that. */
    method TryLoadOrStore(v: Value) returns (r: Result, ok: bool, made: nat)
      modifies this
      ensures ok == !old(p).Expunged? && made == if old(p).Nil? then 1 else 0
      ensures p == if old(p).Nil? then Holds(v) else old(p)
      ensures r == match old(p) case Expunged => NilFalse case Holds(w) => Loaded(w) case Nil => Stored(v)
    {
      if p.Expunged? { return NilFalse, false, 0; }
      if p.Holds? { return Loaded(p.v), true, 0; }
      p := Holds(v);
      return Stored(v), true, 1;
    }

    method Delete() returns (r: Result)
      modifies this
      ensures p == if old(p).Holds? then Nil else old(p)
      ensures r == if old(p).Holds? then Present(old(p).v) else Absent
    {
      if p.Nil? || p.Expunged? { return Absent; }
      r := Present(p.v);
      p := Nil;
    }

    method TryExpungeLocked() returns (isExpunged: bool)
      modifies this
      ensures isExpunged == !old(p).Holds?
      ensures p == if old(p).Nil? then Expunged else old(p)
    {
      if p.Nil? {
        p := Expunged;
        return true;
      }
      isExpunged := p.Expunged?;
    }
  }

  lemma SubsetSize<T>(a: set<T>, b: set<T>)
    requires a <= b
    ensures |a| <= |b|
  {
    if a != {} {
      var x :| x in a;
      SubsetSize(a - {x}, b - {x});
    }
  }

  class Map {
    var read: map<Key, Entry>
    var amended: bool
    var dirty: Option<map<Key, Entry>>
    var misses: nat

    ghost var Repr: set<Entry>
    ghost var copied: nat       // entries copied by dirtyLocked, ever
    ghost var missCalls: nat    // calls of missLocked, ever
    ghost var rangeTotal: nat   // sizes of the maps promoted by Range, summed

    ghost function Dirty(): map<Key, Entry>
      reads this`dirty
    {
      if dirty.Some? then dirty.value else map[]
    }

    /** The entries are where the comments on `Map` and `entry` say they are; `except` is a key being unexpunged. */
    ghost predicate Entries(except: Option<Key>)
      reads this`read, this`amended, this`dirty, this`Repr, Repr
    {
      && (forall k :: k in read ==> read[k] in Repr && read[k].key == k)
      && (forall k :: k in Dirty() ==> Dirty()[k] in Repr && Dirty()[k].key == k)
      && (forall k :: k in read && k in Dirty() ==> read[k] == Dirty()[k])
      && (amended ==> dirty.Some?)
      && (!amended ==> Dirty().Keys <= read.Keys)
      && (forall k :: k in Dirty() ==> !Dirty()[k].p.Expunged?)
      && (forall k :: k in Dirty() && k !in read ==> Dirty()[k].p.Holds?)
      && (dirty.None? ==> forall k :: k in read ==> !read[k].p.Expunged?)
      && (dirty.Some? ==> forall k :: k in read && k !in Dirty() && Some(k) != except ==> read[k].p.Expunged?)
    }

    /** Copies are paid for: by the misses since the last promotion, or by the size of the map that was promoted. */
    ghost predicate Paid()
      reads this
    {
      if dirty.None? then misses == 0 && copied + |read| <= missCalls + rangeTotal
      else copied + misses <= missCalls + rangeTotal
    }

    ghost predicate Valid()
      reads this, Repr
    {
      Entries(None) && Paid() && (dirty.Some? ==> amended && misses < |dirty.value|)
    }

    ghost function At(k: Key): Option<Value>
      reads this`read, this`amended, this`dirty, this`Repr, Repr
      requires Entries(None) || Entries(Some(k))
    {
      if k in read then Val(read[k].p) else if k in Dirty() then Val(Dirty()[k].p) else None
    }

    /** The live entries of `read`, plus those of `dirty` where `read` is amended. */
    ghost function Contents(): (m: map<Key, Value>)
      reads this`read, this`amended, this`dirty, this`Repr, Repr
      requires Entries(None)
      ensures forall k :: Lookup(m, k) == At(k)
    {
      map k | k in read.Keys + Dirty().Keys && At(k).Some? :: At(k).value
    }

    lemma ContentsAre(m: map<Key, Value>)
      requires Entries(None) && forall k :: Lookup(m, k) == At(k)
      ensures Contents() == m
    {
      MapEq(m, Contents());
    }

    constructor ()
      ensures Valid() && Contents() == map[] && fresh(Repr)
      ensures copied == 0 && missCalls == 0 && rangeTotal == 0
    {
      read, amended, dirty, misses := map[], false, None, 0;
      Repr, copied, missCalls, rangeTotal := {}, 0, 0, 0;
    }

    /** `dirty` becomes the new `read`; the entries it lacks are expunged, so nothing is lost. */
    method Promote()
      requires Entries(None) && dirty.Some? && amended
      modifies this`read, this`amended, this`dirty, this`misses
      ensures Entries(None) && dirty.None? && !amended && misses == 0 && read == old(Dirty())
      ensures forall k :: At(k) == old(At(k))
    {
      ghost var d := Dirty();
      assert forall k :: k in read && k !in d ==> Val(read[k].p) == None;
      read, amended := dirty.value, false;
      dirty := None;
      misses := 0;
      assert Dirty() == map[] && read == d;
    }

    /** A miss was counted, on the maps `r` and `d` and after `m` misses: with the last one `d` is promoted. */
    ghost predicate Counted(r: map<Key, Entry>, d: map<Key, Entry>, m: nat)
      reads this`read, this`amended, this`dirty, this`misses
    {
      if m + 1 < |d| then read == r && amended && dirty == Some(d) && misses == m + 1
      else read == d && !amended && dirty == None && misses == 0
    }

    /** missLocked: at least as many misses as `dirty` has keys pay for its promotion. */
    method MissLocked()
      requires Entries(None) && Paid() && dirty.Some? && amended
      modifies this
      ensures Valid() && Repr == old(Repr)
      ensures forall k :: At(k) == old(At(k))
      ensures forall k :: k !in old(read) && k !in old(Dirty()) ==> k !in read && k !in Dirty()
      ensures missCalls == old(missCalls) + 1 && copied == old(copied) && rangeTotal == old(rangeTotal)
      ensures Counted(old(read), old(Dirty()), old(misses))
    {
      hide Entries;
      CountMiss();
      if misses < |dirty.value| { return; }
      Promote();
    }

    method CountMiss()
      requires Entries(None)
      modifies this`misses, this`missCalls
      ensures Entries(None) && misses == old(misses) + 1 && missCalls == old(missCalls) + 1
      ensures forall k :: At(k) == old(At(k))
    {
      misses := misses + 1;
      missCalls := missCalls + 1;
    }

    /** The loop of dirtyLocked: each entry of `read` is copied if it holds a value, and expunged if it is nil. */
    method CopyLive() returns (live: map<Key, Entry>)
      requires forall k :: k in read ==> read[k] in Repr && read[k].key == k && !read[k].p.Expunged?
      modifies Repr
      ensures live.Keys <= read.Keys
      ensures forall k :: k in live ==> live[k] == read[k] && read[k].p.Holds?
      ensures forall k :: k in read && k !in live ==> read[k].p.Expunged?
      ensures forall k :: k in read ==> Val(read[k].p) == Val(old(read[k].p))
    {
      live := map[];
      var todo := read.Keys;
      while todo != {}
        invariant todo <= read.Keys && live.Keys <= read.Keys - todo
        invariant forall k :: k in live ==> live[k] == read[k] && read[k].p.Holds?
        invariant forall k :: k in todo ==> read[k].p == old(read[k].p)
        invariant forall k :: k in read && k !in todo && k !in live ==> read[k].p.Expunged?
        invariant forall k :: k in read ==> Val(read[k].p) == Val(old(read[k].p))
        decreases todo
      {
        var k :| k in todo;
        var isExpunged := read[k].TryExpungeLocked();
        if !isExpunged { live := live[k := read[k]]; }
        todo := todo - {k};
      }
    }

    /** dirtyLocked: `dirty` becomes a copy of what is live in `read`. */
    method DirtyLocked()
      requires Entries(None) && Paid() && dirty.None?
      modifies this, Repr
      ensures Entries(None) && Paid() && Repr == old(Repr)
      ensures forall k :: At(k) == old(At(k))
      ensures dirty.Some? && amended == old(amended) && read == old(read) && misses == 0
      ensures missCalls == old(missCalls) && rangeTotal == old(rangeTotal)
      ensures copied == old(copied) + |dirty.value|
    {
      hide Entries;
      CopyEntries();
      copied := copied + |dirty.value|;
      SubsetSize(dirty.value.Keys, read.Keys);
    }

    method CopyEntries()
      requires Entries(None) && dirty.None?
      modifies this`dirty, Repr
      ensures Entries(None) && dirty.Some? && dirty.value.Keys <= read.Keys
      ensures forall k :: At(k) == old(At(k))
    {
      var live := CopyLive();
      dirty := Some(live);
    }

    /** map.go:103-126. */
    method Load(key: Key) returns (r: Result)
      requires Valid()
      modifies this
      ensures Valid() && Repr == old(Repr) && rangeTotal == old(rangeTotal)
      ensures forall k :: At(k) == old(At(k))
      ensures r == if old(At(key)).Some? then Present(old(At(key)).value) else Absent
      ensures
        if key in old(read) || !old(amended) then unchanged(this)
        else Counted(old(read), old(Dirty()), old(misses))
    {
      var e: Option<Entry> := if key in read then Some(read[key]) else None;
      if e.None? && amended {
        e := if key in dirty.value then Some(dirty.value[key]) else None;
        MissLocked();
      }
      if e.None? { return Absent; }
      var v := e.value.Load();
      r := if v.Some? then Present(v.value) else Absent;
    }

    /** Makes sure `dirty` is allocated and `read` marked as incomplete. */
    method Amend()
      requires Valid()
      modifies this, Repr
      ensures Entries(None) && Paid() && amended && (misses == 0 || misses < |Dirty()|)
      ensures Repr == old(Repr) && read == old(read) && rangeTotal == old(rangeTotal)
      ensures forall k :: k !in old(read) && k !in old(Dirty()) ==> k !in Dirty()
      ensures forall k :: At(k) == old(At(k))
    {
      if !amended {
        DirtyLocked();
        amended := true;
      }
    }

    /** A new entry, for a key in neither map. */
    method Insert(key: Key, v: Value)
      requires Entries(None) && Paid() && amended && (misses == 0 || misses < |Dirty()|)
      requires key !in read && key !in Dirty()
      modifies this
      ensures Valid() && fresh(Repr - old(Repr)) && rangeTotal == old(rangeTotal)
      ensures forall k :: At(k) == if k == key then Some(v) else old(At(k))
    {
      hide Entries;
      InsertEntry(key, v);
    }

    method InsertEntry(key: Key, v: Value)
      requires Entries(None) && amended && key !in read && key !in Dirty()
      modifies this`dirty, this`Repr
      ensures Entries(None) && fresh(Repr - old(Repr)) && dirty.Some? && |dirty.value| == old(|Dirty()|) + 1
      ensures forall k :: At(k) == if k == key then Some(v) else old(At(k))
    {
      var e := new Entry(key, v);
      dirty := Some(dirty.value[key := e]);
      Repr := Repr + {e};
    }

    /** The locked branch for an entry of `read`: if it was expunged it goes into `dirty` first. */
    method Unexpunge(key: Key)
      requires Valid() && key in read
      modifies this, Repr
      ensures Valid() && Repr == old(Repr) && read == old(read) && rangeTotal == old(rangeTotal)
      ensures !read[key].p.Expunged?
      ensures forall k :: At(k) == old(At(k))
    {
      hide Entries;
      UnexpungeEntry(key);
    }

    method UnexpungeEntry(key: Key)
      requires Entries(None) && key in read
      modifies this`dirty, Repr
      ensures Entries(None) && !read[key].p.Expunged?
      ensures if old(dirty).None? then dirty.None? else dirty.Some? && |dirty.value| >= old(|Dirty()|)
      ensures forall k :: At(k) == old(At(k))
    {
      var e := read[key];
      var was := e.UnexpungeLocked();
      if was { dirty := Some(dirty.value[key := e]); }
    }

    ghost predicate LiveEntry(key: Key, e: Entry)
      reads this, Repr
    {
      if key in read then e == read[key] && e in Repr && !e.p.Expunged? else key in Dirty() && e == Dirty()[key]
    }

    /** tryStore on an entry of `read`. */
    method TryStoreInRead(key: Key, v: Value) returns (ok: bool)
      requires Valid() && key in read
      modifies Repr
      ensures Valid() && ok == !old(read[key].p).Expunged? && (!ok ==> read[key].p.Expunged?)
      ensures forall k :: At(k) == if ok && k == key then Some(v) else old(At(k))
    {
      ok := read[key].TryStore(v);
    }

    /** storeLocked on a live entry. */
    method StoreIn(key: Key, e: Entry, v: Value)
      requires Valid() && LiveEntry(key, e)
      modifies Repr
      ensures Valid()
      ensures forall k :: At(k) == if k == key then Some(v) else old(At(k))
    {
      e.StoreLocked(v);
    }

    /** tryLoadOrStore on an entry of `read`. */
    method TryInRead(key: Key, v: Value) returns (r: Result, ok: bool, made: nat)
      requires Valid() && key in read
      modifies Repr
      ensures made == if ok && old(At(key)) == None then 1 else 0
      ensures Valid() && ok == !old(read[key].p).Expunged? && (!ok ==> read[key].p.Expunged?)
      ensures forall k :: At(k) == if ok && k == key && old(At(key)) == None then Some(v) else old(At(k))
      ensures ok ==> r == if old(At(key)).Some? then Loaded(old(At(key)).value) else Stored(v)
    {
      r, ok, made := read[key].TryLoadOrStore(v);
    }

    /** tryLoadOrStore on a live entry. */
    method TryIn(key: Key, e: Entry, v: Value) returns (r: Result, made: nat)
      requires Valid() && LiveEntry(key, e)
      modifies Repr
      ensures made == if old(At(key)) == None then 1 else 0
      ensures Valid()
      ensures forall k :: At(k) == if k == key && old(At(key)) == None then Some(v) else old(At(k))
      ensures r == if old(At(key)).Some? then Loaded(old(At(key)).value) else Stored(v)
    {
      var ok;
      r, ok, made := e.TryLoadOrStore(v);
    }

    /** map.go:137-164. */
    method Store(key: Key, v: Value)
      requires Valid()
      modifies this, Repr
      ensures Valid() && fresh(Repr - old(Repr)) && rangeTotal == old(rangeTotal)
      ensures forall k :: At(k) == if k == key then Some(v) else old(At(k))
    {
      if key in read {
        var ok := TryStoreInRead(key, v);
        if !ok {
          Unexpunge(key);
          StoreIn(key, read[key], v);
        }
      } else if dirty.Some? && key in dirty.value {
        StoreIn(key, dirty.value[key], v);
      } else {
        Amend();
        Insert(key, v);
      }
    }

    /**
     map.go:200-233 and create.go:11-42; `v` is the value given, or the one
     `createFn` makes, which is called once for an absent key, else not at all.
     */
    method LoadOrStore(key: Key, v: Value) returns (r: Result, made: nat)
      requires Valid()
      modifies this, Repr
      ensures Valid() && fresh(Repr - old(Repr)) && rangeTotal == old(rangeTotal)
      ensures forall k :: At(k) == if k == key && old(At(key)) == None then Some(v) else old(At(k))
      ensures r == if old(At(key)).Some? then Loaded(old(At(key)).value) else Stored(v)
      ensures made == if old(At(key)).Some? then 0 else 1
      ensures key !in old(read) && key in old(Dirty()) ==> Counted(old(read), old(Dirty()), old(misses))
    {
      if key in read {
        var ok;
        r, ok, made := TryInRead(key, v);
        if !ok {
          Unexpunge(key);
          r, made := TryIn(key, read[key], v);
        }
      } else if dirty.Some? && key in dirty.value {
        r, made := TryIn(key, dirty.value[key], v);
        MissLocked();
      } else {
        Amend();
        Insert(key, v);
        r, made := Stored(v), 1;
      }
    }

    /** map.go:277-282: the entry leaves `dirty`, holding its value until it is emptied. */
    method Detach(key: Key) returns (e: Option<Entry>)
      requires Valid() && amended && key !in read
      modifies this
      ensures Valid() && Repr == old(Repr) && rangeTotal == old(rangeTotal)
      ensures forall k :: At(k) == if k == key then None else old(At(k))
      ensures key !in read && key !in Dirty()
      ensures e.Some? == old(At(key)).Some?
      ensures e.Some? ==> e.value in Repr && e.value.key == key && e.value.p == Holds(old(At(key)).value)
      ensures Counted(old(read), old(Dirty()) - {key}, old(misses))
    {
      e := TakeOut(key);
      hide Entries;
      MissLocked();
    }

    method TakeOut(key: Key) returns (e: Option<Entry>)
      requires Entries(None) && amended && key !in read
      modifies this`dirty
      ensures Entries(None) && dirty == Some(old(Dirty()) - {key})
      ensures forall k :: At(k) == if k == key then None else old(At(k))
      ensures e.Some? == old(At(key)).Some?
      ensures e.Some? ==> e.value in Repr && e.value.key == key && e.value.p == Holds(old(At(key)).value)
    {
      e := if key in dirty.value then Some(dirty.value[key]) else None;
      dirty := Some(dirty.value - {key});
    }

    /** delete on the entry of `read`, or on a detached entry. */
    method Empty(key: Key, e: Entry) returns (r: Result)
      requires Valid() && e in Repr && e.key == key
      requires if key in read then e == read[key] else key !in Dirty() && e.p.Holds?
      modifies Repr
      ensures Valid() && r == if old(e.p).Holds? then Present(old(e.p).v) else Absent
      ensures forall k :: At(k) == if k == key then None else old(At(k))
    {
      r := e.Delete();
    }

    /** map.go:269-290. */
    method LoadAndDelete(key: Key) returns (r: Result)
      requires Valid()
      modifies this, Repr
      ensures Valid() && Repr == old(Repr) && rangeTotal == old(rangeTotal)
      ensures forall k :: At(k) == if k == key then None else old(At(k))
      ensures r == if old(At(key)).Some? then Present(old(At(key)).value) else Absent
      ensures
        if key in old(read) || !old(amended) then unchanged(this)
        else Counted(old(read), old(Dirty()) - {key}, old(misses))
    {
      var e: Option<Entry> := if key in read then Some(read[key]) else None;
      if e.None? && amended { e := Detach(key); }
      if e.Some? { r := Empty(key, e.value); } else { r := Absent; }
    }

    /** map.go:325-339: an amended map is promoted before the loop. */
    method PromoteForRange()
      requires Valid()
      modifies this
      ensures Valid() && Repr == old(Repr) && !amended
      ensures forall k :: At(k) == old(At(k))
      ensures rangeTotal == old(rangeTotal) + (if old(amended) then old(|Dirty()|) else 0)
    {
      if amended {
        Promote();
        rangeTotal := rangeTotal + |read|;
      }
    }

    /**
     The callback has been shown these pairs: distinct keys with what they hold, and
     it did not stop before the last one.
     */
    ghost predicate Visits(m: map<Key, Value>, f: (Key, Value) -> bool, visited: seq<(Key, Value)>)
    {
      && (forall i :: 0 <= i < |visited| ==> visited[i].0 in m && m[visited[i].0] == visited[i].1)
      && (forall i, j :: 0 <= i < j < |visited| ==> visited[i].0 != visited[j].0)
      && (forall i :: 0 <= i < |visited| - 1 ==> f(visited[i].0, visited[i].1))
    }

    /** These keys are all among the visited pairs. */
    ghost predicate Shows(keys: set<Key>, visited: seq<(Key, Value)>)
    {
      forall k :: k in keys ==> exists i :: 0 <= i < |visited| && visited[i].0 == k
    }

    lemma ShowsMore(keys: set<Key>, visited: seq<(Key, Value)>, k: Key, v: Value)
      requires Shows(keys, visited)
      ensures Shows(keys + {k}, visited + [(k, v)])
    {
      var more := visited + [(k, v)];
      assert more[|visited|].0 == k;
      forall x | x in keys ensures exists i :: 0 <= i < |more| && more[i].0 == x {
        var i :| 0 <= i < |visited| && visited[i].0 == x;
        assert more[i].0 == x;
      }
    }

    /**
     map.go:319-350; `visited` lists the calls of `f` in order. A callback that never
     stops sees every live key once.
     */
    method Range(f: (Key, Value) -> bool) returns (visited: seq<(Key, Value)>)
      requires Valid()
      modifies this
      ensures Valid() && Repr == old(Repr) && Contents() == old(Contents())
      ensures rangeTotal == old(rangeTotal) + (if old(amended) then old(|Dirty()|) else 0)
      ensures Visits(Contents(), f, visited)
      ensures
        (visited != [] && !f(visited[|visited| - 1].0, visited[|visited| - 1].1))
        || Shows(Contents().Keys, visited)
    {
      hide At, Contents, Visits, Shows, Entries;
      ghost var m := Contents();
      PromoteForRange();
      ContentsAre(m);
      visited := VisitAll(m, f);
    }

    lemma VisitsMore(m: map<Key, Value>, f: (Key, Value) -> bool, visited: seq<(Key, Value)>, todo: set<Key>, k: Key,
                     v: Value)
      requires Visits(m, f, visited) && Behind(visited, f, todo) && k in todo && k in m && m[k] == v
      ensures Visits(m, f, visited + [(k, v)]) && (f(k, v) ==> Behind(visited + [(k, v)], f, todo - {k}))
    {
    }

    /** The visited keys are not to come again, and the callback has not stopped yet. */
    ghost predicate Behind(visited: seq<(Key, Value)>, f: (Key, Value) -> bool, todo: set<Key>) {
      && (forall i :: 0 <= i < |visited| ==> visited[i].0 !in todo)
      && (visited != [] ==> f(visited[|visited| - 1].0, visited[|visited| - 1].1))
    }

    /** The loop of Range over a `read` that has everything. */
    method VisitAll(ghost m: map<Key, Value>, f: (Key, Value) -> bool) returns (visited: seq<(Key, Value)>)
      requires Entries(None) && Dirty() == map[] && m == Contents()
      ensures Visits(m, f, visited)
      ensures (visited != [] && !f(visited[|visited| - 1].0, visited[|visited| - 1].1)) || Shows(m.Keys, visited)
    {
      hide Shows, Contents;
      visited := [];
      var todo := read.Keys;
      ShowsNone(m.Keys - todo);
      while todo != {}
        invariant todo <= read.Keys && Visits(m, f, visited) && Behind(visited, f, todo)
        invariant Shows(m.Keys - todo, visited)
        decreases todo
      {
        hide Visits, Behind, Entries;
        var k :| k in todo;
        ghost var before := todo;
        todo := todo - {k};
        var e := ReadEntry(k);
        var v := e.Load();
        assert Lookup(m, k) == v;
        if v.Some? {
          assert m.Keys - todo == m.Keys - before + {k};
          ShowsMore(m.Keys - before, visited, k, v.value);
          VisitsMore(m, f, visited, before, k, v.value);
          visited := visited + [(k, v.value)];
          if !f(k, v.value) { return; }
        } else {
          assert m.Keys - todo == m.Keys - before;
          StillBehind(visited, f, before, k);
        }
      }
      assert m.Keys - todo == m.Keys;
    }

    lemma StillBehind(visited: seq<(Key, Value)>, f: (Key, Value) -> bool, todo: set<Key>, k: Key)
      requires Behind(visited, f, todo)
      ensures Behind(visited, f, todo - {k})
    {
    }

    lemma ShowsNone(keys: set<Key>)
      requires Entries(None) && Dirty() == map[] && keys == Contents().Keys - read.Keys
      ensures Shows(keys, [])
    {
    }

    method ReadEntry(k: Key) returns (e: Entry)
      requires Entries(None) && k in read
      ensures e == read[k] && e in Repr && At(k) == Val(e.p)
    {
      e := read[k];
    }
  }

  lemma MapEq(m: map<Key, Value>, m': map<Key, Value>)
    requires forall k :: Lookup(m, k) == Lookup(m', k)
    ensures m == m'
  {
    forall k ensures k in m <==> k in m' { assert Lookup(m, k) == Lookup(m', k); }
    forall k | k in m ensures m[k] == m'[k] { assert Lookup(m, k) == Lookup(m', k); }
  }

  /** One call of the method for `op`; LoadOrCreate is given what `createFn` would make. */
  method Call(m: Map, op: Op, made: Value) returns (r: Result)
    requires m.Valid()
    modifies m, m.Repr
    ensures m.Valid() && fresh(m.Repr - old(m.Repr))
    ensures Apply(op, old(m.Contents()), m.Contents(), r)
    ensures op.Range? || m.rangeTotal == old(m.rangeTotal)
  {
    hide Map.Entries, Map.At, Map.Contents, Map.Visits, Map.Shows;
    ghost var c := m.Contents();
    match op {
      case Load(k) => r := m.Load(k); m.ContentsAre(c);
      case Store(k, v) => m.Store(k, v); m.ContentsAre(c[k := v]); r := Done;
      case LoadOr(k, src) =>
        var v := if src.Given? then src.v else made;
        var calls;
        r, calls := m.LoadOrStore(k, v);
        m.ContentsAre(if k in c then c else c[k := v]);
      case LoadAndDelete(k) => r := m.LoadAndDelete(k); m.ContentsAre(c - {k});
      case Range => var _ := m.Range((_, _) => true); r := Done;
    }
  }

  /**
   Any sequential run from a new map: `states[i]` are the contents before the
   i-th call, each call does what the plain map does, and the entries copied by
   all dirtyLocked calls never exceed the missLocked calls plus the sizes of the
   maps promoted by Range.
   */
  method Run(ops: seq<Op>, made: seq<Value>) returns (m: Map, results: seq<Result>, ghost states: seq<map<Key, Value>>)
    requires |made| == |ops|
    ensures m.Valid() && |results| == |ops| && |states| == |ops| + 1
    ensures states[0] == map[] && states[|ops|] == m.Contents()
    ensures forall i :: 0 <= i < |ops| ==> CallAt(ops, results, states, i)
    ensures m.copied <= m.missCalls + m.rangeTotal
    ensures if m.dirty.None? then m.misses == 0 else m.misses < |m.dirty.value|
    ensures (forall op :: op in ops ==> !op.Range?) ==> m.copied <= m.missCalls
  {
    m := new Map();
    results, states := [], [m.Contents()];
    for i := 0 to |ops|
      invariant m.Valid() && fresh(m) && fresh(m.Repr) && |results| == i && |states| == i + 1
      invariant states[0] == map[] && states[i] == m.Contents()
      invariant forall j :: 0 <= j < i ==> CallAt(ops, results, states, j)
      invariant (forall op :: op in ops ==> !op.Range?) ==> m.rangeTotal == 0
    {
      var r := Call(m, ops[i], made[i]);
      ghost var results', states' := results + [r], states + [m.Contents()];
      forall j | 0 <= j < i + 1 ensures CallAt(ops, results', states', j) {
        if j < i { assert CallAt(ops, results, states, j); }
      }
      results, states := results + [r], states';
    }
  }

  ghost predicate CallAt(ops: seq<Op>, results: seq<Result>, states: seq<map<Key, Value>>, i: nat) {
    i < |ops| && i < |results| && i + 1 < |states| && Apply(ops[i], states[i], states[i + 1], results[i])
  }
}
