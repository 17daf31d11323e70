/**
 The client registry on top of the concurrent map: tunnels of the same or of
 different clients join (`handleTunnel`) and leave (`removeTunnel`) in any
 interleaving. `id2Agent` is the plain map that `Linearizability` allows it to
 be taken for; a section under `tunnelsRWMtx` is one step, except that
 `removeTunnel` keeps the mutex while it deletes from `id2Agent`.
 */
module Registry {
  import opened Wrappers

  type Id = string
  type Obj = nat
  type Conn = nat

  /**
   A `client` object. `tunnels` is nil before `init` and after the last tunnel is
   removed. History fields: the id it was created for, how often `init` has run
   on it, and whether it has lost its last tunnel.
   */
  datatype Client = Client(
    ID: Option<Id>, tunnels: Option<set<Conn>>, tasks: bool, mutex: Option<Conn>,
    madeFor: Id, inits: nat, lost: bool)

  /** `s.removeClient`: removeClientOnly or removeClientAndUser. */
  datatype Removal = Only | AndUser

  datatype PC =
    | Get(i: nat)                 // getOrCreateClient, i-th try
    | InitTunnels(o: Obj, i: nat) // init, section under tunnelsRWMtx
    | InitTasks(o: Obj, i: nat)   // init, section under tasksRWMtx
    | Add(o: Obj, i: nat)         // addTunnel
    | Serve(o: Obj)               // readLoop
    | Remove(o: Obj)              // removeTunnel up to the call of removeClient
    | DeleteAgent(o: Obj)         // removeClient: id2Agent.Delete, tunnelsRWMtx held
    | DeleteUser(o: Obj)          // removeClientAndUser: users.Delete, tunnelsRWMtx held
    | Unlock(o: Obj)
    | Over

  /** The goroutine that handles one tunnel connection, for the id it announced. */
  datatype Handler = Handler(id: Id, pc: PC)

  datatype State = State(agents: map<Id, Obj>, users: set<Id>, objs: seq<Client>, handlers: map<Conn, Handler>)

  datatype Action = Accept(c: Conn, id: Id) | Step(c: Conn)

  const TRIES := 5

  predicate Init(s: State) {
    s.agents == map[] && s.objs == [] && s.handlers == map[]
  }

  function Goto(s: State, c: Conn, pc: PC): State
    requires c in s.handlers
  {
    s.(handlers := s.handlers[c := s.handlers[c].(pc := pc)])
  }

  function Put(s: State, o: Obj, x: Client): State {
    if o < |s.objs| then s.(objs := s.objs[o := x]) else s
  }

  function NewClient(id: Id): Client {
    Client(None, None, false, None, id, 0, false)
  }

  function X(s: State, o: Obj): Client {
    if o < |s.objs| then s.objs[o] else NewClient("")
  }

  /** server.go:521-525: LoadOrCreate with newClient. */
  function GetOrCreate(s: State, c: Conn, i: nat): State
    requires c in s.handlers
  {
    var id := s.handlers[c].id;
    if id in s.agents then Goto(s, c, Add(s.agents[id], i))
    else
      Goto(s.(agents := s.agents[id := |s.objs|], objs := s.objs + [NewClient(id)]), c, InitTunnels(|s.objs|, i))
  }

  /** client.go:46-55, and the loop of conn.go:244-259 around it. */
  function AddTunnel(s: State, c: Conn, o: Obj, i: nat): State
    requires c in s.handlers
  {
    var x := X(s, o);
    if x.tunnels.Some? then Goto(Put(s, o, x.(tunnels := Some(x.tunnels.value + {c}))), c, Serve(o))
    else Goto(s, c, if i + 1 < TRIES then Get(i + 1) else Over)
  }

  /** client.go:57-65 up to the call of removeClient. */
  function RemoveTunnel(s: State, c: Conn, o: Obj): State
    requires c in s.handlers
  {
    var x := X(s, o);
    var left := if x.tunnels.Some? then x.tunnels.value - {c} else {};
    if |left| < 1 then Goto(Put(s, o, x.(tunnels := None, mutex := Some(c), lost := true)), c, DeleteAgent(o))
    else Goto(Put(s, o, x.(tunnels := Some(left))), c, Over)
  }

  /** The object whose mutex the handler must take for its next step. */
  function Wants(pc: PC): Option<Obj> {
    match pc
    case InitTunnels(o, _) => Some(o)
    case Add(o, _) => Some(o)
    case Remove(o) => Some(o)
    case _ => None
  }

  predicate Enabled(s: State, c: Conn) {
    c in s.handlers && !s.handlers[c].pc.Over? &&
    (Wants(s.handlers[c].pc).Some? ==>
       Wants(s.handlers[c].pc).value < |s.objs| && s.objs[Wants(s.handlers[c].pc).value].mutex == None)
  }

  function IdOf(x: Client): Id {
    if x.ID.Some? then x.ID.value else ""
  }

  function Exec(removal: Removal, s: State, c: Conn): State
    requires c in s.handlers
  {
    match s.handlers[c].pc
    case Get(i) => GetOrCreate(s, c, i)
    case InitTunnels(o, i) =>
      var x := X(s, o);
      Goto(Put(s, o, x.(ID := Some(s.handlers[c].id), tunnels := Some({}), inits := x.inits + 1)), c, InitTasks(o, i))
    case InitTasks(o, i) => Goto(Put(s, o, X(s, o).(tasks := true)), c, Add(o, i))
    case Add(o, i) => AddTunnel(s, c, o, i)
    case Serve(o) => Goto(s, c, Remove(o))
    case Remove(o) => RemoveTunnel(s, c, o)
    case DeleteAgent(o) =>
      Goto(s.(agents := s.agents - {IdOf(X(s, o))}), c, if removal.Only? then Unlock(o) else DeleteUser(o))
    case DeleteUser(o) => Goto(s.(users := s.users - {IdOf(X(s, o))}), c, Unlock(o))
    case Unlock(o) => Goto(Put(s, o, X(s, o).(mutex := None)), c, Over)
    case Over => s
  }

  predicate Next(removal: Removal, s: State, a: Action, s': State) {
    match a
    case Accept(c, id) => c !in s.handlers && s' == s.(handlers := s.handlers[c := Handler(id, Get(0))])
    case Step(c) => Enabled(s, c) && s' == Exec(removal, s, c)
  }

  predicate NextAt(removal: Removal, run: seq<State>, acts: seq<Action>, i: nat)
    requires |run| == |acts| + 1
  {
    i < |acts| ==> Next(removal, run[i], acts[i], run[i + 1])
  }

  ghost predicate IsRun(removal: Removal, run: seq<State>, acts: seq<Action>) {
    |run| == |acts| + 1 && Init(run[0]) && forall i: nat :: NextAt(removal, run, acts, i)
  }

  /** The object is still to be initialised, is in use, or has lost its last tunnel; only then may it be unmapped. */
  ghost predicate ClientOk(s: State, o: Obj)
    requires o < |s.objs|
  {
    var x := s.objs[o];
    && (x.inits == 0 ==> x.tunnels == None && !x.lost)
    && (x.inits > 0 ==> x.inits == 1 && x.ID == Some(x.madeFor))
    && (x.inits == 1 && !x.lost ==> x.tunnels.Some?)
    && (x.lost ==> x.tunnels == None && x.inits == 1)
    && (!x.lost ==> x.madeFor in s.agents && s.agents[x.madeFor] == o)
    && (x.tunnels.Some? ==> forall c :: c in x.tunnels.value ==> c in s.handlers && Holds(s.handlers[c].pc, o))
    && (x.mutex.Some? ==> x.mutex.value in s.handlers && HasMutex(s.handlers[x.mutex.value].pc, o) && x.lost)
  }

  /** The handler has added its tunnel to the object and not yet removed it. */
  ghost predicate Holds(pc: PC, o: Obj) {
    pc == Serve(o) || pc == Remove(o)
  }

  ghost predicate HasMutex(pc: PC, o: Obj) {
    pc == DeleteAgent(o) || pc == DeleteUser(o) || pc == Unlock(o)
  }

  ghost predicate HandlerOk(s: State, c: Conn)
    requires c in s.handlers
  {
    var h := s.handlers[c];
    match h.pc
    case Get(_) => true
    case InitTunnels(o, _) => Mine(s, h, o) && X(s, o).inits == 0
    case InitTasks(o, _) => Mine(s, h, o)
    case Add(o, _) => Mine(s, h, o)
    case Serve(o) => Mine(s, h, o) && X(s, o).tunnels.Some? && c in X(s, o).tunnels.value
    case Remove(o) => Mine(s, h, o) && X(s, o).tunnels.Some? && c in X(s, o).tunnels.value
    case DeleteAgent(o) => Mine(s, h, o) && X(s, o).mutex == Some(c) && h.id in s.agents && s.agents[h.id] == o
    case DeleteUser(o) => Mine(s, h, o) && X(s, o).mutex == Some(c)
    case Unlock(o) => Mine(s, h, o) && X(s, o).mutex == Some(c)
    case Over => true
  }

  ghost predicate Mine(s: State, h: Handler, o: Obj) {
    o < |s.objs| && s.objs[o].madeFor == h.id
  }

  ghost predicate Inv(s: State) {
    && AgentsOk(s)
    && (forall o: Obj :: o < |s.objs| ==> ClientOk(s, o))
    && (forall c :: c in s.handlers ==> HandlerOk(s, c))
    && (forall c, d, o :: Initialises(s, c, o) && Initialises(s, d, o) ==> c == d)
  }

  ghost predicate Initialises(s: State, c: Conn, o: Obj) {
    c in s.handlers && s.handlers[c].pc.InitTunnels? && s.handlers[c].pc.o == o
  }

  ghost predicate AgentsOk(s: State) {
    forall id :: id in s.agents ==> s.agents[id] < |s.objs| && s.objs[s.agents[id]].madeFor == id
  }

  /** What is known of a handler and of the object it works on. */
  ghost predicate Near(s: State, c: Conn) {
    c in s.handlers && HandlerOk(s, c) &&
    var pc := s.handlers[c].pc;
    !pc.Get? && !pc.Over? ==> pc.o < |s.objs| && ClientOk(s, pc.o)
  }

  lemma OwnInitTunnels(removal: Removal, s: State, c: Conn)
    requires AgentsOk(s) && Near(s, c) && Enabled(s, c) && s.handlers[c].pc.InitTunnels?
    ensures ClientOk(Exec(removal, s, c), s.handlers[c].pc.o)
    ensures HandlerOk(Exec(removal, s, c), c)
  {
  }

  lemma OwnInitTasks(removal: Removal, s: State, c: Conn)
    requires AgentsOk(s) && Near(s, c) && Enabled(s, c) && s.handlers[c].pc.InitTasks?
    ensures ClientOk(Exec(removal, s, c), s.handlers[c].pc.o)
    ensures HandlerOk(Exec(removal, s, c), c)
  {
  }

  lemma OwnAdd(removal: Removal, s: State, c: Conn)
    requires AgentsOk(s) && Near(s, c) && Enabled(s, c) && s.handlers[c].pc.Add?
    ensures ClientOk(Exec(removal, s, c), s.handlers[c].pc.o)
    ensures HandlerOk(Exec(removal, s, c), c)
  {
  }

  lemma OwnServe(removal: Removal, s: State, c: Conn)
    requires AgentsOk(s) && Near(s, c) && Enabled(s, c) && s.handlers[c].pc.Serve?
    ensures ClientOk(Exec(removal, s, c), s.handlers[c].pc.o)
    ensures HandlerOk(Exec(removal, s, c), c)
  {
  }

  lemma OwnRemove(removal: Removal, s: State, c: Conn)
    requires AgentsOk(s) && Near(s, c) && Enabled(s, c) && s.handlers[c].pc.Remove?
    ensures ClientOk(Exec(removal, s, c), s.handlers[c].pc.o)
    ensures HandlerOk(Exec(removal, s, c), c)
  {
  }

  lemma OwnDeleteAgent(removal: Removal, s: State, c: Conn)
    requires AgentsOk(s) && Near(s, c) && Enabled(s, c) && s.handlers[c].pc.DeleteAgent?
    ensures ClientOk(Exec(removal, s, c), s.handlers[c].pc.o)
    ensures HandlerOk(Exec(removal, s, c), c)
  {
  }

  lemma OwnDeleteUser(removal: Removal, s: State, c: Conn)
    requires AgentsOk(s) && Near(s, c) && Enabled(s, c) && s.handlers[c].pc.DeleteUser?
    ensures ClientOk(Exec(removal, s, c), s.handlers[c].pc.o)
    ensures HandlerOk(Exec(removal, s, c), c)
  {
  }

  lemma OwnUnlock(removal: Removal, s: State, c: Conn)
    requires AgentsOk(s) && Near(s, c) && Enabled(s, c) && s.handlers[c].pc.Unlock?
    ensures ClientOk(Exec(removal, s, c), s.handlers[c].pc.o)
    ensures HandlerOk(Exec(removal, s, c), c)
  {
  }

  /** A handler's own object, and its own program counter, after its step. */
  lemma OwnKept(removal: Removal, s: State, c: Conn)
    requires AgentsOk(s) && Near(s, c) && Enabled(s, c) && !s.handlers[c].pc.Get?
    ensures ClientOk(Exec(removal, s, c), s.handlers[c].pc.o) == true
    ensures HandlerOk(Exec(removal, s, c), c) == true
  {
    match s.handlers[c].pc
    case InitTunnels(_, _) => OwnInitTunnels(removal, s, c);
    case InitTasks(_, _) => OwnInitTasks(removal, s, c);
    case Add(_, _) => OwnAdd(removal, s, c);
    case Serve(_) => OwnServe(removal, s, c);
    case Remove(_) => OwnRemove(removal, s, c);
    case DeleteAgent(_) => OwnDeleteAgent(removal, s, c);
    case DeleteUser(_) => OwnDeleteUser(removal, s, c);
    case Unlock(_) => OwnUnlock(removal, s, c);
    case Get(_) =>
    case Over =>
  }

  /** What a step of `c` leaves of another object. */
  lemma Elsewhere(removal: Removal, s: State, c: Conn, o: Obj)
    requires AgentsOk(s) && Near(s, c) && Enabled(s, c) && !s.handlers[c].pc.Get?
    requires o < |s.objs| && o != s.handlers[c].pc.o
    ensures var s' := Exec(removal, s, c); o < |s'.objs| && s'.objs[o] == s.objs[o]
    ensures
      var s', id := Exec(removal, s, c), s.handlers[c].id;
      s'.agents == s.agents || (s'.agents == s.agents - {id} && id in s.agents && s.agents[id] != o)
  {
    hide AgentsOk;
  }

  ghost predicate OnlyMoves(s: State, s': State, c: Conn) {
    s'.handlers.Keys == s.handlers.Keys && forall d :: d in s.handlers && d != c ==> s'.handlers[d] == s.handlers[d]
  }

  lemma GotoMoves(s: State, s': State, c: Conn, pc: PC)
    requires c in s.handlers && s'.handlers == s.handlers
    ensures OnlyMoves(s, Goto(s', c, pc), c)
  {
  }

  lemma OthersStay(removal: Removal, s: State, c: Conn)
    requires c in s.handlers
    ensures OnlyMoves(s, Exec(removal, s, c), c)
  {
    hide Goto, OnlyMoves;
    forall s': State, pc: PC | s'.handlers == s.handlers
      ensures OnlyMoves(s, Goto(s', c, pc), c)
    {
      GotoMoves(s, s', c, pc);
    }
    if s.handlers[c].pc.Over? { StaysOver(s, c); }
  }

  lemma StaysOver(s: State, c: Conn)
    ensures OnlyMoves(s, s, c)
  {
  }

  /** Another object changes only if it is new. */
  lemma ClientKept(removal: Removal, s: State, c: Conn, o: Obj)
    requires AgentsOk(s) && Near(s, c) && Enabled(s, c) && !s.handlers[c].pc.Get?
    requires o < |s.objs| && ClientOk(s, o) && o != s.handlers[c].pc.o
    ensures ClientOk(Exec(removal, s, c), o) == true
  {
    hide Exec, AgentsOk;
    Elsewhere(removal, s, c, o);
    OthersStay(removal, s, c);
  }

  lemma GetKeeps(removal: Removal, s: State, c: Conn, o: Obj)
    requires AgentsOk(s) && Near(s, c) && Enabled(s, c) && s.handlers[c].pc.Get? && o < |Exec(removal, s, c).objs|
    requires o < |s.objs| ==> ClientOk(s, o)
    ensures ClientOk(Exec(removal, s, c), o)
    ensures HandlerOk(Exec(removal, s, c), c)
  {
  }

  /** Another handler: its object is the same, or what it needs of the object is. */
  lemma HandlerKept(removal: Removal, s: State, c: Conn, d: Conn)
    requires AgentsOk(s) && Near(s, c) && Near(s, d) && Enabled(s, c) && c != d
    requires forall o :: !(Initialises(s, c, o) && Initialises(s, d, o))
    ensures d in Exec(removal, s, c).handlers && (HandlerOk(Exec(removal, s, c), d) == true)
  {
    assert !s.handlers[c].pc.Over?;
    hide Exec, AgentsOk, Initialises, ClientOk, Enabled;
    OthersStay(removal, s, c);
    var pc, dpc := s.handlers[c].pc, s.handlers[d].pc;
    if !dpc.Over? && !dpc.Get? {
      if pc.Get? {
        GetElsewhere(removal, s, c, dpc.o);
      } else if dpc.o == pc.o {
        SameObject(removal, s, c, d);
      } else {
        Elsewhere(removal, s, c, dpc.o);
      }
    }
  }

  lemma GetElsewhere(removal: Removal, s: State, c: Conn, o: Obj)
    requires c in s.handlers && s.handlers[c].pc.Get? && o < |s.objs|
    ensures var s' := Exec(removal, s, c); o < |s'.objs| && s'.objs[o] == s.objs[o]
    ensures forall id :: id in s.agents ==>
            id in Exec(removal, s, c).agents && Exec(removal, s, c).agents[id] == s.agents[id]
  {
  }

  lemma SameObject(removal: Removal, s: State, c: Conn, d: Conn)
    requires AgentsOk(s) && Near(s, c) && Near(s, d) && Enabled(s, c) && c != d
    requires !s.handlers[c].pc.Get? && !s.handlers[d].pc.Get?
    requires !s.handlers[d].pc.Over? && s.handlers[d].pc.o == s.handlers[c].pc.o
    requires forall o :: !(Initialises(s, c, o) && Initialises(s, d, o))
    ensures HandlerOk(Exec(removal, s, c), d) == true
  {
    var o := s.handlers[c].pc.o;
    if s.handlers[c].pc.InitTunnels? {
      assert Initialises(s, c, o) && !Initialises(s, d, o);
    } else if s.handlers[c].pc.Remove? {
      var tunnels := X(s, o).tunnels.value;
      if d in tunnels { assert d in tunnels - {c}; }
    }
  }

  lemma AgentsKept(removal: Removal, s: State, c: Conn)
    requires AgentsOk(s) && Near(s, c) && Enabled(s, c)
    ensures AgentsOk(Exec(removal, s, c))
  {
  }

  lemma LostStays(removal: Removal, s: State, c: Conn, o: Obj)
    requires Near(s, c) && Enabled(s, c) && o < |s.objs|
    ensures o < |Exec(removal, s, c).objs| && (s.objs[o].lost ==> Exec(removal, s, c).objs[o].lost)
  {
  }

  lemma OneInitialiser(removal: Removal, s: State, c: Conn)
    requires Inv(s) && Enabled(s, c)
    ensures forall d, e, o :: Initialises(Exec(removal, s, c), d, o) && Initialises(Exec(removal, s, c), e, o) ==>
            d == e
  {
    var s' := Exec(removal, s, c);
    forall d, o: Obj | Initialises(s', d, o) ensures Initialises(s, d, o) || (d == c && o == |s.objs|) {}
    forall d, o: Obj | Initialises(s, d, o) ensures o < |s.objs| { assert HandlerOk(s, d); }
  }

  lemma StepKeepsInv(removal: Removal, s: State, c: Conn)
    requires Inv(s) && Enabled(s, c)
    ensures Inv(Exec(removal, s, c))
  {
    hide Exec, ClientOk, HandlerOk, AgentsOk, Initialises;
    var s' := Exec(removal, s, c);
    assert Near(s, c) by { if !s.handlers[c].pc.Get? { HasObject(s, c); } }
    AgentsKept(removal, s, c);
    OneInitialiser(removal, s, c);
    OthersStay(removal, s, c);
    forall o: Obj | o < |s'.objs| ensures ClientOk(s', o) == true { ObjectKept(removal, s, c, o); }
    forall d | d in s'.handlers ensures HandlerOk(s', d) == true { StateKept(removal, s, c, d); }
  }

  lemma HasObject(s: State, c: Conn)
    requires c in s.handlers && HandlerOk(s, c) && !s.handlers[c].pc.Get? && !s.handlers[c].pc.Over?
    ensures s.handlers[c].pc.o < |s.objs|
  {
  }

  lemma ObjectKept(removal: Removal, s: State, c: Conn, o: Obj)
    requires Inv(s) && Enabled(s, c) && Near(s, c) && o < |Exec(removal, s, c).objs|
    ensures ClientOk(Exec(removal, s, c), o) == true
  {
    hide Exec, ClientOk, HandlerOk, AgentsOk, Initialises;
    if s.handlers[c].pc.Get? {
      GetKeeps(removal, s, c, o);
    } else {
      SameObjects(removal, s, c);
      if o != s.handlers[c].pc.o { ClientKept(removal, s, c, o); } else { OwnKept(removal, s, c); }
    }
  }

  lemma SameObjects(removal: Removal, s: State, c: Conn)
    requires c in s.handlers && !s.handlers[c].pc.Get?
    ensures |Exec(removal, s, c).objs| == |s.objs|
  {
  }

  lemma StateKept(removal: Removal, s: State, c: Conn, d: Conn)
    requires Inv(s) && Enabled(s, c) && Near(s, c) && d in s.handlers && d in Exec(removal, s, c).handlers
    ensures HandlerOk(Exec(removal, s, c), d) == true
  {
    hide Exec, ClientOk, HandlerOk, AgentsOk, Initialises;
    if d != c {
      assert Near(s, d) by { if !s.handlers[d].pc.Get? && !s.handlers[d].pc.Over? { HasObject(s, d); } }
      OneOfTwo(s, c, d);
      HandlerKept(removal, s, c, d);
    } else if s.handlers[c].pc.Get? {
      Gotten(removal, s, c);
      GetKeeps(removal, s, c, Exec(removal, s, c).agents[s.handlers[c].id]);
    } else {
      OwnKept(removal, s, c);
    }
  }

  lemma Gotten(removal: Removal, s: State, c: Conn)
    requires AgentsOk(s) && c in s.handlers && s.handlers[c].pc.Get?
    ensures var s', id := Exec(removal, s, c), s.handlers[c].id; id in s'.agents && s'.agents[id] < |s'.objs|
    ensures
      var s', id := Exec(removal, s, c), s.handlers[c].id;
      s'.agents[id] < |s.objs| ==> s'.agents[id] in s.agents.Values
  {
  }

  lemma OneOfTwo(s: State, c: Conn, d: Conn)
    requires Inv(s) && c != d
    ensures forall o :: !(Initialises(s, c, o) && Initialises(s, d, o))
  {
  }

  lemma {:induction false} RunInv(removal: Removal, run: seq<State>, acts: seq<Action>, i: nat)
    requires IsRun(removal, run, acts) && i < |run|
    ensures Inv(run[i])
  {
    if i > 0 {
      RunInv(removal, run, acts, i - 1);
      assert NextAt(removal, run, acts, i - 1);
      match acts[i - 1]
      case Accept(c, id) => AcceptKeepsInv(run[i - 1], c, id, run[i]);
      case Step(c) => StepKeepsInv(removal, run[i - 1], c);
    }
  }

  lemma AcceptKeepsInv(s: State, c: Conn, id: Id, s': State)
    requires Inv(s) && c !in s.handlers && s' == s.(handlers := s.handlers[c := Handler(id, Get(0))])
    ensures Inv(s')
  {
    forall o: Obj | o < |s'.objs| ensures ClientOk(s', o) { assert ClientOk(s, o); }
    forall d | d in s'.handlers ensures HandlerOk(s', d) { assert d != c ==> HandlerOk(s, d); }
    forall d, o | Initialises(s', d, o) ensures Initialises(s, d, o) {}
  }

  /**
   In every reachable state a client object that holds a tunnel is the one
   `id2Agent` maps its ID to, it has been initialised exactly once, and it has
   not lost its last tunnel; so two objects with one ID never both hold tunnels.
   */
  lemma HolderIsMapped(removal: Removal, run: seq<State>, acts: seq<Action>, i: nat, o: Obj)
    requires IsRun(removal, run, acts) && i < |run| && o < |run[i].objs|
    requires run[i].objs[o].tunnels.Some? && run[i].objs[o].tunnels.value != {}
    ensures run[i].objs[o].ID.Some?
    ensures run[i].objs[o].ID.value in run[i].agents && run[i].agents[run[i].objs[o].ID.value] == o
    ensures run[i].objs[o].inits == 1 && !run[i].objs[o].lost
  {
    RunInv(removal, run, acts, i);
    assert ClientOk(run[i], o);
  }

  /** Each object is initialised at most once, and once it has been, never again. */
  lemma InitialisedOnce(removal: Removal, run: seq<State>, acts: seq<Action>, i: nat, o: Obj)
    requires IsRun(removal, run, acts) && i < |run| && o < |run[i].objs|
    ensures run[i].objs[o].inits <= 1
    ensures run[i].objs[o].tunnels.Some? ==> run[i].objs[o].inits == 1
    ensures forall c :: Initialises(run[i], c, o) ==> run[i].objs[o].inits == 0
  {
    RunInv(removal, run, acts, i);
    assert ClientOk(run[i], o);
    forall c | Initialises(run[i], c, o) ensures run[i].objs[o].inits == 0 {
      assert HandlerOk(run[i], c);
    }
  }

  /** An object that lost its last tunnel in state `i` has none in any later state. */
  lemma {:induction false} LostForGood(removal: Removal, run: seq<State>, acts: seq<Action>, i: nat, j: nat, o: Obj)
    requires IsRun(removal, run, acts) && i <= j < |run| && o < |run[i].objs| && run[i].objs[o].lost
    ensures o < |run[j].objs| && run[j].objs[o].lost && run[j].objs[o].tunnels == None
    decreases j
  {
    RunInv(removal, run, acts, j);
    if i < j {
      LostForGood(removal, run, acts, i, j - 1, o);
      RunInv(removal, run, acts, j - 1);
      assert NextAt(removal, run, acts, j - 1);
      if acts[j - 1].Step? {
        assert HandlerOk(run[j - 1], acts[j - 1].c);
        LostStays(removal, run[j - 1], acts[j - 1].c, o);
      }
    }
    assert ClientOk(run[j], o);
  }

  /** removeClient deletes the very object it is called for, never a later one with the same ID. */
  lemma DeletesItself(removal: Removal, run: seq<State>, acts: seq<Action>, i: nat, c: Conn)
    requires IsRun(removal, run, acts) && i < |run| && c in run[i].handlers && run[i].handlers[c].pc.DeleteAgent?
    ensures
      var o := run[i].handlers[c].pc.o;
      o < |run[i].objs| && IdOf(run[i].objs[o]) in run[i].agents && run[i].agents[IdOf(run[i].objs[o])] == o &&
      run[i].objs[o].lost
  {
    RunInv(removal, run, acts, i);
    assert HandlerOk(run[i], c);
    assert ClientOk(run[i], run[i].handlers[c].pc.o);
  }

  /** A handler serves its tunnel only while the object it joined has it, under the ID the handler read. */
  lemma ServesMapped(removal: Removal, run: seq<State>, acts: seq<Action>, i: nat, c: Conn)
    requires IsRun(removal, run, acts) && i < |run| && c in run[i].handlers && run[i].handlers[c].pc.Serve?
    ensures run[i].handlers[c].id in run[i].agents && run[i].agents[run[i].handlers[c].id] == run[i].handlers[c].pc.o
    ensures X(run[i], run[i].handlers[c].pc.o).tunnels.Some? && c in X(run[i], run[i].handlers[c].pc.o).tunnels.value
  {
    RunInv(removal, run, acts, i);
    assert HandlerOk(run[i], c);
    assert ClientOk(run[i], run[i].handlers[c].pc.o);
  }

  /** The object can still take tunnels: `init` has made its map, and it has not lost its last tunnel. */
  ghost predicate Open(x: Client) {
    x.inits > 0 && !x.lost
  }

  /** Action `i` is a call of addTunnel by the handler of `c`. */
  ghost predicate Adds(run: seq<State>, acts: seq<Action>, i: nat, c: Conn)
    requires |run| == |acts| + 1 && i < |acts|
  {
    acts[i] == Step(c) && c in run[i].handlers && run[i].handlers[c].pc.Add?
  }

  /**
   A tunnel that joins an open object is added to the tunnels it has, and served;
   otherwise nothing changes, and the handler tries again or gives up.
   */
  lemma AddServes(removal: Removal, run: seq<State>, acts: seq<Action>, i: nat, c: Conn)
    requires IsRun(removal, run, acts) && i < |acts| && Adds(run, acts, i, c)
    ensures run[i].handlers[c].pc.o < |run[i].objs| && |run[i + 1].objs| == |run[i].objs| && c in run[i + 1].handlers
    ensures run[i + 1].agents == run[i].agents
    ensures
      var o, pc' := run[i].handlers[c].pc.o, run[i + 1].handlers[c].pc;
      var x := run[i].objs[o];
      if Open(x)
      then pc' == Serve(o) && x.tunnels.Some? &&
        run[i + 1].objs == run[i].objs[o := x.(tunnels := Some(x.tunnels.value + {c}))]
      else run[i + 1].objs == run[i].objs && (pc'.Get? || pc'.Over?)
  {
    RunInv(removal, run, acts, i);
    assert NextAt(removal, run, acts, i);
    assert HandlerOk(run[i], c);
    assert ClientOk(run[i], run[i].handlers[c].pc.o);
  }

  /** How many of the first `n` actions were calls of addTunnel by the handler of `c`. */
  ghost function Attempts(run: seq<State>, acts: seq<Action>, n: nat, c: Conn): nat
    requires |run| == |acts| + 1 && n <= |acts|
  {
    if n == 0 then 0 else Attempts(run, acts, n - 1, c) + if Adds(run, acts, n - 1, c) then 1 else 0
  }

  ghost predicate ServedBy(run: seq<State>, n: nat, c: Conn) {
    exists k :: 0 <= k <= n < |run| && IsServing(run[k], c)
  }

  ghost predicate IsServing(s: State, c: Conn) {
    c in s.handlers && s.handlers[c].pc.Serve?
  }

  /** The tries made so far, as the program counter has them. */
  ghost predicate Tried(pc: PC, n: nat) {
    match pc
    case Get(i) => n == i < 5
    case InitTunnels(_, i) => n == i < 5
    case InitTasks(_, i) => n == i < 5
    case Add(_, i) => n == i < 5
    case Over => n == 5
    case _ => false
  }

  lemma OneTry(removal: Removal, s: State, c: Conn, n: nat)
    requires Enabled(s, c) && Tried(s.handlers[c].pc, n)
    ensures
      var pc' := Exec(removal, s, c).handlers[c].pc;
      pc'.Serve? || Tried(pc', n + if s.handlers[c].pc.Add? then 1 else 0)
  {
  }

  lemma {:induction false} TriesCounted(removal: Removal, run: seq<State>, acts: seq<Action>, n: nat, c: Conn)
    requires IsRun(removal, run, acts) && n < |run| && c in run[n].handlers && !ServedBy(run, n, c)
    ensures Tried(run[n].handlers[c].pc, Attempts(run, acts, n, c))
  {
    hide Exec;
    if n > 0 {
      assert NextAt(removal, run, acts, n - 1);
      NotServedBefore(run, n, c);
      if c in run[n - 1].handlers {
        TriesCounted(removal, run, acts, n - 1, c);
        OneMoreTry(removal, run, acts, n, c);
      } else {
        NoTryYet(removal, run, acts, n - 1, c);
        if acts[n - 1].Step? { OthersStay(removal, run[n - 1], acts[n - 1].c); }
      }
    }
  }

  lemma NotServedBefore(run: seq<State>, n: nat, c: Conn)
    requires 0 < n < |run| && !ServedBy(run, n, c)
    ensures !ServedBy(run, n - 1, c) && !IsServing(run[n], c)
  {
    hide IsServing;
  }

  lemma OneMoreTry(removal: Removal, run: seq<State>, acts: seq<Action>, n: nat, c: Conn)
    requires IsRun(removal, run, acts) && 0 < n < |run| && c in run[n - 1].handlers && c in run[n].handlers
    requires !IsServing(run[n], c) && Tried(run[n - 1].handlers[c].pc, Attempts(run, acts, n - 1, c))
    ensures Tried(run[n].handlers[c].pc, Attempts(run, acts, n, c))
  {
    hide Tried, Exec;
    assert NextAt(removal, run, acts, n - 1);
    if acts[n - 1] == Step(c) {
      OneTry(removal, run[n - 1], c, Attempts(run, acts, n - 1, c));
    } else if acts[n - 1].Step? {
      OthersStay(removal, run[n - 1], acts[n - 1].c);
    }
  }

  /** Before its connection is accepted a handler does nothing. */
  lemma {:induction false} NoTryYet(removal: Removal, run: seq<State>, acts: seq<Action>, n: nat, c: Conn)
    requires IsRun(removal, run, acts) && n < |run| && c !in run[n].handlers
    ensures Attempts(run, acts, n, c) == 0
  {
    hide Exec;
    if n > 0 {
      assert NextAt(removal, run, acts, n - 1);
      if acts[n - 1].Step? { OthersStay(removal, run[n - 1], acts[n - 1].c); }
      NoTryYet(removal, run, acts, n - 1, c);
    }
  }

  /** Every call of addTunnel by the handler found an object that was not open. */
  ghost predicate AllRefused(run: seq<State>, acts: seq<Action>, n: nat, c: Conn)
    requires |run| == |acts| + 1 && n <= |acts|
  {
    forall k: nat :: k < n && Adds(run, acts, k, c) ==>
      run[k].handlers[c].pc.o < |run[k].objs| && !Open(run[k].objs[run[k].handlers[c].pc.o])
  }

  /**
   A handler that is over without having served its tunnel has called addTunnel
   five times, each time of an object that was not initialised yet or had lost
   its last tunnel.
   */
  lemma GivesUpAfterFive(removal: Removal, run: seq<State>, acts: seq<Action>, n: nat, c: Conn)
    requires IsRun(removal, run, acts) && n < |run| && c in run[n].handlers && run[n].handlers[c].pc.Over?
    requires !ServedBy(run, n, c)
    ensures Attempts(run, acts, n, c) == 5 && AllRefused(run, acts, n, c)
  {
    TriesCounted(removal, run, acts, n, c);
    forall k: nat | k < n && Adds(run, acts, k, c)
      ensures run[k].handlers[c].pc.o < |run[k].objs| && !Open(run[k].objs[run[k].handlers[c].pc.o])
    {
      AddServes(removal, run, acts, k, c);
      assert !IsServing(run[k + 1], c);
    }
  }

  /** Action `i` is the section of removeTunnel in which the handler of `c` takes its tunnel out of object `o`. */
  ghost predicate Removes(run: seq<State>, acts: seq<Action>, i: nat, c: Conn, o: Obj)
    requires |run| == |acts| + 1
  {
    i < |acts| && acts[i] == Step(c) && c in run[i].handlers && run[i].handlers[c].pc == Remove(o)
  }

  ghost predicate RemovesLast(run: seq<State>, acts: seq<Action>, i: nat, c: Conn, o: Obj)
    requires |run| == |acts| + 1
  {
    Removes(run, acts, i, c, o) && o < |run[i].objs| && run[i].objs[o].tunnels == Some({c})
  }

  /** Action `i` deletes the mapping of object `o`, and that alone. */
  ghost predicate Unmaps(run: seq<State>, acts: seq<Action>, i: nat, c: Conn, o: Obj)
    requires |run| == |acts| + 1
  {
    i < |acts| && acts[i] == Step(c) && c in run[i].handlers && run[i].handlers[c].id in run[i].agents &&
    run[i].agents[run[i].handlers[c].id] == o && run[i + 1].agents == run[i].agents - {run[i].handlers[c].id}
  }

  /**
   Taking out the last tunnel closes the object for good, and its mutex is kept
   while its mapping is deleted; taking out another leaves the rest, and the
   mapping alone, and is all that removeTunnel does.
   */
  lemma RemovesOne(removal: Removal, run: seq<State>, acts: seq<Action>, i: nat, c: Conn, o: Obj)
    requires IsRun(removal, run, acts) && Removes(run, acts, i, c, o)
    ensures o < |run[i].objs| && run[i].objs[o].tunnels.Some? && c in run[i].objs[o].tunnels.value
    ensures run[i + 1].agents == run[i].agents && c in run[i + 1].handlers
    ensures
      var x, pc' := run[i].objs[o], run[i + 1].handlers[c].pc;
      if RemovesLast(run, acts, i, c, o)
      then pc' == DeleteAgent(o) &&
        run[i + 1].objs == run[i].objs[o := x.(tunnels := None, mutex := Some(c), lost := true)]
      else pc' == Over && run[i + 1].objs == run[i].objs[o := x.(tunnels := Some(x.tunnels.value - {c}))]
  {
    RunInv(removal, run, acts, i);
    assert NextAt(removal, run, acts, i);
    assert HandlerOk(run[i], c);
    LastOfSet(run[i].objs[o].tunnels.value, c);
  }

  lemma LastOfSet(tunnels: set<Conn>, c: Conn)
    requires c in tunnels
    ensures |tunnels - {c}| < 1 <==> tunnels == {c}
  {
    if |tunnels - {c}| < 1 { assert tunnels - {c} == {}; }
  }

  /** One step of a handler that is to delete the mapping of its object. */
  lemma DeletesOne(removal: Removal, run: seq<State>, acts: seq<Action>, j: nat, c: Conn, o: Obj)
    requires IsRun(removal, run, acts) && j < |acts|
    requires c in run[j].handlers && run[j].handlers[c].pc == DeleteAgent(o)
    ensures run[j].handlers[c].id in run[j].agents && run[j].agents[run[j].handlers[c].id] == o && Enabled(run[j], c)
    ensures c in run[j + 1].handlers && run[j + 1].handlers[c].id == run[j].handlers[c].id
    ensures acts[j] == Step(c) ==> Unmaps(run, acts, j, c, o)
    ensures acts[j] != Step(c) ==> run[j + 1].handlers[c] == run[j].handlers[c]
  {
    RunInv(removal, run, acts, j);
    assert NextAt(removal, run, acts, j);
    assert HandlerOk(run[j], c);
    assert ClientOk(run[j], o);
    if acts[j].Step? { OthersStay(removal, run[j], acts[j].c); }
  }

  /** Action `i` deletes the user of the handler's id. */
  ghost predicate DropsUser(run: seq<State>, acts: seq<Action>, i: nat, c: Conn)
    requires |run| == |acts| + 1
  {
    i < |acts| && acts[i] == Step(c) && c in run[i].handlers &&
    run[i + 1].users == run[i].users - {run[i].handlers[c].id} && run[i + 1].agents == run[i].agents
  }

  /** Action `i` unlocks the mutex of object `o`. */
  ghost predicate Unlocks(run: seq<State>, acts: seq<Action>, i: nat, c: Conn, o: Obj)
    requires |run| == |acts| + 1
  {
    i < |acts| && acts[i] == Step(c) && o < |run[i].objs| && o < |run[i + 1].objs| &&
    run[i].objs[o].mutex == Some(c) && run[i + 1].objs[o].mutex == None
  }

  /** The other two steps of a handler that took out the last tunnel. */
  lemma EndsOne(removal: Removal, run: seq<State>, acts: seq<Action>, j: nat, c: Conn, o: Obj)
    requires IsRun(removal, run, acts) && j < |acts|
    requires c in run[j].handlers && (run[j].handlers[c].pc == DeleteUser(o) || run[j].handlers[c].pc == Unlock(o))
    ensures Enabled(run[j], c) && c in run[j + 1].handlers
    ensures acts[j] != Step(c) ==> run[j + 1].handlers[c] == run[j].handlers[c]
    ensures
      acts[j] == Step(c) ==>
        if run[j].handlers[c].pc.Unlock? then Unlocks(run, acts, j, c, o) && run[j + 1].handlers[c].pc == Over
        else DropsUser(run, acts, j, c) && run[j + 1].handlers[c].pc == Unlock(o)
  {
    RunInv(removal, run, acts, j);
    assert NextAt(removal, run, acts, j);
    assert HandlerOk(run[j], c);
    assert ClientOk(run[j], o);
    if acts[j].Step? { OthersStay(removal, run[j], acts[j].c); }
  }

  /** How far the removal of the last tunnel, begun at action `i`, has got by state `j`. */
  ghost predicate Ending(removal: Removal, run: seq<State>, acts: seq<Action>, i: nat, j: nat, c: Conn, o: Obj)
    requires |run| == |acts| + 1 && j < |run|
  {
    var unmapped := exists m :: i < m < j && Unmaps(run, acts, m, c, o);
    var dropped := removal.AndUser? ==> exists m :: i < m < j && DropsUser(run, acts, m, c);
    c in run[j].handlers &&
    match run[j].handlers[c].pc
    case DeleteAgent(x) => x == o
    case DeleteUser(x) => x == o && removal.AndUser? && unmapped
    case Unlock(x) => x == o && unmapped && dropped
    case Over => unmapped && dropped && exists m :: i < m < j && Unlocks(run, acts, m, c, o)
    case _ => false
  }

  /**
   The handler that has taken out the last tunnel of an object deletes the mapping
   of that object, then the user if the server is set to, and gives the mutex back;
   nothing can keep it from its next step, and it is over only with all of that done.
   */
  lemma {:induction false} LastIsUnmapped(removal: Removal, run: seq<State>, acts: seq<Action>, i: nat, j: nat, c: Conn,
                                          o: Obj)
    requires IsRun(removal, run, acts) && RemovesLast(run, acts, i, c, o) && i < j < |run|
    ensures Ending(removal, run, acts, i, j, c, o)
    ensures run[j].handlers[c].pc.Over? || Enabled(run[j], c)
    decreases j
  {
    hide Exec, Enabled, Unmaps, DropsUser, Unlocks;
    if j == i + 1 {
      RemovesOne(removal, run, acts, i, c, o);
      StaysEnabled(removal, run, acts, j, c, o);
    } else {
      LastIsUnmapped(removal, run, acts, i, j - 1, c, o);
      EndingGoesOn(removal, run, acts, i, j, c, o);
      if !run[j].handlers[c].pc.Over? { StaysEnabled(removal, run, acts, j, c, o); }
    }
  }

  lemma StaysEnabled(removal: Removal, run: seq<State>, acts: seq<Action>, j: nat, c: Conn, o: Obj)
    requires IsRun(removal, run, acts) && j < |run| && c in run[j].handlers && HasMutex(run[j].handlers[c].pc, o)
    ensures Enabled(run[j], c)
  {
  }

  lemma EndingGoesOn(removal: Removal, run: seq<State>, acts: seq<Action>, i: nat, j: nat, c: Conn, o: Obj)
    requires IsRun(removal, run, acts) && i < j - 1 && j < |run| && Ending(removal, run, acts, i, j - 1, c, o)
    ensures Ending(removal, run, acts, i, j, c, o)
  {
    hide Exec, Unmaps, DropsUser, Unlocks;
    var k := j - 1;
    match run[k].handlers[c].pc
    case DeleteAgent(_) =>
      DeletesOne(removal, run, acts, k, c, o);
      if acts[k] == Step(c) { AfterDelete(removal, run, acts, k, c, o); }
    case DeleteUser(_) => EndsOne(removal, run, acts, k, c, o);
    case Unlock(_) => EndsOne(removal, run, acts, k, c, o);
    case Over => StaysOverRun(removal, run, acts, k, c);
    case _ =>
  }

  lemma AfterDelete(removal: Removal, run: seq<State>, acts: seq<Action>, j: nat, c: Conn, o: Obj)
    requires IsRun(removal, run, acts) && j < |acts| && acts[j] == Step(c)
    requires c in run[j].handlers && run[j].handlers[c].pc == DeleteAgent(o)
    ensures c in run[j + 1].handlers
    ensures run[j + 1].handlers[c].pc == if removal.AndUser? then DeleteUser(o) else Unlock(o)
  {
    assert NextAt(removal, run, acts, j);
  }

  lemma StaysOverRun(removal: Removal, run: seq<State>, acts: seq<Action>, j: nat, c: Conn)
    requires IsRun(removal, run, acts) && j < |acts| && c in run[j].handlers && run[j].handlers[c].pc.Over?
    ensures c in run[j + 1].handlers && run[j + 1].handlers[c].pc.Over?
  {
    hide Exec;
    assert NextAt(removal, run, acts, j);
    if acts[j].Step? { OthersStay(removal, run[j], acts[j].c); }
  }

  /** Who is to delete a mapping has taken out the last tunnel of its object before. */
  lemma {:induction false} DeleterRemovedLast(removal: Removal, run: seq<State>, acts: seq<Action>, j: nat, c: Conn,
                                              o: Obj)
    requires IsRun(removal, run, acts) && j < |run|
    requires c in run[j].handlers && run[j].handlers[c].pc == DeleteAgent(o)
    ensures exists i :: 0 <= i < j && RemovesLast(run, acts, i, c, o)
  {
    assert j > 0;
    var i := j - 1;
    assert NextAt(removal, run, acts, i);
    RunInv(removal, run, acts, i);
    if acts[i] == Step(c) {
      ReachesDelete(removal, run[i], c, o);
      RemovesOne(removal, run, acts, i, c, o);
      assert RemovesLast(run, acts, i, c, o);
    } else {
      hide Exec, Inv;
      if acts[i].Step? { OthersStay(removal, run[i], acts[i].c); }
      DeleterRemovedLast(removal, run, acts, i, c, o);
    }
  }

  lemma ReachesDelete(removal: Removal, s: State, c: Conn, o: Obj)
    requires c in s.handlers && Exec(removal, s, c).handlers[c].pc == DeleteAgent(o)
    requires Enabled(s, c)
    ensures s.handlers[c].pc == Remove(o)
  {
  }

  /** A mapping goes away only after the last tunnel of its object, by the handler that took that out. */
  lemma OnlyLastUnmaps(removal: Removal, run: seq<State>, acts: seq<Action>, j: nat, id: Id)
    requires IsRun(removal, run, acts) && j < |acts| && id in run[j].agents
    requires !(id in run[j + 1].agents && run[j + 1].agents[id] == run[j].agents[id])
    ensures
      var o := run[j].agents[id];
      exists c, i :: 0 <= i < j && RemovesLast(run, acts, i, c, o) && Unmaps(run, acts, j, c, o)
  {
    assert NextAt(removal, run, acts, j);
    RunInv(removal, run, acts, j);
    var c := acts[j].c;
    ChangesMapping(removal, run[j], c, id);
    var o := run[j].handlers[c].pc.o;
    DeletesOne(removal, run, acts, j, c, o);
    DeleterRemovedLast(removal, run, acts, j, c, o);
  }

  lemma ChangesMapping(removal: Removal, s: State, c: Conn, id: Id)
    requires c in s.handlers && id in s.agents
    requires !(id in Exec(removal, s, c).agents && Exec(removal, s, c).agents[id] == s.agents[id])
    ensures s.handlers[c].pc.DeleteAgent?
  {
  }

  /** The handler of `c` is between the two sections of `init`. */
  ghost predicate MakesTasks(s: State, c: Conn, o: Obj) {
    c in s.handlers && s.handlers[c].pc.InitTasks? && s.handlers[c].pc.o == o
  }

  ghost predicate TasksOk(s: State) {
    && (forall c, o: Obj :: MakesTasks(s, c, o) ==> o < |s.objs| && s.objs[o].inits > 0 && !s.objs[o].tasks)
    && (forall c, d, o: Obj :: MakesTasks(s, c, o) && MakesTasks(s, d, o) ==> c == d)
    && (forall o: Obj :: o < |s.objs| && s.objs[o].inits > 0 && !s.objs[o].tasks ==> exists c :: MakesTasks(s, c, o))
    && (forall o: Obj :: o < |s.objs| && s.objs[o].tasks ==> s.objs[o].inits > 0)
  }

  lemma MakersStep(removal: Removal, s: State, c: Conn, s': State)
    requires c in s.handlers && s' == Exec(removal, s, c)
    ensures forall d, o: Obj :: MakesTasks(s', d, o) <==>
            (d != c && MakesTasks(s, d, o)) || (d == c && s.handlers[c].pc.InitTunnels? && s.handlers[c].pc.o == o)
  {
    OthersStay(removal, s, c);
    GoesToTasks(removal, s, c);
    hide Exec;
  }

  lemma GoesToTasks(removal: Removal, s: State, c: Conn)
    requires c in s.handlers
    ensures c in Exec(removal, s, c).handlers
    ensures
      var pc, pc' := s.handlers[c].pc, Exec(removal, s, c).handlers[c].pc;
      if pc.InitTunnels? then pc'.InitTasks? && pc'.o == pc.o else !pc'.InitTasks?
  {
  }

  /** `init` has run on an object once more, or has made its tasks, only by the step that does so. */
  ghost predicate MadeBy(s: State, s': State, pc: PC) {
    && |s.objs| <= |s'.objs|
    && (forall o: Obj :: |s.objs| <= o < |s'.objs| ==> s'.objs[o].inits == 0 && !s'.objs[o].tasks)
    && (forall o: Obj :: o < |s.objs| ==>
      s'.objs[o].inits == s.objs[o].inits + (if pc.InitTunnels? && pc.o == o then 1 else 0) &&
      s'.objs[o].tasks == (s.objs[o].tasks || (pc.InitTasks? && pc.o == o)))
  }

  lemma TasksStep(removal: Removal, s: State, c: Conn)
    requires c in s.handlers
    ensures MadeBy(s, Exec(removal, s, c), s.handlers[c].pc)
  {
  }

  lemma NotYetMade(s: State, c: Conn)
    requires Inv(s) && c in s.handlers && s.handlers[c].pc.InitTunnels?
    ensures s.handlers[c].pc.o < |s.objs| && s.objs[s.handlers[c].pc.o].inits == 0
  {
    assert HandlerOk(s, c);
  }

  lemma TasksKept(removal: Removal, s: State, c: Conn, s': State)
    requires Inv(s) && Enabled(s, c) && TasksOk(s) && s' == Exec(removal, s, c)
    ensures TasksOk(s')
  {
    hide Exec, AgentsOk, ClientOk;
    TasksStep(removal, s, c);
    MakersStep(removal, s, c, s');
    if s.handlers[c].pc.InitTunnels? { NotYetMade(s, c); }
    if s.handlers[c].pc.InitTasks? { assert MakesTasks(s, c, s.handlers[c].pc.o); }
    hide HandlerOk, Inv;
    forall o: Obj | o < |s'.objs| && s'.objs[o].inits > 0 && !s'.objs[o].tasks
      ensures exists d :: MakesTasks(s', d, o)
    {
      if s.handlers[c].pc.InitTunnels? && s.handlers[c].pc.o == o {
        assert MakesTasks(s', c, o);
      } else {
        var d :| MakesTasks(s, d, o);
        assert MakesTasks(s', d, o);
      }
    }
  }

  lemma SameMakers(s: State, s': State)
    requires TasksOk(s) && s'.objs == s.objs && forall c, o: Obj :: MakesTasks(s', c, o) == MakesTasks(s, c, o)
    ensures TasksOk(s')
  {
    hide MakesTasks;
    forall o: Obj | o < |s.objs| && s.objs[o].inits > 0 && !s.objs[o].tasks ensures exists c :: MakesTasks(s', c, o) {
      var c :| MakesTasks(s, c, o);
      assert MakesTasks(s', c, o);
    }
  }

  lemma NoTasks(s: State)
    requires Init(s)
    ensures TasksOk(s)
  {
  }

  lemma {:induction false} TasksRun(removal: Removal, run: seq<State>, acts: seq<Action>, i: nat)
    requires IsRun(removal, run, acts) && i < |run|
    ensures TasksOk(run[i])
  {
    hide Exec, Inv, TasksOk;
    if i > 0 {
      TasksRun(removal, run, acts, i - 1);
      assert NextAt(removal, run, acts, i - 1);
      RunInv(removal, run, acts, i - 1);
      if acts[i - 1].Step? {
        TasksKept(removal, run[i - 1], acts[i - 1].c, run[i]);
      } else {
        assert forall d, o: Obj :: MakesTasks(run[i], d, o) == MakesTasks(run[i - 1], d, o);
        SameMakers(run[i - 1], run[i]);
      }
    } else {
      NoTasks(run[0]);
    }
  }

  /** An initialised object has its map of tasks, unless its creator is between the two sections of `init`. */
  lemma TasksReady(removal: Removal, run: seq<State>, acts: seq<Action>, i: nat, o: Obj)
    requires IsRun(removal, run, acts) && i < |run| && o < |run[i].objs| && run[i].objs[o].inits > 0
    ensures run[i].objs[o].tasks <==> !exists c :: MakesTasks(run[i], c, o)
  {
    TasksRun(removal, run, acts, i);
  }

  function TwoJoining(agents: map<Id, Obj>, objs: seq<Client>, pc1: PC, pc2: PC): State {
    State(agents, {}, objs, map[1 := Handler("a", pc1), 2 := Handler("a", pc2)])
  }

  /** The steps of the instance below. */
  lemma FourSteps(removal: Removal)
    ensures
      var x, agents := NewClient("a"), map["a" := 0];
      var made := x.(ID := Some("a"), tunnels := Some({}), inits := 1);
      && Exec(removal, TwoJoining(map[], [], Get(0), Get(0)), 1) == TwoJoining(agents, [x], InitTunnels(0, 0), Get(0))
      && Exec(removal, TwoJoining(agents, [x], InitTunnels(0, 0), Get(0)), 1)
         == TwoJoining(agents, [made], InitTasks(0, 0), Get(0))
      && Exec(removal, TwoJoining(agents, [made], InitTasks(0, 0), Get(0)), 2)
         == TwoJoining(agents, [made], InitTasks(0, 0), Add(0, 0))
      && Exec(removal, TwoJoining(agents, [made], InitTasks(0, 0), Add(0, 0)), 2)
         == TwoJoining(agents, [made.(tunnels := Some({2}))], InitTasks(0, 0), Serve(0))
  {
    var x, agents := NewClient("a"), map["a" := 0];
    var made := x.(ID := Some("a"), tunnels := Some({}), inits := 1);
    assert {} + {2} == {2};
    var s3, s4 := TwoJoining(map[], [], Get(0), Get(0)), TwoJoining(agents, [x], InitTunnels(0, 0), Get(0));
    assert Exec(removal, s3, 1).agents == agents && Exec(removal, s3, 1).handlers == s4.handlers;
    var s5 := TwoJoining(agents, [made], InitTasks(0, 0), Get(0));
    assert Exec(removal, s4, 1).objs == [made] && Exec(removal, s4, 1).handlers == s5.handlers;
    var s6 := TwoJoining(agents, [made], InitTasks(0, 0), Add(0, 0));
    assert Exec(removal, s5, 2).handlers == s6.handlers;
    var s7 := TwoJoining(agents, [made.(tunnels := Some({2}))], InitTasks(0, 0), Serve(0));
    assert Exec(removal, s6, 2).objs == s7.objs && Exec(removal, s6, 2).handlers == s7.handlers;
  }

  /**
   So a tunnel may be in service while the tasks of its client are still a nil map:
   a second connection of the client joins while the first is in `init`.
   */
  lemma ServesWithoutTasks(removal: Removal)
    ensures exists run, acts, i: nat :: IsRun(removal, run, acts) && i < |run| && NoTasksYet(run[i])
  {
    FourSteps(removal);
    hide Exec;
    var x, agents := NewClient("a"), map["a" := 0];
    var made := x.(ID := Some("a"), tunnels := Some({}), inits := 1);
    var s0 := State(map[], {}, [], map[]);
    var s1 := s0.(handlers := map[1 := Handler("a", Get(0))]);
    var s2 := TwoJoining(map[], [], Get(0), Get(0));
    var s3 := TwoJoining(agents, [x], InitTunnels(0, 0), Get(0));
    var s4 := TwoJoining(agents, [made], InitTasks(0, 0), Get(0));
    var s5 := TwoJoining(agents, [made], InitTasks(0, 0), Add(0, 0));
    var s6 := TwoJoining(agents, [made.(tunnels := Some({2}))], InitTasks(0, 0), Serve(0));
    assert s1.handlers[2 := Handler("a", Get(0))] == s2.handlers;
    var run := [s0, s1, s2, s3, s4, s5, s6];
    var acts := [Accept(1, "a"), Accept(2, "a"), Step(1), Step(1), Step(2), Step(2)];
    forall i: nat ensures NextAt(removal, run, acts, i) {
    }
    assert 2 in s6.handlers && s6.handlers[2].pc == Serve(0);
    assert IsRun(removal, run, acts) && NoTasksYet(run[6]);
  }

  /** A tunnel is being served whose client has no map of tasks. */
  ghost predicate NoTasksYet(s: State) {
    exists c :: c in s.handlers && s.handlers[c].pc.Serve? && s.handlers[c].pc.o < |s.objs| &&
      !s.objs[s.handlers[c].pc.o].tasks
  }
}
