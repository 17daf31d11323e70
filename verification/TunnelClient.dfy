/**
 `client/conn.go`: the client's end of a tunnel. `readLoop` takes frames off the
 reader and `processData` hands their payloads to the local connections. A client
 without STUN servers is modelled: it answers peer-to-peer requests with 403.
 */
module TunnelClient {
  import opened Wrappers
  import opened Bytes
  import opened Bufio
  import opened Frames
  import opened Limited
  import opened Sinks
  import HostRewrite
  type Task = HostRewrite.Task

  /** The outcome of one `net.Dial`; a connection may fail after some bytes. */
  datatype Dialled = Refused | Connected(capacity: Option<nat>)

  /** What a public client's bytes become for the local service. */
  function Rewritten(host: Option<seq<byte>>, p: seq<byte>): seq<byte> {
    if host.None? then p else HostRewrite.Rewrite(HostRewrite.HostLine(host.value), p)
  }

  function StartMode(host: Option<seq<byte>>): HostRewrite.Mode {
    if host.None? then HostRewrite.Plain else HostRewrite.LineHeld([])
  }

  /** The first two bytes of a peer-to-peer request. */
  predicate LooksP2P(p: seq<byte>) {
    |p| >= 2 && Get16(p) == 0x5831
  }

  /** `t` has been handed `p`, and its connection has received what it should. */
  ghost predicate Gets(host: Option<seq<byte>>, t: Task, p: seq<byte>)
    reads t, t.conn
  {
    t.Took(p, StartMode(host), [], true) && (host.Some? ==> t.buf == HostRewrite.HostLine(host.value))
  }

  lemma GetsRewritten(host: Option<seq<byte>>, t: Task, p: seq<byte>)
    requires t.Valid() && Gets(host, t, p)
    ensures t.conn.received + t.Held() == Rewritten(host, p) && |t.Held()| <= 4
  {
    hide HostRewrite.Rewrite, HostRewrite.Sends;
    var out := t.conn.received[0..];
    assert out == t.conn.received;
    HostRewrite.Finished(t.buf, StartMode(host), p, out, t.Mode(), t.Held());
    assert [] + p == p;
  }

  /** `t` has been handed `p`, and its connection has received at least a part, from the start, of what it should. */
  lemma GetsPart(host: Option<seq<byte>>, t: Task, p: seq<byte>)
    requires t.Valid() && Gets(host, t, p)
    ensures t.conn.received <= Rewritten(host, p)
  {
    hide Gets, HostRewrite.Task.Valid, Rewritten;
    GetsRewritten(host, t, p);
  }

  /**
   The history of the local connections: the id each was made for, the first one
   of each id and what it was handed, what came for the id before that and was
   dropped because no dial succeeded, the ids whose connection has ended, the ids
   some later bytes of which did not get to their first connection, and among
   those the ids some bytes of which were taken out of the middle.
   */
  datatype Books = Books(owner: map<Task, nat>, first: map<nat, Task>,
                         handed: map<nat, seq<byte>>, dropped: map<nat, seq<byte>>,
                         gone: set<nat>, lost: set<nat>, torn: set<nat>, locals: set<object>)
  {
    function Handed(id: nat): seq<byte> {
      if id in handed then handed[id] else []
    }

    function Dropped(id: nat): seq<byte> {
      if id in dropped then dropped[id] else []
    }

    /** All that came for `id` and is accounted for, in order. */
    function Through(id: nat): seq<byte> {
      Dropped(id) + Handed(id)
    }
  }

  function NoBooks(): Books {
    Books(map[], map[], map[], map[], {}, {}, {}, {})
  }

  /** Every connection has one owner, and an id keeps its first connection until it ends. */
  ghost predicate Apart(tasks: map<nat, Task>, b: Books) {
    Owned(tasks, b) && Constant(tasks, b)
  }

  ghost predicate Owned(tasks: map<nat, Task>, b: Books) {
    && (forall t, u :: t in b.owner && u in b.owner && t.conn == u.conn ==> t == u)
    && (forall id :: id in tasks ==> tasks[id] in b.owner && b.owner[tasks[id]] == id)
    && (forall id :: id in b.first ==> b.first[id] in b.owner && b.owner[b.first[id]] == id)
    && (forall t :: t in b.owner ==> t in b.locals && t.conn in b.locals)
  }

  ghost predicate Constant(tasks: map<nat, Task>, b: Books) {
    && (forall id :: id in b.first && id !in b.lost && id !in b.gone ==> id in tasks && tasks[id] == b.first[id])
    && (forall id :: id in tasks && id !in b.lost ==> id in b.first && tasks[id] == b.first[id])
    && (forall id :: id in b.lost ==> id in b.first || id in b.torn)
    && b.handed.Keys == b.first.Keys && b.torn <= b.lost
  }

  predicate Local(b: Books, t: Task) {
    t in b.owner && t in b.locals && t.conn in b.locals
  }

  /** The first connection of every id that has lost nothing has received what it should. */
  ghost predicate Right(host: Option<seq<byte>>, b: Books)
    reads b.locals
  {
    && (forall t :: t in b.owner && Local(b, t) ==> t.Valid())
    && (forall id :: id in b.first && Local(b, b.first[id]) && id !in b.lost ==> Gets(host, b.first[id], b.Handed(id)))
  }

  /** `t` has received a part of what it should, and receives nothing more. */
  ghost predicate Stuck(host: Option<seq<byte>>, tasks: map<nat, Task>, id: nat, t: Task, p: seq<byte>)
    reads t.conn
  {
    t.conn.received <= Rewritten(host, p) && (id in tasks && tasks[id] == t ==> t.conn.Full())
  }

  /**
   The first connection of an id that lost something has received a part of what it
   should, unless bytes are missing in it.
   */
  ghost predicate Stopped(host: Option<seq<byte>>, tasks: map<nat, Task>, b: Books)
    reads b.locals
  {
    forall id :: id in b.first && Local(b, b.first[id]) && id in b.lost && id !in b.torn ==>
      Stuck(host, tasks, id, b.first[id], b.Handed(id))
  }

  /** What handling the bytes `x` for `id` may do to the books. */
  ghost predicate Handled(b: Books, b': Books, id: nat, x: seq<byte>) {
    && (b'.lost == b.lost || b'.lost == b.lost + {id}) && (b'.torn == b.torn || b'.torn == b.torn + {id})
    && (forall j :: j != id ==> b'.Handed(j) == b.Handed(j) && b'.Dropped(j) == b.Dropped(j))
    && (id !in b'.lost ==> b'.Through(id) == b.Through(id) + x)
    && (id in b'.lost && id !in b'.torn ==>
          b.Through(id) <= b'.Through(id) <= b.Through(id) + x && (id in b.lost ==> b'.Through(id) == b.Through(id)))
  }

  lemma HandledNothing(b: Books, id: nat)
    ensures Handled(b, b, id, []) && Handled(b, b.(gone := b.gone + {id}), id, [])
  {
    assert b.Through(id) + [] == b.Through(id);
  }

  lemma HandledLost(b: Books, b': Books, id: nat, x: seq<byte>, y: seq<byte>)
    requires Handled(b, b', id, x) && (x == y || (x <= y && id in b'.lost))
    ensures Handled(b, b', id, y)
  {
    assert b.Through(id) + x <= b.Through(id) + y;
  }

  lemma HandledThen(b: Books, b1: Books, b2: Books, id: nat, x: seq<byte>)
    requires Handled(b, b1, id, []) && Handled(b1, b2, id, x)
    ensures Handled(b, b2, id, x)
  {
    assert b.Through(id) + [] == b.Through(id);
  }

  /** A new connection for `id`; it is no first connection if `id` had one. */
  ghost function Adopted(b: Books, id: nat, t: Task): Books {
    if id in b.first then b.(owner := b.owner[t := id], lost := b.lost + {id}, locals := b.locals + {t, t.conn})
    else b.(owner := b.owner[t := id], first := b.first[id := t], handed := b.handed[id := []],
            locals := b.locals + {t, t.conn})
  }

  lemma AdoptedApart(tasks: map<nat, Task>, b: Books, id: nat, t: Task)
    requires Apart(tasks, b) && id !in tasks && t !in b.owner && forall u :: u in b.owner ==> u.conn != t.conn
    ensures Apart(tasks[id := t], Adopted(b, id, t)) == true
  {
    hide Owned, Constant;
    AdoptedOwned(tasks, b, id, t);
    AdoptedConstant(tasks, b, id, t);
  }

  lemma AdoptedOwned(tasks: map<nat, Task>, b: Books, id: nat, t: Task)
    requires Owned(tasks, b) && t !in b.owner && forall u :: u in b.owner ==> u.conn != t.conn
    ensures Owned(tasks[id := t], Adopted(b, id, t)) == true
  {
  }

  lemma AdoptedConstant(tasks: map<nat, Task>, b: Books, id: nat, t: Task)
    requires Constant(tasks, b) && id !in tasks
    ensures Constant(tasks[id := t], Adopted(b, id, t)) == true
  {
  }

  lemma AdoptedRight(host: Option<seq<byte>>, tasks: map<nat, Task>, b: Books, id: nat, t: Task)
    requires Apart(tasks, b) && Right(host, b) && t !in b.owner && t.Valid() && Gets(host, t, [])
    ensures Right(host, Adopted(b, id, t)) == true
  {
    hide Gets, HostRewrite.Task.Valid;
  }

  lemma AdoptedStopped(host: Option<seq<byte>>, tasks: map<nat, Task>, b: Books, id: nat, t: Task)
    requires Apart(tasks, b) && Right(host, b) && Stopped(host, tasks, b) && id !in tasks && t !in b.owner
    ensures Stopped(host, tasks[id := t], Adopted(b, id, t))
  {
    hide Gets, HostRewrite.Task.Valid, Rewritten;
    if id in b.first && id !in b.lost { GetsPart(host, b.first[id], b.Handed(id)); }
  }

  lemma AdoptedBooks(tasks: map<nat, Task>, b: Books, id: nat, t: Task)
    requires Apart(tasks, b) && id !in tasks
    ensures var b' := Adopted(b, id, t); Handled(b, b', id, []) && id in b'.first
    ensures var b' := Adopted(b, id, t); b'.torn == b.torn && b'.gone == b.gone
    ensures var b' := Adopted(b, id, t); b'.locals == b.locals + {t, t.conn} && b'.first - {id} == b.first - {id}
    ensures var b' := Adopted(b, id, t); b'.dropped == b.dropped && (id !in b.gone && id in b'.lost ==> id in b.lost)
  {
    assert b.Through(id) + [] == b.Through(id);
  }

  /** `x` came for `id` and no dial succeeded. */
  ghost function Refusing(b: Books, id: nat, x: seq<byte>): Books {
    if id in b.first then b.(lost := b.lost + {id}) else b.(dropped := b.dropped[id := b.Dropped(id) + x])
  }

  lemma RefusingApart(tasks: map<nat, Task>, b: Books, id: nat, x: seq<byte>)
    requires Apart(tasks, b) && id !in tasks
    ensures Apart(tasks, Refusing(b, id, x)) == true
  {
  }

  lemma RefusingRight(host: Option<seq<byte>>, b: Books, id: nat, x: seq<byte>)
    requires Right(host, b)
    ensures Right(host, Refusing(b, id, x)) == true
  {
    hide Gets, HostRewrite.Task.Valid;
  }

  lemma RefusingStopped(host: Option<seq<byte>>, tasks: map<nat, Task>, b: Books, id: nat, x: seq<byte>)
    requires Apart(tasks, b) && Right(host, b) && Stopped(host, tasks, b) && id !in tasks
    ensures Stopped(host, tasks, Refusing(b, id, x)) == true
  {
    hide Gets, HostRewrite.Task.Valid, Rewritten;
    if id in b.first && id !in b.lost { GetsPart(host, b.first[id], b.Handed(id)); }
  }

  lemma RefusingBooks(tasks: map<nat, Task>, b: Books, id: nat, x: seq<byte>)
    requires Apart(tasks, b)
    ensures var b' := Refusing(b, id, x); Handled(b, b', id, x) && b'.torn == b.torn
    ensures var b' := Refusing(b, id, x); b'.gone == b.gone && b'.first == b.first
    ensures Refusing(b, id, x).locals == b.locals
    ensures var b' := Refusing(b, id, x); id !in b.first ==> b'.lost == b.lost && b'.Dropped(id) == b.Dropped(id) + x
  {
    var b' := Refusing(b, id, x);
    if id !in b.first {
      assert b.Handed(id) == [];
      assert b.Through(id) + x == b'.Through(id);
    }
  }

  /** Bytes of `id` are passed over. */
  ghost function Tearing(b: Books, id: nat): Books {
    b.(lost := b.lost + {id}, torn := b.torn + {id})
  }

  lemma TearingApart(tasks: map<nat, Task>, b: Books, id: nat)
    requires Apart(tasks, b)
    ensures Apart(tasks, Tearing(b, id)) == true && Handled(b, Tearing(b, id), id, []) == true
  {
  }

  lemma TearingRight(host: Option<seq<byte>>, tasks: map<nat, Task>, b: Books, id: nat)
    requires Right(host, b) && Stopped(host, tasks, b)
    ensures Right(host, Tearing(b, id)) == true && Stopped(host, tasks, Tearing(b, id)) == true
  {
    hide Gets, HostRewrite.Task.Valid, Stuck;
  }

  predicate Elsewhere(b: Books, u: Task, t: Task) {
    Local(b, u) && u != t && u.conn != t.conn
  }

  /** `Right`, but for the connection `t`. */
  ghost predicate OthersRight(host: Option<seq<byte>>, b: Books, t: Task)
    reads b.locals - {t, t.conn}
  {
    && (forall u :: u in b.owner && Elsewhere(b, u, t) ==> u.Valid())
    && (forall id :: id in b.first && id !in b.lost && Elsewhere(b, b.first[id], t) ==>
          Gets(host, b.first[id], b.Handed(id)))
  }

  /** `Stopped`, but for the connection `t`. */
  ghost predicate OthersStopped(host: Option<seq<byte>>, tasks: map<nat, Task>, b: Books, t: Task)
    reads b.locals - {t, t.conn}
  {
    forall id :: id in b.first && id in b.lost && id !in b.torn && Elsewhere(b, b.first[id], t) ==>
      Stuck(host, tasks, id, b.first[id], b.Handed(id))
  }

  /** `t` is the first connection of `id`, and has been stopped. */
  ghost predicate OneStopped(b: Books, id: nat, t: Task) {
    id in b.first && b.first[id] == t && id in b.lost && id !in b.torn
  }

  lemma Aside(host: Option<seq<byte>>, tasks: map<nat, Task>, b: Books, id: nat, t: Task)
    requires Apart(tasks, b) && Right(host, b) && Stopped(host, tasks, b) && id in tasks && tasks[id] == t
    ensures OthersRight(host, b, t) && OthersStopped(host, tasks, b, t) && t in b.owner && Local(b, t) && t.Valid()
    ensures id !in b.lost ==> Gets(host, t, b.Handed(id))
    ensures OneStopped(b, id, t) ==> Stuck(host, tasks, id, t, b.Handed(id)) == true
  {
    hide Gets, Stuck, HostRewrite.Task.Valid;
  }

  /** `x` went to the connection of `id`, all of it or, as that failed, a part. */
  ghost function Delivered(b: Books, id: nat, x: seq<byte>, ok: bool): Books {
    if id in b.lost then b
    else b.(handed := b.handed[id := b.Handed(id) + x], lost := if ok then b.lost else b.lost + {id})
  }

  lemma DeliveredBooks(b: Books, id: nat, x: seq<byte>, ok: bool)
    ensures var b' := Delivered(b, id, x, ok); b'.locals == b.locals && b'.owner == b.owner
    ensures var b' := Delivered(b, id, x, ok); b'.gone == b.gone && b'.first == b.first
    ensures var b' := Delivered(b, id, x, ok); b'.torn == b.torn && b'.dropped == b.dropped
    ensures var b' := Delivered(b, id, x, ok); if ok then b'.lost == b.lost else id in b'.lost
    ensures Handled(b, Delivered(b, id, x, ok), id, x)
  {
    Reassociate(b.Dropped(id), b.Handed(id), x);
  }

  lemma DeliveredApart(tasks: map<nat, Task>, b: Books, id: nat, x: seq<byte>, ok: bool)
    requires Apart(tasks, b) && id in tasks
    ensures Apart(tasks, Delivered(b, id, x, ok)) == true
  {
  }

  lemma DeliveredRight(host: Option<seq<byte>>, tasks: map<nat, Task>, b: Books, id: nat, t: Task, x: seq<byte>,
                       ok: bool)
    requires Apart(tasks, b) && OthersRight(host, b, t) && id in tasks && tasks[id] == t && t.Valid()
    requires ok && id !in b.lost ==> Gets(host, t, b.Handed(id) + x)
    ensures Right(host, Delivered(b, id, x, ok)) == true
  {
    hide Gets, HostRewrite.Task.Valid;
  }

  lemma DeliveredStopped(host: Option<seq<byte>>, tasks: map<nat, Task>, b: Books, id: nat, t: Task, x: seq<byte>,
                         ok: bool)
    requires Apart(tasks, b) && OthersStopped(host, tasks, b, t) && id in tasks && tasks[id] == t
    requires !ok && id !in b.lost ==> Stuck(host, tasks, id, t, b.Handed(id) + x)
    requires OneStopped(b, id, t) ==> Stuck(host, tasks, id, t, b.Handed(id))
    ensures Stopped(host, tasks, Delivered(b, id, x, ok)) == true
  {
    hide Stuck;
  }

  lemma GetsMore(host: Option<seq<byte>>, t: Task, p: seq<byte>, m: HostRewrite.Mode, before: seq<byte>, x: seq<byte>)
    requires HostRewrite.Sends(t.buf, StartMode(host), p, before, m) && t.Took(x, m, before, true)
    requires host.Some? ==> t.buf == HostRewrite.HostLine(host.value)
    ensures Gets(host, t, p + x)
  {
    hide HostRewrite.Sends;
    assert [] + before == before;
    t.TookThen(p, x, StartMode(host), m, [], before, true);
  }

  lemma FailsAfter(host: Option<seq<byte>>, t: Task, p: seq<byte>, m: HostRewrite.Mode, before: seq<byte>, x: seq<byte>)
    requires HostRewrite.Sends(t.buf, StartMode(host), p, before, m)
    requires t.conn.received <= before + HostRewrite.Rest(t.buf, m, x)
    requires host.Some? ==> t.buf == HostRewrite.HostLine(host.value)
    ensures t.conn.received <= Rewritten(host, p + x)
  {
    hide HostRewrite.Rewrite;
    assert HostRewrite.Sent(t.buf, StartMode(host), p, before, m, x);
    assert [] + (p + x) == p + x;
  }

  /** Peek and Discard of a number, of which only the first can fail. */
  method Next32(reader: Reader) returns (v: nat, e: Option<Error>)
    requires reader.Valid()
    modifies reader, reader.buf, reader.rd
    ensures reader.Valid() && v < 0x1_0000_0000
    ensures e.None? ==> old(reader.Stream()) == Put32(v) + reader.Stream()
    ensures e.Some? ==> reader.Stream() == old(reader.Stream())
    ensures old(reader.Quiet()) ==>
             reader.Quiet() && e != Some(Fault) && (e.Some? && reader.buf.Length >= 4 ==> |reader.Stream()| < 4)
    ensures reader.buf.Length >= 4 && old(reader.Clear(4)) ==>
              reader.Awaits(old(reader.Deadlines())) && e != Some(Fault) &&
              (e.Some? ==> |reader.Stream()| < 4)
    ensures old(reader.Timed()) && !Spare(old(reader.Deadlines()), |old(reader.Stream())|, 4) &&
            reader.buf.Length >= 4 ==>
              e == Some(Fault) && reader.Awaits(old(reader.Deadlines())[1..])
  {
    hide Get32, Put32, Faults, Willing;
    ghost var stream := reader.Stream();
    var p;
    p, e := reader.Peek(4);
    if e.Some? { return 0, e; }
    v := Get32(p);
    Get32Put32(p);
    var n;
    n, e := reader.Discard(4);
    assert stream[..4] == p;
  }

  method Next16(reader: Reader) returns (v: nat, e: Option<Error>)
    requires reader.Valid()
    modifies reader, reader.buf, reader.rd
    ensures reader.Valid() && v < 0x1_0000
    ensures e.None? ==> old(reader.Stream()) == Put16(v) + reader.Stream()
    ensures e.Some? ==> reader.Stream() == old(reader.Stream())
    ensures old(reader.Quiet()) ==> reader.Quiet() && (e.Some? && reader.buf.Length >= 2 ==> |reader.Stream()| < 2)
    ensures reader.buf.Length >= 2 && old(reader.Clear(2)) ==>
              reader.Awaits(old(reader.Deadlines())) && (e.Some? ==> |reader.Stream()| < 2)
  {
    hide Get16, Put16, Faults, Willing;
    ghost var stream := reader.Stream();
    var p;
    p, e := reader.Peek(2);
    if e.Some? { return 0, e; }
    v := Get16(p);
    Get16Put16(p);
    var n;
    n, e := reader.Discard(2);
    assert stream[..2] == p;
  }

  /** `x` is a part of the payload whose length `s` begins with. */
  ghost predicate Within(s: seq<byte>, x: seq<byte>) {
    |s| >= 4 && |x| <= Get32(s) && x <= s[4..]
  }

  function Take(s: seq<byte>, n: nat): seq<byte> {
    if |s| < n then s else s[..n]
  }

  function Skip(s: seq<byte>, n: nat): seq<byte> {
    if |s| < n then [] else s[n..]
  }

  /** `x` is the payload of `f`, if it is a data frame of `id`; of other frames nothing goes to a connection. */
  ghost predicate Carries(f: Option<Frame>, id: nat, x: seq<byte>) {
    if f.Some? && f.value.Data? then f.value.id == id && f.value.payload == x else x == []
  }

  ghost function Closed(f: Option<Frame>): set<nat> {
    if f.Some? && f.value.Close? then {f.value.id} else {}
  }

  ghost predicate IsData(f: Option<Frame>) {
    f.Some? && f.value.Data?
  }

  ghost predicate InTask(s: seq<byte>, x: seq<byte>) {
    |s| >= 2 && Get16(s) == DATA && Within(s[2..], x)
  }

  /** `x` is a part of the payload of the data frame of `id` that `s` begins with, whole or not. */
  ghost predicate InData(s: seq<byte>, id: nat, x: seq<byte>) {
    |s| >= 6 && Get32(s) == id < ERROR_SIGNAL && Get16(s[4..]) == DATA && Within(s[6..], x)
  }

  /**
   The rest of a data frame is there; of its payload, and what may follow, at least
   the two bytes that are looked at.
   */
  ghost predicate DataReady(s: seq<byte>) {
    |s| >= 6 && |s| >= 4 + Get32(s)
  }

  ghost predicate TaskReady(s: seq<byte>) {
    |s| >= 2 && (Get16(s) == DATA ==> DataReady(s[2..]))
  }

  /** A whole frame is there, and it does not end the tunnel. */
  ghost predicate FrameReady(s: seq<byte>) {
    |s| >= 4 && Get32(s) != CLOSE_SIGNAL && Get32(s) != ERROR_SIGNAL && (Get32(s) < ERROR_SIGNAL ==> TaskReady(s[4..]))
  }

  /** How many bytes of `s` a round looks at for the frame that it begins with, if that comes without a fault. */
  function DataNeed(s: seq<byte>): nat {
    if |s| < 4 then 4 else 4 + if Get32(s) < 2 then 2 else Get32(s)
  }

  function TaskNeed(s: seq<byte>): nat {
    if |s| < 2 || Get16(s) != DATA then 2 else 2 + DataNeed(s[2..])
  }

  function FrameNeed(s: seq<byte>): nat {
    if |s| < 4 || Get32(s) > ERROR_SIGNAL then 4
    else if Get32(s) == ERROR_SIGNAL then 6
    else 4 + TaskNeed(s[4..])
  }

  /** By the id or signal at the front. */
  lemma NeedsOf(v: nat, s: seq<byte>)
    requires v < 0x1_0000_0000
    ensures FrameNeed(Put32(v) + s) ==
            if v > ERROR_SIGNAL then 4 else if v == ERROR_SIGNAL then 6 else 4 + TaskNeed(s)
    ensures FrameReady(Put32(v) + s) <==>
            v != CLOSE_SIGNAL && v != ERROR_SIGNAL && (v < ERROR_SIGNAL ==> TaskReady(s))
    ensures 4 <= FrameNeed(s) && (|s| < 4 ==> !FrameReady(s))
  {
    hide Put32, Get32, Get16;
    Put32Get32(v, s);
    assert (Put32(v) + s)[4..] == s;
  }

  /** A data frame of which fewer than the two bytes are there that are looked at. */
  ghost predicate ShortTask(s: seq<byte>) {
    2 <= |s| < 8 && Get16(s) == DATA
  }

  ghost predicate ShortData(s: seq<byte>) {
    6 <= |s| < 12 && Get32(s) < ERROR_SIGNAL && Get16(s[4..]) == DATA
  }

  lemma EncodesData(id: nat, x: seq<byte>, s: seq<byte>, s1: seq<byte>, rest: seq<byte>)
    requires id < ERROR_SIGNAL && |x| < 0x1_0000_0000
    requires s == Put16(DATA) + s1 && s1 == Put32(|x|) + (x + rest)
    ensures Put32(id) + s == Encode(Data(id, x)) + rest
  {
    hide Put32, Put16;
    Reassociate(Put32(|x|), x, rest);
    assert Put32(id) + s == Put32(id) + Put16(DATA) + Put32(|x|) + x + rest;
  }

  lemma ForgottenKept(host: Option<seq<byte>>, tasks: map<nat, Task>, b: Books, ids: set<nat>)
    requires Apart(tasks, b) && Right(host, b) && Stopped(host, tasks, b)
    ensures var b' := b.(gone := b.gone + ids); Apart(tasks - ids, b') && Right(host, b')
    ensures var b' := b.(gone := b.gone + ids); Stopped(host, tasks - ids, b')
  {
    hide Gets, HostRewrite.Task.Valid, Rewritten;
  }

  /** The outcomes of the dials made for `id`, in order; once they are used up, dials succeed. */
  function Of(dials: map<nat, seq<Dialled>>, id: nat): seq<Dialled> {
    if id in dials then dials[id] else []
  }

  function Popped(dials: map<nat, seq<Dialled>>, id: nat): map<nat, seq<Dialled>> {
    if Of(dials, id) == [] then dials else dials[id := dials[id][1..]]
  }

  /** The dials that are refused before the first that is not. */
  function Refusals(ds: seq<Dialled>): nat {
    if ds != [] && ds[0].Refused? then 1 + Refusals(ds[1..]) else 0
  }

  /** And that one never fails. */
  predicate Lands(ds: seq<Dialled>) {
    ds != [] ==> if ds[0].Refused? then Lands(ds[1..]) else ds[0].capacity.None?
  }

  predicate HostFits(host: Option<seq<byte>>) {
    host.Some? ==> |host.value| <= 200
  }

  datatype View = View(host: Option<seq<byte>>, tasks: map<nat, Task>, dials: map<nat, seq<Dialled>>, books: Books) {
    /**
     `id` has lost nothing, and nothing stands in the way of its dials, but refusals
     at first, and of its local writes.
     */
    ghost predicate Steady(id: nat) {
      id !in books.lost &&
      (id !in books.gone ==> HostFits(host) && if id in tasks then tasks[id].conn.capacity.None?
        else Lands(Of(dials, id)))
    }

    /** The refusals that are still to come before the first connection of `id`. */
    ghost function Owed(id: nat): nat {
      if id in books.first then 0 else Refusals(Of(dials, id))
    }

    /** `v` differs in what belongs to `id` at most. */
    ghost predicate Alike(v: View, id: nat) {
      v.host == host && v.tasks - {id} == tasks - {id} && v.dials - {id} == dials - {id} &&
      v.books.first - {id} == books.first - {id}
    }

    /** The bytes `x` came for `id`: they are dropped if a refusal was owed, else they go to the connection. */
    ghost predicate Paid(v: View, id: nat, x: seq<byte>) {
      if Owed(id) > 0 then v.Owed(id) == Owed(id) - 1 && v.books.Dropped(id) == books.Dropped(id) + x &&
        id !in v.books.first
      else v.Owed(id) == 0 && v.books.Dropped(id) == books.Dropped(id)
    }

    /** No dial was made for `id`. */
    ghost predicate Idle(v: View, id: nat) {
      v.Owed(id) == Owed(id) && v.books.Dropped(id) == books.Dropped(id) && (id in v.books.first <==> id in books.first)
    }

    /** Nothing but the end of the task that `f` closes. */
    ghost predicate Passed(v: View, f: Option<Frame>) {
      v == View(host, tasks - Closed(f), dials, books.(gone := books.gone + Closed(f)))
    }

    /** `x` came for a steady `id`; it may not have got to the dial if it is not `done`. */
    ghost predicate Settled(v: View, id: nat, x: seq<byte>, done: bool) {
      v.Steady(id) && (Paid(v, id, x) || (!done && x == [] && Idle(v, id)))
    }
  }

  lemma AlikeSteady(v: View, v': View, id: nat, j: nat, x: seq<byte>)
    requires v.Alike(v', id) && j != id && Handled(v.books, v'.books, id, x)
    requires v'.books.gone - {id} == v.books.gone - {id}
    ensures v'.Steady(j) <==> v.Steady(j)
    ensures v.Idle(v', j)
  {
    assert j in v'.tasks <==> j in v'.tasks - {id};
    assert j in v.tasks <==> j in v.tasks - {id};
    assert j in v'.dials <==> j in v'.dials - {id};
    assert j in v.dials <==> j in v.dials - {id};
    assert j in v'.books.first <==> j in v'.books.first - {id};
    assert j in v.books.first <==> j in v.books.first - {id};
    assert j in v'.books.gone <==> j in v'.books.gone - {id};
    assert j in v.books.gone <==> j in v.books.gone - {id};
  }

  lemma ForgottenSteady(v: View, ids: set<nat>, id: nat)
    ensures var v' := View(v.host, v.tasks - ids, v.dials, v.books.(gone := v.books.gone + ids));
              v.Idle(v', id) && (v.Steady(id) ==> v'.Steady(id))
  {
  }

  lemma ForgottenSettles(v: View, id: nat)
    ensures v.Steady(id) ==>
             v.Settled(View(v.host, v.tasks - {id}, v.dials, v.books.(gone := v.books.gone + {id})), id, [], false)
  {
  }

  lemma ForgottenAlike(v: View, id: nat)
    ensures v.Alike(View(v.host, v.tasks - {id}, v.dials, v.books.(gone := v.books.gone + {id})), id)
  {
  }

  lemma NothingSettles(v: View, id: nat)
    ensures v.Alike(v, id) && v.Idle(v, id) && (v.Steady(id) ==> v.Settled(v, id, [], false))
    ensures v.Passed(v, None) && v.Passed(v, Some(Ping)) && v.Passed(v, Some(Ready))
  {
    assert v.tasks - {} == v.tasks && v.books.gone + {} == v.books.gone;
  }

  lemma RefusedSettles(v: View, v': View, id: nat, x: seq<byte>)
    requires id !in v.tasks && (id in v.books.first ==> id in v.books.lost || id in v.books.gone)
    requires v' == View(v.host, v.tasks, Popped(v.dials, id), Refusing(v.books, id, x))
    ensures v.Alike(v', id)
    ensures v.Steady(id) && id !in v.books.gone && Refusals(Of(v.dials, id)) > 0 ==>
             v'.Steady(id) && v.Paid(v', id, x) && v.Owed(id) > 0
  {
    hide Popped;
    PoppedElsewhere(v.dials, id);
  }

  lemma PoppedElsewhere(dials: map<nat, seq<Dialled>>, id: nat)
    ensures Popped(dials, id) - {id} == dials - {id}
    ensures Of(Popped(dials, id), id) == if Of(dials, id) == [] then [] else Of(dials, id)[1..]
  {
  }

  lemma AdoptedAlike(v: View, v': View, id: nat, t: Task)
    requires v' == View(v.host, v.tasks[id := t], Popped(v.dials, id), Adopted(v.books, id, t))
    ensures v.Alike(v', id)
  {
    hide Popped;
    PoppedElsewhere(v.dials, id);
    assert v.tasks[id := t] - {id} == v.tasks - {id};
    assert v'.books.first - {id} == v.books.first - {id};
  }

  lemma PaidSettles(v: View, v': View, id: nat, x: seq<byte>, done: bool)
    ensures v'.Steady(id) && v.Paid(v', id, x) ==> v.Settled(v', id, x, done)
  {
  }

  lemma LooksAt(s: seq<byte>, p: seq<byte>)
    requires |p| == 2 && p <= s
    ensures LooksP2P(s) <==> Get16(p) == 0x5831
  {
  }

  lemma StillSettled(v: View, v': View, id: nat, x: seq<byte>)
    ensures v.Settled(v', id, x, true) ==> v.Settled(v', id, x, false) && id !in v'.books.lost
  {
  }

  lemma WholePayload(s: seq<byte>, l: nat, n: nat)
    requires n <= l && l - n <= |s| && n <= |s[l - n..]|
    ensures l <= |s| && s[l - n..][n..] == s[l..] && Take(s, l) == s[..l]
  {
  }

  lemma SteadyLands(v: View, id: nat)
    requires v.Steady(id) && id !in v.books.gone && id !in v.tasks
    ensures HostFits(v.host)
    ensures var ds := Of(v.dials, id); ds == [] || ds[0].Refused? || (Refusals(ds) == 0 && ds[0].capacity.None?)
  {
  }

  lemma AdoptedSettles(v: View, v': View, id: nat, t: Task)
    requires id !in v.tasks && (id in v.books.first ==> id in v.books.lost || id in v.books.gone)
    requires v' == View(v.host, v.tasks[id := t], Popped(v.dials, id), Adopted(v.books, id, t))
    requires v.Steady(id) && id !in v.books.gone && t.conn.capacity.None? && Refusals(Of(v.dials, id)) == 0
    ensures v'.Steady(id) && v.Paid(v', id, [])
  {
  }

  lemma DeliveredSettles(v: View, v1: View, v2: View, id: nat, x: seq<byte>, ok: bool)
    requires v.Alike(v1, id) && v2 == v1.(books := Delivered(v1.books, id, x, ok))
    ensures v.Alike(v2, id)
    ensures v1.Steady(id) && v.Paid(v1, id, []) && v.Owed(id) == 0 && ok ==> v2.Steady(id) && v.Paid(v2, id, x)
  {
  }

  class Client {
    const reader: Reader
    const host: Option<seq<byte>>
    var tasks: map<nat, Task>
    var dials: map<nat, seq<Dialled>>
    var pings: int
    var replies: seq<nat>
    ghost var books: Books

    constructor (reader: Reader, host: Option<seq<byte>>, dials: map<nat, seq<Dialled>>)
      requires reader.Valid()
      ensures Valid() && this.reader == reader && this.host == host && this.dials == dials
      ensures tasks == map[] && pings == 0 && books == NoBooks()
    {
      this.reader, this.host, this.dials := reader, host, dials;
      tasks, pings, replies := map[], 0, [];
      books := NoBooks();
    }

    ghost predicate Kept()
      reads this, books.locals
    {
      this !in books.locals && reader !in books.locals && reader.buf !in books.locals && reader.rd !in books.locals &&
      Apart(tasks, books) && Right(host, books) && Stopped(host, tasks, books)
    }

    ghost predicate Valid()
      reads this, reader, reader.buf, reader.rd, books.locals
    {
      reader.Valid() && Kept()
    }

    ghost function Now(): View
      reads this
    {
      View(host, tasks, dials, books)
    }

    /** dial. */
    method Dial(id: nat) returns (task: Option<Task>)
      modifies this`dials
      ensures dials == Popped(old(dials), id)
      ensures
        var ds := Of(old(dials), id);
        (task.Some? <==> HostFits(host) && !(ds != [] && ds[0].Refused?)) &&
        (task.Some? ==> task.value.conn.capacity == if ds == [] then None else ds[0].capacity)
      ensures task.Some? ==>
               fresh(task.value) && fresh(task.value.conn) && task.value.Valid() && Gets(host, task.value, [])
    {
      var ds := Of(dials, id);
      var outcome := if ds == [] then Connected(None) else ds[0];
      dials := Popped(dials, id);
      if outcome.Refused? { return None; }
      var c := new Sink(outcome.capacity);
      var t := new HostRewrite.Task(c);
      if host.Some? {
        var err := t.SetHost(host.value);
        if err.Some? { return None; }
      }
      HostRewrite.SendsNothing(t.buf, t.Mode());
      assert t.conn.received[0..] == [];
      task := Some(t);
    }

    /** client/conn.go:272-294: the connection for `id`, dialled if need be. */
    method GetTask(id: nat) returns (task: Option<Task>)
      requires Kept()
      modifies this`tasks, this`dials, this`books
      ensures Kept() && fresh(books.locals - old(books.locals))
      ensures books.gone == old(books.gone) && books.torn == old(books.torn)
      ensures task.Some? ==>
               id in tasks && tasks[id] == task.value && task.value in books.locals && task.value.conn in books.locals
      ensures task.Some? ==> Handled(old(books), books, id, []) && old(Now()).Alike(Now(), id)
      ensures task.None? ==> id !in tasks && (id in books.first ==> id in books.lost || id in books.gone)
      ensures task.None? ==> tasks == old(tasks) && books == old(books) && dials == Popped(old(dials), id)
      ensures old(Now()).Steady(id) && id !in old(books.gone) ==>
                if task.Some?
                then Now().Steady(id) && old(Now()).Paid(Now(), id, []) && task.value.conn.capacity.None? &&
                    old(Now()).Owed(id) == 0
                else Refusals(Of(old(dials), id)) > 0
    {
      hide Gets, HostRewrite.Task.Valid, Right, Stopped, Handled, Adopted, Apart;
      if id in tasks {
        HandledNothing(books, id);
        InTasks(id);
        return Some(tasks[id]);
      }
      assert Apart(tasks, books);
      NotInTasks(id);
      ghost var v := Now();
      task := Dial(id);
      if task.Some? {
        AdoptedApart(tasks, books, id, task.value);
        AdoptedRight(host, tasks, books, id, task.value);
        AdoptedStopped(host, tasks, books, id, task.value);
        AdoptedBooks(tasks, books, id, task.value);
        tasks := tasks[id := task.value];
        books := Adopted(books, id, task.value);
        AdoptedAlike(v, Now(), id, task.value);
        if v.Steady(id) && id !in v.books.gone { SteadyLands(v, id); AdoptedSettles(v, Now(), id, task.value); }
      }
    }

    /** `x` came for `id` and the dial was refused. */
    ghost method Refuse(id: nat, x: seq<byte>, v: View)
      requires Kept() && id !in tasks && (id in books.first ==> id in books.lost || id in books.gone)
      requires Now() == v.(dials := Popped(v.dials, id))
      modifies this`books
      ensures Kept() && books == Refusing(old(books), id, x)
      ensures Handled(old(books), books, id, x) && books.gone == old(books.gone) && books.torn == old(books.torn)
      ensures books.locals == old(books.locals) && v.Alike(Now(), id)
      ensures v.Steady(id) && id !in v.books.gone && Refusals(Of(v.dials, id)) > 0 ==>
                Now().Steady(id) && v.Paid(Now(), id, x) && v.Owed(id) > 0
    {
      hide Right, Apart, Stopped, Handled, Refusing, Gets, HostRewrite.Task.Valid, View.Steady, View.Paid, View.Alike;
      RefusingApart(tasks, books, id, x);
      RefusingRight(host, books, id, x);
      RefusingStopped(host, tasks, books, id, x);
      RefusingBooks(tasks, books, id, x);
      books := Refusing(books, id, x);
      RefusedSettles(v, Now(), id, x);
    }

    lemma NotInTasks(id: nat)
      requires Kept() && id !in tasks
      ensures id in books.first ==> id in books.lost || id in books.gone
    {
    }

    lemma InTasks(id: nat)
      requires Kept() && id in tasks
      ensures tasks[id] in books.locals && tasks[id].conn in books.locals && tasks[id] in books.owner
      ensures id !in books.lost ==> id in books.first
    {
    }

    /** `r.WriteTo(t)`; `p` is what `t` was handed before, if it got all of that, and `x` what it is handed now. */
    method WriteOut(t: Task, ghost p: seq<byte>, lr: LimitedReader) returns (n: nat, e: Outcome, ghost x: seq<byte>)
      requires reader.Valid() && t.Valid() && lr.reader == reader && lr.N >= 0
      modifies lr, reader, reader.buf, reader.rd, t, t.conn
      ensures reader.Valid() && t.Valid() && n <= |old(reader.Stream())| && lr.N == old(lr.N) - n >= 0
      ensures reader.Stream() == old(reader.Stream())[n..]
      ensures x <= old(reader.Stream()) && |x| <= old(lr.N) && (e != WriteFailed ==> n == |x|)
      ensures old(Gets(host, t, p)) ==>
                if e != WriteFailed then Gets(host, t, p + x)
                  else t.conn.Full() && t.conn.received <= Rewritten(host, p + x)
      ensures old(t.conn.Full()) ==> t.conn.Full() && t.conn.received == old(t.conn.received)
      ensures e == Done ==> lr.N == 0 || reader.AtEnd()
      ensures old(reader.Quiet()) ==> reader.Quiet() && !e.ReadFailed?
      ensures old(reader.Clear(lr.N)) ==>
                reader.Awaits(old(reader.Deadlines())) && !e.ReadFailed?
      ensures t.conn.capacity.None? ==> e != WriteFailed
    {
      hide HostRewrite.Sends, HostRewrite.Task.Mode, HostRewrite.Rest, Reader.Clear, Reader.Awaits, Reader.Deadlines,
           Reader.Quiet;
      ghost var m, before := t.Mode(), t.conn.received;
      assert before[0..] == before;
      n, e, x := lr.WriteTo(t);
      if old(Gets(host, t, p)) {
        if e != WriteFailed { GetsMore(host, t, p, m, before, x); } else { FailsAfter(host, t, p, m, before, x); }
      }
    }

    /** The same for the connection of `id`, and the books that go with it. */
    method Deliver(id: nat, t: Task, lr: LimitedReader) returns (n: nat, e: Outcome, ghost x: seq<byte>)
      requires Valid() && id in tasks && tasks[id] == t && lr.reader == reader && lr.N >= 0 && lr !in books.locals
      modifies this`books, lr, reader, reader.buf, reader.rd, t, t.conn
      ensures Valid() && n <= |old(reader.Stream())| && lr.N == old(lr.N) - n >= 0
      ensures reader.Stream() == old(reader.Stream())[n..]
      ensures x <= old(reader.Stream()) && |x| <= old(lr.N) && (e != WriteFailed ==> n == |x|)
      ensures books == Delivered(old(books), id, x, e != WriteFailed)
      ensures e == Done ==> lr.N == 0 || reader.AtEnd()
      ensures old(reader.Quiet()) ==> reader.Quiet() && !e.ReadFailed?
      ensures old(reader.Clear(lr.N)) ==>
                reader.Awaits(old(reader.Deadlines())) && !e.ReadFailed?
      ensures t.conn.capacity.None? ==> e != WriteFailed
    {
      hide Right, OthersRight, Stopped, OthersStopped, Gets, HostRewrite.Task.Valid, Reader.Stream, Reader.Valid,
           Delivered, Apart, Rewritten, Reader.Clear, Reader.Awaits, Reader.Deadlines, Reader.Quiet;
      Aside(host, tasks, books, id, t);
      n, e, x := WriteOut(t, books.Handed(id), lr);
      DeliveredBooks(books, id, x, e != WriteFailed);
      DeliveredApart(tasks, books, id, x, e != WriteFailed);
      DeliveredRight(host, tasks, books, id, t, x, e != WriteFailed);
      DeliveredStopped(host, tasks, books, id, t, x, e != WriteFailed);
      books := Delivered(books, id, x, e != WriteFailed);
    }

    /**
     processData, of a client without STUN servers. `x` is what came for `id`: all
     of the payload that is there, or, if some of it is lost, a part.
     */
    method ProcessData(id: nat, lr: LimitedReader) returns (readErr: bool, writeErr: bool, ghost x: seq<byte>)
      requires Valid() && lr.reader == reader && lr.N >= 0 && lr !in books.locals
      modifies this, lr, reader, reader.buf, reader.rd, books.locals
      ensures Valid() && fresh(books.locals - old(books.locals)) && pings == old(pings)
      ensures 0 <= old(lr.N) - lr.N <= |old(reader.Stream())| && lr.N >= 0
      ensures reader.Stream() == old(reader.Stream())[old(lr.N) - lr.N..]
      ensures Handled(old(books), books, id, x) && books.gone == old(books.gone) && old(Now()).Alike(Now(), id)
      ensures x <= old(reader.Stream()) && |x| <= old(lr.N)
      ensures !readErr && id !in books.lost ==> x == Take(old(reader.Stream()), old(lr.N))
      ensures old(reader.Quiet()) ==>
               reader.Quiet() && (readErr && reader.buf.Length >= 2 ==> |old(reader.Stream())| < 2)
      ensures reader.buf.Length >= 2 && old(reader.Clear(2)) && old(reader.Clear(lr.N)) ==>
                reader.Awaits(old(reader.Deadlines())) &&
                (readErr ==> |old(reader.Stream())| < 2)
      ensures |old(reader.Stream())| < 2 ==> readErr && x == [] && Now() == old(Now())
      ensures replies == if !readErr && LooksP2P(old(reader.Stream())) then old(replies) + [id] else old(replies)
      ensures !LooksP2P(old(reader.Stream())) ==> books.torn == old(books.torn)
      ensures !LooksP2P(old(reader.Stream())) && old(Now()).Steady(id) && id !in books.gone ==>
                old(Now()).Settled(Now(), id, x, !readErr) && (writeErr ==> old(Now()).Owed(id) > 0)
    {
      hide Right, Apart, Stopped, Handled, Reader.Stream, Reader.Quiet, View.Steady, View.Paid, View.Settled,
           View.Alike, View.Owed, Take, LooksP2P, Get16, Faults, Willing;
      readErr, writeErr, x := false, false, [];
      HandledNothing(books, id);
      ghost var v, s := Now(), reader.Stream();
      assert s[0..] == s;
      NothingSettles(Now(), id);
      var p, e := reader.Peek(2);
      if |p| == 2 { LooksAt(s, p); }
      if e.Some? {
        readErr := true;
      } else if Get16(p) == 0x5831 {
        Tear(id);
      } else {
        readErr, writeErr, x := HttpBranch(id, lr);
      }
      PaidSettles(v, Now(), id, x, !readErr);
    }

    /** The request is answered with 403 and passed over. */
    method Tear(id: nat)
      requires Kept()
      modifies this`replies, this`books
      ensures Kept() && replies == old(replies) + [id] && books == Tearing(old(books), id)
      ensures Handled(old(books), books, id, []) && old(Now()).Alike(Now(), id)
    {
      hide Right, Apart, Stopped, Handled;
      TearingApart(tasks, books, id);
      TearingRight(host, tasks, books, id);
      replies := replies + [id];
      books := Tearing(books, id);
    }

    /** client/conn.go:272-310. */
    method HttpBranch(id: nat, lr: LimitedReader) returns (readErr: bool, writeErr: bool, ghost x: seq<byte>)
      requires Valid() && lr.reader == reader && lr.N >= 0 && lr !in books.locals
      modifies this, lr, reader, reader.buf, reader.rd, books.locals
      ensures Valid() && fresh(books.locals - old(books.locals)) && pings == old(pings)
      ensures 0 <= old(lr.N) - lr.N <= |old(reader.Stream())| && lr.N >= 0
      ensures reader.Stream() == old(reader.Stream())[old(lr.N) - lr.N..]
      ensures Handled(old(books), books, id, x) && books.gone == old(books.gone) && old(Now()).Alike(Now(), id)
      ensures x <= old(reader.Stream()) && |x| <= old(lr.N)
      ensures !readErr && id !in books.lost ==> x == Take(old(reader.Stream()), old(lr.N))
      ensures old(reader.Quiet()) ==> reader.Quiet() && !readErr
      ensures old(reader.Clear(lr.N)) ==>
                reader.Awaits(old(reader.Deadlines())) && !readErr
      ensures replies == old(replies) && books.torn == old(books.torn)
      ensures old(Now()).Steady(id) && id !in books.gone ==>
                Now().Steady(id) && old(Now()).Paid(Now(), id, x) && (writeErr ==> old(Now()).Owed(id) > 0)
    {
      hide Right, Apart, Stopped, Gets, HostRewrite.Task.Valid, Handled, Reader.Stream, View.Steady, View.Paid,
           View.Alike, View.Owed, Delivered, Faults, Willing, Steady;
      ghost var v, s := Now(), reader.Stream();
      assert s[0..] == s;
      var t := GetTask(id);
      ghost var v1 := Now();
      if t.None? {
        x := Take(s, lr.N);
        Refuse(id, x, v);
        readErr, writeErr := false, true;
      } else {
        var n, o;
        n, o, x := Deliver(id, t.value, lr);
        DeliveredBooks(v1.books, id, x, o != WriteFailed);
        HandledThen(v.books, v1.books, books, id, x);
        DeliveredSettles(v, v1, Now(), id, x, o != WriteFailed);
        readErr, writeErr := o.ReadFailed?, o.WriteFailed?;
      }
    }

    /**
     client/conn.go:184-208: a payload of `l` bytes; `x` is what came for `id`.
     The loop goes on only if all `l` bytes are consumed.
     */
    method Payload(id: nat, l: nat) returns (again: bool, ghost x: seq<byte>)
      requires Valid()
      modifies this, reader, reader.buf, reader.rd, books.locals
      ensures Valid() && fresh(books.locals - old(books.locals)) && pings == old(pings)
      ensures Handled(old(books), books, id, x) && books.gone == old(books.gone) && old(Now()).Alike(Now(), id)
      ensures x <= old(reader.Stream()) && |x| <= l
      ensures again ==> |x| == l && reader.Stream() == old(reader.Stream())[l..]
      ensures old(reader.Quiet()) ==> reader.Quiet()
      ensures old(reader.Quiet()) && !again && reader.buf.Length >= 2 ==>
               |old(reader.Stream())| < 2 || |old(reader.Stream())| < l
      ensures reader.buf.Length >= 2 && old(reader.Clear(2)) && old(reader.Clear(l)) ==>
                reader.Awaits(old(reader.Deadlines())) &&
                (!again ==> |old(reader.Stream())| < 2 || |old(reader.Stream())| < l)
      ensures |old(reader.Stream())| < 2 ==> !again && x == [] && Now() == old(Now())
      ensures !LooksP2P(old(reader.Stream())) ==> books.torn == old(books.torn)
      ensures !LooksP2P(old(reader.Stream())) && old(Now()).Steady(id) && id !in books.gone ==>
               old(Now()).Settled(Now(), id, x, again)
    {
      hide Kept, Handled, Reader.Stream, Reader.Valid, Reader.Quiet, LooksP2P, View.Settled, View.Alike, Take, Faults,
           Willing;
      ghost var v, s := Now(), reader.Stream();
      var lr := new LimitedReader(reader, l);
      var rErr, wErr;
      ghost var y;
      rErr, wErr, y := ProcessData(id, lr);
      again, x := Remaining(id, l, lr.N, rErr, s, y);
      HandledLost(v.books, books, id, y, x);
      StillSettled(v, Now(), id, y);
    }

    /** client/conn.go:193-199: what is left of the payload, of which `y` came for `id`. */
    method Remaining(id: nat, l: nat, n: nat, rErr: bool, ghost s: seq<byte>, ghost y: seq<byte>)
      returns (again: bool, ghost x: seq<byte>)
      requires Valid() && n <= l && l - n <= |s| && reader.Stream() == s[l - n..] && y <= s && |y| <= l
      requires !rErr && id !in books.lost ==> y == Take(s, l)
      modifies reader, reader.buf, reader.rd
      ensures Valid() && x <= s && |x| <= l && (x == y || (y <= x && id in books.lost))
      ensures again ==> !rErr && |x| == l && reader.Stream() == s[l..]
      ensures !again ==> x == y
      ensures old(reader.Quiet()) ==> reader.Quiet() && (!again ==> rErr || |s| < l)
      ensures old(reader.Clear(n)) ==>
                reader.Awaits(old(reader.Deadlines())) && (!again ==> rErr || |s| < l)
    {
      hide Kept, Reader.Stream, Reader.Valid, Reader.Quiet, Faults, Willing;
      again := false;
      if !rErr { again := SkipRest(n); }
      x := if again then s[..l] else y;
      if again { WholePayload(s, l, n); }
    }

    /** Discard, unless there is nothing to discard. */
    method SkipRest(n: nat) returns (ok: bool)
      requires Valid()
      modifies reader, reader.buf, reader.rd
      ensures Valid()
      ensures ok ==> n <= |old(reader.Stream())| && reader.Stream() == old(reader.Stream())[n..]
      ensures old(reader.Quiet()) ==> reader.Quiet() && (!ok ==> |old(reader.Stream())| < n)
      ensures old(reader.Clear(n)) ==>
                reader.Awaits(old(reader.Deadlines())) && (!ok ==> |old(reader.Stream())| < n)
      ensures ok && n > 0 ==> old(reader.Stream()) != []
    {
      hide Right, Apart, Stopped, Reader.Stream, Faults, Willing;
      if n == 0 {
        assert reader.Stream()[0..] == reader.Stream();
        return true;
      }
      var k, e := reader.Discard(n);
      ok := e.None?;
    }

    /** client/conn.go:178-208: the rest of a data frame, from its length on. */
    method DataFrame(id: nat) returns (again: bool, ghost x: seq<byte>)
      requires Valid()
      modifies this, reader, reader.buf, reader.rd, books.locals
      ensures Valid() && fresh(books.locals - old(books.locals)) && pings == old(pings)
      ensures Handled(old(books), books, id, x) && books.gone == old(books.gone) && old(Now()).Alike(Now(), id)
      ensures again ==> |x| < 0x1_0000_0000 && old(reader.Stream()) == Put32(|x|) + (x + reader.Stream())
      ensures Within(old(reader.Stream()), x) || (!again && x == [] && Now() == old(Now()))
      ensures old(reader.Quiet()) ==>
               reader.Quiet() && (!again && reader.buf.Length >= 4 ==> !DataReady(old(reader.Stream())))
      ensures reader.buf.Length >= 4 && old(reader.Clear(DataNeed(reader.Stream()))) ==>
                reader.Awaits(old(reader.Deadlines())) &&
                (!again ==> !DataReady(old(reader.Stream())))
      ensures |old(reader.Stream())| < 6 ==> !again && x == [] && Now() == old(Now())
      ensures !LooksP2P(Skip(old(reader.Stream()), 4)) ==> books.torn == old(books.torn)
      ensures !LooksP2P(Skip(old(reader.Stream()), 4)) && old(Now()).Steady(id) && id !in books.gone ==>
                old(Now()).Settled(Now(), id, x, again)
    {
      hide Right, Apart, Stopped, Handled, Reader.Stream, LooksP2P, Put32, Get32, View.Steady, View.Settled, View.Alike,
           Faults, Willing;
      HandledNothing(books, id);
      NothingSettles(Now(), id);
      var l, e := Next32(reader);
      if e.Some? { return false, []; }
      ghost var s := reader.Stream();
      assert old(reader.Stream())[4..] == s;
      Put32Get32(l, s);
      again, x := Payload(id, l);
      assert again ==> s == x + reader.Stream();
    }

    /** Local connections that end; their tasks are forgotten. */
    method Forget(ids: set<nat>)
      requires Valid()
      modifies this`tasks, this`books
      ensures Valid() && tasks == old(tasks) - ids && books == old(books).(gone := old(books).gone + ids)
    {
      ForgottenKept(host, tasks, books, ids);
      tasks := tasks - ids;
      books := books.(gone := books.gone + ids);
    }

    /** readLoop after the id of a frame: data, close, or an op that is passed over. */
    method TaskFrame(id: nat) returns (again: bool, ghost f: Option<Frame>, ghost x: seq<byte>)
      requires Valid() && id < ERROR_SIGNAL
      modifies this, reader, reader.buf, reader.rd, books.locals
      ensures Valid() && fresh(books.locals - old(books.locals)) && pings == old(pings)
      ensures Handled(old(books), books, id, x)
      ensures books.gone == old(books.gone) + Closed(f) && old(Now()).Alike(Now(), id)
      ensures again ==> f.Some? && f.value.Valid() && First(f.value) == id && Carries(f, id, x)
      ensures !again ==> f.None?
      ensures again ==> Put32(id) + old(reader.Stream()) == Encode(f.value) + reader.Stream()
      ensures (InTask(old(reader.Stream()), x) && (again ==> IsData(f))) ||
              (x == [] && !IsData(f) && old(Now()).Passed(Now(), f))
      ensures old(reader.Quiet()) ==>
               reader.Quiet() && (!again && reader.buf.Length >= 4 ==> !TaskReady(old(reader.Stream())))
      ensures reader.buf.Length >= 4 && old(reader.Clear(TaskNeed(reader.Stream()))) ==>
                reader.Awaits(old(reader.Deadlines())) &&
                (!again ==> !TaskReady(old(reader.Stream())))
      ensures ShortTask(old(reader.Stream())) ==> f.None? && x == [] && Now() == old(Now())
      ensures !LooksP2P(Skip(old(reader.Stream()), 6)) ==> books.torn == old(books.torn)
      ensures !LooksP2P(Skip(old(reader.Stream()), 6)) && old(Now()).Steady(id) && id !in old(books.gone) ==>
                old(Now()).Settled(Now(), id, x, IsData(f))
    {
      hide Right, Apart, Stopped, Handled, Reader.Stream, LooksP2P, Put32, Put16, Get32, Get16, View.Steady,
           View.Settled, View.Alike, View.Idle, Faults, Willing;
      HandledNothing(books, id);
      NothingSettles(Now(), id);
      f, x := None, [];
      var op, e := Next16(reader);
      if e.Some? { return false, None, []; }
      ghost var s := reader.Stream();
      assert old(reader.Stream())[2..] == s;
      Put16Get16(op, s);
      if op == DATA {
        again, x := DataFrame(id);
        if again {
          f := Some(Data(id, x));
          EncodesData(id, x, old(reader.Stream()), s, reader.Stream());
        }
      } else {
        again := true;
        if op == CLOSE {
          ForgottenAlike(Now(), id);
          ForgottenSettles(Now(), id);
          Forget({id});
        }
        f := Some(if op == CLOSE then Close(id) else Other(id, op));
        Reassociate(Put32(id), Put16(op), s);
      }
    }

    /**
     One round of readLoop. If the loop goes on, it stands on the next frame
     boundary: exactly one frame has been consumed, whatever came of dialing and
     of the local writes, or nothing was, when the deadline fired before the
     frame and a ping was sent. If the frame comes before the next fault the loop
     does go on; if the fault comes first, it goes on exactly if a ping was sent,
     and the later faults are still to come. `x` came for `id`; nothing else has changed for any task.
     */
    method Turn(pingSent: bool) returns (again: bool, ghost f: Option<Frame>, ghost id: nat, ghost x: seq<byte>)
      requires Valid()
      modifies this, reader, reader.buf, reader.rd, books.locals
      ensures Valid() && fresh(books.locals - old(books.locals))
      ensures Handled(old(books), books, id, x) && books.gone == old(books.gone) + Closed(f) && Closed(f) <= {id}
      ensures old(Now()).Alike(Now(), id)
      ensures again && f.Some? ==>
               f.value.Valid() && old(reader.Stream()) == Encode(f.value) + reader.Stream() && Carries(f, id, x)
      ensures again && f.None? ==> reader.Stream() == old(reader.Stream()) && x == []
      ensures !again ==> f.None?
      ensures again ==> pings == old(pings) + (if f.None? then 1 else if f.value.Ping? then -1 else 0)
      ensures (InData(old(reader.Stream()), id, x) && (again ==> IsData(f))) ||
              (x == [] && !IsData(f) && old(Now()).Passed(Now(), f))
      ensures old(reader.Quiet()) ==> reader.Quiet() && (again ==> f.Some?)
      ensures old(reader.Quiet()) && !again && reader.buf.Length >= 4 ==> !FrameReady(old(reader.Stream()))
      ensures reader.buf.Length >= 4 && old(reader.Clear(FrameNeed(reader.Stream()))) ==>
                reader.Awaits(old(reader.Deadlines())) &&
                if again then f.Some? else !FrameReady(old(reader.Stream()))
      ensures old(reader.Timed()) && !Spare(old(reader.Deadlines()), |old(reader.Stream())|, 4) &&
              reader.buf.Length >= 4 ==>
                again == pingSent && f.None? && reader.Awaits(old(reader.Deadlines())[1..])
      ensures again && f.None? ==> Now() == old(Now())
      ensures again && f.Some? ==> !f.value.CloseSignal? && !f.value.ErrorSignal?
      ensures !again ==> pings == old(pings)
      ensures ShortData(old(reader.Stream())) ==> f.None? && x == [] && Now() == old(Now())
      ensures !LooksP2P(Skip(old(reader.Stream()), 10)) ==> books.torn == old(books.torn)
      ensures !LooksP2P(Skip(old(reader.Stream()), 10)) && old(Now()).Steady(id) && id !in old(books.gone) ==>
                old(Now()).Settled(Now(), id, x, IsData(f))
    {
      hide Right, Apart, Stopped, Handled, Reader.Stream, LooksP2P, Put32, Put16, Get32, Get16, View.Steady,
           View.Settled, View.Alike, View.Passed, Faults, Willing, FrameReady, FrameNeed, TaskReady, TaskNeed;
      again, f, x := false, None, [];
      NeedsOf(0, reader.Stream());
      var v, e := Next32(reader);
      id := v;
      HandledNothing(books, id);
      NothingSettles(Now(), id);
      if e.Some? {
        if e == Some(Fault) && pingSent {
          pings := pings + 1;
          again := true;
          assert Now() == old(Now());
        }
        return;
      }
      ghost var s := reader.Stream();
      assert old(reader.Stream())[4..] == s;
      NeedsOf(v, s);
      Put32Get32(v, s);
      if v == PING_SIGNAL {
        pings := pings - 1;
        again, f := true, Some(Ping);
      } else if v == CLOSE_SIGNAL {
      } else if v == READY_SIGNAL {
        again, f := true, Some(Ready);
      } else if v == ERROR_SIGNAL {
        var p;
        p, e := reader.Peek(2);
      } else {
        again, f, x := TaskFrame(v);
      }
    }
  }
}
