/**
 The tunnel from end to end. `server/conn.go`, `process`, turns what the public
 clients send into frames, any number of tasks interleaved; `client/conn.go`,
 `readLoop`, turns the frames into writes to local connections.
 */
module Tunnel {
  import opened Wrappers
  import opened Bytes
  import opened Bufio
  import opened Frames
  import opened Sinks
  import opened TunnelClient
  import HostRewrite

  const MAX_BUFFER_SIZE := 4096

  method PutUint32(b: array<byte>, at: nat, x: nat)
    requires at + 4 <= b.Length && x < 0x1_0000_0000
    modifies b
    ensures b[at..at + 4] == Put32(x)
    ensures forall i :: 0 <= i < b.Length && !(at <= i < at + 4) ==> b[i] == old(b[i])
  {
    var p := Put32(x);
    forall i | 0 <= i < 4 { b[at + i] := p[i]; }
  }

  method PutUint16(b: array<byte>, at: nat, x: nat)
    requires at + 2 <= b.Length && x < 0x1_0000
    modifies b
    ensures b[at..at + 2] == Put16(x)
    ensures forall i :: 0 <= i < b.Length && !(at <= i < at + 2) ==> b[i] == old(b[i])
  {
    var p := Put16(x);
    forall i | 0 <= i < 2 { b[at + i] := p[i]; }
  }

  /**
   One round of the server's `process`: one read of its public connection,
   and one write of the tunnel, which its mutex makes atomic, for what came.
   */
  method ProcessTurn(id: nat, task: Reader, buf: array<byte>, tunnel: Sink) returns (more: bool, ghost chunk: seq<byte>)
    requires id < PRESERVED_SIGNAL && task.Valid() && buf != task.buf
    requires buf.Length == MAX_BUFFER_SIZE && tunnel.Within()
    modifies task, task.buf, task.rd, buf, tunnel
    ensures task.Valid() && tunnel.Within()
    ensures old(task.Stream()) == chunk + task.Stream() && |chunk| <= MAX_BUFFER_SIZE - 10
    ensures chunk == [] ==> tunnel.received == old(tunnel.received)
    ensures chunk != [] ==> old(tunnel.received) <= tunnel.received <= old(tunnel.received) + Encode(Data(id, chunk))
    ensures chunk != [] && more ==> tunnel.received == old(tunnel.received) + Encode(Data(id, chunk))
    ensures tunnel.capacity.None? && chunk != [] ==> tunnel.received == old(tunnel.received) + Encode(Data(id, chunk))
    ensures !more && tunnel.capacity.None? && old(task.Quiet()) ==> task.Stream() == []
  {
    hide Put32, Put16;
    PutUint32(buf, 0, id);
    PutUint16(buf, 4, DATA);
    var l, e := task.Read(buf, 10, buf.Length);
    chunk := buf[10..10 + l];
    more := e.None?;
    assert buf[..4] == Put32(id) && buf[4..6] == Put16(DATA);
    if l > 0 {
      var ok := WriteData(id, l, buf, tunnel);
      if !ok { more := false; }
    }
  }

  /** A buffer that holds a frame, once its length is put in. */
  lemma FrameIn(before: seq<byte>, now: seq<byte>, l: nat)
    requires |now| == |before| >= 10 + l && forall i :: 0 <= i < |now| && !(6 <= i < 10) ==> now[i] == before[i]
    ensures now[..10 + l] == before[..6] + now[6..10] + before[10..10 + l]
  {
  }

  /** server/conn.go:449-457: the length, and the frame as one write. */
  method WriteData(id: nat, l: nat, buf: array<byte>, tunnel: Sink) returns (ok: bool)
    requires id < PRESERVED_SIGNAL && buf.Length == MAX_BUFFER_SIZE && l <= MAX_BUFFER_SIZE - 10 && tunnel.Within()
    requires buf[..4] == Put32(id) && buf[4..6] == Put16(DATA)
    modifies buf, tunnel
    ensures tunnel.Within() && (tunnel.capacity.None? ==> ok)
    ensures
      var frame := Encode(Data(id, old(buf[10..10 + l])));
      old(tunnel.received) <= tunnel.received <= old(tunnel.received) + frame &&
      (ok ==> tunnel.received == old(tunnel.received) + frame)
  {
    hide Put32, Put16;
    ghost var before := buf[..];
    assert before[..6] == Put32(id) + Put16(DATA) by { assert buf[..6] == buf[..4] + buf[4..6]; }
    assert before[10..10 + l] == buf[10..10 + l];
    PutUint32(buf, 6, l);
    FrameIn(before, buf[..], l);
    assert buf[..][..10 + l] == buf[..10 + l] && buf[..][6..10] == buf[6..10];
    var n;
    n, ok := tunnel.Write(buf[..10 + l]);
  }

  /** The last frame of a task, written when its reads or writes end. */
  method ProcessEnd(id: nat, buf: array<byte>, tunnel: Sink) returns (ok: bool)
    requires id < PRESERVED_SIGNAL && buf.Length >= 6 && tunnel.Within()
    modifies buf, tunnel
    ensures tunnel.Within() && (tunnel.capacity.None? ==> ok)
    ensures ok ==> tunnel.received == old(tunnel.received) + Encode(Close(id))
  {
    hide Put32, Put16;
    PutUint32(buf, 0, id);
    PutUint16(buf, 4, CLOSE);
    assert buf[..6] == buf[0..4] + buf[4..6];
    var n;
    n, ok := tunnel.Write(buf[..6]);
  }

  ghost predicate AllValid(fs: seq<Frame>) {
    forall k :: 0 <= k < |fs| ==> fs[k].Valid()
  }

  /** What is on the wire once `fs` have been written. */
  ghost function Wire(fs: seq<Frame>): seq<byte>
    requires AllValid(fs)
  {
    if fs == [] then [] else Encode(fs[0]) + Wire(fs[1..])
  }

  lemma {:induction false} WireAppend(fs: seq<Frame>, f: Frame)
    requires AllValid(fs) && f.Valid()
    ensures AllValid(fs + [f]) && Wire(fs + [f]) == Wire(fs) + Encode(f)
  {
    hide Encode;
    if fs == [] {
      assert [f][1..] == [];
    } else {
      WireAppend(fs[1..], f);
      assert (fs + [f])[1..] == fs[1..] + [f];
      Reassociate(Encode(fs[0]), Wire(fs[1..]), Encode(f));
    }
  }

  ghost function PayloadOf(f: Frame, id: nat): seq<byte> {
    if f.Data? && f.id == id then f.payload else []
  }

  /** The payloads of `id`, in order. */
  ghost function Payloads(fs: seq<Frame>, id: nat): seq<byte> {
    if fs == [] then [] else Payloads(fs[..|fs| - 1], id) + PayloadOf(fs[|fs| - 1], id)
  }

  lemma PayloadsNext(fs: seq<Frame>, k: nat, id: nat)
    requires k < |fs|
    ensures Payloads(fs[..k + 1], id) == Payloads(fs[..k], id) + PayloadOf(fs[k], id)
  {
    assert fs[..k + 1][..k] == fs[..k];
  }

  lemma {:induction false} PayloadsPrefix(fs: seq<Frame>, k: nat, id: nat)
    requires k <= |fs|
    ensures Payloads(fs[..k], id) <= Payloads(fs, id)
    decreases |fs| - k
  {
    if k < |fs| {
      PayloadsNext(fs, k, id);
      PayloadsPrefix(fs, k + 1, id);
    } else {
      assert fs[..k] == fs;
    }
  }

  /** The data frames of `id`. */
  ghost function Count(fs: seq<Frame>, id: nat): nat {
    if fs == [] then 0
    else Count(fs[..|fs| - 1], id) + if fs[|fs| - 1].Data? && fs[|fs| - 1].id == id then 1 else 0
  }

  /** The payloads of the first `r` data frames of `id`. */
  ghost function Missed(fs: seq<Frame>, id: nat, r: nat): seq<byte> {
    if fs == [] then []
    else Missed(fs[..|fs| - 1], id, r) + if Count(fs[..|fs| - 1], id) < r then PayloadOf(fs[|fs| - 1], id) else []
  }

  lemma MissedNext(fs: seq<Frame>, k: nat, id: nat, r: nat)
    requires k < |fs|
    ensures Count(fs[..k + 1], id) == Count(fs[..k], id) + if fs[k].Data? && fs[k].id == id then 1 else 0
    ensures Missed(fs[..k + 1], id, r) ==
            Missed(fs[..k], id, r) + if Count(fs[..k], id) < r then PayloadOf(fs[k], id) else []
  {
    assert fs[..k + 1][..k] == fs[..k];
  }

  lemma {:induction false} MissedPrefix(fs: seq<Frame>, k: nat, id: nat, r: nat)
    requires k <= |fs|
    ensures Missed(fs[..k], id, r) <= Missed(fs, id, r)
    ensures Count(fs[..k], id) >= r ==> Missed(fs[..k], id, r) == Missed(fs, id, r)
    decreases |fs| - k
  {
    if k < |fs| {
      MissedNext(fs, k, id, r);
      MissedPrefix(fs, k + 1, id, r);
    } else {
      assert fs[..k] == fs;
    }
  }

  /** Without refusals nothing is missed; else the first data frame is. */
  lemma {:induction false} MissedNothing(fs: seq<Frame>, id: nat, r: nat)
    requires NoneEmpty(fs)
    ensures Missed(fs, id, r) == [] <==> r == 0 || Payloads(fs, id) == []
    ensures Payloads(fs, id) == [] <==> Count(fs, id) == 0
  {
    if fs != [] {
      MissedNothing(fs[..|fs| - 1], id, r);
    }
  }

  // The server as a state machine: one step for each round of any task's `process`.

  /**
   A task: what its public client sends, how much of it is on the tunnel, and
   whether it has ended; if its id was opened before, what had come of that.
   */
  datatype Sender = Sender(input: seq<byte>, sent: nat, ended: bool, earlier: seq<byte>, again: bool)
  datatype Server = Server(senders: map<nat, Sender>, frames: seq<Frame>)
  datatype Step = Open(id: nat, input: seq<byte>) | Send(id: nat, n: nat) | End(id: nat) | Signal(frame: Frame)

  /** What the server has read of the public clients of `id`, which is of one, unless the id is opened again. */
  ghost function SentBy(s: Server, id: nat): seq<byte> {
    if id in s.senders && s.senders[id].sent <= |s.senders[id].input|
    then s.senders[id].earlier + s.senders[id].input[..s.senders[id].sent] else []
  }

  /** `id` has not been opened again. */
  ghost predicate Once(s: Server, id: nat) {
    id in s.senders ==> !s.senders[id].again
  }

  ghost predicate Enabled(s: Server, step: Step) {
    match step
    case Open(id, _) => (id in s.senders ==> s.senders[id].ended) && id < PRESERVED_SIGNAL
    case Send(id, n) =>
      id in s.senders && !s.senders[id].ended && 0 < n <= MAX_BUFFER_SIZE - 10 &&
      s.senders[id].sent + n <= |s.senders[id].input|
    case End(id) => id in s.senders && !s.senders[id].ended
    case Signal(f) => f.Ping? || f.Ready? || f.CloseSignal? || (f.ErrorSignal? && f.Valid())
  }

  ghost function Next(s: Server, step: Step): Server
    requires Enabled(s, step)
  {
    match step
    case Open(id, input) => s.(senders := s.senders[id := Sender(input, 0, false, SentBy(s, id), id in s.senders)])
    case Send(id, n) =>
      var t := s.senders[id];
      Server(s.senders[id := t.(sent := t.sent + n)], s.frames + [Data(id, t.input[t.sent..t.sent + n])])
    case End(id) => Server(s.senders[id := s.senders[id].(ended := true)], s.frames + [Close(id)])
    case Signal(f) => s.(frames := s.frames + [f])
  }

  ghost predicate IsRun(run: seq<Server>, steps: seq<Step>) {
    |run| == |steps| + 1 && run[0] == Server(map[], []) && forall i :: 0 <= i < |steps| ==> StepAt(run, steps, i)
  }

  ghost predicate StepAt(run: seq<Server>, steps: seq<Step>, i: int)
    requires |run| == |steps| + 1 && 0 <= i < |steps|
  {
    Enabled(run[i], steps[i]) && run[i + 1] == Next(run[i], steps[i])
  }

  /** What the frames of `id` carry is what has been read of its public client. */
  ghost predicate InOrder(s: Server, id: nat) {
    Payloads(s.frames, id) == SentBy(s, id)
  }

  /** Nothing comes for `id` after its closing frame. */
  ghost predicate ClosedLast(fs: seq<Frame>, id: nat) {
    forall j, k :: 0 <= j < k < |fs| && fs[j] == Close(id) && fs[k].Data? ==> fs[k].id != id
  }

  /** A task that has ended sends nothing more, until its id is opened again. */
  ghost predicate Closes(s: Server, id: nat) {
    && (Once(s, id) ==> ClosedLast(s.frames, id))
    && (Close(id) in s.frames ==> id in s.senders && (s.senders[id].ended || s.senders[id].again))
  }

  ghost predicate NoneEmpty(fs: seq<Frame>) {
    forall k :: 0 <= k < |fs| && fs[k].Data? ==> fs[k].payload != []
  }

  ghost predicate ServerOk(s: Server) {
    && AllValid(s.frames) && NoneEmpty(s.frames)
    && (forall id :: InOrder(s, id)) && (forall id :: Closes(s, id))
    && (forall id :: id in s.senders ==> id < PRESERVED_SIGNAL && s.senders[id].sent <= |s.senders[id].input|)
  }

  lemma PayloadsAppend(fs: seq<Frame>, f: Frame, id: nat)
    ensures Payloads(fs + [f], id) == Payloads(fs, id) + PayloadOf(f, id)
  {
    assert (fs + [f])[..|fs|] == fs;
  }

  lemma SentMore(input: seq<byte>, a: nat, b: nat)
    requires a <= b <= |input|
    ensures input[..b] == input[..a] + input[a..b]
  {
  }

  lemma StepInOrder(s: Server, step: Step, id: nat)
    requires ServerOk(s) && Enabled(s, step)
    ensures InOrder(Next(s, step), id)
  {
    hide Payloads, Closes, NoneEmpty;
    assert InOrder(s, id);
    var p := SentBy(s, id);
    assert p + [] == p;
    match step
    case Open(_, _) =>
    case Send(j, n) =>
      var t := s.senders[j];
      Reassociate(t.earlier, t.input[..t.sent], t.input[t.sent..t.sent + n]);
      PayloadsAppend(s.frames, Data(j, t.input[t.sent..t.sent + n]), id);
      SentMore(t.input, t.sent, t.sent + n);
    case End(j) =>
      PayloadsAppend(s.frames, Close(j), id);
    case Signal(f) =>
      PayloadsAppend(s.frames, f, id);
  }

  lemma ClosedAppend(fs: seq<Frame>, f: Frame, id: nat)
    requires ClosedLast(fs, id) && (f.Data? && f.id == id ==> Close(id) !in fs)
    ensures ClosedLast(fs + [f], id)
  {
  }

  lemma StepCloses(s: Server, step: Step, id: nat)
    requires ServerOk(s) && Enabled(s, step)
    ensures Closes(Next(s, step), id)
  {
    hide InOrder, NoneEmpty, ClosedLast, SentBy;
    assert Closes(s, id);
    match step
    case Open(_, _) =>
    case Send(j, n) =>
      var f := Data(j, s.senders[j].input[s.senders[j].sent..s.senders[j].sent + n]);
      if Once(s, id) { ClosedAppend(s.frames, f, id); }
    case End(j) =>
      if Once(s, id) { ClosedAppend(s.frames, Close(j), id); }
    case Signal(f) =>
      if Once(s, id) { ClosedAppend(s.frames, f, id); }
  }

  lemma StepNoneEmpty(s: Server, step: Step)
    requires ServerOk(s) && Enabled(s, step)
    ensures NoneEmpty(Next(s, step).frames)
  {
    hide InOrder, Closes;
  }

  lemma StepKeepsOk(s: Server, step: Step)
    requires ServerOk(s) && Enabled(s, step)
    ensures ServerOk(Next(s, step))
  {
    hide InOrder, Closes, NoneEmpty;
    forall id ensures InOrder(Next(s, step), id) { StepInOrder(s, step, id); }
    forall id ensures Closes(Next(s, step), id) { StepCloses(s, step, id); }
    assert NoneEmpty(Next(s, step).frames) by { StepNoneEmpty(s, step); }
  }

  /** Over every run of the server, the frames of each task carry what was read of its client, in order. */
  lemma {:induction false} ServerRuns(run: seq<Server>, steps: seq<Step>, i: nat)
    requires IsRun(run, steps) && i <= |steps|
    ensures ServerOk(run[i])
  {
    if i > 0 {
      ServerRuns(run, steps, i - 1);
      assert StepAt(run, steps, i - 1);
      StepKeepsOk(run[i - 1], steps[i - 1]);
    }
  }

  /** The tunnel has received the frames of `s`, and the connection of `id` stands where `s` says. */
  ghost predicate Sending(s: Server, id: nat, task: Reader, tunnel: Sink)
    reads task, task.buf, task.rd, tunnel
  {
    && AllValid(s.frames) && tunnel.received == Wire(s.frames)
    && id in s.senders && id < PRESERVED_SIGNAL && s.senders[id].sent <= |s.senders[id].input|
    && task.Valid() && task.Stream() == s.senders[id].input[s.senders[id].sent..]
  }

  /**
   A round of `process` that reads something is a Send step of the server, on the
   wire and in what is left to read.
   */
  method ServeTurn(ghost s: Server, id: nat, task: Reader, buf: array<byte>, tunnel: Sink)
    returns (more: bool, ghost s': Server)
    requires Sending(s, id, task, tunnel) && !s.senders[id].ended
    requires buf != task.buf && buf.Length == MAX_BUFFER_SIZE && tunnel.capacity.None?
    modifies task, task.buf, task.rd, buf, tunnel
    ensures Sending(s', id, task, tunnel) && !s'.senders[id].ended
    ensures s' == s || exists n :: Enabled(s, Send(id, n)) && s' == Next(s, Send(id, n))
    ensures !more && old(task.Quiet()) ==> s'.senders[id].sent == |s'.senders[id].input|
  {
    hide Encode, Wire, Reader.Stream;
    ghost var t := s.senders[id];
    ghost var rest := task.Stream();
    ghost var chunk;
    more, chunk := ProcessTurn(id, task, buf, tunnel);
    s' := s;
    if chunk != [] {
      assert rest[..|chunk|] == chunk && rest[|chunk|..] == task.Stream();
      DropDrop(t.input, t.sent, |chunk|);
      TakeDrop(t.input, t.sent + |chunk|, t.sent);
      assert Enabled(s, Send(id, |chunk|));
      s' := Next(s, Send(id, |chunk|));
      WireAppend(s.frames, Data(id, chunk));
    } else {
      assert rest == task.Stream();
    }
  }

  /** And its last round is an End step. */
  method ServeEnd(ghost s: Server, id: nat, task: Reader, buf: array<byte>, tunnel: Sink) returns (ghost s': Server)
    requires Sending(s, id, task, tunnel) && !s.senders[id].ended
    requires buf != task.buf && buf.Length == MAX_BUFFER_SIZE && tunnel.capacity.None?
    modifies buf, tunnel
    ensures Sending(s', id, task, tunnel) && Enabled(s, End(id)) && s' == Next(s, End(id))
  {
    hide Encode, Wire, Reader.Stream;
    var ok := ProcessEnd(id, buf, tunnel);
    s' := Next(s, End(id));
    WireAppend(s.frames, Close(id));
  }

  // The client, on what it gets of the wire.

  /**
   What may happen before a round of readLoop: local connections end; and whether a
   ping could be sent on a timeout.
   */
  datatype Round = Round(ended: set<nat>, pingSent: bool)

  /** The frame at the front of what is left of the wire. */
  lemma FrontFrame(fs: seq<Frame>, k: nat, s: seq<byte>, f: Frame, rest: seq<byte>)
    requires AllValid(fs) && k <= |fs| && s <= Wire(fs[k..]) && f.Valid() && s == Encode(f) + rest
    ensures k < |fs| && fs[k] == f && rest <= Wire(fs[k + 1..])
    ensures s == Wire(fs[k..]) ==> rest == Wire(fs[k + 1..])
  {
    hide Encode;
    assert 4 <= |Encode(f)| by { Begins(f, []); }
    assert fs[k..] != [];
    assert fs[k..][1..] == fs[k + 1..];
    var q := Wire(fs[k..])[|s|..];
    assert Wire(fs[k..]) == s + q;
    Reassociate(Encode(f), rest, q);
    OneReading(f, rest + q, fs[k], Wire(fs[k + 1..]));
  }

  /** And when only a part of it is there, a part of its payload. */
  lemma FrontPart(fs: seq<Frame>, k: nat, s: seq<byte>, id: nat, x: seq<byte>)
    requires AllValid(fs) && k <= |fs| && s <= Wire(fs[k..]) && InData(s, id, x)
    ensures k < |fs| && fs[k].Data? && fs[k].id == id && x <= fs[k].payload
  {
    hide Encode, Get32, Get16;
    assert fs[k..] != [];
    var f, w, q := fs[k], Wire(fs[k..]), Wire(fs[k..][1..]);
    assert w == Encode(f) + q;
    Begins(f, q);
    Same32(s, w);
    Same16(s[4..], w[4..]);
    assert First(f) == id;
    assert f.Data? by { assert HasSecond(f); }
    BeginsData(f, q);
    Same32(s[6..], w[6..]);
    assert x <= w[10..] by { assert s[6..][4..] == s[10..] && s[10..] <= w[10..]; }
  }

  lemma Same32(s: seq<byte>, w: seq<byte>)
    requires 4 <= |s| && s <= w
    ensures Get32(s) == Get32(w)
  {
  }

  lemma Same16(s: seq<byte>, w: seq<byte>)
    requires 2 <= |s| && s <= w
    ensures Get16(s) == Get16(w)
  {
  }

  ghost predicate GotOne(b: Books, fs: seq<Frame>, id: nat) {
    (id !in b.lost ==> b.Through(id) == Payloads(fs, id)) && (id !in b.torn ==> b.Through(id) <= Payloads(fs, id))
  }

  /**
   Of every task, the books account for all that the frames `fs` carry, or, if some
   is lost, for a part from the start.
   */
  ghost predicate Got(b: Books, fs: seq<Frame>) {
    forall id: nat :: GotOne(b, fs, id)
  }

  /** Or of every task for a part. */
  ghost predicate GotPart(b: Books, fs: seq<Frame>) {
    forall id :: GotPrefix(b, fs, id)
  }

  ghost predicate GotPrefix(b: Books, fs: seq<Frame>, id: nat) {
    id !in b.torn ==> b.Through(id) <= Payloads(fs, id)
  }

  lemma OneNext(b: Books, b': Books, fs: seq<Frame>, k: nat, id: nat, x: seq<byte>, j: nat)
    requires k < |fs| && GotOne(b, fs[..k], j) && Handled(b, b', id, x)
    requires Carries(Some(fs[k]), id, x) && b.torn <= b.lost
    ensures GotOne(b', fs[..k + 1], j)
  {
    hide Books.Handed, Books.Dropped;
    PayloadsNext(fs, k, j);
    var p := Payloads(fs[..k], j);
    assert p <= p + PayloadOf(fs[k], j);
    if j != id {
      assert b'.Through(j) == b.Through(j) && PayloadOf(fs[k], j) == [];
      assert p + [] == p;
    } else {
      assert PayloadOf(fs[k], id) == x;
      assert id !in b.lost ==> b.Through(id) == p;
    }
  }

  lemma GotNext(b: Books, b': Books, fs: seq<Frame>, k: nat, id: nat, x: seq<byte>)
    requires k < |fs| && Got(b, fs[..k]) && Handled(b, b', id, x) && Carries(Some(fs[k]), id, x) && b.torn <= b.lost
    ensures Got(b', fs[..k + 1])
  {
    hide Handled, Carries, GotOne;
    var fs' := fs[..k + 1];
    forall j ensures GotOne(b', fs', j) { OneNext(b, b', fs, k, id, x, j); }
  }

  lemma GotSame(b: Books, b': Books, fs: seq<Frame>, id: nat)
    requires Got(b, fs) && Handled(b, b', id, []) && b.torn <= b.lost
    ensures Got(b', fs)
  {
    hide Books.Handed, Books.Dropped;
    forall j ensures GotOne(b', fs, j) {
      assert GotOne(b, fs, j);
      assert b.Through(j) + [] == b.Through(j);
      assert j != id ==> b'.Through(j) == b.Through(j);
    }
  }

  lemma OneStop(b: Books, b': Books, fs: seq<Frame>, k: nat, id: nat, x: seq<byte>, j: nat)
    requires k <= |fs| && GotOne(b, fs[..k], j) && Handled(b, b', id, x) && b.torn <= b.lost
    requires x == [] || (k < |fs| && fs[k].Data? && fs[k].id == id && x <= fs[k].payload)
    ensures GotPrefix(b', fs, j)
  {
    hide Books.Handed, Books.Dropped;
    PayloadsPrefix(fs, k, j);
    var p := Payloads(fs[..k], j);
    if j != id {
      assert b'.Through(j) == b.Through(j);
    } else if x == [] {
      assert b.Through(j) + [] == b.Through(j);
    } else {
      PayloadsNext(fs, k, j);
      PayloadsPrefix(fs, k + 1, j);
      assert p + x <= p + fs[k].payload;
    }
  }

  lemma GotStop(b: Books, b': Books, fs: seq<Frame>, k: nat, id: nat, x: seq<byte>)
    requires k <= |fs| && Got(b, fs[..k]) && Handled(b, b', id, x) && b.torn <= b.lost
    requires x == [] || (k < |fs| && fs[k].Data? && fs[k].id == id && x <= fs[k].payload)
    ensures GotPart(b', fs)
  {
    hide Handled, GotOne, GotPrefix;
    forall j ensures GotPrefix(b', fs, j) { OneStop(b, b', fs, k, id, x, j); }
  }

  lemma GotAll(b: Books, fs: seq<Frame>, k: nat)
    requires k <= |fs| && Got(b, fs[..k]) && b.torn <= b.lost
    ensures GotPart(b, fs)
  {
    HandledNothing(b, 0);
    GotStop(b, b, fs, k, 0, []);
  }

  /**
   The bytes that the client has looked at when it takes frame `k`: of its payload
   and, past a shorter one, of what is behind.
   */
  ghost function Looked(fs: seq<Frame>, k: nat): seq<byte>
    requires AllValid(fs) && k < |fs| && fs[k].Data?
  {
    fs[k].payload + Wire(fs[k..][1..])
  }

  /** The client takes every data frame of `id` for HTTP traffic. */
  ghost predicate AllHttp(fs: seq<Frame>, id: nat) {
    AllValid(fs) && forall k :: 0 <= k < |fs| && fs[k].Data? && fs[k].id == id ==> !LooksP2P(Looked(fs, k))
  }

  /** The two bytes to look at are there for every data frame. */
  ghost predicate AllShown(fs: seq<Frame>) {
    AllValid(fs) && forall k :: 0 <= k < |fs| && fs[k].Data? ==> |Looked(fs, k)| >= 2
  }

  /** A payload of two bytes is told by itself; a payload of one byte can be mistaken because of the frame behind it. */
  lemma TakenForP2P(payload: seq<byte>, behind: seq<byte>)
    requires payload != []
    ensures LooksP2P(payload + behind) <==>
              if |payload| >= 2 then LooksP2P(payload) else payload == [0x58] && behind != [] && behind[0] == 0x31
  {
    var looked := payload + behind;
    if |payload| >= 2 {
      assert looked[0] == payload[0] && looked[1] == payload[1];
    } else if behind != [] {
      assert looked[0] == payload[0] && looked[1] == behind[0];
    }
  }

  /** An `X` sent on its own is lost when the next frame is of a task whose id begins with the byte of a `1`. */
  lemma OneByteMistaken(id: nat, next: seq<byte>)
    requires id < ERROR_SIGNAL && 0 < |next| < 0x1_0000_0000
    ensures var fs := [Data(id, [0x58]), Data(0x3100_0000, next)]; AllValid(fs) && LooksP2P(Looked(fs, 0))
    ensures var fs := [Data(id, [0x58]), Data(0x3100_0000, next)]; !AllHttp(fs, id)
  {
    var fs := [Data(id, [0x58]), Data(0x3100_0000, next)];
    assert AllValid(fs);
    var behind := Wire(fs[0..][1..]);
    assert fs[0..][1..][0] == fs[1];
    Begins(fs[1], Wire(fs[0..][1..][1..]));
    assert Encode(fs[1])[0] == 0x31;
    TakenForP2P([0x58], behind);
  }

  /**
   On a tunnel without faults the client takes a data frame exactly when two bytes
   are there behind its head, of the payload or of what follows; it waits for the
   second byte of a payload of one, and nothing is delivered until then.
   */
  method TwoBytesBehind(c: Client, pingSent: bool, ghost id: nat, ghost payload: seq<byte>, ghost rest: seq<byte>)
    returns (again: bool)
    requires c.Valid() && c.reader.Quiet() && c.reader.buf.Length >= 4
    requires id < ERROR_SIGNAL && |payload| < 0x1_0000_0000 && c.reader.Stream() == Encode(Data(id, payload)) + rest
    modifies c, c.reader, c.reader.buf, c.reader.rd, c.books.locals
    ensures c.Valid() && (again <==> |payload + rest| >= 2)
    ensures if again then c.reader.Stream() == rest else c.Now() == old(c.Now())
  {
    hide Client.Kept, Reader.Stream, Encode, Handled, LooksP2P, FrameReady, ShortData;
    ghost var s := c.reader.Stream();
    DataHead(id, payload, rest);
    ghost var f: Option<Frame>, j: nat, x: seq<byte>;
    again, f, j, x := c.Turn(pingSent);
    if again && f.Some? { OneReading(Data(id, payload), rest, f.value, c.reader.Stream()); }
  }

  lemma DataHead(id: nat, payload: seq<byte>, rest: seq<byte>)
    requires id < ERROR_SIGNAL && |payload| < 0x1_0000_0000
    ensures var s := Encode(Data(id, payload)) + rest; if |payload + rest| >= 2 then FrameReady(s) else ShortData(s)
  {
    hide Encode, Get32, Get16;
    var f := Data(id, payload);
    var s := Encode(f) + rest;
    Begins(f, rest);
    BeginsData(f, rest);
    assert s[4..][2..] == s[6..] && s[10..] == payload + rest;
  }

  /**
   The tunnel is calm for `id`: all its frames take the HTTP branch, its first
   dial that is not refused makes a connection that does not fail, and that does
   not end before its closing frame. Other tasks may fare as they like.
   */
  ghost predicate CalmFor(c: Client, fs: seq<Frame>, rounds: seq<Round>, id: nat)
    reads c
  {
    HostFits(c.host) && Lands(Of(c.dials, id)) && AllHttp(fs, id) &&
    forall i :: 0 <= i < |rounds| ==> id !in rounds[i].ended
  }

  /** And what that keeps: of `id` no more is dropped than the frames that came with the first, refused dials. */
  ghost predicate Calmly(v: View, fs: seq<Frame>, k: nat, id: nat, dials: map<nat, seq<Dialled>>) {
    var r := Refusals(Of(dials, id));
    && k <= |fs| && AllHttp(fs, id) && ClosedLast(fs, id) && v.Steady(id)
    && (id in v.books.gone ==> Close(id) in fs[..k])
    && v.Owed(id) == (if Count(fs[..k], id) < r then r - Count(fs[..k], id) else 0)
    && v.books.Dropped(id) == Missed(fs[..k], id, r)
  }

  /** What is so in the end: all that is dropped came with the first, refused dials. */
  ghost predicate DropsFirst(b: Books, fs: seq<Frame>, id: nat, r: nat) {
    id !in b.lost && b.Dropped(id) <= Missed(fs, id, r) && (id in b.first ==> b.Dropped(id) == Missed(fs, id, r))
  }

  lemma CalmEnds(v: View, fs: seq<Frame>, k: nat, id: nat, dials: map<nat, seq<Dialled>>)
    requires Calmly(v, fs, k, id, dials)
    ensures DropsFirst(v.books, fs, id, Refusals(Of(dials, id)))
  {
    hide Missed, Count, AllHttp, ClosedLast, Refusals;
    MissedPrefix(fs, k, id, Refusals(Of(dials, id)));
  }

  /** A data frame of `id`. */
  lemma CalmData(v: View, v': View, fs: seq<Frame>, k: nat, id: nat, dials: map<nat, seq<Dialled>>)
    requires Calmly(v, fs, k, id, dials) && k < |fs| && fs[k].Data? && fs[k].id == id && v'.books.gone == v.books.gone
    requires v'.Steady(id) && v.Paid(v', id, fs[k].payload)
    ensures Calmly(v', fs, k + 1, id, dials)
  {
    hide Missed, Count, AllHttp, ClosedLast, Refusals, View.Steady, View.Owed, Books.Dropped;
    MissedNext(fs, k, id, Refusals(Of(dials, id)));
    var m := Missed(fs[..k], id, Refusals(Of(dials, id)));
    assert m + [] == m && fs[..k + 1] == fs[..k] + [fs[k]];
  }

  /** A part of one. */
  lemma CalmPart(v: View, v': View, fs: seq<Frame>, k: nat, id: nat, x: seq<byte>, dials: map<nat, seq<Dialled>>)
    requires Calmly(v, fs, k, id, dials) && k < |fs| && fs[k].Data? && fs[k].id == id && x <= fs[k].payload
    requires v.Settled(v', id, x, false)
    ensures DropsFirst(v'.books, fs, id, Refusals(Of(dials, id)))
  {
    hide Missed, Count, AllHttp, ClosedLast, Refusals, Books.Dropped;
    var r := Refusals(Of(dials, id));
    MissedPrefix(fs, k, id, r);
    MissedNext(fs, k, id, r);
    MissedPrefix(fs, k + 1, id, r);
    var m := Missed(fs[..k], id, r);
    assert m + x <= m + fs[k].payload;
  }

  /** A frame that is no data frame of `id`, or no frame. */
  lemma CalmElse(v: View, v': View, fs: seq<Frame>, k: nat, k': nat, id: nat, dials: map<nat, seq<Dialled>>)
    requires Calmly(v, fs, k, id, dials) && k <= k' <= |fs| && k' <= k + 1
    requires k' > k ==> !(fs[k].Data? && fs[k].id == id)
    requires v'.Steady(id) && v.Idle(v', id)
    requires id in v'.books.gone ==> id in v.books.gone || Close(id) in fs[..k']
    ensures Calmly(v', fs, k', id, dials)
  {
    hide Missed, Count, AllHttp, ClosedLast, Refusals, View.Steady, View.Owed, Books.Dropped;
    if k' > k {
      MissedNext(fs, k, id, Refusals(Of(dials, id)));
      var m := Missed(fs[..k], id, Refusals(Of(dials, id)));
      assert m + [] == m && fs[..k'] == fs[..k] + [fs[k]];
    }
  }

  lemma GoneOpen(v: View, fs: seq<Frame>, k: nat, id: nat, dials: map<nat, seq<Dialled>>)
    requires Calmly(v, fs, k, id, dials) && k < |fs| && fs[k].Data? && fs[k].id == id
    ensures id !in v.books.gone
  {
    hide Missed, Count, AllHttp, Refusals, View.Steady, View.Owed;
    forall j | 0 <= j < k ensures fs[..k][j] != Close(id) {}
  }

  /** What a data frame shows of the two bytes that are looked at. */
  lemma ShownHttp(fs: seq<Frame>, k: nat, s: seq<byte>, id: nat, x: seq<byte>)
    requires AllHttp(fs, id) && k <= |fs| && s <= Wire(fs[k..]) && InData(s, id, x)
    ensures !LooksP2P(Skip(s, 10))
  {
    hide InData, Get16, Encode;
    FrontPart(fs, k, s, id, x);
    BeginsData(fs[k], Wire(fs[k..][1..]));
    var w := Wire(fs[k..]);
    assert w[10..] == Looked(fs, k);
    if |s| >= 12 {
      assert s[10..] <= w[10..];
      Same16(s[10..], w[10..]);
    }
  }

  lemma ReadyFrame(fs: seq<Frame>, k: nat)
    requires AllShown(fs) && k < |fs| && !fs[k].CloseSignal? && !fs[k].ErrorSignal?
    ensures FrameReady(Wire(fs[k..]))
  {
    hide Encode, Get32, Get16;
    var f, q := fs[k], Wire(fs[k..][1..]);
    assert Wire(fs[k..]) == Encode(f) + q;
    Begins(f, q);
    if f.Data? {
      BeginsData(f, q);
      var w := Wire(fs[k..]);
      assert w[4..][2..] == w[6..];
      assert w[10..] == Looked(fs, k);
    } else if First(f) < ERROR_SIGNAL {
      assert HasSecond(f) && Second(f) != DATA;
    }
  }

  /** What holds between two rounds of readLoop, `k` frames on. */
  ghost predicate OnBoundary(c: Client, fs: seq<Frame>, k: nat)
    reads c, c.reader, c.reader.buf, c.reader.rd, c.books.locals
  {
    c.Valid() && AllValid(fs) && k <= |fs| && c.reader.Stream() <= Wire(fs[k..]) && Got(c.books, fs[..k])
  }

  /** The wire ends neither in a close nor in an error signal. */
  ghost predicate StaysUp(fs: seq<Frame>) {
    forall k :: 0 <= k < |fs| ==> !fs[k].CloseSignal? && !fs[k].ErrorSignal?
  }

  ghost function Pings(fs: seq<Frame>): nat {
    if fs == [] then 0 else Pings(fs[..|fs| - 1]) + if fs[|fs| - 1].Ping? then 1 else 0
  }

  /**
   A fault with `d` bytes of the wire still to come falls in front of frame `j`:
   fewer than four bytes of that are there, but the two bytes that are looked at
   for a data frame before it.
   */
  ghost predicate Between(fs: seq<Frame>, d: nat, j: nat) {
    AllValid(fs) && j <= |fs| &&
    var left := |Wire(fs[j..])|;
    left - 4 < d <= left && (j > 0 && fs[j - 1].Data? ==> |fs[j - 1].payload| + left - d >= 2)
  }

  /**
   Each of the faults falls between two frames, and when it does there is no
   unanswered ping: of the pings sent for `p` and the faults before, and the Ping
   frames up to there, the former are no more than the latter.
   */
  ghost predicate Punctual(fs: seq<Frame>, ds: seq<nat>, js: seq<nat>, p: int) {
    |js| == |ds| && forall i :: 0 <= i < |ds| ==> Between(fs, ds[i], js[i]) && p + i <= Pings(fs[..js[i]])
  }

  /** In front of frame `k`, with `n` of the faults behind. */
  ghost predicate OnPlan(fs: seq<Frame>, k: nat, ds: seq<nat>, js: seq<nat>, p: int, n: nat, pings: int) {
    && k <= |fs| && AllShown(fs) && StaysUp(fs) && n <= |ds|
    && Punctual(fs, ds, js, p) && Ordered(ds, |Wire(fs)|)
    && pings == p + n - Pings(fs[..k]) && pings <= 1
    && forall i :: n <= i < |js| ==> k <= js[i]
  }

  /** And all of the rest of the wire arrives. */
  ghost predicate OnTime(c: Client, fs: seq<Frame>, k: nat, ds: seq<nat>, js: seq<nat>, p: int, n: nat)
    reads c, c.reader, c.reader.buf, c.reader.rd
  {
    OnPlan(fs, k, ds, js, p, n, c.pings) &&
    c.reader.Valid() && c.reader.Stream() == Wire(fs[k..]) && c.reader.buf.Length >= 4 && c.reader.Awaits(ds[n..])
  }

  lemma PingsNext(fs: seq<Frame>, k: nat)
    requires k < |fs|
    ensures Pings(fs[..k + 1]) == Pings(fs[..k]) + if fs[k].Ping? then 1 else 0
  {
    assert fs[..k + 1][..k] == fs[..k];
  }

  lemma {:induction false} WireShrinks(fs: seq<Frame>, k: nat, j: nat)
    requires AllValid(fs) && k < j <= |fs|
    ensures |Wire(fs[k..])| >= |Encode(fs[k])| + 4 * (j - k - 1) + |Wire(fs[j..])|
    ensures |Encode(fs[k])| >= 4
    decreases j - k
  {
    hide Encode;
    assert fs[k..][1..] == fs[k + 1..];
    Begins(fs[k], []);
    if k + 1 < j { WireShrinks(fs, k + 1, j); }
  }

  /** The next fault, if within four bytes, is in front of the next frame; else it and the later ones are behind it. */
  lemma NextFault(fs: seq<Frame>, k: nat, ds: seq<nat>, js: seq<nat>, p: int, n: nat)
    requires AllValid(fs) && k <= |fs| && n < |ds| && Punctual(fs, ds, js, p) && Ordered(ds, |Wire(fs)|)
    requires forall i :: n <= i < |js| ==> k <= js[i]
    ensures n < |js| && if |Wire(fs[k..])| - ds[n] < 4 then js[n] == k else k < js[n]
    ensures |Wire(fs[k..])| - ds[n] >= 4 ==> forall i :: n <= i < |js| ==> k < js[i]
  {
    hide Wire;
    if js[n] > k { WireShrinks(fs, k, js[n]); }
    assert Between(fs, ds[n], js[n]);
    forall i | n <= i < |js| && js[i] == k ensures |Wire(fs[k..])| - ds[n] < 4 {
      assert Between(fs, ds[i], js[i]) && ds[i] <= ds[n];
    }
  }

  /** A frame that stands before the next fault comes before it, with all that is looked at. */
  lemma FrameComes(fs: seq<Frame>, k: nat, ds: seq<nat>, js: seq<nat>, p: int, n: nat)
    requires AllValid(fs) && k < |fs| && n < |ds| && Punctual(fs, ds, js, p) && k < js[n]
    requires !fs[k].ErrorSignal?
    ensures |Wire(fs[k..])| - ds[n] >= FrameNeed(Wire(fs[k..]))
  {
    hide Encode, Get32, Get16, Wire, FrameNeed;
    var j := js[n];
    WireShrinks(fs, k, j);
    assert Between(fs, ds[n], j);
    FrameNeedIs(fs, k);
    assert fs[k].Data? ==> |Encode(fs[k])| == 10 + |fs[k].payload| by { if fs[k].Data? { BeginsData(fs[k], []); } }
    assert HasSecond(fs[k]) ==> |Encode(fs[k])| >= 6 by { Begins(fs[k], []); }
  }

  lemma FrameNeedIs(fs: seq<Frame>, k: nat)
    requires AllValid(fs) && k < |fs| && !fs[k].ErrorSignal?
    ensures FrameNeed(Wire(fs[k..])) ==
      if fs[k].Data? then 10 + (if |fs[k].payload| < 2 then 2 else |fs[k].payload|)
      else if HasSecond(fs[k]) then 6 else 4
  {
    hide Encode, Get32, Get16;
    var f, q := fs[k], Wire(fs[k..][1..]);
    var w := Wire(fs[k..]);
    assert w == Encode(f) + q;
    Begins(f, q);
    if HasSecond(f) { assert |w| >= 6; }
    if f.Data? {
      BeginsData(f, q);
      assert w[4..][2..] == w[6..];
    }
  }

  lemma NotCalm(calm: iset<nat>, rounds: seq<Round>, i: nat)
    requires i < |rounds| && forall id, j :: id in calm && 0 <= j < |rounds| ==> id !in rounds[j].ended
    ensures forall id :: id in rounds[i].ended ==> id !in calm
  {
  }

  ghost predicate AllCalmly(v: View, fs: seq<Frame>, k: nat, calm: iset<nat>, dials: map<nat, seq<Dialled>>) {
    forall id :: id in calm ==> Calmly(v, fs, k, id, dials)
  }

  ghost predicate AllDropFirst(b: Books, fs: seq<Frame>, calm: iset<nat>, dials: map<nat, seq<Dialled>>) {
    forall id :: id in calm ==> DropsFirst(b, fs, id, Refusals(Of(dials, id)))
  }

  /** Bytes are taken out of the middle of a task only where a frame of it looks like a peer-to-peer request. */
  ghost predicate TornP2P(b: Books, fs: seq<Frame>) {
    forall id :: id in b.torn ==> !AllHttp(fs, id)
  }

  method EndLocals(c: Client, ended: set<nat>, ghost fs: seq<Frame>, ghost k: nat, ghost calm: iset<nat>,
                   ghost dials: map<nat, seq<Dialled>>)
    requires OnBoundary(c, fs, k) && AllCalmly(c.Now(), fs, k, calm, dials) && TornP2P(c.books, fs)
    requires forall id :: id in ended ==> id !in calm
    modifies c
    ensures OnBoundary(c, fs, k) && c.pings == old(c.pings) && c.books.locals == old(c.books.locals)
    ensures c.reader.Stream() == old(c.reader.Stream())
    ensures AllCalmly(c.Now(), fs, k, calm, dials) && TornP2P(c.books, fs)
    ensures forall ds, js, p, n :: old(OnTime(c, fs, k, ds, js, p, n)) ==> OnTime(c, fs, k, ds, js, p, n)
  {
    hide Client.Kept, Reader.Stream, Reader.Awaits, LooksP2P, Wire, Calmly, AllHttp, AllShown, StaysUp, Punctual, Pings;
    ghost var b, v := c.books, c.Now();
    c.Forget(ended);
    forall id ensures GotOne(c.books, fs[..k], id) { assert GotOne(b, fs[..k], id); }
    forall id | id in calm
      ensures Calmly(c.Now(), fs, k, id, dials)
    {
      CalmForgotten(v, c.Now(), fs, k, id, dials, ended);
    }
  }

  lemma CalmForgotten(v: View, v': View, fs: seq<Frame>, k: nat, id: nat, dials: map<nat, seq<Dialled>>, ids: set<nat>)
    requires Calmly(v, fs, k, id, dials) && id !in ids
    requires v' == View(v.host, v.tasks - ids, v.dials, v.books.(gone := v.books.gone + ids))
    ensures Calmly(v', fs, k, id, dials)
  {
    hide Calmly, View.Steady, View.Idle;
    SteadyIf(v, fs, k, id, dials);
    ForgottenSteady(v, ids, id);
    CalmElse(v, v', fs, k, k, id, dials);
  }

  lemma SteadyIf(v: View, fs: seq<Frame>, k: nat, id: nat, dials: map<nat, seq<Dialled>>)
    requires Calmly(v, fs, k, id, dials)
    ensures k <= |fs| && AllHttp(fs, id) && v.Steady(id)
  {
    hide AllHttp, View.Steady;
  }

  /** What one round leaves of all that for `j`: `x` came for `id`, with the frame `f`, if it was whole. */
  lemma CalmRound(v: View, v': View, fs: seq<Frame>, k: nat, s: seq<byte>, id: nat, x: seq<byte>, f: Option<Frame>,
                  again: bool, j: nat,
                  dials: map<nat, seq<Dialled>>)
    requires Calmly(v, fs, k, j, dials) && s <= Wire(fs[k..])
    requires Handled(v.books, v'.books, id, x) && v'.books.gone == v.books.gone + Closed(f)
    requires Closed(f) <= {id} && v.Alike(v', id)
    requires (InData(s, id, x) && (again ==> IsData(f))) || (x == [] && !IsData(f) && v.Passed(v', f))
    requires !LooksP2P(Skip(s, 10)) && v.Steady(id) && id !in v.books.gone ==> v.Settled(v', id, x, IsData(f))
    requires f.Some? ==> again && k < |fs| && f.value == fs[k] && Carries(f, id, x)
    ensures DropsFirst(v'.books, fs, j, Refusals(Of(dials, j)))
    ensures again ==> Calmly(v', fs, if f.Some? then k + 1 else k, j, dials)
  {
    hide Calmly, Handled, InData, LooksP2P, Wire, DropsFirst, View.Steady, View.Alike, View.Idle, View.Paid, Refusals;
    var k' := if f.Some? then k + 1 else k;
    SteadyIf(v, fs, k, j, dials);
    if j != id {
      AlikeSteady(v, v', id, j, x);
      CalmElse(v, v', fs, k, k', j, dials);
      CalmEnds(v', fs, k', j, dials);
    } else if InData(s, id, x) && (again ==> IsData(f)) {
      FrontPart(fs, k, s, id, x);
      GoneOpen(v, fs, k, id, dials);
      ShownHttp(fs, k, s, id, x);
      if again {
        CalmData(v, v', fs, k, id, dials);
        CalmEnds(v', fs, k', id, dials);
      } else {
        CalmPart(v, v', fs, k, id, x, dials);
      }
    } else {
      PassedIdle(v, v', f, id);
      assert f.Some? && f.value.Close? ==> fs[..k'][k] == Close(id);
      CalmElse(v, v', fs, k, k', id, dials);
      CalmEnds(v', fs, k', id, dials);
    }
  }

  lemma AllCalmRound(v: View, v': View, fs: seq<Frame>, k: nat, s: seq<byte>, id: nat, x: seq<byte>, f: Option<Frame>,
                     again: bool, calm: iset<nat>, dials: map<nat, seq<Dialled>>)
    requires AllCalmly(v, fs, k, calm, dials) && AllValid(fs) && k <= |fs| && s <= Wire(fs[k..])
    requires Handled(v.books, v'.books, id, x) && v'.books.gone == v.books.gone + Closed(f)
    requires Closed(f) <= {id} && v.Alike(v', id)
    requires (InData(s, id, x) && (again ==> IsData(f))) || (x == [] && !IsData(f) && v.Passed(v', f))
    requires !LooksP2P(Skip(s, 10)) && v.Steady(id) && id !in v.books.gone ==> v.Settled(v', id, x, IsData(f))
    requires f.Some? ==> again && k < |fs| && f.value == fs[k] && Carries(f, id, x)
    ensures AllDropFirst(v'.books, fs, calm, dials)
    ensures again ==> AllCalmly(v', fs, if f.Some? then k + 1 else k, calm, dials)
  {
    hide Calmly, Handled, InData, LooksP2P, Wire, DropsFirst, View.Steady, View.Alike, View.Settled, View.Passed,
         Refusals, Carries;
    forall j | j in calm
      ensures DropsFirst(v'.books, fs, j, Refusals(Of(dials, j))) == true
      ensures again ==> Calmly(v', fs, if f.Some? then k + 1 else k, j, dials) == true
    {
      CalmRound(v, v', fs, k, s, id, x, f, again, j, dials);
    }
  }

  lemma PassedIdle(v: View, v': View, f: Option<Frame>, id: nat)
    requires v.Passed(v', f)
    ensures v.Idle(v', id) && (v.Steady(id) ==> v'.Steady(id))
  {
    ForgottenSteady(v, Closed(f), id);
  }

  lemma TornRound(b: Books, b': Books, fs: seq<Frame>, k: nat, s: seq<byte>, id: nat, x: seq<byte>)
    requires TornP2P(b, fs) && AllValid(fs) && k <= |fs| && s <= Wire(fs[k..])
    requires InData(s, id, x) || b'.torn == b.torn
    requires b'.torn == b.torn || b'.torn == b.torn + {id}
    requires !LooksP2P(Skip(s, 10)) ==> b'.torn == b.torn
    ensures TornP2P(b', fs)
  {
    hide AllHttp, InData, LooksP2P, Wire;
    if InData(s, id, x) && AllHttp(fs, id) { ShownHttp(fs, k, s, id, x); }
  }

  /** One round, seen on the frames. */
  method OneRound(c: Client, pingSent: bool, ghost fs: seq<Frame>, ghost k: nat, ghost calm: iset<nat>,
                  ghost dials: map<nat, seq<Dialled>>, ghost ds: seq<nat>, ghost js: seq<nat>, ghost p: int,
                  ghost n: nat)
    returns (again: bool, ghost k': nat, ghost n': nat)
    requires OnBoundary(c, fs, k) && AllCalmly(c.Now(), fs, k, calm, dials) && TornP2P(c.books, fs)
    modifies c, c.reader, c.reader.buf, c.reader.rd, c.books.locals
    ensures c.Valid() && fresh(c.books.locals - old(c.books.locals)) && GotPart(c.books, fs)
    ensures again ==> OnBoundary(c, fs, k') && k <= k' <= k + 1
    ensures again && k' == k ==> c.pings == old(c.pings) + 1 && c.reader.Stream() == old(c.reader.Stream())
    ensures again && k' > k ==> c.pings <= old(c.pings) && |c.reader.Stream()| < |old(c.reader.Stream())|
    ensures !again ==> c.pings == old(c.pings)
    ensures AllDropFirst(c.books, fs, calm, dials) && (again ==> AllCalmly(c.Now(), fs, k', calm, dials))
    ensures TornP2P(c.books, fs)
    ensures old(OnTime(c, fs, k, ds, js, p, n)) && (pingSent || ds == []) ==>
              if again then OnTime(c, fs, k', ds, js, p, n') else Got(c.books, fs)
  {
    hide Got, GotPart, Handled, Encode, Client.Kept, Reader.Stream, LooksP2P, Wire, FrameReady, FrameNeed, InData,
         Calmly, TornP2P, AllCalmly, AllDropFirst, View.Steady, View.Alike, View.Settled, View.Passed, Carries,
         AllShown, StaysUp, Faults, Willing, OnPlan;
    ghost var b, v, s := c.books, c.Now(), c.reader.Stream();
    ghost var f: Option<Frame>, id: nat, x: seq<byte>;
    TornLost(c);
    ghost var onTime := OnTime(c, fs, k, ds, js, p, n) && (pingSent || ds == []);
    if onTime { ComesFirst(c, fs, k, ds, js, p, n); }
    again, f, id, x := c.Turn(pingSent);
    k' := k;
    n' := if again && f.None? then n + 1 else n;
    if again && f.Some? {
      FrontFrame(fs, k, s, f.value, c.reader.Stream());
      GotNext(b, c.books, fs, k, id, x);
      Begins(f.value, []);
      k' := k + 1;
      TornLost(c);
      GotAll(c.books, fs, k');
    } else {
      if x != [] { FrontPart(fs, k, s, id, x); }
      GotStop(b, c.books, fs, k, id, x);
      if again { GotSame(b, c.books, fs[..k], id); }
    }
    TornHandled(b, c.books, id, x);
    TornPassed(v, c.Now(), f);
    TornRound(b, c.books, fs, k, s, id, x);
    AllCalmRound(v, c.Now(), fs, k, s, id, x, f, again, calm, dials);
    if onTime {
      if again {
        StillOnTime(fs, k, k', ds, js, p, n, n', old(c.pings), c.pings, f);
      } else {
        if x != [] { FrontPart(fs, k, s, id, x); }
        GotSame(b, c.books, fs[..k], id);
        assert fs[..k] == fs;
      }
    }
  }

  /** What comes next: a fault in front of the frame; the frame before the next fault; or nothing. */
  lemma ComesFirst(c: Client, fs: seq<Frame>, k: nat, ds: seq<nat>, js: seq<nat>, p: int, n: nat)
    requires OnTime(c, fs, k, ds, js, p, n)
    ensures
      var s := c.reader.Stream();
      n <= |ds| &&
      if n < |ds| && |s| - ds[n] < 4 then c.reader.Timed() && !Spare(c.reader.Deadlines(), |s|, 4)
      else c.reader.Clear(FrameNeed(s)) && c.reader.Deadlines() == ds[n..] && (FrameReady(s) <==> k < |fs|)
  {
    hide Faults, Willing, Punctual, Pings, FrameReady, FrameNeed, AllShown;
    assert AllValid(fs) by { Shown(fs); }
    if n < |ds| {
      NextFault(fs, k, ds, js, p, n);
      assert ds[n..][0] == ds[n];
      if k < |fs| && |Wire(fs[k..])| - ds[n] >= 4 { FrameComes(fs, k, ds, js, p, n); }
    }
    if k < |fs| {
      ReadyFrame(fs, k);
    } else {
      assert fs[k..] == [];
      NeedsOf(0, []);
    }
  }

  lemma Shown(fs: seq<Frame>)
    requires AllShown(fs)
    ensures AllValid(fs)
  {
  }

  /** One round on, if the loop goes on. */
  lemma StillOnTime(fs: seq<Frame>, k: nat, k': nat, ds: seq<nat>, js: seq<nat>, p: int, n: nat, n': nat, pings: int,
                    pings': int, f: Option<Frame>)
    requires OnPlan(fs, k, ds, js, p, n, pings)
    requires if f.None? then k' == k && n' == n + 1 else k < |fs| && f.value == fs[k] && k' == k + 1 && n' == n
    requires pings' == pings + (if f.None? then 1 else if f.value.Ping? then -1 else 0)
    requires f.None? <==> n < |ds| && |Wire(fs[k..])| - ds[n] < 4
    ensures OnPlan(fs, k', ds, js, p, n', pings')
    ensures f.None? ==> ds[n..][1..] == ds[n'..]
  {
    hide Wire, AllShown, Pings;
    assert AllValid(fs) by { Shown(fs); }
    if n < |ds| { NextFault(fs, k, ds, js, p, n); }
    if f.None? {
      assert p + n <= Pings(fs[..js[n]]);
    } else {
      PingsNext(fs, k);
    }
  }

  lemma TornLost(c: Client)
    requires c.Valid()
    ensures c.books.torn <= c.books.lost
  {
  }

  lemma TornHandled(b: Books, b': Books, id: nat, x: seq<byte>)
    requires Handled(b, b', id, x)
    ensures b'.torn == b.torn || b'.torn == b.torn + {id}
  {
  }

  lemma TornPassed(v: View, v': View, f: Option<Frame>)
    ensures v.Passed(v', f) ==> v'.books.torn == v.books.torn
  {
  }

  /**
   A client that has just started, on a tunnel of which all of the wire arrives;
   faults, if there are any, come as deadlines do, between the frames and with no
   ping unanswered, and the ping that each is answered with can be sent.
   */
  ghost predicate Arrives(c: Client, fs: seq<Frame>, rounds: seq<Round>, js: seq<nat>)
    reads c, c.reader, c.reader.buf, c.reader.rd
  {
    && AllShown(fs) && StaysUp(fs) && c.pings <= 1
    && c.reader.Valid() && c.reader.Timed() && c.reader.Stream() == Wire(fs) && c.reader.buf.Length >= 4
    && Punctual(fs, c.reader.Deadlines(), js, c.pings)
    && (c.reader.Deadlines() == [] || forall i :: 0 <= i < |rounds| ==> rounds[i].pingSent)
  }

  lemma ArrivesOnTime(c: Client, fs: seq<Frame>, rounds: seq<Round>, js: seq<nat>)
    requires Arrives(c, fs, rounds, js)
    ensures OnTime(c, fs, 0, c.reader.Deadlines(), js, c.pings, 0)
  {
    hide Reader.Deadlines, Reader.Stream, Wire, Punctual, AllShown, StaysUp, Willing;
    c.reader.DeadlinesOrdered();
    c.reader.StreamLength();
    assert fs[0..] == fs && fs[..0] == [] && c.reader.Deadlines()[0..] == c.reader.Deadlines();
  }

  lemma Starting(c: Client, rounds: seq<Round>, fs: seq<Frame>, calm: iset<nat>)
    requires c.Valid() && c.books == NoBooks() && AllValid(fs) && c.reader.Stream() <= Wire(fs)
    requires forall id :: id in calm ==> CalmFor(c, fs, rounds, id) && ClosedLast(fs, id)
    ensures OnBoundary(c, fs, 0) && TornP2P(c.books, fs) && AllCalmly(c.Now(), fs, 0, calm, c.dials)
    ensures forall id, j :: id in calm && 0 <= j < |rounds| ==> id !in rounds[j].ended
  {
    hide AllHttp, ClosedLast, Wire, Reader.Stream, Refusals;
    assert fs[0..] == fs && fs[..0] == [];
    assert forall id :: id !in c.tasks;
  }

  /**
   readLoop, on any part of the wire, however it is fragmented and whatever
   faults and deadlines come between. What is dropped of a task, because its dials
   were refused, followed by what its first connection was handed is a prefix of
   what its frames carry, unless one of them looks like a peer-to-peer request. If
   the tunnel is calm for the task nothing is lost after its first, refused dials;
   and if all of the wire arrives without a fault, the prefix is all of it.
   */
  method ReadLoop(c: Client, rounds: seq<Round>, ghost fs: seq<Frame>, ghost js: seq<nat>)
    requires c.Valid() && c.books == NoBooks() && AllValid(fs) && c.reader.Stream() <= Wire(fs)
    modifies c, c.reader, c.reader.buf, c.reader.rd, c.books.locals
    ensures c.Valid() && GotPart(c.books, fs) && TornP2P(c.books, fs)
    ensures forall id: nat :: old(CalmFor(c, fs, rounds, id)) && ClosedLast(fs, id) ==>
                                DropsFirst(c.books, fs, id, Refusals(Of(old(c.dials), id)))
    ensures old(Arrives(c, fs, rounds, js)) ==> Got(c.books, fs)
    ensures old(c.pings) <= 2 ==> c.pings <= 2
  {
    hide Got, GotPart, Handled, Encode, Client.Kept, Reader.Stream, Reader.Quiet, Reader.Deadlines, LooksP2P, Wire,
         Calmly, DropsFirst, TornP2P, CalmFor, AllShown, StaysUp, Refusals, ClosedLast, OnTime, Punctual;
    ghost var k, n, dials, p, ds := 0, 0, c.dials, c.pings, c.reader.Deadlines();
    ghost var arrives := Arrives(c, fs, rounds, js);
    if arrives { ArrivesOnTime(c, fs, rounds, js); }
    ghost var calm := iset id: nat | CalmFor(c, fs, rounds, id) && ClosedLast(fs, id);
    Starting(c, rounds, fs, calm);
    var i := 0;
    while c.pings <= 1
      invariant OnBoundary(c, fs, k) && fresh(c.books.locals - old(c.books.locals))
      invariant AllCalmly(c.Now(), fs, k, calm, dials) && TornP2P(c.books, fs)
      invariant arrives ==> OnTime(c, fs, k, ds, js, p, n)
      invariant old(c.pings) <= 2 ==> c.pings <= 2
      decreases |c.reader.Stream()|, 2 - c.pings
    {
      var round := if i < |rounds| then rounds[i] else Round({}, true);
      if i < |rounds| { NotCalm(calm, rounds, i); }
      i := i + 1;
      EndLocals(c, round.ended, fs, k, calm, dials);
      var again;
      again, k, n := OneRound(c, round.pingSent, fs, k, calm, dials, ds, js, p, n);
      if !again { return; }
    }
    if arrives { AtMostOne(c, fs, k, ds, js, p, n); }
    TornLost(c);
    GotAll(c.books, fs, k);
    forall id | id in calm
      ensures DropsFirst(c.books, fs, id, Refusals(Of(dials, id)))
    {
      CalmEnds(c.Now(), fs, k, id, dials);
    }
  }

  /** A tunnel that is idle at first: the deadline fires, the ping is sent, and all that comes then is served. */
  method IdleAtFirst(c: Client, ghost fs: seq<Frame>)
    requires c.Valid() && c.books == NoBooks() && c.pings <= 0 && fs != [] && AllShown(fs) && StaysUp(fs)
    requires c.reader.Stream() == Wire(fs) && c.reader.buf.Length >= 4
    requires c.reader.Buffered() == 0 && c.reader.err == None && c.reader.rd.plan == [Turn(0, AFault)]
    modifies c, c.reader, c.reader.buf, c.reader.rd, c.books.locals
    ensures c.Valid() && Got(c.books, fs)
  {
    hide Got, Client.Kept, AllShown, StaysUp, Reader.Stream;
    Shown(fs);
    WireShrinks(fs, 0, |fs|);
    assert fs[0..] == fs && fs[..0] == [];
    c.reader.StreamLength();
    OneFault(|Wire(fs)|);
    assert Punctual(fs, c.reader.Deadlines(), [0], c.pings);
    ReadLoop(c, [], fs, [0]);
  }

  lemma OneFault(len: nat)
    requires len > 0
    ensures Willing([Turn(0, AFault)]) && Faults([Turn(0, AFault)], len) == [len]
  {
    assert [Turn(0, AFault)][1..] == [];
  }

  lemma AtMostOne(c: Client, fs: seq<Frame>, k: nat, ds: seq<nat>, js: seq<nat>, p: int, n: nat)
    requires OnTime(c, fs, k, ds, js, p, n)
    ensures c.pings <= 1
  {
    hide Wire, Reader.Stream;
  }

  /** The local service of `id` has received the Host rewrite of `p`, but for at most 4 bytes kept back. */
  ghost predicate Serves(c: Client, id: nat, p: seq<byte>)
    reads c, c.books.locals
  {
    id in c.books.first && Local(c.books, c.books.first[id]) ==>
      var t := c.books.first[id];
      t.conn.received + t.Held() == Rewritten(c.host, p) && |t.Held()| <= 4
  }

  /**
   What the service of `id` finds in it: if the public client's bytes have a line
   that starts with `Host:`, the first one at byte `i`, then the first such line
   that the service receives is there too, and is `Host: ` and the configured host.
   */
  lemma ReceivesHost(c: Client, id: nat, p: seq<byte>, i: nat)
    requires c.host.Some? && 10 !in c.host.value
    requires Serves(c, id, p) && id in c.books.first && Local(c.books, c.books.first[id])
    requires HostRewrite.HostAt(p, i) && forall j: nat :: j < i ==> !HostRewrite.HostAt(p, j)
    ensures
      var out := c.books.first[id].conn.received + c.books.first[id].Held();
      && HostRewrite.HostAt(out, i) && (forall j: nat :: j < i ==> !HostRewrite.HostAt(out, j))
      && Ascii("Host: ") + c.host.value + [13, 10] <= out[i..]
      && out[..i] == p[..i] && AfterLine(out[i..]) == AfterLine(p[i..])
  {
    HostRewrite.ReadsBack(c.host.value, p, i);
  }

  /** Or at least a part of that, from the start. */
  ghost predicate ServesBeginning(c: Client, id: nat, p: seq<byte>)
    reads c, c.books.locals
  {
    id in c.books.first && Local(c.books, c.books.first[id]) ==> c.books.first[id].conn.received <= Rewritten(c.host, p)
  }

  /**
   Whatever is refused, fails or ends: a prefix of what was sent is first dropped
   and then, rewritten, served in part.
   */
  ghost predicate ServesPart(c: Client, s: Server, id: nat)
    reads c, c.books.locals
  {
    id !in c.books.torn ==> c.books.Through(id) <= SentBy(s, id) && ServesBeginning(c, id, c.books.Handed(id))
  }

  /** It is dropped up to the first dial that is not refused, and the rest of it is served. */
  ghost predicate ServesPrefix(c: Client, s: Server, id: nat, r: nat)
    reads c, c.books.locals
  {
    DropsFirst(c.books, s.frames, id, r) && c.books.Through(id) <= SentBy(s, id) && Serves(c, id, c.books.Handed(id))
  }

  /** And it is all that was sent. */
  ghost predicate ServesAll(c: Client, s: Server, id: nat, r: nat)
    reads c, c.books.locals
  {
    var missed := Missed(s.frames, id, r);
    missed <= SentBy(s, id) && Serves(c, id, SentBy(s, id)[|missed|..]) &&
      (id !in c.books.first ==> SentBy(s, id) == missed)
  }

  /** A task is served from its beginning if and only if its first dial is accepted, or nothing is sent. */
  lemma ServedWhole(s: Server, id: nat, dials: map<nat, seq<Dialled>>)
    requires ServerOk(s)
    ensures Missed(s.frames, id, Refusals(Of(dials, id))) == [] <==>
              SentBy(s, id) == [] || Of(dials, id) == [] || Of(dials, id)[0].Connected?
  {
    MissedNothing(s.frames, id, Refusals(Of(dials, id)));
    assert InOrder(s, id);
  }

  /**
   From the public clients to the local services. For any run of the server with
   any number of interleaved tasks, and any part of its wire arriving in any
   fragments, what the local service of a task has received, followed by the at
   most 4 bytes kept back, is the Host rewrite of what that task's public client
   sent, up to some point and without what came with the first dials, if those
   were refused. That is so for every task for which the tunnel is calm and whose
   id is opened once, whatever becomes of the others; and with all of the wire, up to the end. For every task
   that sends no peer-to-peer request it is so in part, though connections fail.
   */
  method EndToEnd(ghost run: seq<Server>, ghost steps: seq<Step>, c: Client, rounds: seq<Round>, ghost js: seq<nat>)
    requires IsRun(run, steps)
    requires c.Valid() && c.books == NoBooks()
    requires var s := run[|steps|]; AllValid(s.frames) && c.reader.Stream() <= Wire(s.frames)
    modifies c, c.reader, c.reader.buf, c.reader.rd
    ensures c.Valid()
    ensures forall id: nat :: ServesPart(c, run[|steps|], id)
    ensures forall id: nat :: AllHttp(run[|steps|].frames, id) ==> id !in c.books.torn
    ensures forall id: nat :: old(CalmFor(c, run[|steps|].frames, rounds, id)) && Once(run[|steps|], id) ==>
                                ServesPrefix(c, run[|steps|], id, Refusals(Of(old(c.dials), id)))
    ensures old(Arrives(c, run[|steps|].frames, rounds, js)) ==>
              forall id: nat :: old(CalmFor(c, run[|steps|].frames, rounds, id)) && Once(run[|steps|], id) ==>
                                  ServesAll(c, run[|steps|], id, Refusals(Of(old(c.dials), id)))
  {
    hide Got, GotPart, Reader.Stream, Wire, CalmFor, Arrives, ServesPart, ServesPrefix, ServesAll, Refusals,
         DropsFirst, ServerOk, AllHttp,
         ClosedLast, Once;
    ghost var s, dials := run[|steps|], c.dials;
    ServerRuns(run, steps, |steps|);
    ReadLoop(c, rounds, s.frames, js);
    forall id: nat ensures ServesPart(c, s, id) { ServingPart(c, s, id); }
    forall id: nat | Once(s, id) ensures ClosedLast(s.frames, id) { ServerCloses(s, id); }
    forall id: nat | old(CalmFor(c, s.frames, rounds, id)) && Once(s, id)
      ensures ServesPrefix(c, s, id, Refusals(Of(dials, id)))
    {
      ServingPrefix(c, s, id, Refusals(Of(dials, id)));
    }
    if old(Arrives(c, s.frames, rounds, js)) {
      forall id: nat | old(CalmFor(c, s.frames, rounds, id)) && Once(s, id)
        ensures ServesAll(c, s, id, Refusals(Of(dials, id)))
      {
        ServingAll(c, s, id, Refusals(Of(dials, id)));
      }
    }
  }

  lemma ServerCloses(s: Server, id: nat)
    requires ServerOk(s) && Once(s, id)
    ensures ClosedLast(s.frames, id)
  {
    assert Closes(s, id);
  }

  /** What the books say of the connections. */
  lemma BooksKept(c: Client, id: nat)
    requires c.Valid()
    ensures id !in c.books.lost ==> Serves(c, id, c.books.Handed(id))
    ensures id !in c.books.torn ==> ServesBeginning(c, id, c.books.Handed(id))
    ensures id !in c.books.first ==> c.books.Handed(id) == []
  {
    hide Rewritten, Reader.Stream, HostRewrite.Task.Valid, Gets;
    if id in c.books.first && id !in c.books.lost {
      GetsRewritten(c.host, c.books.first[id], c.books.Handed(id));
    }
  }

  /** Two frames of one task, on their own. */
  lemma TwoFrames(id: nat, a: seq<byte>, b: seq<byte>)
    requires id < PRESERVED_SIGNAL && |a| < 0x1_0000_0000 && |b| < 0x1_0000_0000
    ensures
      var fs := [Data(id, a), Data(id, b)];
      AllValid(fs) && Looked(fs, 0) == a + Encode(Data(id, b)) && Looked(fs, 1) == b
  {
    hide Encode;
    var f, g := Data(id, a), Data(id, b);
    var fs := [f, g];
    assert fs[0..][1..] == [g] && fs[1..][1..] == [] && [g][1..] == [];
    assert Wire([g]) == Encode(g) + [];
  }

  lemma TwoShown(id: nat, a: seq<byte>, b: seq<byte>)
    requires id < PRESERVED_SIGNAL && 0 < |a| < 0x1_0000_0000 && 2 <= |b| < 0x1_0000_0000
    ensures AllShown([Data(id, a), Data(id, b)]) && StaysUp([Data(id, a), Data(id, b)])
  {
    hide Encode, Wire;
    TwoFrames(id, a, b);
    Begins(Data(id, b), []);
  }

  lemma TwoArrive(c: Client, id: nat, a: seq<byte>, b: seq<byte>)
    requires id < PRESERVED_SIGNAL && 0 < |a| < 0x1_0000_0000 && 2 <= |b| < 0x1_0000_0000
    requires !LooksP2P(a + Encode(Data(id, b))) && !LooksP2P(b)
    requires c.Valid() && c.host == None && c.dials == map[id := [Refused]] && c.pings <= 1
    requires c.reader.Quiet() && c.reader.buf.Length >= 4 && c.reader.Stream() == Wire([Data(id, a), Data(id, b)])
    ensures Arrives(c, [Data(id, a), Data(id, b)], [], []) && CalmFor(c, [Data(id, a), Data(id, b)], [], id)
  {
    hide Encode, Wire, Reader.Stream, Reader.Deadlines, LooksP2P, AllShown, StaysUp, Willing;
    TwoShown(id, a, b);
    TwoFrames(id, a, b);
    c.reader.QuietDeadlines();
  }

  lemma TwoPayloads(id: nat, a: seq<byte>, b: seq<byte>)
    ensures var fs := [Data(id, a), Data(id, b)]; Payloads(fs, id) == a + b && Missed(fs, id, 1) == a
  {
    hide Payloads, Missed, Count;
    var fs := [Data(id, a), Data(id, b)];
    NoFrames(fs, id, 1);
    PayloadsNext(fs, 0, id);
    MissedNext(fs, 0, id, 1);
    PayloadsNext(fs, 1, id);
    MissedNext(fs, 1, id, 1);
    assert fs[..2] == fs && [] + a == a && a + [] == a;
  }

  lemma NoFrames(fs: seq<Frame>, id: nat, r: nat)
    ensures Payloads(fs[..0], id) == [] && Missed(fs[..0], id, r) == [] && Count(fs[..0], id) == 0
  {
  }

  lemma OneRefused(dials: map<nat, seq<Dialled>>, id: nat, a: seq<byte>, b: seq<byte>)
    requires dials == map[id := [Refused]] && id < PRESERVED_SIGNAL
    ensures ClosedLast([Data(id, a), Data(id, b)], id) && Refusals(Of(dials, id)) == 1
  {
    assert [Refused][1..] == [];
  }

  lemma TwoServed(c: Client, id: nat, a: seq<byte>, b: seq<byte>)
    requires var fs := [Data(id, a), Data(id, b)]; Got(c.books, fs) && DropsFirst(c.books, fs, id, 1)
    requires c.Valid() && b != []
    ensures id in c.books.first && c.books.Dropped(id) == a && c.books.Handed(id) == b && Serves(c, id, b)
  {
    hide Client.Valid, Serves, ServesBeginning, Payloads, Missed;
    var fs := [Data(id, a), Data(id, b)];
    TwoPayloads(id, a, b);
    assert GotOne(c.books, fs, id);
    var d, h := c.books.Dropped(id), c.books.Handed(id);
    assert d + h == a + b && d <= a;
    BooksKept(c, id);
    Cancel(d, h, a, b);
  }

  /**
   One refused dial takes the beginning off a stream: the client sent `a` and then
   `b`, and the local service is handed `b` on a connection of its own.
   */
  method RefusedDial(c: Client, id: nat, a: seq<byte>, b: seq<byte>)
    requires id < PRESERVED_SIGNAL && 0 < |a| <= MAX_BUFFER_SIZE - 10 && 2 <= |b| <= MAX_BUFFER_SIZE - 10
    requires !LooksP2P(a + Encode(Data(id, b))) && !LooksP2P(b)
    requires c.Valid() && c.books == NoBooks() && c.host == None && c.dials == map[id := [Refused]] && c.pings <= 1
    requires c.reader.Quiet() && c.reader.buf.Length >= 4 && c.reader.Stream() == Wire([Data(id, a), Data(id, b)])
    modifies c, c.reader, c.reader.buf, c.reader.rd, c.books.locals
    ensures c.Valid() && id in c.books.first && c.books.Dropped(id) == a && c.books.Handed(id) == b && Serves(c, id, b)
  {
    hide Got, GotPart, Encode, Wire, Reader.Stream, Reader.Quiet, Reader.Deadlines, LooksP2P, Serves, Client.Valid,
         Arrives, CalmFor, AllShown, StaysUp, TornP2P, DropsFirst, ClosedLast, Refusals;
    ghost var fs, dials := [Data(id, a), Data(id, b)], c.dials;
    OneRefused(dials, id, a, b);
    TwoArrive(c, id, a, b);
    ReadLoop(c, [], fs, []);
    assert DropsFirst(c.books, fs, id, Refusals(Of(dials, id)));
    TwoServed(c, id, a, b);
  }

  lemma ServingPart(c: Client, s: Server, id: nat)
    requires c.Valid() && ServerOk(s) && GotPart(c.books, s.frames)
    ensures ServesPart(c, s, id)
  {
    hide Client.Valid, Serves, ServesBeginning;
    BooksKept(c, id);
    assert GotPrefix(c.books, s.frames, id) && InOrder(s, id);
  }

  lemma ServingPrefix(c: Client, s: Server, id: nat, r: nat)
    requires c.Valid() && ServerOk(s) && GotPart(c.books, s.frames) && DropsFirst(c.books, s.frames, id, r)
    ensures ServesPrefix(c, s, id, r)
  {
    hide Serves, ServesBeginning, Client.Kept;
    BooksKept(c, id);
    TornLost(c);
    assert GotPrefix(c.books, s.frames, id) && InOrder(s, id);
  }

  lemma ServingAll(c: Client, s: Server, id: nat, r: nat)
    requires c.Valid() && ServerOk(s) && Got(c.books, s.frames) && DropsFirst(c.books, s.frames, id, r)
    ensures ServesAll(c, s, id, r)
  {
    hide Client.Valid, Serves, ServesBeginning;
    BooksKept(c, id);
    assert GotOne(c.books, s.frames, id) && InOrder(s, id);
    var d, h := c.books.Dropped(id), c.books.Handed(id);
    var all, missed := SentBy(s, id), Missed(s.frames, id, r);
    assert all == d + h;
    MissedPart(s.frames, id, r);
    if id in c.books.first {
      assert all[|d|..] == h;
    } else {
      assert all == d && |missed| <= |all|;
    }
  }

  lemma {:induction false} MissedPart(fs: seq<Frame>, id: nat, r: nat)
    ensures Missed(fs, id, r) <= Payloads(fs, id)
    ensures Count(fs, id) <= r ==> Missed(fs, id, r) == Payloads(fs, id)
  {
    if fs != [] {
      MissedPart(fs[..|fs| - 1], id, r);
    }
  }
}
