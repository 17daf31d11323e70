/**
 `client/peer.go`, `peerTask.process`: length-prefixed records inside a chunked
 body that arrives in several tunnel frames. Every message that is reached is
 taken to be accepted.
 */
module PeerRecords {
  import opened Wrappers
  import opened Bytes
  import opened Lines
  import opened Bufio
  import opened Frames
  import opened TunnelClient
  import opened Limited
  import opened Chunked
  import Hex

  const MAX_BUFFER_SIZE := 4096

  /** `b` begins with a whole record that is not too long. */
  ghost predicate Whole(b: seq<byte>) {
    |b| >= 2 && Get16(b) <= MAX_BUFFER_SIZE && |b| >= 2 + Get16(b)
  }

  /** The records at the front of `b`, each after its two-byte length, and what is left behind the last of them. */
  ghost function Records(b: seq<byte>): seq<seq<byte>> {
    if Whole(b) then [b[2..2 + Get16(b)]] + Records(b[2 + Get16(b)..]) else []
  }

  ghost function Leftover(b: seq<byte>): seq<byte> {
    if Whole(b) then Leftover(b[2 + Get16(b)..]) else b
  }

  /** `b` begins with a length above what a record may have. */
  ghost predicate TooLong(b: seq<byte>) {
    |b| >= 2 && Get16(b) > MAX_BUFFER_SIZE
  }

  /** A record above 4096 bytes is too long, and no other. */
  lemma TooLongIs(message: seq<byte>, rest: seq<byte>)
    requires |message| < 0x1_0000
    ensures TooLong(Record(message) + rest) <==> |message| > 4096
  {
    hide Put16, Get16;
    Put16Get16(|message|, message + rest);
    Reassociate(Put16(|message|), message, rest);
  }

  function Record(message: seq<byte>): seq<byte>
    requires |message| < 0x1_0000
  {
    Put16(|message|) + message
  }

  /** One record for each message. */
  ghost function AllRecords(messages: seq<seq<byte>>): (rs: seq<seq<byte>>)
    requires forall i :: 0 <= i < |messages| ==> |messages[i]| < 0x1_0000
    ensures |rs| == |messages|
  {
    seq(|messages|, i requires 0 <= i < |messages| => Record(messages[i]))
  }

  lemma RecordFirst(m: seq<byte>, rest: seq<byte>)
    requires |m| <= MAX_BUFFER_SIZE
    ensures Records(Record(m) + rest) == [m] + Records(rest) && Leftover(Record(m) + rest) == Leftover(rest)
  {
    hide Put16, Get16;
    Put16Get16(|m|, m + rest);
    Reassociate(Put16(|m|), m, rest);
    var b := Record(m) + rest;
    assert b[2..2 + |m|] == m && b[2 + |m|..] == rest;
  }

  /** The records of a record stream are the messages it was made of. */
  lemma {:induction false} RecordsOf(messages: seq<seq<byte>>)
    requires forall i :: 0 <= i < |messages| ==> |messages[i]| <= MAX_BUFFER_SIZE
    ensures Records(Flatten(AllRecords(messages))) == messages && Leftover(Flatten(AllRecords(messages))) == []
  {
    if messages != [] {
      hide Records, Leftover, Record, Flatten;
      FlattenFront(AllRecords(messages));
      assert AllRecords(messages)[1..] == AllRecords(messages[1..]);
      RecordsOf(messages[1..]);
      RecordFirst(messages[0], Flatten(AllRecords(messages[1..])));
    } else {
      assert AllRecords(messages) == [];
    }
  }

  /** The text after the empty line that ends a header; lines longer than the buffer are refused. */
  ghost function BodyOf(size: nat, s: seq<byte>): Option<seq<byte>> {
    var i := IndexByte(s, LF);
    if i < 0 || i >= size then None
    else if s[..i + 1] == CRLF then Some(s[i + 1..])
    else BodyOf(size, s[i + 1..])
  }

  /** Of a header text, lines that fit the buffer and an empty one, what follows is the body. */
  lemma {:induction false} BodyOfText(size: nat, lines: seq<seq<byte>>, body: seq<byte>)
    requires size >= 2 && forall m :: 0 <= m < |lines| ==> 10 !in lines[m] && lines[m] != [] && |lines[m]| + 2 <= size
    ensures BodyOf(size, TextOf(lines) + ([13, 10] + body)) == Some(body)
  {
    if lines == [] {
      var s := TextOf(lines) + ([13, 10] + body);
      IndexFirst([13, 10], LF, 1);
      hide IndexByte;
      IndexAppend([13, 10], body, LF);
      assert s == [13, 10] + body && s[..2] == CRLF && s[2..] == body;
    } else {
      var line, rest := lines[0] + [13, 10], TextOf(lines[1..]) + ([13, 10] + body);
      TextFront(lines);
      var s := TextOf(lines) + ([13, 10] + body);
      Reassociate(line, TextOf(lines[1..]), [13, 10] + body);
      IndexFirst(line, LF, |line| - 1);
      hide IndexByte, TextOf;
      IndexAppend(line, rest, LF);
      assert s[..|line|] == line && s[|line|..] == rest;
      BodyOfText(size, lines[1..], body);
    }
  }

  datatype State = SkipHTTPHeader | DataLength | DataBody

  class PeerTask {
    const reader: ChunkedReader
    var state: State
    const dataLen: array<byte>
    var n: nat
    const data: array<byte>
    /** The messages that reached the state `processData`. */
    var messages: seq<seq<byte>>

    /** The buffer `data` is out of the pool, which may hold longer ones. */
    constructor (reader: ChunkedReader, data: array<byte>)
      requires reader.buf.Length == 2 && data.Length >= MAX_BUFFER_SIZE
      ensures this.reader == reader && this.data == data && Ready()
      ensures state == SkipHTTPHeader && messages == [] && Pending() == []
      ensures fresh(dataLen)
    {
      this.reader, state, n, messages := reader, SkipHTTPHeader, 0, [];
      dataLen := new byte[2];
      this.data := data;
    }

    ghost predicate Ready()
      reads this, dataLen
    {
      && dataLen.Length == 2 && data.Length >= MAX_BUFFER_SIZE
      && (state.SkipHTTPHeader? ==> n == 0)
      && (state.DataLength? ==> n <= 2)
      && (state.DataBody? ==> n <= Get16(dataLen[..]) <= MAX_BUFFER_SIZE)
    }

    /** No two of the buffers are one. */
    ghost predicate Apart()
      reads reader
    {
      && dataLen != data && reader.buf != dataLen && reader.buf != data
      && reader.r.reader.buf != dataLen && reader.r.reader.buf != data
    }

    /** The part of a record that is already here. */
    ghost function Pending(): seq<byte>
      reads this, dataLen, data
      requires Ready()
    {
      match state
      case SkipHTTPHeader => []
      case DataLength => dataLen[..n]
      case DataBody => dataLen[..] + data[..n]
    }

    /**
     `w` is still to come of the frame. Together with the part that is here it
     holds the records of `all` that are not among the messages yet.
     */
    ghost predicate Reads(before: seq<seq<byte>>, all: seq<byte>, w: Walked)
      reads this, dataLen, data, reader, reader.r, reader.r.reader, reader.r.reader.buf, reader.r.reader.rd
    {
      Ready() && Apart() && reader.InFrame() && reader.Settles(w) && Holds(before, all, messages, Pending() + w.out)
    }

    /** One read into the length. */
    method MoreLength(ghost w: Walked) returns (ghost w': Walked)
      requires Ready() && Apart() && reader.Settles(w) && reader.InFrame() && state.DataLength?
      modifies this`n, dataLen,
               reader`n, reader`checkEnd, reader`err, reader.r, reader.r.reader, reader.r.reader.buf,
                 reader.r.reader.rd, reader.buf
      ensures Ready() && Apart() && reader.Settles(w') && reader.InFrame()
      ensures SameEnd(w, w') && reader.Beyond() == old(reader.Beyond())
      ensures Pending() + w'.out == old(Pending()) + w.out
      ensures n >= old(n) && |w'.out| == |w.out| - (n - old(n))
      ensures reader.err.None? && old(n) < 2 ==> n > old(n)
    {
      hide ChunkedReader.Settles, ChunkedReader.InFrame, ChunkedReader.Beyond;
      ghost var had := dataLen[..n];
      var m;
      m, w' := reader.Read(dataLen, n, 2, w);
      ghost var got := dataLen[n..n + m];
      assert dataLen[..n] == had && dataLen[..n + m] == had + got;
      Reassociate(had, got, w'.out);
      n := n + m;
    }

    /** One read into the body. */
    method MoreBody(ghost w: Walked) returns (ghost w': Walked)
      requires Ready() && Apart() && reader.Settles(w) && reader.InFrame() && state.DataBody?
      modifies this`n, data,
               reader`n, reader`checkEnd, reader`err, reader.r, reader.r.reader, reader.r.reader.buf,
                 reader.r.reader.rd, reader.buf
      ensures Ready() && Apart() && reader.Settles(w') && reader.InFrame()
      ensures SameEnd(w, w') && reader.Beyond() == old(reader.Beyond())
      ensures Pending() + w'.out == old(Pending()) + w.out
      ensures n >= old(n) && |w'.out| == |w.out| - (n - old(n))
      ensures reader.err.None? && old(n) < Get16(dataLen[..]) ==> n > old(n)
    {
      hide ChunkedReader.Settles, ChunkedReader.InFrame, ChunkedReader.Beyond;
      ghost var len, had := dataLen[..], data[..n];
      var m;
      m, w' := reader.Read(data, n, Get16(dataLen[..]), w);
      ghost var got := data[n..n + m];
      assert dataLen[..] == len && data[..n] == had && data[..n + m] == had + got;
      Reassociate(len, had, got);
      Reassociate(len + had, got, w'.out);
      n := n + m;
    }

    /** No record is whole that could be a message, and none is too long. */
    ghost predicate Waiting()
      reads this, dataLen
    {
      Ready() && (state.DataLength? ==> n < 2) && (state.DataBody? ==> n < Get16(dataLen[..])) && !state.SkipHTTPHeader?
    }

    /** peer.go:291-297: the length is here. */
    method LengthDone(ghost w: Walked) returns (ok: bool)
      requires Ready() && state.DataLength? && n == 2
      modifies this`n, this`state
      ensures Ready() && Pending() + w.out == old(Pending() + w.out)
      ensures ok ==> state.DataBody? && n == 0
      ensures !ok ==> state.DataLength? && n == 2 && TooLong(Pending() + w.out)
    {
      assert dataLen[..2] == dataLen[..];
      if Get16(dataLen[..]) > MAX_BUFFER_SIZE {
        assert Get16(dataLen[..] + w.out) == Get16(dataLen[..]);
        return false;
      }
      assert dataLen[..] + data[..0] == dataLen[..];
      n := 0;
      state := DataBody;
      ok := true;
    }

    /** peer.go:318-344: the record is whole. */
    method BodyDone(ghost before: seq<seq<byte>>, ghost all: seq<byte>, ghost w: Walked)
      requires Reads(before, all, w) && state.DataBody? && n == Get16(dataLen[..])
      modifies this`n, this`state, this`messages
      ensures Reads(before, all, w) && Waiting()
    {
      hide ChunkedReader.Settles, ChunkedReader.InFrame, ChunkedReader.Beyond, Holds;
      HoldsNext(before, all, messages, dataLen[..], data[..n], w.out);
      messages := messages + [data[..n]];
      n := 0;
      state := DataLength;
      assert dataLen[..0] + w.out == w.out;
    }

    /** One round of the machine; `more` is whether it goes on, `tooLong` whether a length stopped it. */
    method Round(ghost before: seq<seq<byte>>, ghost all: seq<byte>, ghost w: Walked)
      returns (more: bool, tooLong: bool, ghost w': Walked)
      requires Reads(before, all, w) && !state.SkipHTTPHeader?
      modifies this`n, this`state, this`messages, dataLen, data,
               reader`n, reader`checkEnd, reader`err, reader.r, reader.r.reader, reader.r.reader.buf,
                 reader.r.reader.rd, reader.buf
      ensures Reads(before, all, w') && SameEnd(w, w') && !state.SkipHTTPHeader? && |w'.out| <= |w.out|
      ensures reader.Beyond() == old(reader.Beyond())
      ensures more ==> reader.err.None? && !tooLong && (old(Waiting()) ==> |w'.out| < |w.out|)
      ensures !more && !tooLong ==> reader.err.Some? && Waiting()
      ensures more ==> Waiting()
      ensures tooLong ==> TooLong(Pending() + w'.out)
    {
      hide ChunkedReader.Settles, ChunkedReader.InFrame, ChunkedReader.Beyond, Holds;
      w', tooLong := w, false;
      if state.DataLength? {
        w' := MoreLength(w);
        if n != 2 {
          more := reader.err.None?;
          return;
        }
        var ok := LengthDone(w');
        if !ok { return false, true, w'; }
      }
      w' := MoreBody(w');
      if n == Get16(dataLen[..]) {
        BodyDone(before, all, w');
      }
      more := reader.err.None?;
    }

    /** The frame that `lr` is limited to has been sent, and the tunnel is sound. */
    ghost predicate Arrives(lr: LimitedReader)
      reads this, dataLen, reader, lr, lr.reader, lr.reader.buf, lr.reader.rd
    {
      && Ready() && dataLen != data && reader.buf != dataLen && reader.buf != data && reader.buf.Length == 2
      && lr.reader.buf != dataLen && lr.reader.buf != data && lr.reader.buf != reader.buf
      && InWindow(lr) && (reader.checkEnd ==> reader.n == 0) && (state.SkipHTTPHeader? || Waiting())
    }

    /** What the machine has made of the body bytes of a frame. */
    ghost predicate Processed(before: seq<seq<byte>>, all: seq<byte>, w: Walked, bad: bool)
      reads this, dataLen, data, reader, reader.r, reader.r.reader, reader.r.reader.buf, reader.r.reader.rd
    {
      && Ready() && Apart() && reader.InFrame() && messages == before + Records(all)
      && (TooLong(Leftover(all)) ==> bad)
      && (!TooLong(Leftover(all)) ==>
          && Waiting() && Pending() == Leftover(all) && reader.err.Some? && (bad <==> reader.err == Some(Malformed))
          && Explains(reader.err.value, w, reader.Place(), reader.Left()))
    }

    /** process: `bad` is the reply 400. */
    method Process(lr: LimitedReader) returns (bad: bool)
      requires Arrives(lr)
      modifies this`n, this`state, this`messages, dataLen, data, lr, lr.reader, lr.reader.buf, lr.reader.rd, reader,
               reader.buf
      ensures
        var s := old(Window(lr));
        var body := if old(state).SkipHTTPHeader? then BodyOf(lr.reader.buf.Length, s) else Some(s);
        if body.None? then bad && messages == old(messages)
        else
          var w := Walk(old(reader.Place()), body.value);
          reader.r == lr && Processed(old(messages), old(Pending()) + w.out, w, bad) &&
          reader.Beyond() == old(lr.reader.Stream())[old(lr.N)..]
    {
      reader.SetReader(lr);
      if state.SkipHTTPHeader? {
        var ok := SkipHeader(lr);
        if !ok { return true; }
        state := DataLength;
        assert dataLen[..0] == [];
      }
      bad := Run();
    }

    /** The machine on the body bytes of a frame. */
    method Run() returns (bad: bool)
      requires Ready() && Apart() && reader.InFrame() && reader.err.None? && Waiting()
      modifies this`n, this`state, this`messages, dataLen, data,
               reader`n, reader`checkEnd, reader`err, reader.r, reader.r.reader, reader.r.reader.buf,
                 reader.r.reader.rd, reader.buf
      ensures
        var w := old(Walk(reader.Place(), reader.Left()));
        Processed(old(messages), old(Pending()) + w.out, w, bad) && reader.Beyond() == old(reader.Beyond())
    {
      hide ChunkedReader.Beyond, ChunkedReader.InFrame, Walk, Explains;
      ghost var w0 := Walk(reader.Place(), reader.Left());
      ghost var w, before, all := w0, messages, Pending() + w0.out;
      var more, tooLong := true, false;
      while more
        invariant Reads(before, all, w) && SameEnd(w0, w) && !state.SkipHTTPHeader?
        invariant reader.Beyond() == old(reader.Beyond())
        invariant more ==> Waiting() && !tooLong
        invariant !more && !tooLong ==> reader.err.Some? && Waiting()
        invariant tooLong ==> TooLong(Pending() + w.out)
        decreases |w.out|, more
      {
        more, tooLong, w := Round(before, all, w);
      }
      bad := tooLong || reader.err == Some(Malformed);
      Stopped(before, all, w0, w, bad, tooLong);
    }

    lemma Stopped(before: seq<seq<byte>>, all: seq<byte>, w0: Walked, w: Walked, bad: bool, tooLong: bool)
      requires Reads(before, all, w) && SameEnd(w0, w) && bad == (tooLong || reader.err == Some(Malformed))
      requires if tooLong then TooLong(Pending() + w.out) else reader.err.Some? && Waiting()
      ensures Processed(before, all, w0, bad)
    {
      hide Walk, ChunkedReader.InFrame;
      if !tooLong {
        assert Pending() + w.out == Pending();
        if state.DataBody? { assert Pending()[..2] == dataLen[..]; }
        SameFate(reader.err.value, w0, w, reader.Place(), reader.Left());
      }
    }
  }

  ghost predicate InWindow(lr: LimitedReader)
    reads lr, lr.reader, lr.reader.buf, lr.reader.rd
  {
    lr.reader.buf.Length >= BUFFER_SIZE && lr.reader.Valid() && lr.reader.Quiet() && 0 <= lr.N <= |lr.reader.Stream()|
  }

  ghost function Window(lr: LimitedReader): seq<byte>
    reads lr, lr.reader, lr.reader.buf, lr.reader.rd
    requires InWindow(lr)
  {
    lr.reader.Stream()[..lr.N]
  }

  /** skipHTTPHeader: the header has to end within the frame. */
  method SkipHeader(lr: LimitedReader) returns (ok: bool)
    requires InWindow(lr)
    modifies lr, lr.reader, lr.reader.buf, lr.reader.rd
    ensures InWindow(lr) && (ok <==> BodyOf(lr.reader.buf.Length, old(Window(lr))).Some?)
    ensures ok ==> Window(lr) == BodyOf(lr.reader.buf.Length, old(Window(lr))).value
    ensures lr.reader.Stream()[lr.N..] == old(lr.reader.Stream())[old(lr.N)..]
  {
    hide BodyOf, Window;
    ghost var body := BodyOf(lr.reader.buf.Length, Window(lr));
    ok := false;
    var more := true;
    while more
      invariant InWindow(lr) && lr.N >= 0
      invariant if more then BodyOf(lr.reader.buf.Length, Window(lr)) == body
                else ok == body.Some? && (ok ==> Window(lr) == body.value)
      invariant lr.reader.Stream()[lr.N..] == old(lr.reader.Stream())[old(lr.N)..]
      decreases more, lr.N
    {
      ok, more := SkipLine(lr);
    }
  }

  lemma BodyStep(size: nat, s: seq<byte>, n: nat)
    requires n <= |s|
    ensures IndexByte(s, LF) < 0 || IndexByte(s, LF) >= size ==> BodyOf(size, s) == None
    ensures IndexByte(s, LF) == n - 1 && 0 < n <= size ==>
             BodyOf(size, s) == if s[..n] == CRLF then Some(s[n..]) else BodyOf(size, s[n..])
  {
    hide IndexByte;
  }

  /** peer.go:118-133: one line; only a line that is empty ends the header well. */
  method SkipLine(lr: LimitedReader) returns (ok: bool, more: bool)
    requires InWindow(lr)
    modifies lr, lr.reader, lr.reader.buf, lr.reader.rd
    ensures InWindow(lr) && lr.reader.Stream()[lr.N..] == old(lr.reader.Stream())[old(lr.N)..]
    ensures more ==> 0 <= lr.N < old(lr.N) && !ok
    ensures more ==> BodyOf(lr.reader.buf.Length, Window(lr)) == BodyOf(lr.reader.buf.Length, old(Window(lr)))
    ensures !more ==> ok == BodyOf(lr.reader.buf.Length, old(Window(lr))).Some?
    ensures !more && ok ==> BodyOf(lr.reader.buf.Length, old(Window(lr))) == Some(Window(lr))
  {
    hide IndexByte, BodyOf;
    ghost var s, stream := Window(lr), lr.reader.Stream();
    var line, e := lr.ReadSlice(LF);
    lr.LineOf(LF, s, stream, line, e);
    assert line == s[..|line|] && Window(lr) == s[|line|..];
    DropDrop(stream, |line|, lr.N);
    BodyStep(lr.reader.buf.Length, s, |line|);
    ok := e.None? && line == CRLF;
    more := e.None? && !ok;
  }

  ghost predicate Holds(before: seq<seq<byte>>, all: seq<byte>, messages: seq<seq<byte>>, rest: seq<byte>) {
    before + Records(all) == messages + Records(rest) && Leftover(all) == Leftover(rest)
  }

  /** A whole record at the front becomes a message. */
  lemma HoldsNext(before: seq<seq<byte>>, all: seq<byte>, messages: seq<seq<byte>>, head: seq<byte>, m: seq<byte>,
                  rest: seq<byte>)
    requires |head| == 2 && Get16(head) == |m| <= MAX_BUFFER_SIZE && Holds(before, all, messages, head + m + rest)
    ensures Holds(before, all, messages + [m], rest)
  {
    var b := head + m + rest;
    assert Get16(b) == |m|;
    assert b[2..2 + |m|] == m && b[2 + |m|..] == rest;
    assert messages + ([m] + Records(rest)) == messages + [m] + Records(rest);
  }

  /** Data frames of one task, as they are on the wire. */
  ghost function Framed(id: nat, payloads: seq<seq<byte>>): seq<byte>
    requires id < ERROR_SIGNAL && forall i :: 0 <= i < |payloads| ==> |payloads[i]| < 0x1_0000_0000
  {
    if payloads == [] then [] else Encode(Frame.Data(id, payloads[0])) + Framed(id, payloads[1..])
  }

  /** The body that the first `k` frames carry, of which the first begins with the header. */
  ghost function Body(size: nat, payloads: seq<seq<byte>>, k: nat): seq<byte>
    requires 0 < k <= |payloads| && BodyOf(size, payloads[0]).Some?
  {
    BodyOf(size, payloads[0]).value + Flatten(payloads[1..k])
  }

  /** A prefix of the body that ends where the next frame can go on, all of whose records fit. */
  ghost predicate GoodCut(body: seq<byte>) {
    Walk(Size, body).fate == Going && !TooLong(Leftover(Walk(Size, body).out))
  }

  /** Between two frames, when the machine has seen `body`. */
  ghost predicate Between(t: PeerTask, reader: Reader, body: seq<byte>, first: bool)
    reads t, t.dataLen, t.data, t.reader, reader, reader.buf, reader.rd
  {
    && t.Ready() && t.dataLen != t.data && t.reader.buf != t.dataLen && t.reader.buf != t.data &&
        t.reader.buf.Length == 2
    && reader.buf != t.dataLen && reader.buf != t.data && reader.buf != t.reader.buf
    && reader.Valid() && reader.Quiet() && reader.buf.Length >= BUFFER_SIZE
    && (if first then t.state.SkipHTTPHeader? && t.messages == [] && t.reader.Place() == Size && !t.reader.checkEnd
        else t.Waiting() && (t.reader.checkEnd ==> t.reader.n == 0) && t.reader.Place() == Walk(Size, body).place &&
             t.messages == Records(Walk(Size, body).out) && t.Pending() == Leftover(Walk(Size, body).out))
  }

  lemma BodyNext(size: nat, payloads: seq<seq<byte>>, k: nat)
    requires 0 < k < |payloads| && BodyOf(size, payloads[0]).Some?
    ensures Body(size, payloads, k + 1) == Body(size, payloads, k) + payloads[k]
  {
    hide BodyOf;
    var rest := payloads[1..];
    assert payloads[1..k + 1] == rest[..k] && payloads[1..k] == rest[..k - 1];
    FlattenNext(rest, k - 1);
    Reassociate(BodyOf(size, payloads[0]).value, Flatten(payloads[1..k]), payloads[k]);
  }

  /** What a frame adds to a body that ended well. */
  lemma WalkOn(body: seq<byte>, payload: seq<byte>)
    requires GoodCut(body)
    ensures
      var w0, w := Walk(Size, body), Walk(Walk(Size, body).place, payload);
      Walk(Size, body + payload) == Then(w0.out, w) &&
      Records(w0.out + w.out) == Records(w0.out) + Records(Leftover(w0.out) + w.out) &&
      Leftover(w0.out + w.out) == Leftover(Leftover(w0.out) + w.out)
  {
    WalkAppend(Size, body, payload);
    RecordsAppend(Walk(Size, body).out, Walk(Walk(Size, body).place, payload).out);
  }

  lemma WholeAppend(a: seq<byte>, b: seq<byte>, k: nat)
    requires Whole(a) && k == 2 + Get16(a)
    ensures Records(a + b) == [a[2..k]] + Records(a[k..] + b) && Leftover(a + b) == Leftover(a[k..] + b)
  {
    CutLeft(a, b, k);
    assert Get16(a + b) == Get16(a);
    hide Get16;
    assert (a + b)[2..k] == a[2..k];
  }

  lemma {:induction false} RecordsAppend(a: seq<byte>, b: seq<byte>)
    requires !TooLong(Leftover(a))
    ensures Records(a + b) == Records(a) + Records(Leftover(a) + b) && Leftover(a + b) == Leftover(Leftover(a) + b)
    decreases |a|
  {
    if Whole(a) {
      var k := 2 + Get16(a);
      RecordsAppend(a[k..], b);
      WholeAppend(a, b, k);
      var rest := a[k..];
      assert [a[2..k]] + (Records(rest) + Records(Leftover(rest) + b)) ==
             [a[2..k]] + Records(rest) + Records(Leftover(rest) + b);
    }
  }

  /** A data frame off the tunnel and through the machine. */
  method OneFrame(t: PeerTask, reader: Reader, ghost id: nat, ghost payload: seq<byte>, ghost tail: seq<byte>,
                  ghost body: seq<byte>, ghost first: bool)
    requires Between(t, reader, body, first) && id < ERROR_SIGNAL && |payload| < 0x1_0000_0000
    requires reader.Stream() == Encode(Frame.Data(id, payload)) + tail
    requires if first then BodyOf(reader.buf.Length, payload).Some? else GoodCut(body)
    modifies t, t.dataLen, t.data, t.reader, t.reader.buf, reader, reader.buf, reader.rd
    ensures
      var body' := if first then BodyOf(reader.buf.Length, payload).value else body + payload;
      t.messages == Records(Walk(Size, body').out) &&
      (GoodCut(body') ==> Between(t, reader, body', false) && reader.Valid() && reader.Stream() == tail)
  {
    hide BodyOf, Walk, Records, Leftover, Get16, Get32, Put16, Put32, Reader.Stream;
    var l := Header(reader, id, payload, tail);
    assert (payload + tail)[..l] == payload && (payload + tail)[l..] == tail;
    var lr := new LimitedReader(reader, l);
    if !first { WalkOn(body, payload); }
    var bad := t.Process(lr);
    if first {
      assert [] + Walk(Size, BodyOf(reader.buf.Length, payload).value).out ==
             Walk(Size, BodyOf(reader.buf.Length, payload).value).out;
    }
  }

  /** The ten bytes in front of a payload. */
  method Header(reader: Reader, ghost id: nat, ghost payload: seq<byte>, ghost tail: seq<byte>) returns (l: nat)
    requires reader.Valid() && reader.Quiet() && reader.buf.Length >= BUFFER_SIZE
    requires id < ERROR_SIGNAL && |payload| < 0x1_0000_0000
    requires reader.Stream() == Encode(Frame.Data(id, payload)) + tail
    modifies reader, reader.buf, reader.rd
    ensures reader.Valid() && reader.Quiet() && reader.Stream() == payload + tail && l == |payload|
  {
    hide Get16, Get32, Put16, Put32, Reader.Stream;
    ghost var c := payload + tail;
    ghost var b := Put32(|payload|) + c;
    ghost var a := Put16(DATA) + b;
    assert reader.Stream() == Put32(id) + a by { HeaderParts(id, payload, tail); }
    var v, e := Next32(reader);
    Cancel(Put32(id), a, Put32(v), reader.Stream());
    var op;
    op, e := Next16(reader);
    Cancel(Put16(DATA), b, Put16(op), reader.Stream());
    l, e := Next32(reader);
    Cancel(Put32(|payload|), c, Put32(l), reader.Stream());
    Put32Get32(l, c);
    Put32Get32(|payload|, c);
  }

  lemma HeaderParts(id: nat, payload: seq<byte>, tail: seq<byte>)
    requires id < ERROR_SIGNAL && |payload| < 0x1_0000_0000
    ensures Encode(Frame.Data(id, payload)) + tail == Put32(id) + (Put16(DATA) + (Put32(|payload|) + (payload + tail)))
  {
    hide Put16, Put32;
    var p, q, r := Put32(id), Put16(DATA), Put32(|payload|);
    Reassociate(p + q + r, payload, tail);
    Reassociate(p + q, r, payload + tail);
    Reassociate(p, q, r + (payload + tail));
  }

  /**
   Record reassembly: a request whose header ends in the first frame and whose
   frames are cut where the next one can go on. The messages are the records of
   the dechunked body, for every fragmentation of the tunnel.
   */
  method Reassemble(t: PeerTask, reader: Reader, count: nat, ghost id: nat, ghost payloads: seq<seq<byte>>)
    requires id < ERROR_SIGNAL && count == |payloads| > 0
    requires forall i :: 0 <= i < |payloads| ==> |payloads[i]| < 0x1_0000_0000
    requires Between(t, reader, [], true) && reader.Stream() == Framed(id, payloads)
    requires BodyOf(reader.buf.Length, payloads[0]).Some?
    requires forall k :: 0 < k < |payloads| ==> GoodCut(Body(reader.buf.Length, payloads, k))
    modifies t, t.dataLen, t.data, t.reader, t.reader.buf, reader, reader.buf, reader.rd
    ensures t.messages == Records(Walk(Size, Body(reader.buf.Length, payloads, |payloads|)).out)
  {
    hide BodyOf, Walk, Records, Encode, Between, GoodCut, Flatten;
    assert payloads[1..1] == [] && Flatten(payloads[1..1]) == [] by { FlattenNone(); }
    assert Body(reader.buf.Length, payloads, 1) == BodyOf(reader.buf.Length, payloads[0]).value;
    OneFrame(t, reader, id, payloads[0], Framed(id, payloads[1..]), [], true);
    for k := 1 to count
      invariant t.messages == Records(Walk(Size, Body(reader.buf.Length, payloads, k)).out)
      invariant k < count ==> Between(t, reader, Body(reader.buf.Length, payloads, k), false)
      invariant k < count ==> reader.Valid() && reader.Stream() == Framed(id, payloads[k..])
    {
      BodyNext(reader.buf.Length, payloads, k);
      assert payloads[k..][1..] == payloads[k + 1..];
      OneFrame(t, reader, id, payloads[k], Framed(id, payloads[k + 1..]), Body(reader.buf.Length, payloads, k), false);
    }
  }

  lemma {:induction false} BodyPrefix(size: nat, payloads: seq<seq<byte>>, k: nat)
    requires 0 < k <= |payloads| && BodyOf(size, payloads[0]).Some?
    ensures Body(size, payloads, k) <= Body(size, payloads, |payloads|)
    decreases |payloads| - k
  {
    hide BodyOf, Body;
    if k < |payloads| {
      BodyNext(size, payloads, k);
      BodyPrefix(size, payloads, k + 1);
    }
  }

  /** What is left behind the records of a part of a record stream is no length that is too long. */
  lemma {:induction false} PrefixFits(messages: seq<seq<byte>>, p: seq<byte>)
    requires forall i :: 0 <= i < |messages| ==> |messages[i]| <= MAX_BUFFER_SIZE
    requires p <= Flatten(AllRecords(messages))
    ensures !TooLong(Leftover(p))
  {
    hide Get16, Put16, Flatten;
    if |p| >= 2 {
      if messages == [] {
        assert AllRecords(messages) == [];
        FlattenNone();
        assert false;
      }
      var m, rest := messages[0], Flatten(AllRecords(messages[1..]));
      FlattenFront(AllRecords(messages));
      assert AllRecords(messages)[1..] == AllRecords(messages[1..]);
      Reassociate(Put16(|m|), m, rest);
      assert Flatten(AllRecords(messages)) == Put16(|m|) + (m + rest);
      Put16Get16(|m|, p[2..]);
      assert p == Put16(|m|) + p[2..];
      if Whole(p) {
        RecordBehind(p, m, rest);
        PrefixFits(messages[1..], p[2 + |m|..]);
      }
    }
  }

  lemma RecordBehind(p: seq<byte>, m: seq<byte>, rest: seq<byte>)
    requires |m| < 0x1_0000 && 2 + |m| <= |p| && p <= Put16(|m|) + (m + rest)
    ensures p[2 + |m|..] <= rest
  {
    hide Put16;
    assert (Put16(|m|) + (m + rest))[2 + |m|..] == rest;
  }

  /** A cut of a request made of `messages` is good wherever the coding can go on. */
  lemma CutGood(size: nat, messages: seq<seq<byte>>, datas: seq<seq<byte>>, rest: seq<byte>, payloads: seq<seq<byte>>,
                k: nat)
    requires 0 < k <= |payloads| && BodyOf(size, payloads[0]).Some?
    requires forall i :: 0 <= i < |datas| ==> |datas[i]| < Hex.TWO_64
    requires forall i :: 0 <= i < |messages| ==> |messages[i]| <= MAX_BUFFER_SIZE
    requires Body(size, payloads, |payloads|) == Coded(datas) + (LAST_CHUNK + rest)
    requires Flatten(datas) == Flatten(AllRecords(messages))
    requires Walk(Size, Body(size, payloads, k)).fate == Going
    ensures GoodCut(Body(size, payloads, k))
  {
    hide BodyOf, Body, Walk, Coded, Flatten, Records, Leftover;
    BodyPrefix(size, payloads, k);
    var body, whole := Body(size, payloads, k), Body(size, payloads, |payloads|);
    var q := whole[|body|..];
    assert whole == body + q;
    WalkAppend(Size, body, q);
    RoundTrip(datas, rest);
    PrefixFits(messages, Walk(Size, body).out);
  }

  /**
   The way of a request: records of `messages`, written in chunks of any sizes,
   sent in frames that are cut where the coding can go on, and fragmented anyhow,
   are exactly the messages that the machine reaches.
   */
  method Reach(t: PeerTask, reader: Reader, count: nat, ghost id: nat, ghost payloads: seq<seq<byte>>,
               ghost messages: seq<seq<byte>>, ghost datas: seq<seq<byte>>, ghost rest: seq<byte>)
    requires id < ERROR_SIGNAL && count == |payloads| > 0
    requires forall i :: 0 <= i < |payloads| ==> |payloads[i]| < 0x1_0000_0000
    requires Between(t, reader, [], true) && reader.Stream() == Framed(id, payloads)
    requires BodyOf(reader.buf.Length, payloads[0]).Some?
    requires forall i :: 0 <= i < |messages| ==> |messages[i]| <= 4096
    requires Flatten(datas) == Flatten(AllRecords(messages)) && forall i :: 0 <= i < |datas| ==> |datas[i]| < Hex.TWO_64
    requires Body(reader.buf.Length, payloads, |payloads|) == Coded(datas) + (LAST_CHUNK + rest)
    requires forall k :: 0 < k < |payloads| ==> Walk(Size, Body(reader.buf.Length, payloads, k)).fate == Going
    modifies t, t.dataLen, t.data, t.reader, t.reader.buf, reader, reader.buf, reader.rd
    ensures t.messages == messages
  {
    hide BodyOf, Body, Walk, Coded, Flatten, Records, Leftover, Between, GoodCut, Framed;
    forall k | 0 < k < |payloads|
      ensures GoodCut(Body(reader.buf.Length, payloads, k))
    {
      CutGood(reader.buf.Length, messages, datas, rest, payloads, k);
    }
    Reassemble(t, reader, count, id, payloads);
    RoundTrip(datas, rest);
    RecordsOf(messages);
  }

  /** The two end in the same way. */
  ghost predicate SameEnd(w: Walked, w': Walked) {
    w.place == w'.place && w.fate == w'.fate
  }
}
