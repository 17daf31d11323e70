/**
 `bufio/reader.go`, `LimitedReader`: the next `N` bytes of a `Reader`, and no more.
 The writers that the tunnel hands to `WriteTo` are tasks; a task that replaces
 nothing writes straight to its connection.
 */
module Limited {
  import opened Wrappers
  import opened Bytes
  import opened Bufio
  import HostRewrite

  datatype Outcome = Done | ReadFailed(err: Error) | WriteFailed

  class LimitedReader {
    const reader: Reader
    var N: int

    constructor (reader: Reader, N: int)
      ensures this.reader == reader && this.N == N
    {
      this.reader, this.N := reader, N;
    }

    /** Read into `p[from..to]`: never past the limit. */
    method Read(p: array<byte>, from: nat, to: nat) returns (n: nat, e: Option<Error>)
      requires reader.Valid() && p != reader.buf && from <= to <= p.Length
      modifies this, reader, reader.buf, reader.rd, p
      ensures reader.Valid() && from + n <= to
      ensures old(reader.Stream()) == p[from..from + n] + reader.Stream()
      ensures forall i :: 0 <= i < p.Length && !(from <= i < from + n) ==> p[i] == old(p[i])
      ensures N == old(N) - n && (old(N) <= 0 ==> n == 0 && e == Some(EOF)) && (old(N) >= 0 ==> N >= 0)
      ensures e == Some(EOF) ==> N <= 0 || reader.Stream() == []
      ensures old(reader.Quiet()) ==> reader.Quiet() && (e.Some? ==> e.value.EOF?)
      ensures n == 0 && e.None? && from < to ==>
               |reader.rd.plan| < |old(reader.rd.plan)| && old(reader.rd.plan)[0].max == 0
      ensures |reader.rd.plan| <= |old(reader.rd.plan)|
    {
      if N <= 0 { return 0, Some(EOF); }
      var end := if to - from > N then from + N else to;
      n, e := reader.Read(p, from, end);
      N := N - n;
    }

    /**
     The writer, in mode `m` with `before` received, was handed `tried`, the next
     bytes of `stream` within the limit `limit`. The first `n` of them, all of
     them if it is `ok`, are consumed and taken off `N`; the later ones are intact.
     */
    ghost predicate Moved(w: HostRewrite.Task, m: HostRewrite.Mode, before: seq<byte>, stream: seq<byte>, limit: int,
                          tried: seq<byte>, n: nat, ok: bool)
      reads this, reader, reader.buf, reader.rd, w, w.conn
    {
      reader.Valid() && w.Valid() && tried <= stream && n <= |tried| && (tried == [] || |tried| <= limit) &&
      reader.Stream() == stream[n..] && N == limit - n && (ok ==> n == |tried|) && w.Took(tried, m, before, ok)
    }

    /** writeBuf: the buffered bytes within the limit. */
    method WriteBuf(w: HostRewrite.Task, ghost m: HostRewrite.Mode, ghost before: seq<byte>, ghost stream: seq<byte>,
                    ghost limit: int, ghost tried: seq<byte>)
      returns (n: nat, ok: bool, ghost tried': seq<byte>)
      requires N > 0 && Moved(w, m, before, stream, limit, tried, |tried|, true)
      modifies this, reader, w, w.conn
      ensures Moved(w, m, before, stream, limit, tried', |tried| + n, ok)
      ensures reader.err == old(reader.err)
      ensures old(reader.Clear(N)) ==> reader.Clear(N) && reader.Deadlines() == old(reader.Deadlines())
      ensures w.buf == old(w.buf)
      ensures ok && N > 0 ==> reader.r == reader.w && N == old(N) - old(reader.w - reader.r)
      ensures old(reader.Quiet()) ==> reader.Quiet()
      ensures w.conn.capacity.None? ==> ok
    {
      hide Reader.Deadlines, Willing;
      var l := if reader.w - reader.r > N then N else reader.w - reader.r;
      var bytes := reader.buf[reader.r..reader.r + l];
      assert bytes == reader.Stream()[..l];
      tried' := tried + bytes;
      assert tried' <= stream;
      ghost var m1, out := w.Mode(), w.conn.received[|before|..];
      assert w.conn.received == before + out;
      n, ok := w.Write(bytes);
      w.TookThen(tried, bytes, m, m1, before, out, ok);
      reader.Advance(n);
      DropDrop(stream, |tried|, n);
      N := N - n;
    }

    /** A fill changes none of this. */
    method FillMore(w: HostRewrite.Task, ghost m: HostRewrite.Mode, ghost before: seq<byte>, ghost stream: seq<byte>,
                    ghost limit: int, ghost tried: seq<byte>)
      requires reader.r == reader.w && Moved(w, m, before, stream, limit, tried, |tried|, true)
      modifies reader, reader.buf, reader.rd
      ensures Moved(w, m, before, stream, limit, tried, |tried|, true)
      ensures reader.r <= reader.w
      ensures reader.r == reader.w ==> reader.err.Some?
      ensures old(reader.Quiet()) ==> reader.Quiet()
      ensures N > 0 && old(reader.Clear(N)) ==> reader.Clear(N) && reader.Deadlines() == old(reader.Deadlines())
    {
      hide Reader.Deadlines, Willing;
      reader.BufferedFirst(N);
      reader.Fill();
    }

    /**
     WriteTo. The writer is handed all of the next `N` bytes, or as many as there
     are, unless it fails.
     */
    method WriteTo(w: HostRewrite.Task) returns (n: nat, e: Outcome, ghost tried: seq<byte>)
      requires reader.Valid() && w.Valid()
      modifies this, reader, reader.buf, reader.rd, w, w.conn
      ensures Moved(w, old(w.Mode()), old(w.conn.received), old(reader.Stream()), old(N), tried, n, e != WriteFailed)
      ensures w.buf == old(w.buf)
      ensures e == Done ==> N <= 0 || reader.AtEnd()
      ensures old(reader.Quiet()) ==> reader.Quiet() && !e.ReadFailed?
      ensures old(reader.Clear(N)) ==>
                reader.Awaits(old(reader.Deadlines())) && !e.ReadFailed?
      ensures w.conn.capacity.None? ==> e != WriteFailed
    {
      n, e, tried := 0, Done, [];
      ghost var m, before, stream, limit := w.Mode(), w.conn.received, reader.Stream(), N;
      MovedNothing(w);
      if N <= 0 { return; }
      hide Moved, HostRewrite.Task.Took, HostRewrite.Task.Valid, HostRewrite.Task.Mode, Reader.Stream;
      var ok;
      n, ok, tried := WriteBuf(w, m, before, stream, limit, tried);
      if !ok { return n, WriteFailed, tried; }
      MovedAll(w, m, before, stream, limit, tried, n);
      if N <= 0 { return; }
      n, e, tried := WriteRest(w, m, before, stream, limit, tried, n);
    }

    /** reader.go:46-64: fills and writes by turns. */
    method WriteRest(w: HostRewrite.Task, ghost m: HostRewrite.Mode, ghost before: seq<byte>, ghost stream: seq<byte>,
                     ghost limit: int, ghost tried: seq<byte>, n: nat)
      returns (n': nat, e: Outcome, ghost tried': seq<byte>)
      requires N > 0 && reader.Valid() && reader.r == reader.w
      requires Moved(w, m, before, stream, limit, tried, n, true) && n == |tried|
      modifies this, reader, reader.buf, reader.rd, w, w.conn
      ensures Moved(w, m, before, stream, limit, tried', n', e != WriteFailed)
      ensures w.buf == old(w.buf)
      ensures e == Done ==> N <= 0 || reader.AtEnd()
      ensures old(reader.Quiet()) ==> reader.Quiet() && !e.ReadFailed?
      ensures old(reader.Clear(N)) ==>
                reader.Awaits(old(reader.Deadlines())) && !e.ReadFailed?
      ensures w.conn.capacity.None? ==> e != WriteFailed
    {
      hide Moved, HostRewrite.Task.Took, HostRewrite.Task.Valid, HostRewrite.Task.Mode, Reader.Stream, Reader.Quiet;
      n', e, tried' := n, Done, tried;
      if reader.w - reader.r < reader.buf.Length {
        FillMore(w, m, before, stream, limit, tried);
      }
      while reader.r < reader.w
        invariant Moved(w, m, before, stream, limit, tried', n', true) && n' == |tried'| && N > 0
        invariant w.buf == old(w.buf)
        invariant old(reader.Quiet()) ==> reader.Quiet()
        invariant old(reader.Clear(N)) ==> reader.Clear(N) && reader.Deadlines() == old(reader.Deadlines())
        invariant reader.r <= reader.w && (reader.r < reader.w || reader.err.Some?)
        decreases N
      {
        var k, ok;
        k, ok, tried' := WriteBuf(w, m, before, stream, limit, tried');
        n' := n' + k;
        if !ok { return n', WriteFailed, tried'; }
        MovedAll(w, m, before, stream, limit, tried', n');
        if N <= 0 { return; }
        FillMore(w, m, before, stream, limit, tried');
      }
      e := LastError(w, m, before, stream, limit, tried');
    }

    /** reader.go:60-64. */
    method LastError(w: HostRewrite.Task, ghost m: HostRewrite.Mode, ghost before: seq<byte>, ghost stream: seq<byte>,
                     ghost limit: int, ghost tried: seq<byte>) returns (e: Outcome)
      requires Moved(w, m, before, stream, limit, tried, |tried|, true)
      requires reader.r == reader.w && reader.err.Some?
      modifies reader
      ensures Moved(w, m, before, stream, limit, tried, |tried|, true)
      ensures e != WriteFailed && (e == Done ==> reader.AtEnd())
      ensures old(reader.Quiet()) ==> reader.Quiet() && e == Done
      ensures N > 0 && old(reader.Clear(N)) ==>
                reader.Awaits(old(reader.Deadlines())) && e == Done
    {
      reader.BufferedFirst(N);
      if reader.err == Some(EOF) {
        reader.err := None;
      }
      var err := reader.ReadErr();
      e := if err.None? then Done else ReadFailed(err.value);
    }

    lemma MovedNothing(w: HostRewrite.Task)
      requires reader.Valid() && w.Valid()
      ensures Moved(w, w.Mode(), w.conn.received, reader.Stream(), N, [], 0, true)
    {
      HostRewrite.SendsNothing(w.buf, w.Mode());
      assert w.conn.received[|w.conn.received|..] == [];
    }

    lemma MovedAll(w: HostRewrite.Task, m: HostRewrite.Mode, before: seq<byte>, stream: seq<byte>, limit: int,
                   tried: seq<byte>, n: nat)
      requires Moved(w, m, before, stream, limit, tried, n, true)
      ensures n == |tried| && reader.Valid() && w.Valid()
    {
    }

    /** The end of the buffered bytes within the limit. */
    function Limit(): nat
      reads this, reader
      requires N >= 0 && reader.r <= reader.w
    {
      if reader.w - reader.r > N then reader.r + N else reader.w
    }

    ghost function Window(): seq<byte>
      reads this, reader, reader.buf, reader.rd
      requires reader.Valid() && N >= 0
    {
      reader.buf[reader.r..Limit()]
    }

    /** What ReadSlice promises when the stream was `stream` and the limit `limit`. */
    ghost predicate Sliced(delim: byte, stream: seq<byte>, limit: int, line: seq<byte>, e: Option<Error>)
      reads this, reader, reader.buf, reader.rd
    {
      && reader.Valid() && line + reader.Stream() == stream && N == limit - |line| >= 0 && |line| <= reader.buf.Length
      && (e.None? ==> IndexByte(line, delim) == |line| - 1 >= 0)
      && (e.Some? ==> IndexByte(line, delim) == -1)
      && (e == Some(BufferFull) ==> |line| == reader.buf.Length)
      && (e == Some(EOF) ==> N == 0 || reader.Stream() == [])
    }

    /** What ReadSlice took, when the limit was the `s` at the front of the stream. */
    lemma LineOf(delim: byte, s: seq<byte>, stream: seq<byte>, line: seq<byte>, err: Option<Error>)
      requires Sliced(delim, stream, |s|, line, err) && s <= stream
      ensures line <= s && reader.Stream() == stream[|line|..] && N == |s| - |line|
      ensures err.None? ==> IndexByte(s, delim) == |line| - 1
      ensures err == Some(EOF) ==> line == s && IndexByte(s, delim) == -1
      ensures err == Some(BufferFull) ==> |line| == reader.buf.Length
      ensures err == Some(BufferFull) ==> IndexByte(s, delim) < 0 || IndexByte(s, delim) >= reader.buf.Length
    {
      var rest := s[|line|..];
      assert s == line + rest;
      IndexAppend(line, rest, delim);
    }

    /** reader.go:113: the search of the window, past the `s` bytes that were searched before. */
    method Search(delim: byte, s: nat) returns (i: int)
      requires reader.Valid() && N >= 0 && s <= |Window()| && IndexByte(Window()[..s], delim) == -1
      ensures i == IndexByte(Window(), delim)
    {
      hide IndexByte;
      ghost var p, q := Window()[..s], Window()[s..];
      IndexAppend(p, q, delim);
      assert Window() == p + q;
      assert reader.buf[reader.r + s..Limit()] == q;
      i := IndexByte(reader.buf[reader.r + s..Limit()], delim);
      if i >= 0 { i := i + s; }
    }

    /** The first `n` bytes of the window, consumed and taken off the limit. */
    method Take(n: nat) returns (line: seq<byte>)
      requires reader.Valid() && N >= 0 && n <= |Window()|
      modifies this, reader
      ensures reader.Valid() && reader.err == old(reader.err)
      ensures line == old(Window())[..n] && line + reader.Stream() == old(reader.Stream()) && N == old(N) - n
    {
      line := reader.Take(n);
      assert old(Window())[..n] == old(reader.buf[reader.r..reader.w])[..n];
      N := N - n;
    }

    /** reader.go:113-142 when `i` is where the window has the delimiter: the end of the loop, if it ends. */
    method CutSlice(delim: byte, i: int) returns (line: seq<byte>, e: Option<Error>)
      requires reader.Valid() && N >= 0 && i == IndexByte(Window(), delim)
      requires i >= 0 || reader.err.Some? || |Window()| >= N || reader.Buffered() >= reader.buf.Length
      modifies this, reader
      ensures Sliced(delim, old(reader.Stream()), old(N), line, e)
      ensures old(reader.Quiet()) ==> reader.Quiet() && (e.Some? ==> e.value.EOF? || e.value.BufferFull?)
    {
      hide IndexByte;
      if i >= 0 {
        IndexFirst(Window(), delim, i);
        line := Take(i + 1);
        e := None;
        IndexFirst(line, delim, i);
        return;
      }
      var limited := |reader.buf[reader.r..Limit()]| >= N;
      line := TakeWindow();
      if reader.err.Some? {
        e := reader.ReadErr();
      } else {
        e := Some(if limited then EOF else BufferFull);
      }
    }

    method TakeWindow() returns (line: seq<byte>)
      requires reader.Valid() && N >= 0
      modifies this, reader
      ensures reader.Valid() && reader.err == old(reader.err)
      ensures line == old(Window()) && line + reader.Stream() == old(reader.Stream()) && N == old(N) - |line|
      ensures N > 0 ==> |line| == old(reader.Buffered()) && reader.Buffered() == 0
    {
      line := Take(Limit() - reader.r);
    }

    /**
     ReadSlice: the bytes up to the first delimiter within the limit; else the
     bytes up to the limit or to the end, or a full buffer. The error is nil
     exactly when the line ends in the delimiter.
     */
    method ReadSlice(delim: byte) returns (line: seq<byte>, e: Option<Error>)
      requires reader.Valid() && N >= 0
      modifies this, reader, reader.buf, reader.rd
      ensures Sliced(delim, old(reader.Stream()), old(N), line, e)
      ensures old(reader.Quiet()) ==> reader.Quiet() && (e.Some? ==> e.value.EOF? || e.value.BufferFull?)
    {
      var s := 0;
      var i := Search(delim, s);
      while i < 0 && reader.err.None? && Limit() - reader.r < N && reader.Buffered() < reader.buf.Length
        invariant reader.Valid() && N == old(N)
        invariant reader.Stream() == old(reader.Stream()) && (old(reader.Quiet()) ==> reader.Quiet())
        invariant i == IndexByte(Window(), delim)
        decreases |reader.rd.data|, reader.err.None?
      {
        s := Limit() - reader.r;
        SearchMore(delim, s);
        i := Search(delim, s);
      }
      line, e := CutSlice(delim, i);
    }

    /** The fill before the next search, which leaves the window of before in front. */
    method SearchMore(delim: byte, s: nat)
      requires reader.Valid() && N >= 0 && s == |Window()| < N && reader.Buffered() < reader.buf.Length
      requires IndexByte(Window(), delim) == -1
      modifies reader, reader.buf, reader.rd
      ensures reader.Valid()
      ensures reader.Stream() == old(reader.Stream()) && (old(reader.Quiet()) ==> reader.Quiet())
      ensures s <= |Window()| && IndexByte(Window()[..s], delim) == -1
      ensures |reader.rd.data| < |old(reader.rd.data)| || reader.err.Some?
      ensures |reader.rd.data| <= |old(reader.rd.data)| && (reader.err.None? ==> old(reader.err).None?)
    {
      hide IndexByte;
      ghost var window := Window();
      reader.Fill();
      assert Window()[..s] == window;
    }
  }
}
