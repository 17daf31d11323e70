/**
 `client/peer.go`, the answers: `processSDP` prints messages as chunks of records
 and `resp` puts what is printed into frames, in a buffer of the pool.
 */
module PeerReplies {
  import opened Wrappers
  import opened Bytes
  import opened Lines
  import opened Frames
  import opened Sinks
  import opened Chunked
  import opened PeerRecords
  import Hex
  import Tunnel

  /** What processSDP prints for one message, with the length in 16-bit arithmetic. */
  function Printed(message: seq<byte>): seq<byte> {
    var n := |message| % 0x1_0000;
    Hex.Text((n + 2) % 0x1_0000) + CRLF + Put16(n) + message + CRLF
  }

  /** It is the chunk of its record as long as length and prefix fit 16 bits. */
  lemma PrintedIsChunk(message: seq<byte>)
    requires |message| + 2 < 0x1_0000
    ensures Printed(message) == Chunk(Record(message))
  {
    hide Hex.Text, Put16;
    assert |Record(message)| == |message| + 2;
    var a, b := Hex.Text(|message| + 2) + CRLF, Put16(|message|);
    Reassociate(a, b, message);
    assert Printed(message) == a + Record(message) + CRLF;
  }

  lemma TextLength(n: nat)
    requires 0x100 <= n < 0x1000
    ensures |Hex.Text(n)| == 3
  {
    assert |Hex.Text(n / 16 / 16)| == 1;
    assert |Hex.Text(n / 16)| == 2;
  }

  /** It fits a frame if and only if the message has at most 4077 bytes. */
  lemma PrintedFits(message: seq<byte>)
    ensures |Printed(message)| <= ROOM <==> |message| <= 4077
  {
    hide Put16, Hex.Text;
    var n := |message| + 2;
    if n < 0x100 {
      ShortText(n);
    } else if n < 0x1000 {
      TextLength(n);
    }
  }

  lemma ShortText(n: nat)
    requires n < 0x100
    ensures |Hex.Text(n)| <= 2
  {
    hide Hex.Text;
    assert Hex.Pow16(2) == 0x100;
    Hex.TextIsShort(n, 2);
  }

  ghost function AllPrinted(messages: seq<seq<byte>>): seq<byte> {
    if messages == [] then [] else AllPrinted(messages[..|messages| - 1]) + Printed(messages[|messages| - 1])
  }

  lemma AllPrintedNext(messages: seq<seq<byte>>)
    requires messages != []
    ensures AllPrinted(messages) == AllPrinted(messages[..|messages| - 1]) + Printed(messages[|messages| - 1])
  {
  }

  lemma CodedNext(datas: seq<seq<byte>>)
    requires datas != []
    ensures Coded(datas) == Coded(datas[..|datas| - 1]) + Chunk(datas[|datas| - 1])
  {
  }

  lemma {:induction false} AllPrintedIsCoded(messages: seq<seq<byte>>)
    requires forall i :: 0 <= i < |messages| ==> |messages[i]| + 2 < 0x1_0000
    ensures AllPrinted(messages) == Coded(AllRecords(messages))
  {
    hide Printed, Chunk, Record;
    if messages == [] {
      assert AllRecords(messages) == [];
    } else {
      hide Coded, AllPrinted;
      var k := |messages| - 1;
      AllPrintedIsCoded(messages[..k]);
      PrintedIsChunk(messages[k]);
      assert AllRecords(messages)[..k] == AllRecords(messages[..k]);
      CodedNext(AllRecords(messages));
      AllPrintedNext(messages);
    }
  }

  // resp.

  /** The bytes of a pooled buffer that are left for a payload, when it is as short as they come. */
  const ROOM := MAX_BUFFER_SIZE - 10

  /** How much of a reply of `n` bytes goes into its frame, out of a buffer of `size` bytes. */
  function Kept(n: nat, size: nat): (k: nat)
    requires size >= MAX_BUFFER_SIZE
    ensures k <= n && (k == n <==> n <= size - 10)
  {
    if n <= size - 10 then n else if n <= size then size - 10 else n - 10
  }

  /** What resp writes. A buffer made for a longer reply has lost the id. */
  function Written(id: nat, reply: seq<byte>, size: nat): seq<byte>
    requires id < 0x1_0000_0000 && size >= MAX_BUFFER_SIZE
  {
    var k := Kept(|reply|, size);
    if k == 0 then []
    else Put32(if |reply| <= size then id else 0) + Put16(DATA) + Put32(k % 0x1_0000_0000) + reply[..k]
  }

  /**
   `pool.BytesPool`: buffers that were put back, of at least 4096 bytes. `choice`
   is which of them is given out; if it is none, a new one is. Buffers that others
   put back later are among those that are free and not yet chosen.
   */
  class Pool {
    var free: seq<array<byte>>

    constructor ()
      ensures free == [] && Valid()
    {
      free := [];
    }

    ghost predicate Valid()
      reads this
    {
      forall i :: 0 <= i < |free| ==> free[i].Length >= MAX_BUFFER_SIZE
    }

    ghost function Lengths(): set<nat>
      reads this
    {
      set i | 0 <= i < |free| :: free[i].Length
    }

    ghost function Buffers(): set<object>
      reads this
    {
      set i | 0 <= i < |free| :: free[i]
    }

    method Get(choice: nat) returns (buf: array<byte>)
      requires Valid()
      modifies this
      ensures Valid() && buf.Length >= MAX_BUFFER_SIZE && buf.Length in old(Lengths()) + {MAX_BUFFER_SIZE}
      ensures buf in old(Buffers()) || fresh(buf)
      ensures Lengths() <= old(Lengths()) && Buffers() <= old(Buffers())
    {
      if choice < |free| {
        buf := free[choice];
        free := free[..choice] + free[choice + 1..];
      } else {
        buf := new byte[MAX_BUFFER_SIZE];
      }
    }

    method Put(buf: array<byte>)
      requires Valid() && buf.Length >= MAX_BUFFER_SIZE
      modifies this
      ensures Valid() && Lengths() <= old(Lengths()) + {buf.Length} && Buffers() <= old(Buffers()) + {buf}
    {
      free := free + [buf];
    }
  }

  function Min(a: nat, b: nat): nat {
    if a < b then a else b
  }

  /** `copy(buf[at:], d)`. */
  method Copy(buf: array<byte>, at: nat, d: seq<byte>) returns (k: nat)
    requires at <= buf.Length
    modifies buf
    ensures k == Min(|d|, buf.Length - at) && buf[at..at + k] == d[..k]
    ensures forall i :: 0 <= i < buf.Length && !(at <= i < at + k) ==> buf[i] == old(buf[i])
  {
    k := Min(|d|, buf.Length - at);
    forall i | 0 <= i < k { buf[at + i] := d[i]; }
  }

  function Total(data: seq<seq<byte>>): (n: nat)
    ensures n == |Flatten(data)|
  {
    if data == [] then 0 else Total(data[..|data| - 1]) + |data[|data| - 1]|
  }

  /** peer.go:166-169: the parts, as far as they fit, behind the first ten bytes. */
  method CopyAll(buf: array<byte>, data: seq<seq<byte>>) returns (l: nat)
    requires buf.Length >= 10
    modifies buf
    ensures l == Min(|Flatten(data)|, buf.Length - 10) && buf[10..10 + l] == Flatten(data)[..l]
    ensures buf[..10] == old(buf[..10])
  {
    hide Flatten;
    l := 0;
    ghost var head, done := buf[..10], [];
    assert done == Flatten(data[..0]) && buf[10..10] == done[..0] by { FlattenNothing(data); }
    for i := 0 to |data|
      invariant done == Flatten(data[..i]) && l == Min(|done|, buf.Length - 10) && buf[10..10 + l] == done[..l]
      invariant buf[..10] == head
    {
      ghost var before := buf[..];
      var k := Copy(buf, 10 + l, data[i]);
      FlattenNext(data, i);
      SliceGrows(before, buf[..], 10, 10 + l, 10 + l + k);
      assert buf[..][10 + l..10 + l + k] == buf[10 + l..10 + l + k] && buf[..][10..10 + l + k] == buf[10..10 + l + k];
      assert buf[..10] == head by { assert forall j :: 0 <= j < 10 ==> buf[..10][j] == before[j]; }
      TakeMore(done, data[i], l, k);
      done := done + data[i];
      l := l + k;
    }
    assert data[..|data|] == data;
  }

  lemma FlattenNothing(data: seq<seq<byte>>)
    ensures Flatten(data[..0]) == []
  {
  }

  /** Once something did not fit, nothing more is taken. */
  lemma TakeMore(done: seq<byte>, d: seq<byte>, l: nat, k: nat)
    requires l <= |done| && k <= |d| && (l < |done| ==> k == 0)
    ensures (done + d)[..l + k] == done[..l] + d[..k]
  {
  }

  function Max(a: nat, b: nat): nat {
    if a < b then b else a
  }

  /** peer.go:156-177, in the buffer that the pool gave; `used` is the one that goes back. */
  method Reply(id: nat, tunnel: Sink, data: seq<seq<byte>>, pooled: array<byte>) returns (ok: bool, used: array<byte>)
    requires id < 0x1_0000_0000 && pooled.Length >= MAX_BUFFER_SIZE && tunnel.Within()
    modifies pooled, tunnel
    ensures tunnel.Within() && (tunnel.capacity.None? ==> ok)
    ensures used.Length == Max(pooled.Length, |Flatten(data)|) && (used == pooled || fresh(used))
    ensures old(tunnel.received) <= tunnel.received <= old(tunnel.received) + Written(id, Flatten(data), pooled.Length)
    ensures ok ==> tunnel.received == old(tunnel.received) + Written(id, Flatten(data), pooled.Length)
  {
    hide Put32, Put16, Flatten;
    var buf := pooled;
    Tunnel.PutUint32(buf, 0, id);
    Tunnel.PutUint16(buf, 4, DATA);
    var s := Total(data);
    if s > buf.Length {
      buf := new byte[s](_ => 0);
      ZeroHead(buf);
    }
    ghost var head := Put32(if s <= pooled.Length then id else 0) + Put16(DATA);
    assert buf[..6] == head by { assert buf[..6] == buf[..4] + buf[4..6]; }
    var l := CopyAll(buf, data);
    assert l == Kept(s, pooled.Length);
    assert buf[..6] == head by { assert buf[..6] == buf[..10][..6]; }
    ok, used := true, buf;
    if l > 0 { ok := WriteReply(head, l, Flatten(data)[..l], buf, tunnel); }
  }

  lemma ZeroHead(buf: array<byte>)
    requires buf.Length >= 6 && forall i :: 0 <= i < buf.Length ==> buf[i] == 0
    ensures buf[..4] == Put32(0) && buf[4..6] == Put16(DATA)
  {
  }

  /** peer.go:170-177: the length, and the frame as one write. */
  method WriteReply(ghost head: seq<byte>, l: nat, ghost payload: seq<byte>, buf: array<byte>, tunnel: Sink)
    returns (ok: bool)
    requires 10 + l <= buf.Length && buf[..6] == head && buf[10..10 + l] == payload && tunnel.Within()
    modifies buf, tunnel
    ensures tunnel.Within() && (tunnel.capacity.None? ==> ok)
    ensures
      var frame := head + Put32(l % 0x1_0000_0000) + payload;
      old(tunnel.received) <= tunnel.received <= old(tunnel.received) + frame &&
      (ok ==> tunnel.received == old(tunnel.received) + frame)
  {
    hide Put32;
    ghost var before := buf[..];
    assert before[..6] == head && before[10..10 + l] == payload;
    Tunnel.PutUint32(buf, 6, l % 0x1_0000_0000);
    Tunnel.FrameIn(before, buf[..], l);
    assert buf[..][..10 + l] == buf[..10 + l] && buf[..][6..10] == buf[6..10];
    var n;
    n, ok := tunnel.Write(buf[..10 + l]);
  }

  /** resp; `size` is the length of the buffer that the pool gave. */
  method Resp(id: nat, tunnel: Sink, data: seq<seq<byte>>, pool: Pool, choice: nat) returns (ok: bool, ghost size: nat)
    requires id < 0x1_0000_0000 && pool.Valid() && tunnel.Within()
    modifies pool, pool.Buffers(), tunnel
    ensures tunnel.Within() && (tunnel.capacity.None? ==> ok)
    ensures pool.Valid() && size >= MAX_BUFFER_SIZE && size in old(pool.Lengths()) + {MAX_BUFFER_SIZE}
    ensures pool.Lengths() <= old(pool.Lengths()) + {Max(size, |Flatten(data)|)}
    ensures fresh(pool.Buffers() - old(pool.Buffers()))
    ensures old(tunnel.received) <= tunnel.received <= old(tunnel.received) + Written(id, Flatten(data), size)
    ensures ok ==> tunnel.received == old(tunnel.received) + Written(id, Flatten(data), size)
  {
    hide Written, Flatten, Pool.Lengths, Pool.Buffers;
    var buf := pool.Get(choice);
    size := buf.Length;
    ok, buf := Reply(id, tunnel, data, buf);
    pool.Put(buf);
  }

  /** respAndClose: the closing frame follows if the reply could be written. */
  method RespAndClose(id: nat, tunnel: Sink, data: seq<seq<byte>>, pool: Pool, choice: nat)
    returns (ok: bool, ghost size: nat)
    requires id < Frames.PRESERVED_SIGNAL && pool.Valid() && tunnel.Within()
    modifies pool, pool.Buffers(), tunnel
    ensures tunnel.Within() && (tunnel.capacity.None? ==> ok)
    ensures pool.Valid() && size >= MAX_BUFFER_SIZE && size in old(pool.Lengths()) + {MAX_BUFFER_SIZE}
    ensures pool.Lengths() <= old(pool.Lengths()) + {Max(size, |Flatten(data)|)}
    ensures fresh(pool.Buffers() - old(pool.Buffers()))
    ensures ok ==> tunnel.received == old(tunnel.received) + Written(id, Flatten(data), size) + Encode(Frame.Close(id))
  {
    hide Written, Flatten, Encode, Pool.Lengths, Pool.Buffers;
    var buf := pool.Get(choice);
    size := buf.Length;
    ok, buf := Reply(id, tunnel, data, buf);
    if ok { ok := Tunnel.ProcessEnd(id, buf, tunnel); }
    pool.Put(buf);
  }

  /** The frame that a reply becomes. */
  function ReplyFrame(id: nat, reply: seq<byte>, size: nat): Frame
    requires size >= MAX_BUFFER_SIZE
  {
    Frame.Data(if |reply| <= size then id else 0, reply[..Kept(|reply|, size)])
  }

  lemma WrittenIsFrame(id: nat, reply: seq<byte>, size: nat)
    requires id < ERROR_SIGNAL && 0 < |reply| < 0x1_0000_0000 && size >= MAX_BUFFER_SIZE
    ensures ReplyFrame(id, reply, size).Valid() && Written(id, reply, size) == Encode(ReplyFrame(id, reply, size))
  {
    hide Put32, Put16;
  }

  /**
   What reaches the tunnel is the data frame of the reply if and only if the reply
   is not empty and fits the buffer that the pool gave, behind the first ten bytes.
   */
  lemma ReplyWhole(id: nat, reply: seq<byte>, size: nat)
    requires id < ERROR_SIGNAL && |reply| < 0x1_0000_0000 && size >= MAX_BUFFER_SIZE
    ensures Written(id, reply, size) == Encode(Frame.Data(id, reply)) <==> 0 < |reply| <= size - 10
  {
    hide Put32, Put16;
    var k := Kept(|reply|, size);
    if |reply| > size - 10 {
      assert |Written(id, reply, size)| == 10 + k && |Encode(Frame.Data(id, reply))| == 10 + |reply|;
    } else if |reply| > 0 {
      assert reply[..k] == reply;
    }
  }

  /**
   A reply that fits the buffer but not behind them is cut; a longer one goes to
   task 0, without its last ten bytes.
   */
  lemma ReplyLost(id: nat, reply: seq<byte>, size: nat)
    requires id < ERROR_SIGNAL && MAX_BUFFER_SIZE <= size < |reply| + 10 && |reply| < 0x1_0000_0000
    ensures
      Written(id, reply, size) ==
      Encode(if |reply| <= size then Frame.Data(id, reply[..size - 10]) else Frame.Data(0, reply[..|reply| - 10]))
  {
    hide Encode, Written;
    WrittenIsFrame(id, reply, size);
  }

  /**
   A candidate of 4080 bytes is printed in 4089: out of a buffer of 4096 bytes the
   last three do not get into the frame.
   */
  lemma CandidateCut(id: nat, candidate: seq<byte>)
    requires id < ERROR_SIGNAL && |candidate| == 4080
    ensures
      var reply := Printed(candidate);
      |reply| == 4089 && Written(id, reply, MAX_BUFFER_SIZE) == Encode(Frame.Data(id, reply[..4086]))
  {
    hide Put16, Hex.Text, Encode, Written;
    TextLength(4082);
    ReplyLost(id, Printed(candidate), MAX_BUFFER_SIZE);
  }

  /**
   One of 4090 bytes is printed in 4099 and goes to task 0, and the buffer made for
   it goes into the pool; out of that, one of 4079 bytes, printed in 4088, goes out
   whole, which it does not out of a buffer of 4096 bytes.
   */
  lemma CandidateAstray(id: nat, candidate: seq<byte>, next: seq<byte>)
    requires id < ERROR_SIGNAL && |candidate| == 4090 && |next| == 4079
    ensures
      var reply := Printed(candidate);
      |reply| == 4099 && Written(id, reply, MAX_BUFFER_SIZE) == Encode(Frame.Data(0, reply[..4089]))
    ensures
      var reply := Printed(next);
      |reply| == 4088 && Written(id, reply, 4099) == Encode(Frame.Data(id, reply)) &&
      Written(id, reply, MAX_BUFFER_SIZE) != Encode(Frame.Data(id, reply))
  {
    hide Put16, Hex.Text, Encode, Written;
    TextLength(4092);
    TextLength(4081);
    ReplyLost(id, Printed(candidate), MAX_BUFFER_SIZE);
    ReplyWhole(id, Printed(next), 4099);
    ReplyWhole(id, Printed(next), MAX_BUFFER_SIZE);
  }

  // processSDP.

  const RESPONSE: seq<byte> := Ascii(
    "HTTP/1.1 200 OK\r\n" +
    "Transfer-Encoding: chunked\r\n" +
    "Connection: Closed\r\n" +
    "\r\n")
  const LAST_REPLY := LAST_CHUNK + CRLF

  /** The response is a whole header: lines, one of which announces the chunked coding, and an empty one. */
  lemma ResponseIs(size: nat, rest: seq<byte>)
    ensures
      var lines := [Ascii("HTTP/1.1 200 OK"), Ascii("Transfer-Encoding: chunked"), Ascii("Connection: Closed")];
      RESPONSE == TextOf(lines) + [13, 10]
    ensures size >= 28 ==> BodyOf(size, RESPONSE + rest) == Some(rest)
  {
    ResponseText();
    NoNewline("HTTP/1.1 200 OK");
    NoNewline("Transfer-Encoding: chunked");
    NoNewline("Connection: Closed");
    var a, b, c := Ascii("HTTP/1.1 200 OK"), Ascii("Transfer-Encoding: chunked"), Ascii("Connection: Closed");
    hide Ascii, BodyOf;
    ThreeLines(a, b, c);
    hide TextOf;
    if size >= 28 { BodyOfText(size, [a, b, c], rest); }
    Reassociate(TextOf([a, b, c]), [13, 10], rest);
  }

  lemma NoNewline(text: string)
    requires forall i :: 0 <= i < |text| ==> ' ' <= text[i] <= '~'
    ensures 10 !in Ascii(text) && |Ascii(text)| == |text|
  {
  }

  lemma ThreeLines(a: seq<byte>, b: seq<byte>, c: seq<byte>)
    ensures TextOf([a, b, c]) == a + [13, 10] + (b + [13, 10]) + (c + [13, 10])
  {
    TextFront([a, b, c]);
    TextFront([b, c]);
    TextFront([c]);
    assert [a, b, c][1..] == [b, c] && [b, c][1..] == [c];
  }

  lemma ResponseText()
    ensures
      var a, b, c := Ascii("HTTP/1.1 200 OK"), Ascii("Transfer-Encoding: chunked"), Ascii("Connection: Closed");
      RESPONSE == a + [13, 10] + (b + [13, 10]) + (c + [13, 10]) + [13, 10]
  {
    var end := "\r\n";
    assert Ascii(end) == [13, 10];
    hide Ascii;
    var t, u := "HTTP/1.1 200 OK" + end, "Transfer-Encoding: chunked" + end;
    AsciiJoin("HTTP/1.1 200 OK", end);
    AsciiJoin("Transfer-Encoding: chunked", end);
    AsciiJoin("Connection: Closed", end);
    AsciiJoin(t, u);
    AsciiJoin(t + u, "Connection: Closed" + end);
    AsciiJoin(t + u + ("Connection: Closed" + end), end);
    assert t == "HTTP/1.1 200 OK\r\n";
    assert u == "Transfer-Encoding: chunked\r\n";
    assert "Connection: Closed" + end == "Connection: Closed\r\n";
  }

  /** The parts of a printed message that resp is given. */
  function Parts(message: seq<byte>): (parts: seq<seq<byte>>)
    ensures Flatten(parts) == Printed(message)
  {
    var n := |message| % 0x1_0000;
    var parts := [Hex.Text((n + 2) % 0x1_0000), CRLF, Put16(n), message, CRLF];
    FlattenFive(parts);
    parts
  }

  lemma FlattenFive(p: seq<seq<byte>>)
    requires |p| == 5
    ensures Flatten(p) == p[0] + p[1] + p[2] + p[3] + p[4]
  {
    hide Flatten;
    FlattenNothing(p);
    FlattenNext(p, 0);
    FlattenNext(p, 1);
    FlattenNext(p, 2);
    FlattenNext(p, 3);
    FlattenNext(p, 4);
    assert p[..5] == p && [] + p[0] == p[0];
  }

  /** All the replies of a negotiation: the answer, the candidates, and the end. */
  ghost function Replies(sdp: seq<byte>, candidates: seq<seq<byte>>): (rs: seq<seq<byte>>)
    ensures |rs| == |candidates| + 2
  {
    [RESPONSE + Printed(sdp)] + seq(|candidates|, i requires 0 <= i < |candidates| => Printed(candidates[i])) +
      [LAST_REPLY]
  }

  /** The lengths of the buffers for `replies`, each at least 4096. */
  ghost predicate Sized(replies: seq<seq<byte>>, sizes: seq<nat>) {
    |sizes| == |replies| && forall i :: 0 <= i < |sizes| ==> sizes[i] >= MAX_BUFFER_SIZE
  }

  /** A buffer is new, or one of the lengths `lengths` that there were, or one made for an earlier, lost reply. */
  ghost predicate DrawnAt(replies: seq<seq<byte>>, sizes: seq<nat>, lengths: set<nat>, i: nat)
    requires |sizes| <= |replies| && i < |sizes|
  {
    sizes[i] == MAX_BUFFER_SIZE || sizes[i] in lengths || exists j :: 0 <= j < i && Grows(replies, sizes, j, sizes[i])
  }

  ghost predicate Grows(replies: seq<seq<byte>>, sizes: seq<nat>, j: nat, size: nat)
    requires j < |sizes| <= |replies|
  {
    |replies[j]| > sizes[j] && size == |replies[j]|
  }

  ghost predicate Drawn(replies: seq<seq<byte>>, sizes: seq<nat>, lengths: set<nat>) {
    Sized(replies, sizes) && forall i :: 0 <= i < |sizes| ==> DrawnAt(replies, sizes, lengths, i)
  }

  /** What the pool may hold after that. */
  ghost predicate Holding(replies: seq<seq<byte>>, sizes: seq<nat>, lengths: set<nat>, now: set<nat>)
    requires |sizes| <= |replies|
  {
    forall n :: n in now ==>
      n == MAX_BUFFER_SIZE || n in lengths || exists j :: 0 <= j < |sizes| && Grows(replies, sizes, j, n)
  }

  /** One more reply, out of what the pool may hold. */
  lemma DrawnNext(replies: seq<seq<byte>>, reply: seq<byte>, sizes: seq<nat>, size: nat, lengths: set<nat>,
                  before: set<nat>, now: set<nat>)
    requires Drawn(replies, sizes, lengths) && Holding(replies, sizes, lengths, before)
    requires size >= MAX_BUFFER_SIZE && size in before + {MAX_BUFFER_SIZE} && now <= before + {Max(size, |reply|)}
    ensures Drawn(replies + [reply], sizes + [size], lengths)
    ensures Holding(replies + [reply], sizes + [size], lengths, now)
  {
    var rs, ss, k := replies + [reply], sizes + [size], |sizes|;
    forall j, n | 0 <= j < k && Grows(replies, sizes, j, n) ensures Grows(rs, ss, j, n) {}
    forall i | 0 <= i < |ss| ensures DrawnAt(rs, ss, lengths, i) {
      if i < k {
        assert DrawnAt(replies, sizes, lengths, i);
        if exists j :: 0 <= j < i && Grows(replies, sizes, j, sizes[i]) {
          var j :| 0 <= j < i && Grows(replies, sizes, j, sizes[i]);
          assert Grows(rs, ss, j, ss[i]);
        }
      } else if size != MAX_BUFFER_SIZE && size !in lengths {
        var j :| 0 <= j < k && Grows(replies, sizes, j, size);
        assert Grows(rs, ss, j, ss[i]);
      }
    }
    if |reply| > size { assert Grows(rs, ss, k, |reply|); }
    forall n | n in now && n != MAX_BUFFER_SIZE && n !in lengths
      ensures exists j :: 0 <= j < |ss| && Grows(rs, ss, j, n)
    {
      if n in before {
        var j :| 0 <= j < k && Grows(replies, sizes, j, n);
        assert Grows(rs, ss, j, n);
      }
    }
  }

  ghost function AllWritten(id: nat, replies: seq<seq<byte>>, sizes: seq<nat>): seq<byte>
    requires id < 0x1_0000_0000 && Sized(replies, sizes)
  {
    if replies == [] then []
    else
      var k := |replies| - 1;
      AllWritten(id, replies[..k], sizes[..k]) + Written(id, replies[k], sizes[k])
  }

  lemma AllWrittenNext(id: nat, replies: seq<seq<byte>>, sizes: seq<nat>, reply: seq<byte>, size: nat)
    requires id < 0x1_0000_0000 && Sized(replies, sizes) && size >= MAX_BUFFER_SIZE
    ensures Sized(replies + [reply], sizes + [size])
    ensures AllWritten(id, replies + [reply], sizes + [size]) ==
            AllWritten(id, replies, sizes) + Written(id, reply, size)
  {
    var rs, ss := replies + [reply], sizes + [size];
    assert rs[..|replies|] == replies && ss[..|sizes|] == sizes;
  }

  /** The negotiation so far: `done` has been replied, out of buffers of the lengths `sizes`. */
  ghost predicate Replied(id: nat, tunnel: Sink, pool: Pool, start: seq<byte>, lengths: set<nat>,
                          done: seq<seq<byte>>, sizes: seq<nat>)
    requires id < 0x1_0000_0000
    reads tunnel, pool
  {
    && tunnel.Within() && pool.Valid() && Drawn(done, sizes, lengths) && Holding(done, sizes, lengths, pool.Lengths())
    && tunnel.received == start + AllWritten(id, done, sizes)
  }

  /** One reply of processSDP. */
  method ReplyNext(id: nat, tunnel: Sink, data: seq<seq<byte>>, pool: Pool, choice: nat, ghost start: seq<byte>,
                   ghost lengths: set<nat>, ghost done: seq<seq<byte>>, ghost sizes: seq<nat>) returns (ghost size: nat)
    requires id < 0x1_0000_0000 && tunnel.capacity.None? && Replied(id, tunnel, pool, start, lengths, done, sizes)
    modifies pool, pool.Buffers(), tunnel
    ensures Replied(id, tunnel, pool, start, lengths, done + [Flatten(data)], sizes + [size])
    ensures fresh(pool.Buffers() - old(pool.Buffers()))
  {
    hide Written, Flatten, AllWritten, Drawn, Holding, Pool.Lengths, Pool.Buffers;
    assert Sized(done, sizes) by { SizedIfDrawn(done, sizes, lengths); }
    ghost var before := pool.Lengths();
    var ok;
    ok, size := Resp(id, tunnel, data, pool, choice);
    DrawnNext(done, Flatten(data), sizes, size, lengths, before, pool.Lengths());
    AllWrittenNext(id, done, sizes, Flatten(data), size);
    Reassociate(start, AllWritten(id, done, sizes), Written(id, Flatten(data), size));
  }

  lemma SizedIfDrawn(replies: seq<seq<byte>>, sizes: seq<nat>, lengths: set<nat>)
    requires Drawn(replies, sizes, lengths)
    ensures Sized(replies, sizes)
  {
  }

  /**
   processSDP, for a negotiation in which nothing times out: the replies, each out
   of any buffer that the pool can hold by then.
   */
  method ProcessSDP(id: nat, tunnel: Sink, sdp: seq<byte>, candidates: seq<seq<byte>>, pool: Pool, choices: seq<nat>)
    returns (ghost sizes: seq<nat>)
    requires id < Frames.PRESERVED_SIGNAL && pool.Valid() && tunnel.capacity.None?
    modifies pool, pool.Buffers(), tunnel
    ensures pool.Valid() && Drawn(Replies(sdp, candidates), sizes, old(pool.Lengths()))
    ensures tunnel.received == old(tunnel.received) + AllWritten(id, Replies(sdp, candidates), sizes) +
            Encode(Frame.Close(id))
    ensures Ordinary(Replies(sdp, candidates)) ==>
                OnWire(id, sdp, candidates, sizes, old(pool.Lengths()), old(tunnel.received), tunnel.received)
  {
    hide Written, Encode, Printed, Flatten, AllWritten, Drawn, Holding, Pool.Lengths, Replied;
    ghost var start, lengths, all := tunnel.received, pool.Lengths(), Replies(sdp, candidates);
    ghost var done: seq<seq<byte>> := [];
    sizes := [];
    NothingReplied(id, tunnel, pool);
    FirstParts(sdp);
    ghost var size;
    size := ReplyNext(id, tunnel, [RESPONSE] + Parts(sdp), pool, Choice(choices, 0), start, lengths, done, sizes);
    done, sizes := done + [RESPONSE + Printed(sdp)], sizes + [size];
    for i := 0 to |candidates|
      invariant done == all[..i + 1] && Replied(id, tunnel, pool, start, lengths, done, sizes)
      invariant fresh(pool.Buffers() - old(pool.Buffers()))
    {
      size := ReplyNext(id, tunnel, Parts(candidates[i]), pool, Choice(choices, i + 1), start, lengths, done, sizes);
      done, sizes := done + [Printed(candidates[i])], sizes + [size];
    }
    size := LastReply(id, tunnel, pool, Choice(choices, |candidates| + 1), start, lengths, done, sizes);
    assert done + [LAST_REPLY] == all;
    sizes := sizes + [size];
    if Ordinary(all) { Composed(id, sdp, candidates, sizes, start, tunnel.received, lengths); }
  }

  function Choice(choices: seq<nat>, i: nat): nat {
    if i < |choices| then choices[i] else 0
  }

  lemma NothingReplied(id: nat, tunnel: Sink, pool: Pool)
    requires id < 0x1_0000_0000 && tunnel.Within() && pool.Valid()
    ensures Replied(id, tunnel, pool, tunnel.received, pool.Lengths(), [], [])
  {
    assert tunnel.received + [] == tunnel.received;
  }

  lemma FirstParts(sdp: seq<byte>)
    ensures Flatten([RESPONSE] + Parts(sdp)) == RESPONSE + Printed(sdp)
  {
    hide Flatten, Printed;
    FlattenFront([RESPONSE] + Parts(sdp));
    assert ([RESPONSE] + Parts(sdp))[1..] == Parts(sdp);
  }

  /** The end of processSDP. */
  method LastReply(id: nat, tunnel: Sink, pool: Pool, choice: nat, ghost start: seq<byte>, ghost lengths: set<nat>,
                   ghost done: seq<seq<byte>>, ghost sizes: seq<nat>) returns (ghost size: nat)
    requires id < Frames.PRESERVED_SIGNAL && tunnel.capacity.None?
    requires Replied(id, tunnel, pool, start, lengths, done, sizes)
    modifies pool, pool.Buffers(), tunnel
    ensures pool.Valid() && Drawn(done + [LAST_REPLY], sizes + [size], lengths)
    ensures tunnel.received == start + AllWritten(id, done + [LAST_REPLY], sizes + [size]) + Encode(Frame.Close(id))
  {
    hide Written, Encode, Flatten, AllWritten, Drawn, Holding, Pool.Lengths, Pool.Buffers;
    SizedIfDrawn(done, sizes, lengths);
    FlattenOne(LAST_REPLY);
    ghost var before := pool.Lengths();
    var ok;
    ok, size := RespAndClose(id, tunnel, [LAST_REPLY], pool, choice);
    DrawnNext(done, LAST_REPLY, sizes, size, lengths, before, pool.Lengths());
    AllWrittenNext(id, done, sizes, LAST_REPLY, size);
    SizedIfDrawn(done + [LAST_REPLY], sizes + [size], lengths);
    Reassociate(start, AllWritten(id, done, sizes), Written(id, LAST_REPLY, size));
  }

  lemma FlattenOne(x: seq<byte>)
    ensures Flatten([x]) == x
  {
    assert [x][..0] == [] && [] + x == x;
  }

  ghost function ReplyFrames(id: nat, replies: seq<seq<byte>>, sizes: seq<nat>): (fs: seq<Frame>)
    requires Sized(replies, sizes)
    ensures |fs| == |replies|
  {
    seq(|replies|, i requires 0 <= i < |replies| => ReplyFrame(id, replies[i], sizes[i]))
  }

  /** No reply is empty, or too long for a length of 32 bits. */
  ghost predicate Ordinary(replies: seq<seq<byte>>) {
    forall i :: 0 <= i < |replies| ==> 0 < |replies[i]| < 0x1_0000_0000
  }

  lemma FramesNext(id: nat, replies: seq<seq<byte>>, sizes: seq<nat>)
    requires Sized(replies, sizes) && replies != []
    ensures
      var k := |replies| - 1;
      Sized(replies[..k], sizes[..k]) &&
      ReplyFrames(id, replies, sizes) ==
        ReplyFrames(id, replies[..k], sizes[..k]) + [ReplyFrame(id, replies[k], sizes[k])]
  {
  }

  lemma {:induction false} WrittenFrames(id: nat, replies: seq<seq<byte>>, sizes: seq<nat>)
    requires id < ERROR_SIGNAL && Sized(replies, sizes) && Ordinary(replies)
    ensures
      var fs := ReplyFrames(id, replies, sizes);
      Tunnel.AllValid(fs) && Tunnel.Wire(fs) == AllWritten(id, replies, sizes)
  {
    hide Written, Encode, ReplyFrame;
    if replies != [] {
      var k := |replies| - 1;
      FramesNext(id, replies, sizes);
      WrittenFrames(id, replies[..k], sizes[..k]);
      WrittenIsFrame(id, replies[k], sizes[k]);
      Tunnel.WireAppend(ReplyFrames(id, replies[..k], sizes[..k]), ReplyFrame(id, replies[k], sizes[k]));
    } else {
      assert ReplyFrames(id, replies, sizes) == [];
    }
  }

  /** The frames of a task carry all of its replies if and only if each fits its buffer. */
  lemma {:induction false} RepliesArrive(id: nat, replies: seq<seq<byte>>, sizes: seq<nat>)
    requires Sized(replies, sizes)
    ensures |Tunnel.Payloads(ReplyFrames(id, replies, sizes), id)| <= |Flatten(replies)|
    ensures Tunnel.Payloads(ReplyFrames(id, replies, sizes), id) == Flatten(replies) <==>
              forall i :: 0 <= i < |replies| ==> |replies[i]| <= sizes[i] - 10
  {
    hide Tunnel.Payloads, Flatten, ReplyFrames;
    if replies != [] {
      var k := |replies| - 1;
      FramesNext(id, replies, sizes);
      var most, fs := replies[..k], ReplyFrames(id, replies[..k], sizes[..k]);
      RepliesArrive(id, most, sizes[..k]);
      LastArrives(id, most, fs, replies[k], sizes[k]);
      assert replies == most + [replies[k]];
    } else {
      NoPayloads(id, replies, sizes);
    }
  }

  lemma NoPayloads(id: nat, replies: seq<seq<byte>>, sizes: seq<nat>)
    requires Sized(replies, sizes) && replies == []
    ensures Tunnel.Payloads(ReplyFrames(id, replies, sizes), id) == Flatten(replies) == []
  {
  }

  lemma LastArrives(id: nat, most: seq<seq<byte>>, fs: seq<Frame>, last: seq<byte>, size: nat)
    requires size >= MAX_BUFFER_SIZE && |Tunnel.Payloads(fs, id)| <= |Flatten(most)|
    ensures
      var p, all := Tunnel.Payloads(fs + [ReplyFrame(id, last, size)], id), Flatten(most + [last]);
      |p| <= |all| && (p == all <==> Tunnel.Payloads(fs, id) == Flatten(most) && |last| <= size - 10)
  {
    var f := ReplyFrame(id, last, size);
    Tunnel.PayloadsAppend(fs, f, id);
    assert (most + [last])[..|most|] == most;
    var p := Tunnel.PayloadOf(f, id);
    assert |p| <= |last| && (|last| <= size - 10 ==> p == last) && (|last| > size - 10 ==> |p| < |last|);
    if |last| <= size - 10 && Tunnel.Payloads(fs, id) + p == Flatten(most) + last {
      Cancel(Tunnel.Payloads(fs, id), p, Flatten(most), last);
    }
  }

  lemma {:induction false} AllFlat(messages: seq<seq<byte>>)
    ensures Flatten(seq(|messages|, i requires 0 <= i < |messages| => Printed(messages[i]))) == AllPrinted(messages)
  {
    hide Printed;
    var all := seq(|messages|, i requires 0 <= i < |messages| => Printed(messages[i]));
    if messages != [] {
      var most := messages[..|messages| - 1];
      AllFlat(most);
      assert all[..|messages| - 1] == seq(|most|, i requires 0 <= i < |most| => Printed(most[i]));
    }
  }

  lemma {:induction false} AllPrintedFront(messages: seq<seq<byte>>)
    requires messages != []
    ensures AllPrinted(messages) == Printed(messages[0]) + AllPrinted(messages[1..])
  {
    hide Printed;
    if |messages| > 1 {
      var k := |messages| - 1;
      AllPrintedFront(messages[..k]);
      assert messages[..k][1..] == messages[1..][..k - 1];
      Reassociate(Printed(messages[0]), AllPrinted(messages[..k][1..]), Printed(messages[k]));
    } else {
      assert messages[..0] == [] && messages[1..] == [];
    }
  }

  /** The replies joined: the response header, and behind it the chunks and their end. */
  lemma RepliesFlat(sdp: seq<byte>, candidates: seq<seq<byte>>)
    ensures Flatten(Replies(sdp, candidates)) == RESPONSE + (AllPrinted([sdp] + candidates) + (LAST_CHUNK + CRLF))
  {
    hide Printed, Flatten, AllPrinted;
    var mid := seq(|candidates|, i requires 0 <= i < |candidates| => Printed(candidates[i]));
    var all := Replies(sdp, candidates);
    var k := |candidates| + 1;
    AllFlat(candidates);
    AllPrintedFront([sdp] + candidates);
    assert ([sdp] + candidates)[1..] == candidates;
    FlattenNext(all, k);
    assert all[..k + 1] == all && all[..k] == [RESPONSE + Printed(sdp)] + mid;
    FlattenFront(all[..k]);
    assert all[..k][1..] == mid;
    Reassociate(RESPONSE, Printed(sdp), AllPrinted(candidates));
    Reassociate(RESPONSE, Printed(sdp) + AllPrinted(candidates), LAST_REPLY);
  }

  /** The messages of a negotiation whose replies all fit, whatever buffers the pool gives. */
  ghost predicate AllFit(sdp: seq<byte>, candidates: seq<seq<byte>>) {
    |RESPONSE + Printed(sdp)| <= ROOM && forall i :: 0 <= i < |candidates| ==> |candidates[i]| <= 4077
  }

  /** What was printed in a negotiation. */
  ghost function AllOf(sdp: seq<byte>, candidates: seq<seq<byte>>): seq<byte> {
    RESPONSE + (AllPrinted([sdp] + candidates) + (LAST_CHUNK + CRLF))
  }

  /** What the frames of a negotiation carry. */
  ghost function Carried(id: nat, sdp: seq<byte>, candidates: seq<seq<byte>>, sizes: seq<nat>): seq<byte>
    requires Sized(Replies(sdp, candidates), sizes)
  {
    Tunnel.Payloads(ReplyFrames(id, Replies(sdp, candidates), sizes), id)
  }

  /** `sent` is a response whose chunks hold the records of `messages`, and then end. */
  ghost predicate ReadsBack(sent: seq<byte>, messages: seq<seq<byte>>) {
    RESPONSE <= sent &&
    var w := Walk(Size, sent[|RESPONSE|..]);
    w.fate == Ended && Records(w.out) == messages && Leftover(w.out) == []
  }

  /**
   The round trip. If every reply has at most 4086 bytes, then out of any buffers
   the frames carry what was printed, and that reads back as the messages and
   ends. Out of a pool of 4096-byte buffers they carry it only then: buffers grow
   only when a reply is lost, and the first that does not fit is cut or lost.
   */
  lemma PrintedReadsBack(id: nat, sdp: seq<byte>, candidates: seq<seq<byte>>, sizes: seq<nat>, lengths: set<nat>)
    requires Drawn(Replies(sdp, candidates), sizes, lengths)
    ensures AllFit(sdp, candidates) ==> Carried(id, sdp, candidates, sizes) == AllOf(sdp, candidates)
    ensures AllFit(sdp, candidates) ==> ReadsBack(Carried(id, sdp, candidates, sizes), [sdp] + candidates)
    ensures lengths <= {MAX_BUFFER_SIZE} ==>
              (Carried(id, sdp, candidates, sizes) == AllOf(sdp, candidates) <==> AllFit(sdp, candidates))
  {
    hide Printed, ReadsBack, AllPrinted, Tunnel.Payloads, Flatten, Drawn, Sized;
    var all := Replies(sdp, candidates);
    SizedIfDrawn(all, sizes, lengths);
    RepliesFlat(sdp, candidates);
    RepliesArrive(id, all, sizes);
    FitReplies(sdp, candidates);
    if AllFit(sdp, candidates) {
      SizedAtLeast(all, sizes);
      AllReadsBack(sdp, candidates);
    } else if lengths <= {MAX_BUFFER_SIZE} {
      var i :| 0 <= i < |all| && |all[i]| > ROOM;
      var j := FirstMisfit(all, sizes, lengths, i);
    }
  }

  lemma SizedAtLeast(replies: seq<seq<byte>>, sizes: seq<nat>)
    requires Sized(replies, sizes)
    ensures forall i :: 0 <= i < |replies| ==> sizes[i] - 10 >= ROOM
  {
  }

  /** The first reply above 4086 bytes does not fit the buffer of 4096 bytes that it gets. */
  lemma {:induction false} FirstMisfit(replies: seq<seq<byte>>, sizes: seq<nat>, lengths: set<nat>, i: nat)
    returns (j: nat)
    requires Drawn(replies, sizes, lengths) && lengths <= {MAX_BUFFER_SIZE} && i < |replies| && |replies[i]| > ROOM
    ensures |sizes| == |replies| && j < |replies| && |replies[j]| > sizes[j] - 10
    decreases i
  {
    j := i;
    if |replies[i]| <= sizes[i] - 10 {
      assert DrawnAt(replies, sizes, lengths, i);
      var m :| 0 <= m < i && Grows(replies, sizes, m, sizes[i]);
      j := FirstMisfit(replies, sizes, lengths, m);
    }
  }

  lemma AllReadsBack(sdp: seq<byte>, candidates: seq<seq<byte>>)
    requires AllFit(sdp, candidates)
    ensures ReadsBack(AllOf(sdp, candidates), [sdp] + candidates)
  {
    hide Printed, Walk, Records, Leftover, Flatten, Coded, Record;
    var messages := [sdp] + candidates;
    PrintedFits(sdp);
    AllPrintedIsCoded(messages);
    forall i | 0 <= i < |messages| ensures |AllRecords(messages)[i]| == 2 + |messages[i]| { RecordLength(messages[i]); }
    RoundTrip(AllRecords(messages), CRLF);
    RecordsOf(messages);
    var rest := AllPrinted(messages) + (LAST_CHUNK + CRLF);
    assert (RESPONSE + rest)[|RESPONSE|..] == rest;
  }

  /**
   Between `before` and `after` the tunnel has received the frames of the
   negotiation and its close. If every reply fits, the frames of the task carry
   what was printed, and the messages are read back from it; out of a pool of
   4096-byte buffers only then.
   */
  ghost predicate OnWire(id: nat, sdp: seq<byte>, candidates: seq<seq<byte>>, sizes: seq<nat>, lengths: set<nat>,
                         before: seq<byte>, after: seq<byte>)
  {
    Sized(Replies(sdp, candidates), sizes) &&
    var fs := ReplyFrames(id, Replies(sdp, candidates), sizes) + [Frame.Close(id)];
    && Tunnel.AllValid(fs) && after == before + Tunnel.Wire(fs)
    && (AllFit(sdp, candidates) ==> Tunnel.Payloads(fs, id) == AllOf(sdp, candidates))
    && (AllFit(sdp, candidates) ==> ReadsBack(Tunnel.Payloads(fs, id), [sdp] + candidates))
    && (lengths <= {MAX_BUFFER_SIZE} ==>
        (Tunnel.Payloads(fs, id) == AllOf(sdp, candidates) <==> AllFit(sdp, candidates)))
  }

  lemma Composed(id: nat, sdp: seq<byte>, candidates: seq<seq<byte>>, sizes: seq<nat>, before: seq<byte>,
                 after: seq<byte>, lengths: set<nat>)
    requires id < Frames.PRESERVED_SIGNAL && Drawn(Replies(sdp, candidates), sizes, lengths)
    requires Ordinary(Replies(sdp, candidates))
    requires after == before + AllWritten(id, Replies(sdp, candidates), sizes) + Encode(Frame.Close(id))
    ensures OnWire(id, sdp, candidates, sizes, lengths, before, after)
  {
    hide Printed, ReadsBack, Encode, AllFit, AllOf, Tunnel.Payloads, Tunnel.Wire, AllWritten, Drawn, Replies, Ordinary;
    var all := Replies(sdp, candidates);
    SizedIfDrawn(all, sizes, lengths);
    WrittenFrames(id, all, sizes);
    var fs := ReplyFrames(id, all, sizes);
    Tunnel.WireAppend(fs, Frame.Close(id));
    Tunnel.PayloadsAppend(fs, Frame.Close(id), id);
    PrintedReadsBack(id, sdp, candidates, sizes, lengths);
    Reassociate(before, AllWritten(id, all, sizes), Encode(Frame.Close(id)));
    var p := Tunnel.Payloads(fs, id);
    assert p + [] == p;
  }

  lemma RecordLength(message: seq<byte>)
    requires |message| < 0x1_0000
    ensures |Record(message)| == 2 + |message|
  {
  }

  lemma FitReplies(sdp: seq<byte>, candidates: seq<seq<byte>>)
    ensures AllFit(sdp, candidates) <==>
              forall i :: 0 <= i < |Replies(sdp, candidates)| ==> |Replies(sdp, candidates)[i]| <= ROOM
  {
    hide Printed;
    var all := Replies(sdp, candidates);
    forall i | 0 <= i < |candidates| ensures |all[i + 1]| <= ROOM <==> |candidates[i]| <= 4077 {
      PrintedFits(candidates[i]);
    }
    assert all[0] == RESPONSE + Printed(sdp);
    if AllFit(sdp, candidates) {
      forall i | 0 <= i < |all| ensures |all[i]| <= ROOM {
        if 0 < i <= |candidates| { assert |candidates[i - 1]| <= 4077; }
      }
    } else if |all[0]| <= ROOM {
      var i :| 0 <= i < |candidates| && |candidates[i]| > 4077;
      assert |all[i + 1]| > ROOM;
    }
  }
}
