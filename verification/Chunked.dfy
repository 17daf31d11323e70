/**
 The chunked coding of RFC 7230, section 4.1, as `client/internal/chunked.go`
 writes and reads it. The reader works on one tunnel frame after another, each a
 `LimitedReader`; `Walk` says what it makes of the bytes of a frame.
 */
module Chunked {
  import opened Wrappers
  import opened Bytes
  import opened Bufio
  import opened Limited
  import opened Sinks
  import Hex

  const MAX_LINE_LENGTH := 4096
  const CRLF: seq<byte> := [CR, LF]
  const SEMICOLON: byte := 59

  predicate IsASCIISpace(b: byte) {
    b == 32 || b == 9 || b == 10 || b == 13
  }

  function Trim(p: seq<byte>): seq<byte> {
    if p != [] && IsASCIISpace(p[|p| - 1]) then Trim(p[..|p| - 1]) else p
  }

  method TrimTrailingWhitespace(p: seq<byte>) returns (t: seq<byte>)
    ensures t == Trim(p)
  {
    t := p;
    while t != [] && IsASCIISpace(t[|t| - 1])
      invariant Trim(t) == Trim(p)
    {
      t := t[..|t| - 1];
    }
  }

  /** Whitespace goes, and nothing but whitespace. */
  lemma {:induction false} TrimIs(p: seq<byte>)
    ensures Trim(p) <= p && (Trim(p) != [] ==> !IsASCIISpace(Trim(p)[|Trim(p)| - 1]))
    ensures forall i :: |Trim(p)| <= i < |p| ==> IsASCIISpace(p[i])
  {
    if p != [] && IsASCIISpace(p[|p| - 1]) { TrimIs(p[..|p| - 1]); }
  }

  function RemoveChunkExtension(p: seq<byte>): seq<byte> {
    var semi := IndexByte(p, SEMICOLON);
    if semi < 0 then p else p[..semi]
  }

  /** The size that a chunk-size line gives, if it is well-formed and not too long. */
  ghost function SizeOf(line: seq<byte>): Option<nat> {
    if |line| >= MAX_LINE_LENGTH then None else Hex.Value(RemoveChunkExtension(Trim(line)))
  }

  /** Where the reader stands: inside chunk data, before the CRLF that ends it, or before a chunk-size line. */
  datatype Place = Data(left: nat) | Footer | Size

  /**
   How the bytes of a frame end: where the next frame can go on, past the last
   chunk, in the middle of a footer or a size line, or malformed.
   */
  datatype Fate = Going | Ended | Torn | Bad

  datatype Walked = Walked(out: seq<byte>, place: Place, fate: Fate)

  ghost function Then(done: seq<byte>, w: Walked): Walked {
    w.(out := done + w.out)
  }

  ghost function Walk(p: Place, s: seq<byte>): Walked
    decreases |s|, match p case Data(_) => 1 case _ => 0
  {
    match p
    case Data(left) =>
      if |s| < left then Walked(s, Data(left - |s|), Going)
      else Then(s[..left], Walk(Footer, s[left..]))
    case Footer =>
      if |s| < 2 then Walked([], Footer, Torn)
      else if s[..2] != CRLF then Walked([], Footer, Bad)
      else Walk(Size, s[2..])
    case Size =>
      var i := IndexByte(s, LF);
      if s == [] then Walked([], Size, Going)
      else if i < 0 then Walked([], Size, Torn)
      else if SizeOf(s[..i + 1]).None? then Walked([], Size, Bad)
      else if SizeOf(s[..i + 1]).value == 0 then Walked([], Size, Ended)
      else Walk(Data(SizeOf(s[..i + 1]).value), s[i + 1..])
  }

  lemma WalkInData(left: nat, s: seq<byte>)
    ensures Walk(Data(left), s) ==
      if |s| < left then Walked(s, Data(left - |s|), Going) else Then(s[..left], Walk(Footer, s[left..]))
  {
    hide IndexByte, SizeOf;
  }

  lemma WalkInFooter(s: seq<byte>)
    requires 2 <= |s| && s[..2] == CRLF
    ensures Walk(Footer, s) == Walk(Size, s[2..])
  {
    hide IndexByte, SizeOf;
  }

  lemma WalkInSize(s: seq<byte>, i: nat)
    requires IndexByte(s, LF) == i && SizeOf(s[..i + 1]).Some? && SizeOf(s[..i + 1]).value > 0
    ensures Walk(Size, s) == Walk(Data(SizeOf(s[..i + 1]).value), s[i + 1..])
  {
    hide IndexByte, SizeOf;
  }

  /** Data can be taken in any pieces. */
  lemma WalkData(left: nat, s: seq<byte>, k: nat)
    requires k <= left && k <= |s|
    ensures Walk(Data(left), s) == Then(s[..k], if k < left then Walk(Data(left - k), s[k..]) else Walk(Footer, s[k..]))
  {
    hide Walk;
    var t := s[k..];
    WalkInData(left, s);
    if k < left {
      WalkInData(left - k, t);
      if |s| < left {
        assert s == s[..k] + t;
      } else {
        DropDrop(s, k, left - k);
        Reassociate(s[..k], t[..left - k], Walk(Footer, s[left..]).out);
      }
    } else {
      assert s[..k] + Walk(Footer, t).out == s[..left] + Walk(Footer, s[left..]).out;
    }
  }

  lemma ThenThen(a: seq<byte>, b: seq<byte>, w: Walked)
    ensures Then(a, Then(b, w)) == Then(a + b, w)
  {
    Reassociate(a, b, w.out);
  }

  lemma AppendData(left: nat, s: seq<byte>, t: seq<byte>, w: Walked)
    requires |s| >= left && Walk(Footer, s[left..]) == w && Walk(Footer, s[left..] + t) == Then(w.out, Walk(w.place, t))
    ensures Walk(Data(left), s + t) == Then(s[..left] + w.out, Walk(w.place, t))
  {
    hide Walk;
    CutLeft(s, t, left);
    WalkInData(left, s + t);
    ThenThen(s[..left], w.out, Walk(w.place, t));
  }

  lemma AppendSize(s: seq<byte>, t: seq<byte>, i: nat, w: Walked)
    requires IndexByte(s, LF) == i && SizeOf(s[..i + 1]).Some? && SizeOf(s[..i + 1]).value > 0
    requires Walk(Data(SizeOf(s[..i + 1]).value), s[i + 1..] + t) == w
    ensures Walk(Size, s + t) == w
  {
    hide Walk, IndexByte, SizeOf;
    IndexAppend(s, t, LF);
    CutLeft(s, t, i + 1);
    WalkInSize(s + t, i);
  }

  /** A frame that ends where the next one can go on: the two are read as one. */
  lemma {:induction false} WalkAppend(p: Place, s: seq<byte>, t: seq<byte>)
    requires Walk(p, s).fate == Going
    ensures Walk(p, s + t) == Then(Walk(p, s).out, Walk(Walk(p, s).place, t))
    decreases |s|, match p case Data(_) => 1 case _ => 0
  {
    hide IndexByte, SizeOf;
    match p
    case Data(left) =>
      if |s| < left {
        WalkData(left, s + t, |s|);
        assert (s + t)[..|s|] == s && (s + t)[|s|..] == t;
      } else {
        WalkAppend(Footer, s[left..], t);
        AppendData(left, s, t, Walk(Footer, s[left..]));
      }
    case Footer =>
      CutLeft(s, t, 2);
      WalkAppend(Size, s[2..], t);
      WalkInFooter(s + t);
    case Size =>
      if s == [] {
        assert s + t == t;
      } else {
        var i := IndexByte(s, LF);
        WalkAppend(Data(SizeOf(s[..i + 1]).value), s[i + 1..], t);
        AppendSize(s, t, i, Walk(Data(SizeOf(s[..i + 1]).value), s[i + 1..] + t));
      }
  }

  // What the writer writes.

  /** One write as one chunk; an empty write would read as the last chunk and is left out. */
  function Chunk(data: seq<byte>): seq<byte> {
    if data == [] then [] else Hex.Text(|data|) + CRLF + data + CRLF
  }

  const LAST_CHUNK: seq<byte> := [48, CR, LF]

  function Coded(datas: seq<seq<byte>>): seq<byte> {
    if datas == [] then [] else Coded(datas[..|datas| - 1]) + Chunk(datas[|datas| - 1])
  }

  lemma TrimText(v: seq<byte>)
    requires Hex.AllHex(v) && v != []
    ensures Trim(v + CRLF) == v && RemoveChunkExtension(v) == v
  {
    hide IndexByte;
    var s := v + CRLF;
    assert s[..|s| - 1] == v + [CR];
    assert s[..|s| - 1][..|s| - 2] == v;
    assert Hex.IsHex(v[|v| - 1]);
    assert Trim(v) == v;
    assert forall k :: 0 <= k < |v| ==> Hex.IsHex(v[k]);
    IndexFirst(v, SEMICOLON, -1);
  }

  lemma SizeOfText(n: nat)
    requires n < Hex.TWO_64
    ensures SizeOf(Hex.Text(n) + CRLF) == Some(n)
    ensures IndexByte(Hex.Text(n) + CRLF, LF) == |Hex.Text(n)| + 1
  {
    hide Hex.Text, Hex.Value, IndexByte, Trim;
    Hex.Pow16Of16();
    Hex.TextIsShort(n, 16);
    var v := Hex.Text(n);
    TrimText(v);
    Hex.ValueOfText(n);
    assert forall k :: 0 <= k < |v| ==> Hex.IsHex(v[k]);
    IndexFirst(v + CRLF, LF, |v| + 1);
  }

  /** Trailing white space is not looked at. */
  lemma {:induction false} TrimSpaces(p: seq<byte>, spaces: seq<byte>)
    requires p != [] && !IsASCIISpace(p[|p| - 1]) && forall k :: 0 <= k < |spaces| ==> IsASCIISpace(spaces[k])
    ensures Trim(p + spaces) == p
    decreases |spaces|
  {
    var s := p + spaces;
    if spaces != [] {
      assert s[|s| - 1] == spaces[|spaces| - 1];
      assert s[..|s| - 1] == p + spaces[..|spaces| - 1];
      TrimSpaces(p, spaces[..|spaces| - 1]);
    } else {
      assert s == p;
    }
  }

  /** Up to the white space at its end. */
  lemma {:induction false} TrimKeeps(p: seq<byte>, q: seq<byte>)
    requires p != [] && !IsASCIISpace(p[|p| - 1])
    ensures p <= Trim(p + q)
    decreases |q|
  {
    var s := p + q;
    if q != [] && IsASCIISpace(q[|q| - 1]) {
      assert s[|s| - 1] == q[|q| - 1] && s[..|s| - 1] == p + q[..|q| - 1];
      TrimKeeps(p, q[..|q| - 1]);
    }
  }

  /** A size line with an extension has the size of the line without it, and white space does not matter. */
  lemma ExtensionIgnored(v: seq<byte>, extension: seq<byte>, spaces: seq<byte>)
    requires Hex.AllHex(v) && v != [] && forall k :: 0 <= k < |spaces| ==> IsASCIISpace(spaces[k])
    ensures
      var line := v + [59] + extension + [13, 10];
      SizeOf(line) == if |line| < 4096 then Hex.Value(v) else None
    ensures
      var line := v + spaces + [13, 10];
      SizeOf(line) == if |line| < 4096 then Hex.Value(v) else None
  {
    hide IndexByte, Hex.Value, Trim;
    assert forall k :: 0 <= k < |v| ==> Hex.IsHex(v[k]);
    IndexFirst(v, SEMICOLON, -1);
    var line, front := v + [59] + extension + [13, 10], v + [59];
    TrimKeeps(front, extension + [13, 10]);
    assert line == front + (extension + [13, 10]);
    var t := Trim(line);
    IndexFirst(t, SEMICOLON, |v|);
    assert t[..|v|] == front[..|v|] == v;
    assert v + spaces + [13, 10] == v + (spaces + [13, 10]);
    TrimSpaces(v, spaces + [13, 10]);
  }

  lemma WalkChunk(data: seq<byte>)
    requires |data| < Hex.TWO_64
    ensures Walk(Size, Chunk(data)) == Walked(data, Size, Going)
  {
    if data != [] {
      hide Hex.Text, SizeOf, IndexByte;
      SizeOfText(|data|);
      var line, rest := Hex.Text(|data|) + CRLF, data + CRLF;
      var s := Chunk(data);
      assert s == line + rest;
      IndexAppend(line, rest, LF);
      var i := |line| - 1;
      assert s[..i + 1] == line && s[i + 1..] == rest;
      WalkInSize(s, i);
      WalkInData(|data|, rest);
      assert rest[..|data|] == data && rest[|data|..] == CRLF;
      WalkInFooter(CRLF);
      assert data + [] == data;
    }
  }

  lemma {:induction false} WalkCoded(datas: seq<seq<byte>>)
    requires forall i :: 0 <= i < |datas| ==> |datas[i]| < Hex.TWO_64
    ensures Walk(Size, Coded(datas)) == Walked(Flatten(datas), Size, Going)
  {
    if datas != [] {
      hide Walk;
      var most, last := datas[..|datas| - 1], datas[|datas| - 1];
      WalkCoded(most);
      WalkAppend(Size, Coded(most), Chunk(last));
      WalkChunk(last);
    }
  }

  /** Any list of writes and a Close is read back as the bytes written and then the end, whatever comes after it. */
  lemma {:induction false} RoundTrip(datas: seq<seq<byte>>, rest: seq<byte>)
    requires forall i :: 0 <= i < |datas| ==> |datas[i]| < Hex.TWO_64
    ensures Walk(Size, Coded(datas) + (LAST_CHUNK + rest)) == Walked(Flatten(datas), Size, Ended)
  {
    WalkCoded(datas);
    WalkLast(rest);
    WalkAppend(Size, Coded(datas), LAST_CHUNK + rest);
    assert Flatten(datas) + [] == Flatten(datas);
  }

  lemma WalkLast(rest: seq<byte>)
    ensures Walk(Size, LAST_CHUNK + rest) == Walked([], Size, Ended)
  {
    hide IndexByte, SizeOf;
    SizeOfText(0);
    assert Hex.Text(0) + CRLF == LAST_CHUNK;
    IndexAppend(LAST_CHUNK, rest, LF);
    assert (LAST_CHUNK + rest)[..3] == LAST_CHUNK;
  }

  // What the reader takes for a body.

  /** A size line, newline and all. */
  ghost predicate IsSizeLine(line: seq<byte>, n: nat) {
    line != [] && line[|line| - 1] == 10 && 10 !in line[..|line| - 1] && SizeOf(line) == Some(n)
  }

  /** A chunk of section 4.1 of RFC 7230: a size line, as many bytes, and CR LF. */
  ghost predicate IsChunk(line: seq<byte>, data: seq<byte>) {
    data != [] && IsSizeLine(line, |data|)
  }

  ghost function Chunks(lines: seq<seq<byte>>, datas: seq<seq<byte>>): seq<byte>
    requires |lines| == |datas|
  {
    if lines == [] then [] else lines[0] + datas[0] + [13, 10] + Chunks(lines[1..], datas[1..])
  }

  ghost predicate AllChunks(lines: seq<seq<byte>>, datas: seq<seq<byte>>) {
    |lines| == |datas| && forall i :: 0 <= i < |lines| ==> IsChunk(lines[i], datas[i])
  }

  lemma SizeLineFirst(line: seq<byte>, n: nat, rest: seq<byte>)
    requires IsSizeLine(line, n)
    ensures IndexByte(line + rest, LF) == |line| - 1
    ensures (line + rest)[..|line|] == line && (line + rest)[|line|..] == rest
  {
    IndexFirst(line, LF, |line| - 1);
    IndexAppend(line, rest, LF);
  }

  lemma SizeLineIs(s: seq<byte>, i: nat)
    requires IndexByte(s, LF) == i && SizeOf(s[..i + 1]).Some?
    ensures IsSizeLine(s[..i + 1], SizeOf(s[..i + 1]).value)
  {
    IndexFirst(s, LF, i);
  }

  lemma WalkOneChunk(line: seq<byte>, data: seq<byte>, rest: seq<byte>)
    requires IsChunk(line, data)
    ensures Walk(Size, line + data + [13, 10] + rest) == Then(data, Walk(Size, rest))
  {
    hide Walk, IndexByte, SizeOf;
    var tail := data + ([13, 10] + rest);
    assert line + data + [13, 10] + rest == line + tail;
    SizeLineFirst(line, |data|, tail);
    WalkInSize(line + tail, |line| - 1);
    WalkInData(|data|, tail);
    CutRight(data, [13, 10] + rest, 0);
    assert tail[..|data|] == data && tail[|data|..] == [13, 10] + rest;
    WalkInFooter([13, 10] + rest);
    assert ([13, 10] + rest)[2..] == rest;
  }

  /** Any chunks, whatever their size lines look like, are read as their data; with a line of size 0 the body ends. */
  lemma {:induction false} WalkChunks(lines: seq<seq<byte>>, datas: seq<seq<byte>>, rest: seq<byte>)
    requires AllChunks(lines, datas)
    ensures Walk(Size, Chunks(lines, datas) + rest) == Then(Flatten(datas), Walk(Size, rest))
  {
    hide Walk, IsChunk;
    if lines == [] {
      assert [] + rest == rest && [] + Walk(Size, rest).out == Walk(Size, rest).out;
    } else {
      var more := Chunks(lines[1..], datas[1..]);
      Reassociate(lines[0] + datas[0] + [13, 10], more, rest);
      WalkOneChunk(lines[0], datas[0], more + rest);
      WalkChunks(lines[1..], datas[1..], rest);
      FlattenFront(datas);
      ThenThen(datas[0], Flatten(datas[1..]), Walk(Size, rest));
    }
  }

  lemma EndedSize(s: seq<byte>)
    requires Walk(Size, s).fate.Ended?
    ensures 0 <= IndexByte(s, LF) < |s| && SizeOf(s[..IndexByte(s, LF) + 1]).Some?
    ensures SizeOf(s[..IndexByte(s, LF) + 1]).value == 0 ==> Walk(Size, s).out == []
  {
    hide IndexByte, SizeOf;
  }

  lemma EndedFooter(s: seq<byte>)
    requires Walk(Footer, s).fate.Ended?
    ensures |s| >= 2 && s[..2] == [13, 10] && Walk(Footer, s) == Walk(Size, s[2..])
  {
    hide IndexByte, SizeOf;
  }

  /** A body that ends begins with a line of size 0, or with a chunk in front of a body that ends. */
  ghost predicate BeginsWith(s: seq<byte>, line: seq<byte>, data: seq<byte>, rest: seq<byte>) {
    |rest| < |s| &&
    if data == [] then IsSizeLine(line, 0) && s == line + rest && Walk(Size, s).out == []
    else IsChunk(line, data) && s == line + data + [13, 10] + rest && Walk(Size, s) == Then(data, Walk(Size, rest))
  }

  lemma EndsStep(s: seq<byte>) returns (line: seq<byte>, data: seq<byte>, rest: seq<byte>)
    requires Walk(Size, s).fate.Ended?
    ensures BeginsWith(s, line, data, rest)
  {
    hide Walk, IndexByte, SizeOf;
    EndedSize(s);
    var i := IndexByte(s, LF);
    line, rest, data := s[..i + 1], s[i + 1..], [];
    SizeLineIs(s, i);
    var n := SizeOf(line).value;
    if n > 0 {
      ChunkStep(s, i, n);
      data, rest := rest[..n], rest[n + 2..];
    }
  }

  lemma ChunkStep(s: seq<byte>, i: nat, n: nat)
    requires Walk(Size, s).fate.Ended? && IndexByte(s, LF) == i && SizeOf(s[..i + 1]) == Some(n) && n > 0
    ensures
      var tail := s[i + 1..];
      n + 2 <= |tail| && Walk(Size, s) == Then(tail[..n], Walk(Size, tail[n + 2..])) &&
      s == s[..i + 1] + tail[..n] + [13, 10] + tail[n + 2..]
  {
    hide Walk, IndexByte, SizeOf;
    var tail := s[i + 1..];
    WalkInSize(s, i);
    WalkInData(n, tail);
    EndedFooter(tail[n..]);
    DropDrop(tail, n, 2);
    assert tail == tail[..n] + [13, 10] + tail[n + 2..];
    Reassociate(s[..i + 1], tail[..n] + [13, 10], tail[n + 2..]);
    Reassociate(s[..i + 1], tail[..n], [13, 10]);
  }

  lemma NoChunks(s: seq<byte>)
    ensures Chunks([], []) + s == s && Flatten([]) == []
  {
  }

  lemma OneChunkMore(line: seq<byte>, data: seq<byte>, lines: seq<seq<byte>>, datas: seq<seq<byte>>)
    requires |lines| == |datas|
    ensures Chunks([line] + lines, [data] + datas) == line + data + [13, 10] + Chunks(lines, datas)
    ensures Flatten([data] + datas) == data + Flatten(datas)
  {
    assert ([line] + lines)[1..] == lines && ([data] + datas)[1..] == datas;
    FlattenFront([data] + datas);
  }

  /** The body ends exactly behind chunks and a line of size 0, and nothing else is read as that. */
  lemma {:induction false} EndsOnlyAfterChunks(s: seq<byte>)
    returns (lines: seq<seq<byte>>, datas: seq<seq<byte>>, last: seq<byte>, rest: seq<byte>)
    requires Walk(Size, s).fate.Ended?
    ensures AllChunks(lines, datas) && IsSizeLine(last, 0)
    ensures s == Chunks(lines, datas) + (last + rest) && Walk(Size, s).out == Flatten(datas)
    decreases |s|
  {
    hide Walk, IsChunk, IsSizeLine, Chunks;
    var line, data, after := EndsStep(s);
    if data == [] {
      lines, datas, last, rest := [], [], line, after;
      NoChunks(line + after);
    } else {
      var lines1, datas1;
      lines1, datas1, last, rest := EndsOnlyAfterChunks(after);
      lines, datas := [line] + lines1, [data] + datas1;
      OneChunkMore(line, data, lines1, datas1);
      Reassociate(line + data + [13, 10], Chunks(lines1, datas1), last + rest);
    }
  }

  class ChunkedWriter {
    const wire: Sink

    constructor (wire: Sink)
      ensures this.wire == wire
    {
      this.wire := wire;
    }

    /** Write: the data as one chunk; if the wire fails, a part of that. */
    method Write(data: seq<byte>) returns (n: nat, ok: bool)
      requires wire.Within()
      modifies wire
      ensures wire.Within() && n <= |data|
      ensures ok ==> n == |data| && wire.received == old(wire.received) + Chunk(data)
      ensures old(wire.received) <= wire.received <= old(wire.received) + Chunk(data)
      ensures wire.capacity.None? ==> ok
    {
      if |data| == 0 { return 0, true; }
      hide Hex.Text;
      ghost var before, chunk := wire.received, Chunk(data);
      var k;
      var line := Hex.Text(|data|) + CRLF;
      assert chunk == line + data + CRLF && line <= chunk && line + data <= chunk;
      k, ok := wire.Write(line);
      PartOf(before, line, k, chunk);
      if !ok { return 0, false; }
      assert line[..k] == line;
      n, ok := wire.Write(data);
      Reassociate(before, line, data[..n]);
      assert line + data[..n] == (line + data)[..|line| + n];
      PartOf(before, line + data, |line| + n, chunk);
      if !ok { return; }
      assert data[..n] == data;
      k, ok := wire.Write(CRLF);
      Reassociate(before, line + data, CRLF[..k]);
      assert line + data + CRLF[..k] == chunk[..|line + data| + k];
      PartOf(before, chunk, |line + data| + k, chunk);
      assert chunk[..|chunk|] == chunk;
    }

    method Close() returns (ok: bool)
      requires wire.Within()
      modifies wire
      ensures wire.Within() && (wire.capacity.None? ==> ok)
      ensures ok ==> wire.received == old(wire.received) + [48, 13, 10]
    {
      var k;
      k, ok := wire.Write(LAST_CHUNK);
      assert LAST_CHUNK[..3] == LAST_CHUNK;
    }
  }

  lemma WalkNoSize(s: seq<byte>)
    requires IndexByte(s, LF) < 0 || IndexByte(s, LF) + 1 >= MAX_LINE_LENGTH
    ensures Walk(Size, s) == Walked([], Size, if s == [] then Going else if IndexByte(s, LF) < 0 then Torn else Bad)
  {
    hide IndexByte;
  }

  lemma WalkBadSize(s: seq<byte>, i: nat)
    requires IndexByte(s, LF) == i && (SizeOf(s[..i + 1]).Some? ==> SizeOf(s[..i + 1]).value == 0)
    ensures Walk(Size, s) == Walked([], Size, if SizeOf(s[..i + 1]).Some? then Ended else Bad)
  {
    hide IndexByte, SizeOf;
  }

  lemma WalkNothing(left: nat)
    ensures left > 0 ==> Walk(Data(left), []) == Walked([], Data(left), Going)
    ensures Walk(Footer, []) == Walked([], Footer, Torn)
  {
  }

  datatype ReadError = AtEOF | UnexpectedEOF | Malformed

  /** What an error says of the bytes `left` of the frame, when `w` is what was to come of them. */
  ghost predicate Explains(e: ReadError, w: Walked, place: Place, left: seq<byte>) {
    match w.fate
    case Going => e != Malformed && left == [] && place == w.place
    case Ended => e == AtEOF
    case Bad => e == Malformed
    case Torn => true
  }

  const BUFFER_SIZE := 4096

  datatype Step = Stop | Again | HasData

  class ChunkedReader {
    var r: LimitedReader
    var n: nat
    var err: Option<ReadError>
    const buf: array<byte>
    var checkEnd: bool

    constructor (r: LimitedReader)
      ensures this.r == r && fresh(buf) && buf.Length == 2 && Place() == Size && err == None && n == 0 && !checkEnd
    {
      this.r, n, err, checkEnd := r, 0, None, false;
      buf := new byte[2];
    }

    /** SetReader (export.go). */
    method SetReader(r: LimitedReader)
      modifies this`r, this`err
      ensures this.r == r && err == None
    {
      this.r, err := r, None;
    }

    ghost function Place(): Place
      reads this
    {
      if checkEnd then Footer else if n == 0 then Size else Data(n)
    }

    /** The frame that `r` is limited to has been sent, and the tunnel is sound. */
    ghost predicate InFrame()
      reads this, r, r.reader, r.reader.buf, r.reader.rd
    {
      && buf.Length == 2 && buf != r.reader.buf && r.reader.buf.Length >= BUFFER_SIZE
      && r.reader.Valid() && r.reader.Quiet() && 0 <= r.N <= |r.reader.Stream()|
      && (checkEnd ==> n == 0)
    }

    /** What is left of the frame. */
    ghost function Left(): seq<byte>
      reads this, r, r.reader, r.reader.buf, r.reader.rd
      requires InFrame()
    {
      r.reader.Stream()[..r.N]
    }

    /** What comes after the frame, which is not the reader's to touch. */
    ghost function Beyond(): seq<byte>
      reads this, r, r.reader, r.reader.buf, r.reader.rd
      requires InFrame()
    {
      r.reader.Stream()[r.N..]
    }

    /** `io.ReadFull(cr.r, cr.buf[:2])`. */
    method ReadFull() returns (e: Option<ReadError>)
      requires InFrame()
      modifies r, r.reader, r.reader.buf, r.reader.rd, buf
      ensures InFrame() && Beyond() == old(Beyond())
      ensures e.None? ==> |old(Left())| >= 2 && buf[..] == old(Left())[..2] && Left() == old(Left())[2..]
      ensures e.Some? ==> |old(Left())| < 2 && Left() == []
      ensures e.None? ==> r.N < old(r.N)
    {
      hide Left, Beyond;
      var k, e0 := 0, None;
      ghost var s := Left();
      assert s[0..] == s && buf[..0] == s[..0];
      while k < 2 && e0.None?
        invariant InFrame() && Beyond() == old(Beyond()) && 0 <= k <= 2
        invariant k <= |s| && buf[..k] == s[..k] && Left() == s[k..]
        invariant (e0.Some? ==> r.N == 0) && r.N == old(r.N) - k
        decreases r.N, |r.reader.rd.plan|, e0.None?
      {
        ghost var before := buf[..];
        var m;
        m, e0 := ReadSome(buf, k, 2);
        SliceGrows(before, buf[..], 0, k, k + m);
        DropDrop(s, k, m);
        k := k + m;
      }
      e := if k == 2 then None else if k == 0 then Some(AtEOF) else Some(UnexpectedEOF);
      if k < 2 { NothingLeft(); } else { assert buf[..2] == buf[..]; }
    }

    lemma NothingLeft()
      requires InFrame() && r.N == 0
      ensures Left() == []
    {
    }

    /** One read of the frame into `p[from..to]`. */
    method ReadSome(p: array<byte>, from: nat, to: nat) returns (m: nat, e: Option<Error>)
      requires InFrame() && from < to <= p.Length && p != r.reader.buf
      modifies r, r.reader, r.reader.buf, r.reader.rd, p
      ensures InFrame() && Beyond() == old(Beyond()) && from + m <= to && m <= |old(Left())|
      ensures p[from..from + m] == old(Left())[..m] && Left() == old(Left())[m..]
      ensures forall i :: 0 <= i < p.Length && !(from <= i < from + m) ==> p[i] == old(p[i])
      ensures e.Some? ==> r.N == 0
      ensures m == 0 && e.None? ==> |r.reader.rd.plan| < |old(r.reader.rd.plan)|
      ensures |r.reader.rd.plan| <= |old(r.reader.rd.plan)| && r.N == old(r.N) - m
    {
      ghost var stream := r.reader.Stream();
      m, e := r.Read(p, from, to);
      assert stream == p[from..from + m] + r.reader.Stream();
      assert stream[m..] == r.reader.Stream() && stream[..m] == p[from..from + m];
      TakeDrop(stream, old(r.N), m);
      DropDrop(stream, m, r.N);
    }

    /** One line of the frame. */
    method ReadLine() returns (line: seq<byte>, err: Option<Error>)
      requires InFrame()
      modifies r, r.reader, r.reader.buf, r.reader.rd
      ensures InFrame() && Beyond() == old(Beyond()) && r.N == old(r.N) - |line|
      ensures line <= old(Left()) && Left() == old(Left())[|line|..]
      ensures
        var i := IndexByte(old(Left()), LF);
        match err
        case None => i == |line| - 1 >= 0
        case Some(EOF) => line == old(Left()) && i == -1
        case Some(BufferFull) => line != [] && (i < 0 || i + 1 >= MAX_LINE_LENGTH)
        case _ => false
    {
      hide IndexByte;
      ghost var s, stream := Left(), r.reader.Stream();
      line, err := r.ReadSlice(LF);
      r.LineOf(LF, s, stream, line, err);
      DropDrop(stream, |line|, r.N);
      TakeDrop(stream, |s|, |line|);
    }

    /**
     readChunkLine: the size line, and `None` for every error of it; `e` tells the
     end of the frame from the others.
     */
    method ReadChunkLine() returns (p: Option<seq<byte>>, e: ReadError)
      requires InFrame()
      modifies r, r.reader, r.reader.buf, r.reader.rd
      ensures InFrame() && Beyond() == old(Beyond()) && r.N <= old(r.N) && (p.Some? ==> r.N < old(r.N))
      ensures
        var i := IndexByte(old(Left()), LF);
        if i < 0 then p.None? && (old(Left()) == [] ==> e == UnexpectedEOF && Left() == [])
        else if i + 1 >= MAX_LINE_LENGTH then p.None? && e == Malformed
        else p == Some(RemoveChunkExtension(Trim(old(Left())[..i + 1]))) && Left() == old(Left())[i + 1..]
    {
      hide Trim, RemoveChunkExtension, IndexByte, Left, Beyond;
      ghost var s := Left();
      var line, err := ReadLine();
      assert line == s[..|line|];
      e := AtEOF;
      p := None;
      if err.Some? {
        e := if err.value.EOF? then UnexpectedEOF else Malformed;
      } else if |line| >= MAX_LINE_LENGTH {
        e := Malformed;
      } else {
        var text := TrimTrailingWhitespace(line);
        p := Some(RemoveChunkExtension(text));
      }
    }

    /** `w` is what is still to come of the frame, or what its end left of it. */
    ghost predicate Settles(w: Walked)
      reads this, r, r.reader, r.reader.buf, r.reader.rd
    {
      InFrame() && if err.None? then w == Walk(Place(), Left())
        else w.out == [] && Explains(err.value, w, Place(), Left())
    }

    /** The frame ended in the middle of a footer; the error is still to be settled. */
    ghost predicate TornFooter(w: Walked)
      reads this, r, r.reader, r.reader.buf, r.reader.rd
      requires InFrame()
    {
      err.Some? && w.fate == Torn && w.out == [] && Left() == []
    }

    /** beginChunk; behind a torn footer there is no size line, which is the error that stays. */
    method BeginChunk(ghost w: Walked)
      requires Settles(w) && Place() == Size && (err.None? || TornFooter(w))
      modifies this`n, this`err, r, r.reader, r.reader.buf, r.reader.rd
      ensures Settles(w) && Beyond() == old(Beyond()) && r.N <= old(r.N) && (err.None? ==> r.N < old(r.N))
      ensures old(err.Some?) ==> err == Some(UnexpectedEOF)
    {
      hide Walk, IndexByte, Trim, RemoveChunkExtension, SizeOf, Reader.Stream;
      ghost var s, torn := Left(), err.Some?;
      assert if torn then w.fate == Torn && w.out == [] && s == [] else w == Walk(Size, s);
      EmptyLine(s);
      hide Explains, Settles;
      var line, e := ReadChunkLine();
      n := 0;
      if line.None? {
        err := Some(e);
        NoSize(s, e, w, torn);
      } else {
        err := None;
        SetSize(line.value, s, IndexByte(s, LF), w);
      }
    }

    lemma EmptyLine(s: seq<byte>)
      ensures s == [] ==> IndexByte(s, LF) < 0
    {
    }

    lemma NoSize(s: seq<byte>, e: ReadError, w: Walked, torn: bool)
      requires InFrame() && Place() == Size && err == Some(e)
      requires if torn then w.fate == Torn && w.out == [] else w == Walk(Size, s)
      requires
        var i := IndexByte(s, LF);
        if i < 0 then s == [] ==> e == UnexpectedEOF && Left() == [] else i + 1 >= MAX_LINE_LENGTH && e == Malformed
      ensures Settles(w)
    {
      hide Walk, IndexByte;
      WalkNoSize(s);
    }

    /** chunked.go:39-45. */
    method SetSize(line: seq<byte>, ghost s: seq<byte>, ghost i: nat, ghost w: Walked)
      requires InFrame() && !checkEnd && IndexByte(s, LF) == i && i < |s| && i + 1 < MAX_LINE_LENGTH
      requires Left() == s[i + 1..] && w == Walk(Size, s) && line == RemoveChunkExtension(Trim(s[..i + 1]))
      modifies this`n, this`err
      ensures Settles(w)
    {
      hide Walk, IndexByte, Hex.Value, Hex.AllHex, Hex.Number, Trim, RemoveChunkExtension;
      err := None;
      var bad;
      n, bad := Hex.ParseHexUint(line);
      if bad.Some? {
        WalkBadSize(s, i);
        n, err := 0, Some(Malformed);
      } else if n == 0 {
        WalkBadSize(s, i);
        err := Some(AtEOF);
      } else {
        WalkInSize(s, i);
      }
    }

    /** The CRLF after the data of a chunk. Only other bytes stop the loop at once; the end of the frame does not. */
    method EndChunk(ghost w: Walked) returns (stop: bool)
      requires Settles(w) && err.None? && checkEnd
      modifies this`checkEnd, this`err, r, r.reader, r.reader.buf, r.reader.rd, buf
      ensures Settles(w) && Beyond() == old(Beyond()) && r.N <= old(r.N) && n == old(n)
      ensures stop ==> err == Some(Malformed)
      ensures !stop ==> !checkEnd && if err.None? then r.N < old(r.N) else TornFooter(w)
    {
      err := ReadFull();
      if err.None? && buf[..] != CRLF {
        err := Some(Malformed);
        return true;
      }
      checkEnd := false;
      stop := false;
    }

    /** chunked.go:86-99: chunk data into `p[at..to]`. */
    method ReadData(p: array<byte>, at: nat, to: nat, ghost w: Walked) returns (m: nat, ghost w': Walked)
      requires Settles(w) && err.None? && !checkEnd && n > 0 && at < to <= p.Length && p != r.reader.buf && p != buf
      modifies this`n, this`checkEnd, this`err, r, r.reader, r.reader.buf, r.reader.rd, p
      ensures Settles(w') && InFrame() && Beyond() == old(Beyond())
      ensures r.N >= 0 && at + m <= to && w == Then(p[at..at + m], w')
      ensures forall i :: 0 <= i < p.Length && !(at <= i < at + m) ==> p[i] == old(p[i])
      ensures r.N == old(r.N) - m && |r.reader.rd.plan| <= |old(r.reader.rd.plan)|
      ensures m == 0 && err.None? ==> |r.reader.rd.plan| < |old(r.reader.rd.plan)|
    {
      hide Walk, Left, Beyond, InFrame;
      ghost var s, n0 := Left(), n;
      m := TakeData(p, at, to);
      WalkData(n0, s, m);
      WalkNothing(n);
      w' := if m < n0 then Walk(Data(n), Left()) else Walk(Footer, Left());
    }

    /** One read within the chunk. */
    method TakeData(p: array<byte>, at: nat, to: nat) returns (m: nat)
      requires InFrame() && err.None? && !checkEnd && n > 0 && at < to <= p.Length && p != r.reader.buf && p != buf
      modifies this`n, this`checkEnd, this`err, r, r.reader, r.reader.buf, r.reader.rd, p
      ensures InFrame() && Beyond() == old(Beyond()) && at + m <= to
      ensures m <= old(n) && n == old(n) - m && m <= |old(Left())|
      ensures p[at..at + m] == old(Left())[..m] && Left() == old(Left())[m..]
      ensures forall i :: 0 <= i < p.Length && !(at <= i < at + m) ==> p[i] == old(p[i])
      ensures (err.Some? ==> err == Some(AtEOF) && Left() == []) && checkEnd == (n == 0 && err.None?)
      ensures r.N >= 0 && r.N == old(r.N) - m && |r.reader.rd.plan| <= |old(r.reader.rd.plan)|
      ensures m == 0 && err.None? ==> |r.reader.rd.plan| < |old(r.reader.rd.plan)|
    {
      var end := if to - at > n then at + n else to;
      var e;
      m, e := ReadSome(p, at, end);
      err := if e.Some? then Some(AtEOF) else None;
      n := n - m;
      checkEnd := n == 0 && err.None?;
    }

    /**
     Read into `p[from..to]`, chunk after chunk, as long as it need not wait. What
     it gives, followed by what is still to come, is what the frame decodes to.
     */
    method Read(p: array<byte>, from: nat, to: nat, ghost w: Walked) returns (m: nat, ghost w': Walked)
      requires Settles(w) && from <= to <= p.Length && p != r.reader.buf && p != buf
      modifies this`n, this`checkEnd, this`err, r, r.reader, r.reader.buf, r.reader.rd, buf, p
      ensures Settles(w') && InFrame() && Beyond() == old(Beyond())
      ensures from + m <= to && w == Then(p[from..from + m], w')
      ensures forall i :: 0 <= i < p.Length && !(from <= i < from + m) ==> p[i] == old(p[i])
      ensures err.None? && from < to ==> m > 0
      ensures r.N <= old(r.N)
    {
      hide Walk, Settles, InFrame, Place, Left, Beyond;
      m, w' := 0, w;
      Untouched(w);
      var more := true;
      while more && err.None?
        invariant Settles(w') && InFrame() && Beyond() == old(Beyond())
        invariant from + m <= to && w == Then(p[from..from + m], w')
        invariant forall i :: 0 <= i < p.Length && !(from <= i < from + m) ==> p[i] == old(p[i])
        invariant 0 <= r.N <= old(r.N) && (!more && err.None? ==> m > 0 || from == to)
        decreases r.N, err.None?, more, |r.reader.rd.plan|
      {
        m, w', more := Round(p, from, m, to, w, w');
      }
    }

    lemma Untouched(w: Walked)
      requires Settles(w)
      ensures w == Then([], w) && r.N >= 0 && InFrame()
    {
      assert [] + w.out == w.out;
    }

    /** One round of the loop of Read. */
    method Round(p: array<byte>, from: nat, m: nat, to: nat, ghost w: Walked, ghost w0: Walked)
      returns (m': nat, ghost w': Walked, more: bool)
      requires Settles(w0) && InFrame() && err.None? && from + m <= to <= p.Length && p != r.reader.buf && p != buf
      requires w == Then(p[from..from + m], w0)
      modifies this`n, this`checkEnd, this`err, r, r.reader, r.reader.buf, r.reader.rd, buf, p
      ensures Settles(w') && InFrame() && Beyond() == old(Beyond())
      ensures m <= m' && from + m' <= to && w == Then(p[from..from + m'], w')
      ensures forall i :: 0 <= i < p.Length && !(from + m <= i < from + m') ==> p[i] == old(p[i])
      ensures 0 <= r.N <= old(r.N) && (!more && err.None? ==> m' > 0 || from == to)
      ensures more && err.None? && r.N == old(r.N) ==> |r.reader.rd.plan| < |old(r.reader.rd.plan)|
    {
      hide Walk, Left, Explains, Place, Beyond, InFrame, Settles;
      m', w' := m, w0;
      var step := NextData(m > 0, w0);
      more := step.Again? || (step.HasData? && from + m < to);
      if step.HasData? && from + m < to {
        var k;
        k, w' := MoreData(p, from, m, to, w, w0);
        m' := m + k;
      }
    }

    /** ReadData behind the `m` bytes that are there. */
    method MoreData(p: array<byte>, from: nat, m: nat, to: nat, ghost w: Walked, ghost w0: Walked)
      returns (k: nat, ghost w': Walked)
      requires Settles(w0) && InFrame() && err.None? && !checkEnd && n > 0
      requires from + m < to <= p.Length && p != r.reader.buf && p != buf
      requires w == Then(p[from..from + m], w0)
      modifies this`n, this`checkEnd, this`err, r, r.reader, r.reader.buf, r.reader.rd, p
      ensures Settles(w') && InFrame() && Beyond() == old(Beyond())
      ensures from + m + k <= to && w == Then(p[from..from + m + k], w')
      ensures forall i :: 0 <= i < p.Length && !(from + m <= i < from + m + k) ==> p[i] == old(p[i])
      ensures r.N >= 0 && r.N == old(r.N) - k && |r.reader.rd.plan| <= |old(r.reader.rd.plan)|
      ensures k == 0 && err.None? ==> |r.reader.rd.plan| < |old(r.reader.rd.plan)|
    {
      hide Walk, Left, Explains, Place, Beyond, InFrame, Settles;
      ghost var had := p[from..from + m];
      k, w' := ReadData(p, from + m, to, w0);
      assert p[from..from + m + k] == had + p[from + m..from + m + k] by { assert had == p[from..from + m]; }
      ThenThen(had, p[from + m..from + m + k], w');
    }

    /** chunked.go:59-82: what comes before chunk data, unless it would have to be waited for. */
    method NextData(some: bool, ghost w: Walked) returns (step: Step)
      requires Settles(w) && InFrame() && err.None?
      modifies this`n, this`checkEnd, this`err, r, r.reader, r.reader.buf, r.reader.rd, buf
      ensures Settles(w) && InFrame() && Beyond() == old(Beyond()) && 0 <= r.N <= old(r.N)
      ensures step.Stop? && err.None? ==> some
      ensures step.Again? ==> err.Some? || r.N < old(r.N)
      ensures step.HasData? ==> err.None? && !checkEnd && n > 0
      ensures step.HasData? ==> r.N < old(r.N) || |r.reader.rd.plan| == |old(r.reader.rd.plan)|
    {
      hide Walk;
      if checkEnd {
        if some && r.reader.Buffered() < 2 { return Stop; }
        var stop := EndChunk(w);
        if stop { return Stop; }
      }
      if n == 0 {
        if some {
          var header := ChunkHeaderAvailable();
          if !header { return Stop; }
        }
        BeginChunk(w);
        return Again;
      }
      return HasData;
    }

    /** chunkHeaderAvailable: whether a newline is buffered. */
    method ChunkHeaderAvailable() returns (yes: bool)
      requires InFrame()
      modifies r.reader, r.reader.buf, r.reader.rd
      ensures InFrame() && Left() == old(Left()) && Beyond() == old(Beyond()) && r.N == old(r.N)
    {
      var k := r.reader.Buffered();
      if k == 0 { return false; }
      var peek, e := r.reader.Peek(k);
      yes := IndexByte(peek, LF) >= 0;
    }
  }

  /**
   Reads all there is, in pieces of the sizes `sizes` asks for. What comes out is
   what the frame decodes to, and the error tells how it ended.
   */
  method ReadAll(cr: ChunkedReader, sizes: seq<nat>) returns (all: seq<byte>)
    requires cr.InFrame() && cr.err.None?
    modifies cr, cr.r, cr.r.reader, cr.r.reader.buf, cr.r.reader.rd, cr.buf
    ensures cr.InFrame() && cr.err.Some? && cr.r == old(cr.r) && cr.Beyond() == old(cr.Beyond())
    ensures
      var w := old(Walk(cr.Place(), cr.Left()));
      all == w.out && Explains(cr.err.value, w, cr.Place(), cr.Left())
  {
    hide Walk, Explains;
    ghost var w0, w := Walk(cr.Place(), cr.Left()), Walk(cr.Place(), cr.Left());
    all := [];
    assert w0.out == all + w.out;
    var i := 0;
    while cr.err.None?
      invariant cr.Settles(w) && cr.r == old(cr.r) && cr.Beyond() == old(cr.Beyond())
      invariant w0 == Then(all, w)
      decreases |w.out|, cr.err.None?
    {
      var want := if i < |sizes| && sizes[i] > 0 then sizes[i] else 1;
      var p := new byte[want];
      var m;
      ghost var w1 := w;
      m, w := cr.Read(p, 0, want, w);
      ThenThen(all, p[0..m], w);
      all := all + p[..m];
      assert p[0..m] == p[..m];
      i := i + 1;
    }
    assert all + [] == all;
    assert w == w0.(out := []);
    SameFate(cr.err.value, w0, w, cr.Place(), cr.Left());
  }

  lemma SameFate(e: ReadError, w: Walked, w': Walked, place: Place, left: seq<byte>)
    requires Explains(e, w', place, left) && w' == w.(out := [])
    ensures Explains(e, w, place, left)
  {
  }

  /**
   The round trip: whatever was written in any writes and closed is read back in
   any pieces, for every fragmentation of the source, and then comes the end.
   */
  method ReadBack(cr: ChunkedReader, sizes: seq<nat>, ghost datas: seq<seq<byte>>, ghost rest: seq<byte>)
    returns (all: seq<byte>)
    requires cr.InFrame() && cr.err.None? && cr.Place() == Size
    requires cr.Left() == Coded(datas) + (LAST_CHUNK + rest) && forall i :: 0 <= i < |datas| ==> |datas[i]| < Hex.TWO_64
    modifies cr, cr.r, cr.r.reader, cr.r.reader.buf, cr.r.reader.rd, cr.buf
    ensures all == Flatten(datas) && cr.err == Some(AtEOF)
  {
    RoundTrip(datas, rest);
    all := ReadAll(cr, sizes);
  }
}
