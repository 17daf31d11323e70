/**
 `client/task.go`: `httpTask.Write` replaces the first line of a stream that
 starts with `Host:`, however the stream is cut into writes.
 */
module HostRewrite {
  import opened Wrappers
  import opened Bytes
  import opened Lines
  import opened Sinks

  const HOST: seq<byte> := [72, 111, 115, 116, 58] // "Host:"

  predicate AtHost(p: seq<byte>) {
    |p| >= 5 && p[0] == 72 && p[1] == 111 && p[2] == 115 && p[3] == 116 && p[4] == 58
  }

  /** The input with its first line that starts with `Host:`, newline included, replaced by `line`. */
  function Rewrite(line: seq<byte>, input: seq<byte>): seq<byte> {
    if AtHost(input) then line + AfterLine(input)
    else
      var i := IndexByte(input, LF);
      if i < 0 then input else input[..i + 1] + Rewrite(line, input[i + 1..])
  }

  ghost predicate LineStart(input: seq<byte>, i: nat) {
    i <= |input| && (i == 0 || input[i - 1] == LF)
  }

  ghost predicate HostAt(input: seq<byte>, i: nat) {
    LineStart(input, i) && AtHost(input[i..])
  }

  /** Line starts after the first line are the line starts of the rest. */
  lemma HostInRest(input: seq<byte>, n: nat, k: nat)
    requires n < |input| && input[n] == LF && k + n + 1 <= |input|
    ensures HostAt(input, k + n + 1) <==> HostAt(input[n + 1..], k)
  {
    assert input[n + 1..][k..] == input[k + n + 1..];
  }

  lemma HostNotInFirstLine(input: seq<byte>, i: nat)
    requires !AtHost(input) && HostAt(input, i)
    ensures 0 <= IndexByte(input, LF) < i <= |input|
  {
    assert input[0..] == input;
    IndexFirst(input, LF, IndexByte(input, LF));
  }

  /** `Rewrite` in terms of positions: without a line that starts with `Host:` the input stays as it is. */
  lemma {:induction false} RewriteNothing(line: seq<byte>, input: seq<byte>)
    requires forall i: nat :: !HostAt(input, i)
    ensures Rewrite(line, input) == input
    decreases |input|
  {
    assert !HostAt(input, 0) && input[0..] == input;
    var n := IndexByte(input, LF);
    if n >= 0 {
      IndexFirst(input, LF, n);
      var rest := input[n + 1..];
      forall k: nat ensures !HostAt(rest, k) { if k <= |rest| { HostInRest(input, n, k); } }
      RewriteNothing(line, rest);
      assert input == input[..n + 1] + rest;
    }
  }

  lemma SameTail(input: seq<byte>, n: nat, i: nat, line: seq<byte>, tail: seq<byte>)
    requires n <= i <= |input|
    ensures input[n..][i - n..] == input[i..]
    ensures input[..n] + (input[n..][..i - n] + line + tail) == input[..i] + line + tail
  {
  }

  /**
   And the first line start followed by `Host:` is where the line goes in, in place
   of what follows up to the next newline.
   */
  lemma {:induction false} RewriteFirst(line: seq<byte>, input: seq<byte>, i: nat)
    requires HostAt(input, i) && forall j: nat :: j < i ==> !HostAt(input, j)
    ensures Rewrite(line, input) == input[..i] + line + AfterLine(input[i..])
    decreases |input|
  {
    hide Rewrite, AtHost, IndexByte, HostAt, AfterLine;
    if AtHost(input) {
      RewriteHere(line, input);
    } else {
      HostNotInFirstLine(input, i);
      var n := IndexByte(input, LF);
      IndexFirst(input, LF, n);
      var rest, k := input[n + 1..], i - n - 1;
      HostInRest(input, n, k);
      forall j: nat | j < k ensures !HostAt(rest, j) { HostInRest(input, n, j); }
      RewriteFirst(line, rest, k);
      RewriteInRest(line, input, n, i);
    }
  }

  lemma RewriteHere(line: seq<byte>, input: seq<byte>)
    requires AtHost(input)
    ensures HostAt(input, 0) && Rewrite(line, input) == input[..0] + line + AfterLine(input[0..])
  {
    hide AfterLine;
    assert input[0..] == input && input[..0] + line == line;
  }

  lemma RewriteInRest(line: seq<byte>, input: seq<byte>, n: nat, i: nat)
    requires !AtHost(input) && IndexByte(input, LF) == n < i <= |input|
    requires Rewrite(line, input[n + 1..]) ==
             input[n + 1..][..i - n - 1] + line + AfterLine(input[n + 1..][i - n - 1..])
    ensures Rewrite(line, input) == input[..i] + line + AfterLine(input[i..])
  {
    hide *;
    RewriteStep(line, input, n);
    SameTail(input, n + 1, i, line, AfterLine(input[i..]));
  }

  lemma RewriteStep(line: seq<byte>, input: seq<byte>, n: nat)
    requires !AtHost(input) && IndexByte(input, LF) == n
    ensures Rewrite(line, input) == input[..n + 1] + Rewrite(line, input[n + 1..])
  {
    hide IndexByte, AtHost, AfterLine;
  }

  datatype Verdict = Good | Unsure | Replace

  /** isGoodToWrite. */
  function Judge(p: seq<byte>): (v: Verdict)
    requires p != []
    ensures v.Replace? <==> AtHost(p)
    ensures v.Unsure? <==> |p| < 5 && forall k :: 0 <= k < |p| ==> p[k] == HOST[k]
  {
    var l := if |p| > 5 then 5 else |p|;
    if p[..l] == HOST[..l] then
      if l < 5 then Unsure else Replace
    else Good
  }

  /** A line start that is good stays good whatever follows. */
  lemma GoodForGood(p: seq<byte>, q: seq<byte>)
    requires p != [] && Judge(p).Good?
    ensures !AtHost(p + q)
  {
    if |p| < 5 {
      var k :| 0 <= k < |p| && p[k] != HOST[k];
      assert (p + q)[k] == p[k];
    }
  }

  /** What is still to come out for the bytes `q` yet to be written, by the state `Write` is in. */
  datatype Mode = Plain | Skipping | Passing | LineHeld(held: seq<byte>)

  function Rest(line: seq<byte>, mode: Mode, q: seq<byte>): seq<byte> {
    match mode
    case Plain => q
    case Skipping => AfterLine(q)
    case Passing => if IndexByte(q, LF) < 0 then q else LineAndRest(line, q, IndexByte(q, LF) + 1)
    case LineHeld(held) => Rewrite(line, held + q)
  }

  function LineAndRest(line: seq<byte>, q: seq<byte>, n: nat): seq<byte>
    requires n <= |q|
  {
    q[..n] + Rewrite(line, q[n..])
  }

  lemma AfterNewline(p: seq<byte>, q: seq<byte>, i: nat)
    requires IndexByte(p, LF) == i
    ensures AfterLine(p + q) == p[i + 1..] + q
  {
    IndexAppend(p, q, LF);
    CutLeft(p, q, i + 1);
  }

  lemma PassingNewline(line: seq<byte>, p: seq<byte>, q: seq<byte>, i: nat)
    requires IndexByte(p, LF) == i
    ensures Rest(line, Passing, p + q) == p[..i + 1] + Rewrite(line, p[i + 1..] + q)
  {
    hide IndexByte, Rewrite;
    IndexAppend(p, q, LF);
    PassingAt(line, p + q, i);
    CutLeft(p, q, i + 1);
  }

  lemma LineAndRestJoins(line: seq<byte>, p: seq<byte>, q: seq<byte>, n: nat)
    requires n <= |q|
    ensures LineAndRest(line, p + q, |p| + n) == p + LineAndRest(line, q, n)
  {
    CutRight(p, q, n);
    Reassociate(p, q[..n], Rewrite(line, q[n..]));
  }

  lemma PassingNoNewline(line: seq<byte>, p: seq<byte>, q: seq<byte>)
    requires IndexByte(p, LF) < 0
    ensures Rest(line, Passing, p + q) == p + Rest(line, Passing, q)
  {
    hide IndexByte, LineAndRest, Rewrite;
    IndexAppend(p, q, LF);
    var j := IndexByte(q, LF);
    if j >= 0 {
      LineAndRestJoins(line, p, q, j + 1);
      PassingAt(line, q, j);
      PassingAt(line, p + q, |p| + j);
    } else {
      assert IndexByte(p + q, LF) < 0;
    }
  }

  lemma PassingAt(line: seq<byte>, q: seq<byte>, i: nat)
    requires IndexByte(q, LF) == i
    ensures Rest(line, Passing, q) == LineAndRest(line, q, i + 1)
  {
    hide IndexByte, LineAndRest;
  }

  /** A good line start: its line passes. */
  lemma GoodLine(line: seq<byte>, p: seq<byte>, q: seq<byte>)
    requires p != [] && Judge(p).Good?
    ensures Rewrite(line, p + q) == Rest(line, Passing, p + q)
  {
    GoodForGood(p, q);
  }

  /**
   Taking `p` in mode `m`, sending `out` and going on in mode `m'` is right:
   whatever comes after `p`, the output as a whole is what it was going to be.
   */
  ghost predicate Sends(line: seq<byte>, m: Mode, p: seq<byte>, out: seq<byte>, m': Mode) {
    forall q :: Sent(line, m, p, out, m', q)
  }

  ghost predicate Sent(line: seq<byte>, m: Mode, p: seq<byte>, out: seq<byte>, m': Mode, q: seq<byte>) {
    Rest(line, m, p + q) == out + Rest(line, m', q)
  }

  lemma SendsPrefix(line: seq<byte>, m: Mode, p: seq<byte>, out: seq<byte>, m': Mode, q: seq<byte>)
    requires Sends(line, m, p, out, m')
    ensures out <= Rest(line, m, p + q)
  {
    assert Sent(line, m, p, out, m', q);
  }

  lemma SendsThen(line: seq<byte>, m: Mode, p: seq<byte>, out: seq<byte>, m1: Mode, p': seq<byte>, out': seq<byte>,
                  m2: Mode)
    requires Sends(line, m, p, out, m1) && Sends(line, m1, p', out', m2)
    ensures Sends(line, m, p + p', out + out', m2)
  {
    forall q ensures Sent(line, m, p + p', out + out', m2, q) {
      Reassociate(p, p', q);
      assert Sent(line, m, p, out, m1, p' + q) && Sent(line, m1, p', out', m2, q);
      Reassociate(out, out', Rest(line, m2, q));
    }
  }

  lemma SendsNothing(line: seq<byte>, m: Mode)
    ensures Sends(line, m, [], [], m)
  {
    forall q ensures Sent(line, m, [], [], m, q) { assert [] + q == q; }
  }

  lemma SendsPlain(line: seq<byte>, p: seq<byte>)
    ensures Sends(line, Plain, p, p, Plain)
  {
    forall q ensures Sent(line, Plain, p, p, Plain, q) {}
  }

  lemma SendsSkipping(line: seq<byte>, p: seq<byte>)
    ensures
      var i := IndexByte(p, LF);
      if i < 0 then Sends(line, Skipping, p, [], Skipping) else Sends(line, Skipping, p, p[i + 1..], Plain)
  {
    var i := IndexByte(p, LF);
    if i < 0 {
      forall q ensures Sent(line, Skipping, p, [], Skipping, q) { AfterNoNewline(p, q); }
    } else {
      var tail := p[i + 1..];
      forall q ensures Sent(line, Skipping, p, tail, Plain, q) { AfterNewline(p, q, i); }
    }
  }

  lemma SendsPassing(line: seq<byte>, p: seq<byte>)
    ensures
      var i := IndexByte(p, LF);
      if i < 0 then Sends(line, Passing, p, p, Passing) else Sends(line, Passing, p[..i + 1], p[..i + 1], LineHeld([]))
  {
    var i := IndexByte(p, LF);
    if i < 0 {
      forall q ensures Sent(line, Passing, p, p, Passing, q) { PassingNoNewline(line, p, q); }
    } else {
      var x := p[..i + 1];
      IndexFirst(p, LF, i);
      IndexFirst(x, LF, i);
      forall q ensures Sent(line, Passing, x, x, LineHeld([]), q) {
        PassingNewline(line, x, q, i);
        assert x[..i + 1] == x && x[i + 1..] + q == q && [] + q == q;
      }
    }
  }

  lemma SendsHeld(line: seq<byte>, held: seq<byte>, p: seq<byte>, out: seq<byte>, m: Mode)
    ensures Sends(line, LineHeld(held), p, [], LineHeld(held + p))
    ensures Sends(line, LineHeld([]), held + p, out, m) ==> Sends(line, LineHeld(held), p, out, m)
  {
    forall q ensures Sent(line, LineHeld(held), p, [], LineHeld(held + p), q) {
      Reassociate(held, p, q);
    }
    if Sends(line, LineHeld([]), held + p, out, m) {
      forall q ensures Sent(line, LineHeld(held), p, out, m, q) {
        Reassociate(held, p, q);
        assert [] + ((held + p) + q) == (held + p) + q;
        assert Sent(line, LineHeld([]), held + p, out, m, q);
      }
    }
  }

  lemma SendsGood(line: seq<byte>, p: seq<byte>)
    requires p != [] && Judge(p).Good?
    ensures
      var i := IndexByte(p, LF);
      if i < 0 then Sends(line, LineHeld([]), p, p, Passing)
        else Sends(line, LineHeld([]), p[..i + 1], p[..i + 1], LineHeld([]))
  {
    hide IndexByte, Rewrite, Rest, Sends;
    SendsPassing(line, p);
    var i := IndexByte(p, LF);
    if i < 0 {
      GoodPasses(line, p, Passing);
    } else {
      IndexFirst(p, LF, i);
      ShortLineGood(p, i);
      GoodPasses(line, p[..i + 1], LineHeld([]));
    }
  }

  lemma GoodPasses(line: seq<byte>, x: seq<byte>, m: Mode)
    requires x != [] && Judge(x).Good? && Sends(line, Passing, x, x, m)
    ensures Sends(line, LineHeld([]), x, x, m)
  {
    forall q ensures Sent(line, LineHeld([]), x, x, m, q) {
      assert Sent(line, Passing, x, x, m, q);
      assert [] + (x + q) == x + q;
      GoodLine(line, x, q);
    }
  }

  /** Cutting a good line after its newline leaves it good. */
  lemma ShortLineGood(p: seq<byte>, i: nat)
    requires i < |p| && p[i] == LF && Judge(p).Good?
    ensures Judge(p[..i + 1]).Good?
  {
    var x := p[..i + 1];
    assert x[i] == LF;
    assert AtHost(x) ==> AtHost(p);
  }

  lemma SendsHost(line: seq<byte>, p: seq<byte>)
    requires AtHost(p)
    ensures
      var i := IndexByte(p, LF);
      if i < 0 then Sends(line, LineHeld([]), p, line, Skipping)
        else Sends(line, LineHeld([]), p, line + p[i + 1..], Plain)
  {
    SendsSkipping(line, p);
    if IndexByte(p, LF) < 0 {
      HostSkips(line, p, [], Skipping);
      assert line + [] == line;
    } else {
      HostSkips(line, p, p[IndexByte(p, LF) + 1..], Plain);
    }
  }

  lemma HostSkips(line: seq<byte>, p: seq<byte>, out: seq<byte>, m: Mode)
    requires AtHost(p) && Sends(line, Skipping, p, out, m)
    ensures Sends(line, LineHeld([]), p, line + out, m)
  {
    forall q ensures Sent(line, LineHeld([]), p, line + out, m, q) {
      assert [] + (p + q) == p + q && AtHost(p + q);
      assert Sent(line, Skipping, p, out, m, q);
      Reassociate(line, out, Rest(line, m, q));
    }
  }

  /** The line that setHost makes. */
  function HostLine(host: seq<byte>): seq<byte> {
    [72, 111, 115, 116, 58, 32] + host + [CR, LF]
  }

  /** `line` is one whole line, `Host: ` and the host. */
  ghost predicate IsHostLine(line: seq<byte>, host: seq<byte>) {
    |line| == |host| + 8 && line[..6] == Ascii("Host: ") && line[6..|host| + 6] == host &&
    line[|host| + 6..] == [13, 10] && (10 !in host ==> 10 !in line[..|host| + 7])
  }

  /** What the bytes of the constants say. */
  lemma HostText(p: seq<byte>)
    ensures HOST == Ascii("Host:")
    ensures AtHost(p) <==> Ascii("Host:") <= p
    ensures Ascii("Host: ") == [72, 111, 115, 116, 58, 32]
  {
  }

  lemma HostLineIs(host: seq<byte>)
    ensures IsHostLine(HostLine(host), host)
  {
    HostText([]);
    hide Ascii;
    var line := HostLine(host);
    assert line[..6] == [72, 111, 115, 116, 58, 32] && line[6..|host| + 6] == host;
    assert forall k :: 6 <= k < |host| + 6 ==> line[k] == host[k - 6];
  }

  lemma FirstOfLine(host: seq<byte>)
    ensures |HostLine(host)| == |host| + 8
    ensures IndexByte(HostLine(host), LF) == if IndexByte(host, LF) < 0 then |host| + 7 else IndexByte(host, LF) + 6
  {
    var front: seq<byte>, end: seq<byte> := [72, 111, 115, 116, 58, 32], [CR, LF];
    IndexFirst(front, LF, -1);
    IndexFirst(end, LF, 1);
    assert HostLine(host) == (front + host) + end;
    hide IndexByte, HostLine;
    IndexAppend(front, host, LF);
    IndexAppend(front + host, end, LF);
  }

  lemma HasNewline(p: seq<byte>)
    ensures 10 in p <==> IndexByte(p, LF) >= 0
  {
    IndexFirst(p, LF, IndexByte(p, LF));
  }

  lemma HostLineText(host: seq<byte>, rest: seq<byte>)
    ensures AtHost(HostLine(host) + rest)
    ensures DropCR(HostLine(host)[..|host| + 7]) == Ascii("Host: ") + host
    ensures Ascii("Host: ") + host + [13, 10] == HostLine(host)
  {
    HostText([]);
    hide Ascii;
    assert HostLine(host)[..|host| + 7] == [72, 111, 115, 116, 58, 32] + host + [CR];
  }

  /** Inputs that agree up to a line start have the same `Host:` lines before it. */
  lemma SameBefore(a: seq<byte>, b: seq<byte>, i: nat, j: nat)
    requires j < i <= |a| && i <= |b| && a[..i] == b[..i] && LineStart(a, i) && HostAt(a, j)
    ensures HostAt(b, j)
  {
    assert forall k :: 0 <= k < i ==> a[..i][k] == b[..i][k];
    assert forall k :: 0 <= k < 5 ==> a[j..][k] == a[j + k];
    assert j + 5 <= i;
    assert forall k :: 0 <= k < 5 ==> b[j..][k] == b[j + k];
  }

  /**
   What the local service reads: the first line of the output that starts with
   `Host:` is `Host: ` and the configured host, where the first such line of the
   input was; what is before and behind it is the input's.
   */
  lemma ReadsBack(host: seq<byte>, input: seq<byte>, i: nat)
    requires 10 !in host && HostAt(input, i) && forall j: nat :: j < i ==> !HostAt(input, j)
    ensures
      var out := Rewrite(HostLine(host), input);
      && HostAt(out, i) && (forall j: nat :: j < i ==> !HostAt(out, j))
      && Ascii("Host: ") + host + [13, 10] <= out[i..] && FirstLine(out[i..]) == Ascii("Host: ") + host
      && out[..i] == input[..i] && AfterLine(out[i..]) == AfterLine(input[i..])
  {
    hide Rewrite, AtHost, Ascii, IndexByte, HostLine, DropCR, FirstLine, AfterLine;
    var line, rest := HostLine(host), AfterLine(input[i..]);
    var out := Rewrite(line, input);
    RewriteFirst(line, input, i);
    HostLineText(host, rest);
    HasNewline(host);
    FirstOfLine(host);
    assert out[i..] == line + rest && out[..i] == input[..i];
    FirstLineCut(line, rest);
    forall j: nat | j < i ensures !HostAt(out, j) {
      if HostAt(out, j) { SameBefore(out, input, i, j); }
    }
  }

  lemma {:induction false} LeastHost(input: seq<byte>, n: nat) returns (i: nat)
    requires HostAt(input, n)
    ensures HostAt(input, i) && forall j: nat :: j < i ==> !HostAt(input, j)
    decreases n
  {
    hide HostAt;
    if j: nat :| j < n && HostAt(input, j) {
      i := LeastHost(input, j);
    } else {
      i := n;
    }
  }

  /**
   Rewriting what was rewritten changes nothing, if and only if the host is free of
   newlines or there was no `Host:` line.
   */
  lemma RewriteTwice(host: seq<byte>, input: seq<byte>)
    ensures
      var line := HostLine(host);
      Rewrite(line, Rewrite(line, input)) == Rewrite(line, input) <==> 10 !in host || forall i: nat :: !HostAt(input, i)
  {
    hide Rewrite, HostAt, HostLine;
    var line := HostLine(host);
    if n: nat :| HostAt(input, n) {
      var i := LeastHost(input, n);
      RewriteAgain(host, input, i);
    } else {
      RewriteNothing(line, input);
    }
  }

  lemma RewriteAgain(host: seq<byte>, input: seq<byte>, i: nat)
    requires HostAt(input, i) && forall j: nat :: j < i ==> !HostAt(input, j)
    ensures
      var line := HostLine(host);
      Rewrite(line, Rewrite(line, input)) == Rewrite(line, input) <==> 10 !in host
  {
    hide Rewrite, AtHost, IndexByte, HostLine, AfterLine;
    var line, rest := HostLine(host), AfterLine(input[i..]);
    var out := Rewrite(line, input);
    RewriteFirst(line, input, i);
    HasNewline(host);
    FirstOfLine(host);
    HostLineText(host, rest);
    assert out[i..] == line + rest && out[..i] == input[..i];
    forall j: nat | j < i ensures !HostAt(out, j) {
      if HostAt(out, j) { SameBefore(out, input, i, j); }
    }
    RewriteFirst(line, out, i);
    var n := IndexByte(line, LF);
    LineThen(line, rest, n);
    if 10 !in host {
      assert line[n + 1..] + rest == rest;
    } else {
      assert |Rewrite(line, out)| == |out| + |line| - n - 1;
    }
  }

  lemma LineThen(line: seq<byte>, rest: seq<byte>, n: nat)
    requires IndexByte(line, LF) == n
    ensures AfterLine(line + rest) == line[n + 1..] + rest
  {
    IndexAppend(line, rest, LF);
    CutLeft(line, rest, n + 1);
  }

  datatype Error = HostIsTooLong

  /** httpTask. `buf` holds the line to put in; `tempBuf` is nil when nothing is left to replace. */
  class Task {
    const conn: Sink
    var buf: seq<byte>
    var tempBuf: Option<seq<byte>>
    var skipping: bool
    var passing: bool

    constructor (c: Sink)
      requires c.Within()
      ensures conn == c && Valid() && Mode() == Plain
    {
      conn, buf, tempBuf, skipping, passing := c, [], None, false, false;
    }

    ghost predicate Valid()
      reads this, conn
    {
      && conn.Within()
      && (tempBuf.None? ==> !skipping && !passing)
      && !(skipping && passing)
      && (skipping || passing ==> tempBuf == Some([]))
      && (tempBuf.Some? ==> |tempBuf.value| < 5)
    }

    ghost function Mode(): Mode
      reads this
    {
      if tempBuf.None? then Plain else if skipping then Skipping else if passing then Passing
        else LineHeld(tempBuf.value)
    }

    /** The at most 4 bytes kept back. */
    function Held(): seq<byte>
      reads this
    {
      if tempBuf.None? then [] else tempBuf.value
    }

    /** setHost. */
    method SetHost(host: seq<byte>) returns (err: Option<Error>)
      requires Valid()
      modifies this
      ensures Valid()
      ensures err.Some? <==> |host| > 200
      ensures err.Some? ==> Mode() == old(Mode()) && buf == old(buf)
      ensures err.None? ==> buf == HostLine(host) && IsHostLine(buf, host)
      ensures err.None? && !old(skipping) && !old(passing) ==> Mode() == LineHeld([])
    {
      if |host| > 200 { return Some(HostIsTooLong); }
      buf := HostLine(host);
      HostLineIs(host);
      tempBuf := Some([]);
      err := None;
    }

    /**
     The outcome of taking `p` in mode `m`, when the connection had received
     `before`: on success what was sent is right; if the connection failed, what
     it received is a prefix of what it should receive.
     */
    ghost predicate Took(p: seq<byte>, m: Mode, before: seq<byte>, ok: bool)
      reads this, conn
    {
      before <= conn.received &&
      if ok then Sends(buf, m, p, conn.received[|before|..], Mode())
      else conn.Full() && conn.received <= before + Rest(buf, m, p)
    }

    /** One write of `x` on the connection, which is what taking `p` should send. */
    method Send(x: seq<byte>, ghost p: seq<byte>, ghost m: Mode) returns (n: nat, ok: bool)
      requires Sends(buf, m, p, x, Mode()) && conn.Within()
      modifies conn
      ensures conn.Within() && n <= |x| && (ok ==> n == |x|) && conn.received == old(conn.received) + x[..n]
      ensures conn.capacity.None? ==> ok
      ensures Took(p, m, old(conn.received), ok)
    {
      n, ok := conn.Write(x);
      assert ok ==> x[..n] == x;
      SendsPrefix(buf, m, p, x, Mode(), []);
      assert p + [] == p;
    }

    /** Write: takes all of `p`, whatever the mode, unless the connection fails. */
    method Write(p: seq<byte>) returns (n: nat, ok: bool)
      requires Valid()
      modifies this, conn
      ensures Valid() && buf == old(buf) && n <= |p| && (ok ==> n == |p|)
      ensures conn.capacity.None? ==> ok
      ensures Took(p, old(Mode()), old(conn.received), ok)
    {
      if tempBuf.None? {
        SendsPlain(buf, p);
        n, ok := Send(p, p, Plain);
      } else if skipping {
        n, ok := WriteSkipping(p);
      } else if passing {
        n, ok := WritePassing(p);
      } else {
        n, ok := WriteLines(p);
      }
    }

    /** task.go:56-71. */
    method WriteSkipping(p: seq<byte>) returns (n: nat, ok: bool)
      requires Valid() && tempBuf.Some? && skipping
      modifies this, conn
      ensures Valid() && buf == old(buf) && n <= |p| && (ok ==> n == |p|)
      ensures conn.capacity.None? ==> ok
      ensures Took(p, Skipping, old(conn.received), ok)
    {
      SendsSkipping(buf, p);
      var i := IndexByte(p, LF);
      if i < 0 { return |p|, true; }
      skipping := false;
      tempBuf := None;
      if |p| <= i + 1 {
        assert conn.received[|old(conn.received)|..] == p[i + 1..];
        return |p|, true;
      }
      n, ok := Send(p[i + 1..], p, Skipping);
      n := n + i + 1;
    }

    /** task.go:72-92: the line that passes, and then the next lines. */
    method WritePassing(p: seq<byte>) returns (n: nat, ok: bool)
      requires Valid() && tempBuf.Some? && passing
      modifies this, conn
      ensures Valid() && buf == old(buf) && n <= |p| && (ok ==> n == |p|)
      ensures conn.capacity.None? ==> ok
      ensures Took(p, Passing, old(conn.received), ok)
    {
      SendsPassing(buf, p);
      var i := IndexByte(p, LF);
      if i < 0 {
        n, ok := Send(p, p, Passing);
        return;
      }
      passing := false;
      ghost var before := conn.received;
      ghost var x, y := p[..i + 1], p[i + 1..];
      assert p == x + y;
      n, ok := Send(p[..i + 1], x, Passing);
      if !ok {
        SendsPrefix(buf, Passing, x, x, LineHeld([]), y);
        assert conn.received <= before + x;
        return;
      }
      assert conn.received == before + x;
      if |p| == i + 1 { assert x == p; return; }
      var m;
      m, ok := WriteLines(p[i + 1..]);
      n := n + m;
      TookThen(x, y, Passing, LineHeld([]), before, x, ok);
    }

    /** After `x` was sent for `p1`, taking `p2` has the outcome `ok`. */
    lemma TookThen(p1: seq<byte>, p2: seq<byte>, m: Mode, m1: Mode, before: seq<byte>, x: seq<byte>, ok: bool)
      requires Sends(buf, m, p1, x, m1) && Took(p2, m1, before + x, ok)
      ensures Took(p1 + p2, m, before, ok)
    {
      hide Rest, IndexByte;
      if ok {
        var out := conn.received[|before + x|..];
        SendsThen(buf, m, p1, x, m1, p2, out, Mode());
        assert conn.received == before + x + out;
        assert conn.received[|before|..] == x + out;
      } else {
        assert Sent(buf, m, p1, x, m1, p2);
        Reassociate(before, x, Rest(buf, m1, p2));
        assert before <= before + x <= conn.received;
      }
    }

    /** The connection failed `n` bytes into the line `l`. */
    lemma TookPart(p: seq<byte>, l: seq<byte>, rest: seq<byte>, before: seq<byte>, out: seq<byte>, n: nat)
      requires Sends(buf, LineHeld([]), p, out, LineHeld([])) && Sends(buf, LineHeld([]), l, l, LineHeld([]))
      requires n <= |l| && conn.Full() && conn.received == (before + out) + l[..n]
      ensures Took(p + l + rest, LineHeld([]), before, false)
    {
      SendsThen(buf, LineHeld([]), p, out, LineHeld([]), l, l, LineHeld([]));
      SendsPrefix(buf, LineHeld([]), p + l, out + l, LineHeld([]), rest);
      assert conn.received <= before + (out + l);
    }

    /** task.go:94-113: at a line start, with the bytes kept back put in front. */
    method WriteLines(p: seq<byte>) returns (n: nat, ok: bool)
      requires Valid() && tempBuf.Some? && !skipping && !passing
      modifies this, conn
      ensures Valid() && buf == old(buf) && n <= |p| && (ok ==> n == |p|)
      ensures conn.capacity.None? ==> ok
      ensures Took(p, old(Mode()), old(conn.received), ok)
    {
      var held := tempBuf.value;
      if |p| + |held| < 5 {
        SendsHeld(buf, held, p, [], Plain);
        tempBuf := Some(held + p);
        return |p|, true;
      }
      if |held| > 0 {
        tempBuf := Some([]);
        n, ok := ScanLines(held + p);
        n := |p|;
        SendsHeld(buf, held, p, conn.received[|old(conn.received)|..], Mode());
        assert Rest(buf, LineHeld([]), held + p) == Rest(buf, LineHeld(held), p) by {
          assert [] + (held + p) == held + p;
        }
      } else {
        n, ok := ScanLines(p);
      }
    }

    /** task.go:115-183: line by line; `n` counts the bytes of `p` that were taken. */
    method ScanLines(p: seq<byte>) returns (n: nat, ok: bool)
      requires Valid() && tempBuf == Some([]) && !skipping && !passing
      modifies this, conn
      ensures Valid() && buf == old(buf) && n <= |p| && (ok ==> n == |p|)
      ensures conn.capacity.None? ==> ok
      ensures Took(p, LineHeld([]), old(conn.received), ok)
    {
      n, ok := 0, true;
      ghost var before, m := conn.received, LineHeld([]);
      var s := 0;
      SendsHeld(buf, [], [], [], Plain);
      while s < |p|
        invariant Valid() && 0 <= s <= |p| && n == s && ok && tempBuf == Some([]) && !skipping && !passing
        invariant buf == old(buf)
        invariant Took(p[..s], m, before, true)
      {
        var x := p[s..];
        assert p[..s] + x == p;
        var i := IndexByte(x, LF);
        var nw;
        if !Judge(x).Good? || i < 0 {
          nw, ok := LastLine(x, p[..s], before);
          n := n + nw;
          return;
        }
        nw, ok := PassLine(x, i, p[..s], before);
        n := n + nw;
        if !ok { return; }
        s := s + i + 1;
        assert p[..s - i - 1] + x[..i + 1] == p[..s];
      }
      assert p[..s] == p;
    }

    /** A good line and its newline; `done` has been taken since the connection had `before`. */
    method PassLine(x: seq<byte>, i: nat, ghost done: seq<byte>, ghost before: seq<byte>) returns (n: nat, ok: bool)
      requires Valid() && tempBuf == Some([]) && !skipping && !passing && i == IndexByte(x, LF) && Judge(x).Good?
      requires Took(done, LineHeld([]), before, true)
      modifies conn
      ensures Valid() && n <= i + 1 && (ok ==> n == i + 1)
      ensures conn.capacity.None? ==> ok
      ensures Took(if ok then done + x[..i + 1] else done + x, LineHeld([]), before, ok)
    {
      ghost var out, l := conn.received[|before|..], x[..i + 1];
      assert conn.received == before + out;
      SendsGood(buf, x);
      n, ok := Send(x[..i + 1], l, LineHeld([]));
      if ok {
        TookThen(done, l, LineHeld([]), LineHeld([]), before, out, true);
      } else {
        TookPart(done, l, x[i + 1..], before, out, n);
        assert done + x == done + l + x[i + 1..];
      }
    }

    /** The cases of the loop that end it: a good line without its newline, an unsure one, and the `Host:` line. */
    method LastLine(x: seq<byte>, ghost done: seq<byte>, ghost before: seq<byte>) returns (n: nat, ok: bool)
      requires Valid() && tempBuf == Some([]) && !skipping && !passing && x != []
      requires Took(done, LineHeld([]), before, true)
      requires !Judge(x).Good? || IndexByte(x, LF) < 0
      modifies this, conn
      ensures Valid() && buf == old(buf) && n <= |x| && (ok ==> n == |x|)
      ensures conn.capacity.None? ==> ok
      ensures Took(done + x, LineHeld([]), before, ok)
    {
      ghost var out := conn.received[|before|..];
      assert conn.received == before + out;
      match Judge(x) {
      case Good =>
        SendsGood(buf, x);
        passing := true;
        n, ok := Send(x, x, LineHeld([]));
      case Unsure =>
        SendsHeld(buf, [], x, [], Plain);
        assert [] + x == x;
        tempBuf := Some(x);
        n, ok := |x|, true;
      case Replace =>
        n, ok := ReplaceLine(x);
      }
      TookThen(done, x, LineHeld([]), LineHeld([]), before, out, ok);
    }

    /** task.go:148-181. */
    method ReplaceLine(x: seq<byte>) returns (n: nat, ok: bool)
      requires Valid() && tempBuf == Some([]) && !skipping && !passing && AtHost(x)
      modifies this, conn
      ensures Valid() && buf == old(buf) && n <= |x| && (ok ==> n == |x|)
      ensures conn.capacity.None? ==> ok
      ensures Took(x, LineHeld([]), old(conn.received), ok)
    {
      SendsHost(buf, x);
      var i := IndexByte(x, LF);
      if i < 0 {
        ghost var before := conn.received;
        SendsPrefix(buf, LineHeld([]), x, buf, Skipping, []);
        assert x + [] == x;
        var nw;
        nw, ok := conn.Write(buf);
        if !ok { return 0, false; }
        assert conn.received == before + buf;
        skipping := true;
        n := |x|;
      } else {
        n, ok := ReplaceAndSend(x, i);
      }
    }

    /** task.go:166-180: the new line, and what follows the old one. */
    method ReplaceAndSend(x: seq<byte>, i: nat) returns (n: nat, ok: bool)
      requires Valid() && tempBuf == Some([]) && !skipping && !passing && i == IndexByte(x, LF)
      requires Sends(buf, LineHeld([]), x, buf + x[i + 1..], Plain)
      modifies this, conn
      ensures Valid() && buf == old(buf) && n <= |x| && (ok ==> n == |x|)
      ensures conn.capacity.None? ==> ok
      ensures Took(x, LineHeld([]), old(conn.received), ok)
    {
      ghost var before, out := conn.received, buf + x[i + 1..];
      SendsPrefix(buf, LineHeld([]), x, out, Plain, []);
      assert x + [] == x;
      n := 0;
      var nw;
      nw, ok := conn.Write(buf);
      if !ok { return; }
      assert conn.received == before + buf;
      n := i + 1;
      tempBuf := None;
      if |x[i + 1..]| > 0 {
        nw, ok := conn.Write(x[i + 1..]);
        n := n + nw;
        assert conn.received == before + (buf + x[i + 1..][..nw]);
      }
      assert ok ==> conn.received == before + out;
    }
  }

  /**
   The law of the rewriter: on a connection that does not fail, however the input
   is cut into writes, what the connection received, followed by the at most 4
   bytes kept back, is the input with its first `Host:` line replaced, and each
   write reports all its bytes as written.
   */
  method Feed(t: Task, chunks: seq<seq<byte>>) returns (counts: seq<nat>)
    requires t.Valid() && t.Mode() == LineHeld([]) && t.conn.capacity == None
    modifies t, t.conn
    ensures t.Valid() && t.buf == old(t.buf)
    ensures t.conn.received + t.Held() == old(t.conn.received) + Rewrite(t.buf, Flatten(chunks))
    ensures |t.Held()| <= 4
    ensures |counts| == |chunks| && forall i :: 0 <= i < |chunks| ==> counts[i] == |chunks[i]|
  {
    hide Fed, Task.Valid, Task.Held, Rewrite, Flatten;
    counts := [];
    ghost var before, done := t.conn.received, [];
    FedNothing(t, chunks);
    for i := 0 to |chunks|
      invariant t.Valid() && t.buf == old(t.buf) && t.conn.capacity == None
      invariant done == Flatten(chunks[..i]) && Fed(t, before, done)
      invariant |counts| == i && forall j :: 0 <= j < i ==> counts[j] == |chunks[j]|
    {
      var n := FeedOne(t, before, done, chunks[i]);
      counts := counts + [n];
      done := done + chunks[i];
      FlattenNext(chunks, i);
    }
    assert chunks[..|chunks|] == chunks;
    FedHas(t, before, done);
  }

  lemma FedNothing(t: Task, chunks: seq<seq<byte>>)
    requires t.Mode() == LineHeld([])
    ensures Fed(t, t.conn.received, []) && Flatten(chunks[..0]) == []
  {
    SendsHeld(t.buf, [], [], [], Plain);
    assert t.conn.received[|t.conn.received|..] == [];
  }

  lemma FedHas(t: Task, before: seq<byte>, input: seq<byte>)
    requires t.Valid() && Fed(t, before, input)
    ensures t.conn.received + t.Held() == before + Rewrite(t.buf, input) && |t.Held()| <= 4
  {
    var out := t.conn.received[|before|..];
    Finished(t.buf, LineHeld([]), input, out, t.Mode(), t.Held());
    assert [] + input == input;
    assert t.conn.received == before + out;
    Reassociate(before, out, t.Held());
  }

  /** `input` has been written, and the connection has received what it should since it had `before`. */
  ghost predicate Fed(t: Task, before: seq<byte>, input: seq<byte>)
    reads t, t.conn
  {
    before <= t.conn.received && Sends(t.buf, LineHeld([]), input, t.conn.received[|before|..], t.Mode())
  }

  method FeedOne(t: Task, ghost before: seq<byte>, ghost input: seq<byte>, chunk: seq<byte>) returns (n: nat)
    requires t.Valid() && t.conn.capacity == None && Fed(t, before, input)
    modifies t, t.conn
    ensures t.Valid() && t.buf == old(t.buf) && t.conn.capacity == None
    ensures n == |chunk| && Fed(t, before, input + chunk)
  {
    ghost var m, mid := t.Mode(), t.conn.received;
    var ok;
    n, ok := t.Write(chunk);
    SendsThen(t.buf, LineHeld([]), input, mid[|before|..], m, chunk, t.conn.received[|mid|..], t.Mode());
    assert t.conn.received[|before|..] == mid[|before|..] + t.conn.received[|mid|..];
  }

  /** With no more input to come, what is kept back is all that is missing. */
  lemma Finished(line: seq<byte>, m0: Mode, p: seq<byte>, out: seq<byte>, m: Mode, held: seq<byte>)
    requires Sends(line, m0, p, out, m)
    requires match m case LineHeld(h) => held == h && |h| < 5 case _ => held == []
    ensures Rest(line, m0, p) == out + held
  {
    assert p + [] == p;
    assert Sent(line, m0, p, out, m, []);
    if m.LineHeld? {
      assert held + [] == held;
      forall i: nat ensures !HostAt(held, i) {}
      RewriteNothing(line, held);
    }
  }
}
