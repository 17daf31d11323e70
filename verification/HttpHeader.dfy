/**
 `server/http.go`: the value of a header is looked for in what is buffered of a
 request, and more is buffered until it is there. Trimming white space is the
 standard library's and stands as the parameter `trim`.
 */
module HttpHeader {
  import opened Wrappers
  import opened Bytes
  import opened Lines
  import Bufio

  const MAX_HTTP_HEADER_SIZE := 2048
  const DOT: byte := 46

  datatype Answer =
    | Value(value: seq<byte>) | InvalidHeaderLength | EndOfHeaders | InvalidHTTPProtocol | ReadError(err: Bufio.Error)

  /** A line of `s` begins at `from` and its newline is at `i`. */
  ghost predicate IsLine(s: seq<byte>, from: nat, i: nat) {
    from <= i < |s| && s[i] == LF && (from == 0 || s[from - 1] == LF) && forall k :: from <= k < i ==> s[k] != LF
  }

  /** The line has the target in front. */
  predicate Matches(s: seq<byte>, target: seq<byte>, from: nat, i: nat) {
    from + |target| <= i <= |s| && s[from..from + |target|] == target
  }

  /** The newline at `i` is the last byte of an empty line. */
  predicate Ends(s: seq<byte>, i: nat) {
    3 <= i < |s| && s[i - 3..i + 1] == [CR, LF, CR, LF]
  }

  ghost predicate Decides(s: seq<byte>, target: seq<byte>, from: nat, i: nat) {
    IsLine(s, from, i) && (Matches(s, target, from, i) || Ends(s, i))
  }

  /** The newline at `i`, of the line from `from`, is the first at which there is an answer. */
  ghost predicate Deciding(s: seq<byte>, target: seq<byte>, from: nat, i: nat) {
    Decides(s, target, from, i) && forall f: nat, j: nat :: Decides(s, target, f, j) ==> i <= j
  }

  function AnswerAt(s: seq<byte>, target: seq<byte>, trim: seq<byte> -> seq<byte>, from: nat, i: nat): Answer {
    if Matches(s, target, from, i) then
      var line := trim(s[from + |target|..i]);
      if |line| < 1 || |line| > 512 then InvalidHeaderLength else Value(line)
    else EndOfHeaders
  }

  /** What decides in the front part of the input decides in the input, and conversely up to there. */
  lemma DecidesInFront(s: seq<byte>, n: nat, target: seq<byte>, from: nat, i: nat)
    requires n <= |s| && i < n
    ensures Decides(s[..n], target, from, i) <==> Decides(s, target, from, i)
    ensures Matches(s[..n], target, from, i) <==> Matches(s, target, from, i)
  {
    hide IsLine;
    var p := s[..n];
    if from + |target| <= i { assert p[from..from + |target|] == s[from..from + |target|]; }
    if 3 <= i { assert p[i - 3..i + 1] == s[i - 3..i + 1]; }
    LineInFront(s, n, from, i);
  }

  lemma LineInFront(s: seq<byte>, n: nat, from: nat, i: nat)
    requires n <= |s| && i < n
    ensures IsLine(s[..n], from, i) <==> IsLine(s, from, i)
  {
    var p := s[..n];
    if from <= i {
      assert p[i] == s[i] && (from > 0 ==> p[from - 1] == s[from - 1]);
      assert forall k :: from <= k < i ==> p[k] == s[k];
    }
  }

  /** Lines do not overlap. */
  lemma SameLine(s: seq<byte>, f: nat, g: nat, i: nat)
    requires IsLine(s, f, i) && IsLine(s, g, i)
    ensures f == g
  {
  }

  /** http.go:38-61: one pass over what is buffered. */
  method ScanHeaders(headers: seq<byte>, target: seq<byte>) returns (found: bool, from: nat, at: nat)
    ensures found ==> Deciding(headers, target, from, at)
    ensures !found ==> forall f: nat, j: nat :: !Decides(headers, target, f, j)
  {
    var s, i := 0, 0;
    while i < |headers|
      invariant s <= i <= |headers| && (s == 0 || headers[s - 1] == LF) && forall k :: s <= k < i ==> headers[k] != LF
      invariant forall f: nat, j: nat :: Decides(headers, target, f, j) ==> i <= j
    {
      if headers[i] == LF {
        assert IsLine(headers, s, i);
        if Matches(headers, target, s, i) || Ends(headers, i) { return true, s, i; }
        forall f: nat, j: nat | Decides(headers, target, f, j) ensures i + 1 <= j {
          if j == i { SameLine(headers, s, f, i); }
        }
        s := i + 1;
      }
      i := i + 1;
    }
    found, from, at := false, 0, 0;
  }

  /**
   peekHeader. The answer is that of a single pass over the whole input, for every
   fragmentation, if its deciding newline has an index of at most 2048. It always
   ends, and nothing is consumed.
   */
  method PeekHeader(reader: Bufio.Reader, target: seq<byte>, trim: seq<byte> -> seq<byte>)
    returns (a: Answer, ghost decided: bool, ghost from: nat, ghost at: nat)
    requires reader.Valid()
    modifies reader, reader.buf, reader.rd
    ensures reader.Valid() && reader.Stream() == old(reader.Stream())
    ensures decided ==>
             Deciding(reader.Stream(), target, from, at) && a == AnswerAt(reader.Stream(), target, trim, from, at)
    ensures !decided ==> a.InvalidHTTPProtocol? || a.ReadError?
    ensures a.InvalidHTTPProtocol? ==> forall f: nat, j: nat :: Decides(reader.Stream(), target, f, j) ==>
            j > MAX_HTTP_HEADER_SIZE
    ensures old(reader.Quiet()) && reader.buf.Length > MAX_HTTP_HEADER_SIZE ==>
              (a.ReadError? ==>
                 a.err.EOF? && |reader.Stream()| <= 2048 &&
                 forall f: nat, j: nat :: !Decides(reader.Stream(), target, f, j))
  {
    ghost var stream := reader.Stream();
    decided, from, at := false, 0, 0;
    while true
      invariant reader.Valid() && reader.Stream() == stream && (old(reader.Quiet()) ==> reader.Quiet())
      decreases |stream| - reader.Buffered()
    {
      var n := reader.Buffered();
      var headers, e := reader.Peek(n);
      assert headers == stream[..n];
      var found, s, i := ScanHeaders(headers, target);
      if found {
        Lifts(stream, n, target, s, i);
        LiftsAnswer(stream, n, target, trim, s, i);
        decided, from, at := true, s, i;
        return AnswerAt(headers, target, trim, s, i), decided, from, at;
      }
      Undecided(stream, n, target);
      if n > MAX_HTTP_HEADER_SIZE { return InvalidHTTPProtocol, false, 0, 0; }
      var more;
      more, e := reader.Peek(n + 1);
      if e.Some? {
        if e.value.EOF? { assert more == stream; }
        return ReadError(e.value), false, 0, 0;
      }
    }
  }

  lemma Lifts(stream: seq<byte>, n: nat, target: seq<byte>, from: nat, i: nat)
    requires n <= |stream| && Deciding(stream[..n], target, from, i)
    ensures Deciding(stream, target, from, i)
  {
    hide Decides, Matches;
    FrontLine(stream, n, target, from, i);
    DecidesInFront(stream, n, target, from, i);
    forall f: nat, j: nat | Decides(stream, target, f, j) ensures i <= j {
      if j < n { DecidesInFront(stream, n, target, f, j); }
    }
  }

  lemma FrontLine(stream: seq<byte>, n: nat, target: seq<byte>, from: nat, i: nat)
    requires n <= |stream| && Decides(stream[..n], target, from, i)
    ensures i < n
  {
  }

  lemma SliceInFront(s: seq<byte>, n: nat, a: nat, b: nat)
    requires a <= b <= n <= |s|
    ensures s[..n][a..b] == s[a..b]
  {
  }

  /** The answer is in the line, and in front of all that comes later. */
  lemma LiftsAnswer(stream: seq<byte>, n: nat, target: seq<byte>, trim: seq<byte> -> seq<byte>, from: nat, i: nat)
    requires n <= |stream| && Deciding(stream[..n], target, from, i)
    ensures AnswerAt(stream[..n], target, trim, from, i) == AnswerAt(stream, target, trim, from, i)
  {
    hide Decides, Matches;
    FrontLine(stream, n, target, from, i);
    DecidesInFront(stream, n, target, from, i);
    if Matches(stream, target, from, i) {
      MatchesWithin(stream, target, from, i);
      SliceInFront(stream, n, from + |target|, i);
    }
  }

  lemma MatchesWithin(s: seq<byte>, target: seq<byte>, from: nat, i: nat)
    requires Matches(s, target, from, i)
    ensures from + |target| <= i <= |s|
  {
  }

  lemma Undecided(stream: seq<byte>, n: nat, target: seq<byte>)
    requires n <= |stream| && forall f: nat, j: nat :: !Decides(stream[..n], target, f, j)
    ensures forall f: nat, j: nat :: Decides(stream, target, f, j) ==> n <= j
  {
    forall f: nat, j: nat | Decides(stream, target, f, j) ensures n <= j {
      if j < n { DecidesInFront(stream, n, target, f, j); }
    }
  }

  /** The answer is the one-pass answer whenever that comes early enough. */
  method PeekEarly(reader: Bufio.Reader, target: seq<byte>, trim: seq<byte> -> seq<byte>, ghost f: nat, ghost i: nat)
    returns (a: Answer)
    requires reader.Valid() && reader.Quiet() && reader.buf.Length > MAX_HTTP_HEADER_SIZE
    requires Deciding(reader.Stream(), target, f, i) && i <= MAX_HTTP_HEADER_SIZE
    modifies reader, reader.buf, reader.rd
    ensures reader.Valid() && reader.Stream() == old(reader.Stream())
    ensures a == AnswerAt(reader.Stream(), target, trim, f, i)
  {
    ghost var decided, from, at;
    a, decided, from, at := PeekHeader(reader, target, trim);
    assert Decides(reader.Stream(), target, f, i);
    if decided {
      assert Decides(reader.Stream(), target, from, at);
      SameLine(reader.Stream(), f, from, i);
    }
  }

  /** Lines of a header that has not ended, none of which begins with the target. */
  ghost predicate Others(lines: seq<seq<byte>>, target: seq<byte>) {
    forall m :: 0 <= m < |lines| ==> lines[m] != [] && 10 !in lines[m] && !(target <= lines[m] + [13])
  }

  ghost predicate AtLineStart(s: seq<byte>, b: nat) {
    b <= |s| && (b == 0 || s[b - 1] == LF)
  }

  /** Behind a line start comes `text`, free of newlines, and a newline: that is a line, and the next newline is its. */
  lemma NextLine(s: seq<byte>, b: nat, text: seq<byte>, f: nat, j: nat)
    requires AtLineStart(s, b) && text + [10] <= s[b..] && 10 !in text
    ensures IsLine(s, b, b + |text|) && s[b..b + |text|] == text
    ensures IsLine(s, f, j) && b <= j ==> b + |text| <= j && (j == b + |text| ==> f == b)
  {
    assert forall k :: 0 <= k < |text| ==> s[b..][k] == s[b + k] == text[k];
    assert s[b..][|text|] == s[b + |text|];
  }

  /** An other line does not decide. */
  lemma OtherLine(s: seq<byte>, b: nat, line: seq<byte>, target: seq<byte>, f: nat, j: nat)
    requires AtLineStart(s, b) && line + [13, 10] <= s[b..]
    requires line != [] && 10 !in line && !(target <= line + [13])
    requires Decides(s, target, f, j) && b <= j
    ensures b + |line| + 2 <= j
  {
    var text := line + [13];
    assert text + [10] == line + [13, 10];
    NextLine(s, b, text, f, j);
    assert s[b + |line| - 1] == text[|line| - 1];
  }

  lemma {:induction false} OthersUndecided(lines: seq<seq<byte>>, rest: seq<byte>, target: seq<byte>, f: nat, j: nat)
    requires Others(lines, target)
    ensures AtLineStart(TextOf(lines) + rest, |TextOf(lines)|)
    ensures Decides(TextOf(lines) + rest, target, f, j) ==> |TextOf(lines)| <= j
    decreases |lines|
  {
    hide Decides;
    if lines != [] {
      var front, line := lines[..|lines| - 1], lines[|lines| - 1];
      Reassociate(TextOf(front), line + [13, 10], rest);
      OthersUndecided(front, line + [13, 10] + rest, target, f, j);
      var s := TextOf(lines) + rest;
      assert s[|TextOf(front)|..] == line + [13, 10] + rest;
      if Decides(s, target, f, j) { OtherLine(s, |TextOf(front)|, line, target, f, j); }
    }
  }

  /** If the line behind other lines decides, it is the first that does. */
  lemma FirstDecides(lines: seq<seq<byte>>, text: seq<byte>, rest: seq<byte>, target: seq<byte>)
    requires Others(lines, target) && text + [10] <= rest && 10 !in text
    ensures
      var s, b := TextOf(lines) + rest, |TextOf(lines)|;
      IsLine(s, b, b + |text|) && s[b..b + |text|] == text &&
      (Matches(s, target, b, b + |text|) || Ends(s, b + |text|) ==> Deciding(s, target, b, b + |text|))
  {
    hide Others, Matches, Ends, TextOf;
    var s, b := TextOf(lines) + rest, |TextOf(lines)|;
    assert s[b..] == rest;
    OthersUndecided(lines, rest, target, b, b);
    NextLine(s, b, text, b, b);
    hide AtLineStart;
    forall f: nat, j: nat | Decides(s, target, f, j) ensures b + |text| <= j {
      OthersUndecided(lines, rest, target, f, j);
      NextLine(s, b, text, f, j);
    }
  }

  /**
   A header text: other lines, then a line that begins with the target. Its
   newline is the first that decides, and the rest of it is the value.
   */
  lemma FoundInText(lines: seq<seq<byte>>, target: seq<byte>, v: seq<byte>, tail: seq<byte>,
                    trim: seq<byte> -> seq<byte>)
    requires Others(lines, target) && 10 !in target && 10 !in v
    ensures
      var s, b := TextOf(lines) + (target + v + [13, 10] + tail), |TextOf(lines)|;
      var i, value := b + |target| + |v| + 1, trim(v + [13]);
      Deciding(s, target, b, i) &&
      AnswerAt(s, target, trim, b, i) == if 1 <= |value| <= 512 then Value(value) else InvalidHeaderLength
  {
    hide Others, TextOf, Deciding;
    var rest, text := target + v + [13, 10] + tail, target + v + [13];
    assert text + [10] <= rest;
    FirstDecides(lines, text, rest, target);
    SplitLine(TextOf(lines) + rest, |TextOf(lines)|, target, v + [13]);
  }

  lemma SplitLine(s: seq<byte>, b: nat, target: seq<byte>, value: seq<byte>)
    requires b + |target| + |value| <= |s| && s[b..b + |target| + |value|] == target + value
    ensures Matches(s, target, b, b + |target| + |value|)
    ensures s[b + |target|..b + |target| + |value|] == value
  {
    var n := |target| + |value|;
    assert s[b..b + |target|] == s[b..b + n][..|target|] && s[b + |target|..b + n] == s[b..b + n][|target|..];
  }

  /** Other lines, at least one, and an empty one: its newline is the first that decides, and the headers end. */
  lemma EndOfText(lines: seq<seq<byte>>, target: seq<byte>, tail: seq<byte>, trim: seq<byte> -> seq<byte>)
    requires Others(lines, target) && lines != [] && !(target <= [13])
    ensures
      var s, b := TextOf(lines) + ([13, 10] + tail), |TextOf(lines)|;
      Deciding(s, target, b, b + 1) && AnswerAt(s, target, trim, b, b + 1) == EndOfHeaders
  {
    hide Others, Deciding;
    var rest, b := [13, 10] + tail, |TextOf(lines)|;
    var s := TextOf(lines) + rest;
    assert [13] + [10] <= rest;
    FirstDecides(lines, [13], rest, target);
    LastTwo(lines);
    hide TextOf;
    assert s[b - 2] == 13 && s[b - 1] == 10;
    EndsAfter(s, b, rest);
  }

  lemma EndsAfter(s: seq<byte>, b: nat, rest: seq<byte>)
    requires 2 <= b <= |s| && s[b..] == rest && [13, 10] <= rest && s[b - 2] == 13 && s[b - 1] == 10
    ensures Ends(s, b + 1)
  {
    assert s[b..][0] == s[b] && s[b..][1] == s[b + 1];
  }

  lemma LastTwo(lines: seq<seq<byte>>)
    requires lines != []
    ensures
      var s := TextOf(lines);
      |s| >= |lines[|lines| - 1]| + 2 && s[|s| - 2] == 13 && s[|s| - 1] == 10
  {
  }

  /** peekHeader on a header text that holds the target: for every fragmentation its value. */
  method PeekText(reader: Bufio.Reader, target: seq<byte>, trim: seq<byte> -> seq<byte>, ghost lines: seq<seq<byte>>,
                  ghost v: seq<byte>, ghost tail: seq<byte>)
    returns (a: Answer)
    requires reader.Valid() && reader.Quiet() && reader.buf.Length > 2048
    requires reader.Stream() == TextOf(lines) + (target + v + [13, 10] + tail)
    requires Others(lines, target) && 10 !in target && 10 !in v
    requires |TextOf(lines)| + |target| + |v| + 1 <= 2048
    modifies reader, reader.buf, reader.rd
    ensures reader.Valid() && reader.Stream() == old(reader.Stream())
    ensures a == if 1 <= |trim(v + [13])| <= 512 then Value(trim(v + [13])) else InvalidHeaderLength
  {
    FoundInText(lines, target, v, tail, trim);
    a := PeekEarly(reader, target, trim, |TextOf(lines)|, |TextOf(lines)| + |target| + |v| + 1);
  }

  /** peekHeader on a header text that does not hold it: for every fragmentation the end of the headers. */
  method PeekWithout(reader: Bufio.Reader, target: seq<byte>, trim: seq<byte> -> seq<byte>, ghost lines: seq<seq<byte>>,
                     ghost tail: seq<byte>)
    returns (a: Answer)
    requires reader.Valid() && reader.Quiet() && reader.buf.Length > 2048
    requires reader.Stream() == TextOf(lines) + ([13, 10] + tail)
    requires Others(lines, target) && lines != [] && !(target <= [13])
    requires |TextOf(lines)| + 1 <= 2048
    modifies reader, reader.buf, reader.rd
    ensures reader.Valid() && reader.Stream() == old(reader.Stream())
    ensures a == EndOfHeaders
  {
    EndOfText(lines, target, tail, trim);
    a := PeekEarly(reader, target, trim, |TextOf(lines)|, |TextOf(lines)| + 1);
  }

  const HEADER_HOST_PREFIX: seq<byte> := Ascii("Host: ")

  /**
   peekHost looks for `Host:` and a space. Section 3.2 of RFC 7230 makes the space
   optional, but a request whose one Host field has none in front of its value is
   taken for one without a Host.
   */
  lemma HostNeedsSpace(request: seq<byte>, v: seq<byte>, tail: seq<byte>, trim: seq<byte> -> seq<byte>)
    requires request != [] && 10 !in request && !(HEADER_HOST_PREFIX <= request + [13])
    requires v != [] && v[0] != 32 && 10 !in v
    ensures
      var head := TextOf([request, Ascii("Host:") + v]);
      var s, b := head + ([13, 10] + tail), |head|;
      Deciding(s, HEADER_HOST_PREFIX, b, b + 1) && AnswerAt(s, HEADER_HOST_PREFIX, trim, b, b + 1) == EndOfHeaders
  {
    hide TextOf, Deciding, AnswerAt;
    var field := Ascii("Host:") + v;
    assert field[5] == v[0] && (field + [13])[5] == v[0] && HEADER_HOST_PREFIX[5] == 32;
    EndOfText([request, field], HEADER_HOST_PREFIX, tail, trim);
  }

  /** parseIDFromHost. */
  function ParseID(host: seq<byte>): Option<seq<byte>> {
    var i := IndexByte(host, DOT);
    if i < 0 || i + 1 >= |host| || IndexByte(host[i + 1..], DOT) <= 0 then None else Some(host[..i])
  }

  lemma DotAfter(front: seq<byte>, tail: seq<byte>)
    requires IndexByte(front, DOT) < 0
    ensures var s := front + ([DOT] + tail); IndexByte(s, DOT) == |front|
    ensures var s := front + ([DOT] + tail); s[..|front|] == front && s[|front| + 1..] == tail
  {
    IndexAppend(front, [DOT] + tail, DOT);
  }

  /** The ID is the first label of a host that has at least three, the second of which is not empty. */
  lemma ParseIDIs(id: seq<byte>, second: seq<byte>, rest: seq<byte>)
    requires IndexByte(id, DOT) < 0 && IndexByte(second, DOT) < 0
    ensures ParseID(id + ([DOT] + (second + ([DOT] + rest)))) == if second == [] then None else Some(id)
  {
    hide IndexByte;
    DotAfter(second, rest);
    DotAfter(id, second + ([DOT] + rest));
  }

  /** And no other host gives one. */
  lemma ParseIDOnly(host: seq<byte>) returns (second: seq<byte>, rest: seq<byte>)
    requires ParseID(host).Some?
    ensures host == ParseID(host).value + ([DOT] + (second + ([DOT] + rest)))
    ensures second != [] && IndexByte(ParseID(host).value, DOT) < 0 && IndexByte(second, DOT) < 0
  {
    hide IndexByte;
    var i := IndexByte(host, DOT);
    var tail := host[i + 1..];
    var j := IndexByte(tail, DOT);
    second, rest := tail[..j], tail[j + 1..];
    IndexFirst(host, DOT, i);
    IndexFirst(tail, DOT, j);
    IndexFirst(host[..i], DOT, -1);
    IndexFirst(second, DOT, -1);
    assert tail == second + ([DOT] + rest);
    assert host == host[..i] + ([DOT] + tail);
  }
}
