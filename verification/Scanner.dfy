/** `bufio/scan.go`: a Scanner that splits lines, through every slide and doubling of its buffer. */
module LineScanner {
  import opened Wrappers
  import opened Bytes
  import opened Lines
  import Bufio

  const START_BUF_SIZE := 4096
  const MAX_INT := 0x7FFF_FFFF_FFFF_FFFF

  datatype Error = EOF | TooLong | NoProgress | Fault
  datatype Split = Split(advance: nat, token: Option<seq<byte>>)

  /** ScanLines, the split function. */
  function ScanLines(data: seq<byte>, atEOF: bool): Split {
    var i := IndexByte(data, LF);
    if atEOF && |data| == 0 then Split(0, None)
    else if i >= 0 then Split(i + 1, Some(DropCR(data[..i])))
    else if atEOF then Split(|data|, Some(DropCR(data)))
    else Split(0, None)
  }

  /** The first line of the input, one CR at its end dropped, whether a newline follows or not. */
  function LineText(s: seq<byte>): seq<byte> {
    var i := IndexByte(s, LF);
    DropCR(if i < 0 then s else s[..i])
  }

  lemma AfterIsShorter(s: seq<byte>)
    requires s != []
    ensures |AfterLine(s)| < |s|
  {
  }

  function AllLines(s: seq<byte>): seq<seq<byte>>
    decreases |s|
  {
    if s == [] then []
    else
      AfterIsShorter(s);
      [LineText(s)] + AllLines(AfterLine(s))
  }

  /** The first line fits a buffer of `max` bytes: with its newline, or, without one, with a byte to spare. */
  predicate Fits(s: seq<byte>, max: int) {
    var i := IndexByte(s, LF);
    if i < 0 then |s| < max else i + 1 <= max
  }

  predicate AllFit(s: seq<byte>, max: int)
    decreases |s|
  {
    Fits(s, max) && (s == [] || (AfterIsShorter(s); AllFit(AfterLine(s), max)))
  }

  /** What the split of the buffered `data` says of an input that goes on with `rest`. */
  lemma SplitIsLine(data: seq<byte>, rest: seq<byte>, atEOF: bool)
    requires atEOF ==> rest == []
    ensures
      var s := ScanLines(data, atEOF);
      s.advance <= |data| &&
      (if s.token.Some? then
         s.advance > 0 && s.token.value == LineText(data + rest) && data[s.advance..] + rest == AfterLine(data + rest)
       else s.advance == 0 && IndexByte(data, LF) == -1 && (atEOF ==> data == []))
  {
    hide DropCR;
    IndexAppend(data, rest, LF);
    var i := IndexByte(data, LF);
    if i >= 0 {
      CutLeft(data, rest, i);
      CutLeft(data, rest, i + 1);
    } else if atEOF {
      assert data + rest == data;
    }
  }

  lemma {:induction false} LinesOfText(lines: seq<seq<byte>>, last: seq<byte>)
    requires (forall m :: 0 <= m < |lines| ==> 10 !in lines[m]) && 10 !in last && (last == [] || last[|last| - 1] != 13)
    ensures AllLines(TextOf(lines) + last) == lines + if last == [] then [] else [last]
    decreases |lines|
  {
    hide AllLines;
    if lines == [] {
      assert TextOf(lines) + last == last;
      LastLine(last);
    } else {
      hide TextOf;
      var rest := TextOf(lines[1..]) + last;
      TextFront(lines);
      Reassociate(lines[0] + [13, 10], TextOf(lines[1..]), last);
      LineOfText(lines[0], rest);
      LinesOfText(lines[1..], last);
      assert lines == [lines[0]] + lines[1..];
    }
  }

  lemma LastLine(last: seq<byte>)
    requires 10 !in last && (last == [] || last[|last| - 1] != 13)
    ensures AllLines(last) == if last == [] then [] else [last]
  {
    IndexFirst(last, LF, -1);
  }

  lemma LineOfText(line: seq<byte>, rest: seq<byte>)
    requires 10 !in line
    ensures AllLines(line + [13, 10] + rest) == [line] + AllLines(rest)
  {
    var s := line + [13, 10] + rest;
    IndexFirst(s, LF, |line| + 1);
    FirstOfText(line, rest);
    hide IndexByte;
    assert s[..|line| + 1] == line + [13] && s[..|line| + 1][..|line|] == line;
  }

  class Scanner {
    const r: Bufio.Source
    const maxTokenSize: int
    var buf: array<byte>
    var start: nat
    var end: nat
    var err: Option<Error>
    var token: Option<seq<byte>>

    /** NewScanner and Buffer. */
    constructor (r: Bufio.Source, buf: array<byte>, max: int)
      requires max <= MAX_INT / 2
      ensures Valid() && this.r == r && this.buf == buf && maxTokenSize == max && err == None && Rest() == r.data
    {
      this.r, this.buf, maxTokenSize := r, buf, max;
      start, end, err, token := 0, 0, None, None;
    }

    ghost predicate Valid()
      reads this, buf, r
    {
      start <= end <= buf.Length && maxTokenSize <= MAX_INT / 2 && (err == Some(EOF) ==> r.data == [])
    }

    /** The source makes progress, and nothing but EOF has come of it. */
    ghost predicate Quiet()
      reads this, r
    {
      Bufio.Steady(r.plan) && (err.None? || err == Some(EOF))
    }

    /** The input that no token has been made of yet. */
    ghost function Rest(): seq<byte>
      reads this, buf, r
      requires Valid()
    {
      buf[start..end] + r.data
    }

    method SetErr(e: Error)
      modifies this`err
      ensures err == if old(err).None? || old(err) == Some(EOF) then Some(e) else old(err)
    {
      if err.None? || err == Some(EOF) { err := Some(e); }
    }

    /** scan.go:184-188. */
    method Slide()
      requires Valid()
      modifies this`start, this`end, buf
      ensures Valid() && Rest() == old(Rest()) && buf[start..end] == old(buf[start..end])
      ensures end == buf.Length ==> start == 0
    {
      if start > 0 && (end == buf.Length || start > buf.Length / 2) {
        forall i | 0 <= i < end - start { buf[i] := buf[start + i]; }
        assert buf[..end - start] == old(buf[start..end]);
        end := end - start;
        start := 0;
      }
    }

    /** scan.go:204-205: the buffered bytes at the front of a new buffer. */
    method Copied(size: nat) returns (newBuf: array<byte>)
      requires Valid() && end - start <= size
      ensures fresh(newBuf) && newBuf.Length == size && newBuf[..end - start] == buf[start..end]
    {
      newBuf := new byte[size];
      forall i | 0 <= i < end - start { newBuf[i] := buf[start + i]; }
    }

    /** scan.go:190-209: a larger buffer, unless it may not grow. */
    method Grow() returns (ok: bool)
      requires Valid() && err.None? && (end == buf.Length ==> start == 0)
      modifies this
      ensures Valid() && Rest() == old(Rest()) && end - start == old(end - start)
      ensures buf == old(buf) || fresh(buf)
      ensures ok ==> end < buf.Length && err.None?
      ensures !ok ==> start == 0 && end == buf.Length >= maxTokenSize && err == Some(TooLong) && buf == old(buf)
    {
      if end == buf.Length {
        if buf.Length >= maxTokenSize || buf.Length > MAX_INT / 2 {
          SetErr(TooLong);
          return false;
        }
        var newSize := buf.Length * 2;
        if newSize == 0 { newSize := START_BUF_SIZE; }
        if newSize > maxTokenSize { newSize := maxTokenSize; }
        var newBuf := Copied(newSize);
        buf := newBuf;
        end := end - start;
        start := 0;
      }
      ok := true;
    }

    /** scan.go:213-233: reads, past answers without a byte. */
    method ReadMore()
      requires Valid() && err.None? && end < buf.Length
      modifies this`end, this`err, buf, r
      ensures Valid() && Rest() == old(Rest()) && |r.data| <= |old(r.data)|
      ensures |r.data| < |old(r.data)| || err.Some?
      ensures err != Some(TooLong) && (old(Quiet()) ==> Quiet())
    {
      hide Bufio.Faults, Bufio.Follows, Bufio.Willing;
      var loop := 0;
      ghost var plan := r.plan;
      while true
        invariant Valid() && err.None? && Rest() == old(Rest()) && end == old(end) && r.data == old(r.data)
        invariant loop <= Bufio.MAX_EMPTY_READS && loop <= |plan| && r.plan == plan[loop..] && Bufio.Dry(plan, 0, loop)
        decreases Bufio.MAX_EMPTY_READS - loop
      {
        if Bufio.Steady(plan) { Bufio.WillingSteps(plan, loop); }
        ghost var before := r.plan;
        var more := ReadOnce();
        Bufio.FollowsWilling(before, r.plan);
        if more { break; }
        loop := loop + 1;
        if loop > Bufio.MAX_EMPTY_READS {
          Bufio.TooDry(plan);
          SetErr(NoProgress);
          break;
        }
      }
    }

    /** One read of the source; `more` tells that there were bytes or an error. */
    method ReadOnce() returns (more: bool)
      requires Valid() && err.None? && end < buf.Length
      modifies this`end, this`err, buf, r
      ensures Valid() && Rest() == old(Rest()) && |r.data| <= |old(r.data)|
      ensures more ==> |r.data| < |old(r.data)| || err.Some?
      ensures Bufio.Follows(old(r.plan), r.plan)
      ensures !more ==> end == old(end) && r.data == old(r.data) && err.None?
      ensures !more ==>
                old(r.plan) != [] && old(r.plan)[0].max == 0 && !old(r.plan)[0].with.AFault? &&
                r.plan == old(r.plan)[1..]
      ensures err.Some? ==> err.value.EOF? || (err.value.Fault? && old(r.plan) != [] && old(r.plan)[0].with.AFault?)
    {
      hide Bufio.Faults, Bufio.Follows;
      ghost var kept := buf[start..end];
      var n, e := r.Read(buf, end, buf.Length);
      assert buf[start..end] == kept && buf[start..end + n] == buf[start..end] + buf[end..end + n];
      Reassociate(kept, buf[end..end + n], r.data);
      end := end + n;
      more := n > 0 || e.Some?;
      if e.Some? { SetErr(if e.value.EOF? then EOF else Fault); }
    }

    /** scan.go:145-172: a token of what is buffered, if there is one. */
    method NextToken() returns (found: bool)
      requires Valid() && (err.None? || err.value.EOF?)
      modifies this`start, this`token
      ensures Valid()
      ensures found ==> token == Some(LineText(old(Rest()))) && Rest() == AfterLine(old(Rest())) && old(Rest()) != []
      ensures !found ==> Rest() == old(Rest()) && start == old(start) && IndexByte(buf[start..end], LF) == -1
      ensures !found && err.Some? ==> Rest() == []
    {
      if start == end && err.None? { return false; }
      ghost var data := buf[start..end];
      SplitIsLine(data, r.data, err.Some?);
      var s := ScanLines(buf[start..end], err.Some?);
      start := start + s.advance;
      token := s.token;
      assert data[s.advance..] == buf[start..end];
      found := s.token.Some?;
    }

    /**
     Scan. A token is the first line of the input. Without one the input is at its
     end, or its first line does not fit.
     */
    method Scan() returns (ok: bool)
      requires Valid() && Quiet()
      modifies this, buf, r
      ensures Valid() && (buf == old(buf) || fresh(buf)) && Bufio.Steady(r.plan)
      ensures ok ==>
               Quiet() && token == Some(LineText(old(Rest()))) && Rest() == AfterLine(old(Rest())) && old(Rest()) != []
      ensures !ok ==> err.Some?
      ensures !ok ==>
               if err.value.EOF? then old(Rest()) == [] else err.value.TooLong? && !Fits(old(Rest()), maxTokenSize)
      ensures !ok && err == Some(EOF) ==> Rest() == []
    {
      while true
        invariant Valid() && Quiet() && Rest() == old(Rest()) && (buf == old(buf) || fresh(buf))
        decreases |r.data|, err.None?
      {
        var found := NextToken();
        if found { return true; }
        if err.Some? {
          start, end := 0, 0;
          return false;
        }
        Slide();
        var room := Grow();
        if !room {
          NoFit();
          return false;
        }
        ReadMore();
      }
    }

    /** A full buffer without a newline: the first line does not fit. */
    lemma NoFit()
      requires Valid() && start == 0 && end == buf.Length >= maxTokenSize && IndexByte(buf[start..end], LF) == -1
      ensures !Fits(Rest(), maxTokenSize)
    {
      IndexAppend(buf[start..end], r.data, LF);
    }
  }

  /** The loop that a Scanner is for: all the lines of the input, for every fragmentation, if they fit. */
  method ScanAll(s: Scanner) returns (lines: seq<seq<byte>>)
    requires s.Valid() && s.Quiet() && AllFit(s.Rest(), s.maxTokenSize)
    modifies s, s.buf, s.r
    ensures lines == AllLines(old(s.Rest())) && s.err == Some(EOF)
  {
    hide LineText, AfterLine, Fits, AllFit, AllLines, Scanner.Rest;
    lines := [];
    LinesNext(s.Rest(), s.maxTokenSize);
    ghost var input := s.Rest();
    while true
      invariant s.Valid() && s.Quiet() && (s.buf == old(s.buf) || fresh(s.buf))
      invariant AllFit(s.Rest(), s.maxTokenSize) && AllLines(input) == lines + AllLines(s.Rest())
      decreases |s.Rest()|
    {
      ghost var rest := s.Rest();
      var more := s.Scan();
      LinesNext(rest, s.maxTokenSize);
      if !more { return; }
      assert lines + ([LineText(rest)] + AllLines(s.Rest())) == lines + [LineText(rest)] + AllLines(s.Rest());
      lines := lines + [s.token.value];
    }
  }

  lemma LinesNext(s: seq<byte>, max: int)
    requires AllFit(s, max)
    ensures Fits(s, max) && (s == [] ==> AllLines(s) == [])
    ensures s != [] ==>
             |AfterLine(s)| < |s| && AllLines(s) == [LineText(s)] + AllLines(AfterLine(s)) && AllFit(AfterLine(s), max)
  {
    hide LineText, AfterLine, Fits;
    if s != [] { AfterIsShorter(s); }
  }
}
