/**
 `bufio/bufio.go`, `Reader`: a buffer in front of a source that hands out its
 bytes in pieces of any size. Each method is stated on `Stream()`, the buffered
 bytes followed by the unread ones, so that fragmentation does not show.
 */
module Bufio {
  import opened Wrappers
  import opened Bytes
  import opened Lines

  /** The errors that matter here; `Fault` is any other error of the source, such as a deadline. */
  datatype Error = EOF | Fault | NoProgress | BufferFull | NegativeCount

  /** One answer of the source: at most `max` bytes, and what comes with them. */
  datatype Turn = Turn(max: nat, with: With)
  datatype With = Nothing | AFault | EofIfDrained

  const MAX_EMPTY_READS := 100

  /** No faults, and never a hundred answers without a byte in a row. */
  ghost predicate Steady(plan: seq<Turn>) {
    (forall i :: 0 <= i < |plan| ==> !plan[i].with.AFault?) && Willing(plan)
  }

  /** Never a hundred answers in a row that are nothing, neither a byte nor a fault. */
  ghost predicate Willing(plan: seq<Turn>) {
    forall i: nat :: i + 100 <= |plan| ==> !Dry(plan, i, 100)
  }

  ghost predicate Dry(plan: seq<Turn>, i: nat, k: nat)
    requires i + k <= |plan|
  {
    forall j :: i <= j < i + k ==> IsNothing(plan[j])
  }

  ghost predicate IsNothing(t: Turn) {
    t.max == 0 && !t.with.AFault?
  }

  lemma WillingTail(plan: seq<Turn>, k: nat)
    requires Willing(plan) && k <= |plan|
    ensures Willing(plan[k..])
  {
    forall i: nat | i + 100 <= |plan| - k ensures !Dry(plan[k..], i, 100) {
      assert !Dry(plan, k + i, 100);
      var j :| k + i <= j < k + i + 100 && !IsNothing(plan[j]);
      assert plan[k..][j - k] == plan[j];
    }
  }

  lemma TooDry(plan: seq<Turn>)
    requires |plan| >= 100 && Dry(plan, 0, 100)
    ensures !Willing(plan)
  {
  }

  lemma WillingSteps(plan: seq<Turn>, k: nat)
    requires Willing(plan) && k <= |plan|
    ensures Willing(plan[k..])
    ensures k < |plan| ==> plan[k..][1..] == plan[k + 1..] && Willing(plan[k + 1..])
  {
    WillingTail(plan, k);
    if k < |plan| { WillingTail(plan, k + 1); }
  }

  /** The answers left after one: the same if there was nothing left to give, else the later ones, or the rest of it. */
  ghost predicate Follows(was: seq<Turn>, plan: seq<Turn>) {
    plan == was || (was != [] && (plan == was[1..] || Shortened(was, plan)))
  }

  ghost predicate Shortened(was: seq<Turn>, plan: seq<Turn>)
    requires was != []
  {
    plan != [] && plan[1..] == was[1..] && plan[0].with == was[0].with && 0 < plan[0].max < was[0].max
  }

  lemma FollowsWilling(was: seq<Turn>, plan: seq<Turn>)
    requires Follows(was, plan)
    ensures |plan| <= |was|
    ensures Willing(was) ==> Willing(plan)
    ensures Steady(was) ==> Steady(plan)
  {
    if plan != was && plan != was[1..] {
      assert |plan| == |plan[1..]| + 1 && |was| == |was[1..]| + 1;
      forall i | 0 <= i < |was| ensures (plan[i].max == 0 <==> was[i].max == 0) && plan[i].with == was[i].with {
        if i > 0 { assert plan[i] == plan[1..][i - 1] && was[i] == was[1..][i - 1]; }
      }
      if Willing(was) {
        forall i: nat | i + 100 <= |plan| ensures !Dry(plan, i, 100) {
          assert !Dry(was, i, 100);
        }
      }
    } else if plan != was && Willing(was) {
      WillingTail(was, 1);
    }
  }

  /**
   How many of the last `len` bytes are still to come when a fault is answered, for
   each fault that the plan has for them, in order.
   */
  ghost function Faults(plan: seq<Turn>, len: nat): seq<nat> {
    if plan == [] || len == 0 then []
    else
      var left := len - Min(plan[0].max, len);
      if plan[0].with.AFault? then [left] + Faults(plan[1..], left) else Faults(plan[1..], left)
  }

  /** Of `len` bytes, `need` come before the first of the faults `ds`. */
  ghost predicate Spare(ds: seq<nat>, len: int, need: int) {
    ds == [] || len - ds[0] >= need
  }

  /** They come in the order of the bytes. */
  ghost predicate Ordered(ds: seq<nat>, len: nat) {
    (forall i :: 0 <= i < |ds| ==> ds[i] <= len) && forall i, j :: 0 <= i <= j < |ds| ==> ds[j] <= ds[i]
  }

  lemma {:induction false} FaultsOrdered(plan: seq<Turn>, len: nat)
    ensures Ordered(Faults(plan, len), len)
  {
    if plan != [] && len > 0 { FaultsOrdered(plan[1..], len - Min(plan[0].max, len)); }
  }

  lemma {:induction false} NoFaults(plan: seq<Turn>, len: nat)
    requires forall i :: 0 <= i < |plan| ==> !plan[i].with.AFault?
    ensures Faults(plan, len) == []
  {
    if plan != [] && len > 0 { NoFaults(plan[1..], len - Min(plan[0].max, len)); }
  }

  /**
   An `io.Reader`: `data` is what it has left to give and `plan` its next answers.
   What there is no room for in an answer comes with the next. After the plan it
   gives what is asked for. Once it has nothing left it says EOF, again and again.
   */
  class Source {
    var data: seq<byte>
    var plan: seq<Turn>

    constructor (data: seq<byte>, plan: seq<Turn>)
      ensures this.data == data && this.plan == plan
    {
      this.data, this.plan := data, plan;
    }

    /** Reads into `dst[from..to]`. */
    method Read(dst: array<byte>, from: nat, to: nat) returns (n: nat, err: Option<Error>)
      requires from <= to <= dst.Length
      modifies this, dst
      ensures from + n <= to && n <= |old(data)|
      ensures old(data) == dst[from..from + n] + data
      ensures forall i :: 0 <= i < dst.Length && !(from <= i < from + n) ==> dst[i] == old(dst[i])
      ensures err == Some(EOF) ==> data == []
      ensures err.Some? ==> err.value.EOF? || err.value.Fault?
      ensures old(data) == [] ==> err == Some(EOF)
      ensures Follows(old(plan), plan)
      ensures n == 0 && err.None? && from < to ==>
                old(plan) != [] && IsNothing(old(plan)[0]) && plan == old(plan)[1..]
      ensures old(data) != [] && old(plan) != [] && IsNothing(old(plan)[0]) ==>
                n == 0 && err.None? && plan == old(plan)[1..]
      ensures err == Some(Fault) ==> old(plan) != [] && old(plan)[0].with.AFault?
      ensures Faults(old(plan), |old(data)|) == (if err == Some(Fault) then [|data|] else []) + Faults(plan, |data|)
    {
      if data == [] { return 0, Some(EOF); }
      var turn := if plan == [] then Turn(|data|, Nothing) else plan[0];
      n := Min(turn.max, Min(to - from, |data|));
      forall i | from <= i < from + n { dst[i] := data[i - from]; }
      if n < turn.max && n < |data| {
        data, plan := data[n..], Rest(plan, n);
        return n, None;
      }
      data := data[n..];
      plan := if plan == [] then [] else plan[1..];
      match turn.with
      case Nothing => err := None;
      case AFault => err := Some(Fault);
      case EofIfDrained => err := if data == [] then Some(EOF) else None;
    }
  }

  /** The answers left when `n` bytes of the first are given. */
  function Rest(plan: seq<Turn>, n: nat): (rest: seq<Turn>)
    requires plan == [] || n < plan[0].max
    ensures Follows(plan, rest)
  {
    if plan == [] || n == 0 then plan else [Turn(plan[0].max - n, plan[0].with)] + plan[1..]
  }

  function Min(a: nat, b: nat): nat {
    if a < b then a else b
  }

  class Reader {
    const buf: array<byte>
    const rd: Source
    var r: nat
    var w: nat
    var err: Option<Error>

    /** NewReaderWithBuf and reset. */
    constructor (buf: array<byte>, rd: Source)
      requires buf.Length > 0
      ensures Valid() && this.buf == buf && this.rd == rd && Stream() == rd.data && err == None
    {
      this.buf, this.rd, r, w, err := buf, rd, 0, 0, None;
    }

    ghost predicate Valid()
      reads this, buf, rd
    {
      0 < buf.Length && r <= w <= buf.Length && (err == Some(EOF) ==> rd.data == []) &&
      (err.Some? ==> !err.value.BufferFull? && !err.value.NegativeCount?)
    }

    /** The source is steady, and so far nothing but EOF has come of it. */
    ghost predicate Quiet()
      reads this, rd
    {
      Steady(rd.plan) && (err == None || err == Some(EOF))
    }

    /** The source is willing, and so far nothing but EOF and faults has come of it. */
    ghost predicate Timed()
      reads this, rd
    {
      Willing(rd.plan) && (err.Some? ==> err.value.EOF? || err.value.Fault?)
    }

    /** The faults to come, that of the last read first: how many bytes are still to come behind each. */
    ghost function Deadlines(): seq<nat>
      reads this, rd
    {
      (if err == Some(Fault) then [|rd.data|] else []) + Faults(rd.plan, |rd.data|)
    }

    /** The faults to come are `ds`. */
    ghost predicate Awaits(ds: seq<nat>)
      reads this, rd
    {
      Timed() && Deadlines() == ds
    }

    lemma DeadlinesOrdered()
      ensures Ordered(Deadlines(), |rd.data|)
      ensures rd.data == [] && err != Some(Fault) ==> Deadlines() == []
    {
      FaultsOrdered(rd.plan, |rd.data|);
    }

    /** What comes before a fault that is there already is buffered. */
    lemma BufferedFirst(need: int)
      ensures Clear(need) && err == Some(Fault) ==> w - r >= need
    {
      FaultsOrdered(rd.plan, |rd.data|);
    }

    /** Where a fault comes first it is what stops the reading. */
    lemma FaultFirst(need: int)
      requires Valid() && !Spare(Deadlines(), |Stream()|, need)
      ensures w - r < need && err != Some(EOF)
    {
      FaultsOrdered(rd.plan, |rd.data|);
    }

    lemma QuietDeadlines()
      requires Quiet()
      ensures Timed() && Deadlines() == []
    {
      assert forall i :: 0 <= i < |rd.plan| ==> !rd.plan[i].with.AFault?;
      NoFaults(rd.plan, |rd.data|);
    }

    /** The next `need` bytes come before the next fault. */
    ghost predicate Clear(need: int)
      reads this, buf, rd
    {
      Valid() && Timed() && Spare(Deadlines(), |Stream()|, need)
    }

    /** What is left to read: the buffered bytes, then those of the source. */
    ghost function Stream(): seq<byte>
      reads this, buf, rd
      requires Valid()
    {
      buf[r..w] + rd.data
    }

    ghost predicate AtEnd()
      reads this, buf, rd
    {
      Valid() && Stream() == []
    }

    function Buffered(): nat
      reads this
      requires r <= w
    {
      w - r
    }

    /** fill: slides the buffered bytes to the front and reads more behind them. */
    method Fill()
      requires Valid() && w - r < buf.Length
      modifies this, buf, rd
      ensures Valid() && r == 0 && w >= old(w - r)
      ensures Stream() == old(Stream()) && buf[..old(w - r)] == old(buf[r..w])
      ensures |rd.data| + w == old(|rd.data|) + old(w - r)
      ensures w > old(w - r) || err.Some?
      ensures err.None? ==> old(err).None?
      ensures old(Quiet()) ==> Quiet()
      ensures old(Timed()) && old(err) != Some(Fault) ==> Awaits(old(Deadlines()))
      ensures old(rd.data) != [] && |old(rd.plan)| >= 100 && Dry(old(rd.plan), 0, 100) ==> err == Some(NoProgress)
      ensures |rd.plan| <= |old(rd.plan)|
    {
      hide Faults;
      Slide();
      ReadMore();
    }

    /** bufio.go:88-93. */
    method Slide()
      requires Valid()
      modifies this, buf
      ensures Valid() && err == old(err) && r == 0 && w == old(w - r)
      ensures buf[..w] == old(buf[r..w]) && Stream() == old(Stream())
    {
      if r > 0 {
        forall i | 0 <= i < w - r { buf[i] := buf[r + i]; }
        w := w - r;
        r := 0;
      }
      assert buf[..w] == old(buf[r..w]);
    }

    /** One read of the source behind the buffered bytes. */
    method ReadOnce() returns (n: nat, e: Option<Error>)
      requires Valid() && r == 0 && w < buf.Length
      modifies this, buf, rd
      ensures Valid() && r == 0 && w == old(w) + n
      ensures Stream() == old(Stream()) && buf[..old(w)] == old(buf[..w])
      ensures |rd.data| + w == |old(rd.data)| + old(w)
      ensures err == if e.Some? then e else old(err)
      ensures e.Some? ==> e.value.EOF? || e.value.Fault?
      ensures Follows(old(rd.plan), rd.plan)
      ensures n == 0 && e.None? ==>
                old(rd.plan) != [] && IsNothing(old(rd.plan)[0]) && rd.plan == old(rd.plan)[1..]
      ensures old(rd.data) != [] && old(rd.plan) != [] && IsNothing(old(rd.plan)[0]) ==> n == 0 && e.None?
      ensures e == Some(Fault) ==> old(rd.plan) != [] && old(rd.plan)[0].with.AFault?
      ensures old(err) != Some(Fault) ==> Deadlines() == old(Deadlines())
    {
      hide Follows, Faults;
      ghost var kept := buf[..w];
      n, e := rd.Read(buf, w, buf.Length);
      assert buf[..w] == kept && buf[..w + n] == buf[..w] + buf[w..w + n];
      w := w + n;
      if e.Some? { err := e; }
    }

    /** bufio.go:99-114: a limited number of tries. */
    method ReadMore()
      requires Valid() && r == 0 && w < buf.Length
      modifies this, buf, rd
      ensures Valid() && r == 0 && w >= old(w)
      ensures Stream() == old(Stream()) && buf[..old(w)] == old(buf[..w])
      ensures |rd.data| + w == |old(rd.data)| + old(w)
      ensures w > old(w) || err.Some?
      ensures err.None? ==> old(err).None?
      ensures old(Quiet()) ==> Quiet()
      ensures old(Timed()) && old(err) != Some(Fault) ==> Awaits(old(Deadlines()))
      ensures old(rd.data) != [] && |old(rd.plan)| >= 100 && Dry(old(rd.plan), 0, 100) ==> err == Some(NoProgress)
      ensures |rd.plan| <= |old(rd.plan)|
    {
      hide Faults, Follows, Willing;
      var i := MAX_EMPTY_READS;
      ghost var plan, k := rd.plan, 0;
      while i > 0
        invariant Valid() && r == 0 && w == old(w)
        invariant Stream() == old(Stream()) && buf[..w] == old(buf[..w])
        invariant |rd.data| == |old(rd.data)| && err == old(err)
        invariant k == MAX_EMPTY_READS - i <= |plan| && rd.plan == plan[k..] && Dry(plan, 0, k)
        invariant old(err) != Some(Fault) ==> Deadlines() == old(Deadlines())
      {
        if Willing(plan) { WillingSteps(plan, k); }
        ghost var before := rd.plan;
        var n, e := ReadOnce();
        FollowsWilling(before, rd.plan);
        if e.Some? || n > 0 { return; }
        i := i - 1;
        k := k + 1;
      }
      TooDry(plan);
      err := Some(NoProgress);
    }

    /** readErr. */
    method ReadErr() returns (e: Option<Error>)
      modifies this`err
      ensures e == old(err) && err == None
    {
      e := err;
      err := None;
    }

    /** Peek: the next `n` bytes, none of them consumed, or all there are and the reason. */
    method Peek(n: int) returns (p: seq<byte>, e: Option<Error>)
      requires Valid()
      modifies this, buf, rd
      ensures Valid() && Stream() == old(Stream()) && Buffered() >= old(Buffered())
      ensures p <= Stream() && |p| <= Buffered()
      ensures e.None? <==> |p| == n
      ensures n < 0 ==> p == [] && e == Some(NegativeCount)
      ensures e == Some(EOF) ==> p == Stream()
      ensures old(Quiet()) ==> Quiet() && (n >= 0 && e.Some? ==> e.value.EOF? || e.value.BufferFull?)
      ensures e == Some(BufferFull) ==> n > buf.Length
      ensures 0 <= n <= buf.Length && e.Some? ==> err == None
      ensures n > buf.Length ==> e == Some(BufferFull)
      ensures 0 <= n <= buf.Length ==> |p| <= n
      ensures 0 <= n <= old(Buffered()) ==> e.None? && r == old(r) && w == old(w)
      ensures old(Clear(n)) && 0 <= n <= buf.Length ==>
                Awaits(old(Deadlines())) && (e.Some? ==> e.value.EOF?)
      ensures old(Timed()) && 0 <= n <= buf.Length && !Spare(old(Deadlines()), |old(Stream())|, n) ==>
                e == Some(Fault) && Awaits(old(Deadlines())[1..])
    {
      hide Deadlines, Willing, Steady, Stream, Spare;
      if n < 0 { return [], Some(NegativeCount); }
      FillTo(n);
      BufferedFirst(n);
      if !Spare(Deadlines(), |Stream()|, n) { FaultFirst(n); }
      if n > buf.Length {
        FrontOf(w - r);
        return buf[r..w], Some(BufferFull);
      }
      var m := n;
      var avail := w - r;
      e := None;
      if avail < n {
        m := avail;
      }
      FrontOf(m);
      p := buf[r..r + m];
      if avail < n {
        e := Failed();
      }
    }

    lemma StreamLength()
      requires Valid()
      ensures |Stream()| == w - r + |rd.data|
    {
    }

    /** The buffered bytes are at the front of the stream. */
    lemma FrontOf(m: nat)
      requires Valid() && m <= w - r
      ensures buf[r..r + m] <= Stream()
      ensures m == w - r && err == Some(EOF) ==> buf[r..r + m] == Stream()
    {
      assert buf[r..r + m] == buf[r..w][..m];
    }

    /** readErr, for an error that there is. */
    method Failed() returns (e: Option<Error>)
      requires Valid()
      modifies this`err
      ensures Valid() && Stream() == old(Stream()) && e == old(err) && err == None
      ensures old(Timed()) ==> Timed()
      ensures Deadlines() == if e == Some(Fault) then old(Deadlines())[1..] else old(Deadlines())
    {
      hide Faults;
      e := ReadErr();
    }

    /** bufio.go:138-140. */
    method FillTo(n: nat)
      requires Valid()
      modifies this, buf, rd
      ensures Valid() && Stream() == old(Stream()) && Buffered() >= old(Buffered())
      ensures Buffered() >= n || Buffered() == buf.Length || err.Some?
      ensures old(Quiet()) ==> Quiet()
      ensures old(Timed()) ==> Awaits(old(Deadlines()))
      ensures n <= old(Buffered()) ==> r == old(r) && w == old(w)
    {
      hide Faults, Willing, Steady;
      while w - r < n && w - r < buf.Length && err == None
        invariant Valid() && Stream() == old(Stream()) && Buffered() >= old(Buffered())
        invariant old(Quiet()) ==> Quiet()
        invariant old(Timed()) ==> Awaits(old(Deadlines()))
        invariant n <= old(Buffered()) ==> r == old(r) && w == old(w)
        decreases |rd.data|, err.None?
      {
        Fill();
      }
    }

    /** `b.r += n` over buffered bytes. */
    method Advance(n: nat)
      requires Valid() && n <= w - r
      modifies this
      ensures Valid() && err == old(err) && r == old(r) + n && w == old(w)
      ensures Stream() == old(Stream())[n..] && old(buf[r..r + n]) == old(Stream())[..n]
      ensures Deadlines() == old(Deadlines()) && (old(Timed()) ==> Timed())
    {
      hide Faults, Willing;
      ghost var held := buf[r..w];
      CutLeft(held, rd.data, n);
      assert buf[r..r + n] == held[..n];
      r := r + n;
      assert buf[r..w] == held[n..];
    }

    /** bufio.go:173-181: one round of Discard. */
    method SkipSome(limit: nat) returns (skip: nat)
      requires Valid() && limit > 0
      modifies this, buf, rd
      ensures Valid()
      ensures skip <= limit && skip <= |old(Stream())| && Stream() == old(Stream())[skip..]
      ensures skip > 0 || err.Some?
      ensures limit <= old(w - r) ==> skip == limit && rd.data == old(rd.data) && err == old(err)
      ensures old(Quiet()) ==> Quiet()
      ensures err == Some(EOF) && skip < limit ==> Stream() == []
      ensures old(Clear(limit)) ==>
                Clear(limit - skip) && Deadlines() == old(Deadlines()) && (skip < limit && err.Some? ==> err.value.EOF?)
    {
      hide Deadlines, Willing, Steady;
      BufferedFirst(limit);
      skip := Buffered();
      if skip == 0 {
        Fill();
        skip := Buffered();
      }
      BufferedFirst(limit);
      skip := Min(skip, limit);
      Advance(skip);
    }

    /** Discard: skips the next `n` bytes; it cannot fail on buffered ones. */
    method Discard(n: int) returns (discarded: nat, e: Option<Error>)
      requires Valid()
      modifies this, buf, rd
      ensures Valid()
      ensures discarded <= |old(Stream())| && Stream() == old(Stream())[discarded..]
      ensures e.None? <==> discarded == n
      ensures n < 0 ==> discarded == 0 && e == Some(NegativeCount)
      ensures n >= 0 ==> discarded <= n
      ensures e == Some(EOF) ==> Stream() == []
      ensures n >= 0 && e.Some? ==> err == None
      ensures 0 <= n <= old(Buffered()) ==> e.None? && err == old(err)
      ensures old(Quiet()) ==> Quiet() && (n >= 0 && e.Some? ==> e.value.EOF?)
      ensures old(Clear(n)) && n >= 0 ==> Awaits(old(Deadlines())) && (e.Some? ==> e.value.EOF?)
    {
      hide Faults, Steady, Stream, Deadlines, Willing;
      if n < 0 { return 0, Some(NegativeCount); }
      if n == 0 { return 0, None; }
      discarded := 0;
      ghost var stream := Stream();
      while true
        invariant Valid() && discarded < n
        invariant old(Quiet()) ==> Quiet()
        invariant old(Clear(n)) ==> Clear(n - discarded) && Deadlines() == old(Deadlines())
        invariant discarded <= |stream| && Stream() == stream[discarded..]
        invariant n <= old(Buffered()) ==> discarded == 0 && Buffered() == old(Buffered()) && err == old(err)
        decreases n - discarded
      {
        var skip := SkipSome(n - discarded);
        DropDrop(stream, discarded, skip);
        discarded := discarded + skip;
        if discarded == n { return n, None; }
        if err.Some? {
          e := Failed();
          return;
        }
      }
    }

    /** The first `n` buffered bytes, consumed. */
    method Take(n: nat) returns (line: seq<byte>)
      requires Valid() && n <= w - r
      modifies this
      ensures Valid() && err == old(err) && r == old(r) + n && w == old(w)
      ensures line == old(buf[r..w])[..n] && old(Stream()) == line + Stream()
    {
      line := buf[r..r + n];
      assert line == buf[r..w][..n];
      Advance(n);
    }

    /** bufio.go:225-235: one read of the source into the empty buffer. */
    method ReadAhead() returns (n: nat)
      requires Valid() && r == w && err.None?
      modifies this, buf, rd
      ensures Valid() && Stream() == old(Stream()) && w == r + n
      ensures old(Quiet()) ==> Quiet()
      ensures n == 0 && err.None? ==> |rd.plan| < |old(rd.plan)| && old(rd.plan)[0].max == 0
      ensures Follows(old(rd.plan), rd.plan)
    {
      r := 0;
      w := 0;
      n, err := rd.Read(buf, 0, buf.Length);
      FollowsWilling(old(rd.plan), rd.plan);
      w := n;
    }

    /** bufio.go:211-223: one read of the source past the empty buffer. */
    method ReadDirect(p: array<byte>, from: nat, to: nat) returns (n: nat, e: Option<Error>)
      requires Valid() && p != buf && from < to <= p.Length && r == w && err.None?
      modifies this, rd, p
      ensures Valid() && from + n <= to
      ensures old(Stream()) == p[from..from + n] + Stream()
      ensures forall i :: 0 <= i < p.Length && !(from <= i < from + n) ==> p[i] == old(p[i])
      ensures e == Some(EOF) ==> Stream() == []
      ensures old(Quiet()) ==> Quiet() && (e.Some? ==> e.value.EOF?)
      ensures n == 0 && e.None? ==> |rd.plan| < |old(rd.plan)| && old(rd.plan)[0].max == 0
      ensures Follows(old(rd.plan), rd.plan)
      ensures e.Some? ==> err == None
    {
      n, err := rd.Read(p, from, to);
      FollowsWilling(old(rd.plan), rd.plan);
      e := ReadErr();
    }

    /** Read into `p[from..to]`: at most one read of the source, and none when bytes are buffered. */
    method Read(p: array<byte>, from: nat, to: nat) returns (n: nat, e: Option<Error>)
      requires Valid() && p != buf && from <= to <= p.Length
      modifies this, buf, rd, p
      ensures Valid() && from + n <= to
      ensures old(Stream()) == p[from..from + n] + Stream()
      ensures forall i :: 0 <= i < p.Length && !(from <= i < from + n) ==> p[i] == old(p[i])
      ensures e == Some(EOF) ==> Stream() == []
      ensures old(Quiet()) ==> Quiet() && (e.Some? ==> e.value.EOF?)
      ensures n == 0 && e.None? && from < to ==> |rd.plan| < |old(rd.plan)| && old(rd.plan)[0].max == 0
      ensures Follows(old(rd.plan), rd.plan)
      ensures old(Buffered()) > 0 ==> rd.data == old(rd.data) && rd.plan == old(rd.plan)
      ensures e.Some? ==> err == None
    {
      n := to - from;
      e := None;
      if n == 0 {
        if Buffered() == 0 { e := TakeError(); }
        assert p[from..from] == [];
      } else if r == w {
        n, e := ReadEmpty(p, from, to);
      } else {
        n := CopyOut(p, from, to);
      }
    }

    /** readErr, which may find none. */
    method TakeError() returns (e: Option<Error>)
      requires Valid()
      modifies this`err
      ensures Valid() && Stream() == old(Stream()) && e == old(err)
      ensures e == Some(EOF) ==> rd.data == []
      ensures old(Quiet()) ==> Quiet() && (e.Some? ==> e.value.EOF?)
      ensures e.Some? ==> err == None
    {
      e := ReadErr();
    }

    /** bufio.go:206-236: the buffer is empty. */
    method ReadEmpty(p: array<byte>, from: nat, to: nat) returns (n: nat, e: Option<Error>)
      requires Valid() && r == w && p != buf && from < to <= p.Length
      modifies this, buf, rd, p
      ensures Valid() && from + n <= to
      ensures old(Stream()) == p[from..from + n] + Stream()
      ensures forall i :: 0 <= i < p.Length && !(from <= i < from + n) ==> p[i] == old(p[i])
      ensures e == Some(EOF) ==> Stream() == []
      ensures old(Quiet()) ==> Quiet() && (e.Some? ==> e.value.EOF?)
      ensures n == 0 && e.None? ==> |rd.plan| < |old(rd.plan)| && old(rd.plan)[0].max == 0
      ensures Follows(old(rd.plan), rd.plan)
      ensures e.Some? ==> err == None
    {
      n, e := 0, None;
      assert p[from..from] == [];
      if err.Some? {
        e := TakeError();
      } else if to - from >= buf.Length {
        n, e := ReadDirect(p, from, to);
      } else {
        n := ReadAhead();
        if n == 0 {
          e := TakeError();
        } else {
          n := CopyOut(p, from, to);
        }
      }
    }

    /** bufio.go:238-240: copies as much as there is room for. */
    method CopyOut(p: array<byte>, from: nat, to: nat) returns (n: nat)
      requires Valid() && p != buf && from <= to <= p.Length
      modifies this, p
      ensures Valid() && err == old(err) && n == Min(to - from, old(w - r))
      ensures old(Stream()) == p[from..from + n] + Stream()
      ensures forall i :: 0 <= i < p.Length && !(from <= i < from + n) ==> p[i] == old(p[i])
    {
      n := Min(to - from, w - r);
      var bytes := Take(n);
      forall i | from <= i < from + n { p[i] := bytes[i - from]; }
      assert p[from..from + n] == bytes;
    }

    /** ReadByte: the next byte, or the reason why there is none. */
    method ReadByte() returns (c: byte, e: Option<Error>)
      requires Valid()
      modifies this, buf, rd
      ensures Valid()
      ensures e.None? ==> old(Stream()) == [c] + Stream()
      ensures e.Some? ==> Stream() == old(Stream()) && err == None
      ensures e == Some(EOF) ==> Stream() == []
      ensures old(Quiet()) ==> Quiet() && (e.Some? ==> e.value.EOF?)
    {
      while r == w
        invariant Valid() && Stream() == old(Stream())
        invariant old(Quiet()) ==> Quiet()
        decreases r == w, err.None?
      {
        if err.Some? {
          e := ReadErr();
          return 0, e;
        }
        Fill();
      }
      c, e := buf[r], None;
      var bytes := Take(1);
      assert bytes == [c];
    }

    /** bufio.go:336: the search of the buffered bytes, past the `s` that were searched before. */
    method Search(delim: byte, s: nat) returns (i: int)
      requires Valid() && s <= w - r && IndexByte(buf[r..r + s], delim) == -1
      ensures i == IndexByte(buf[r..w], delim)
    {
      ghost var p, q := buf[r..r + s], buf[r + s..w];
      IndexAppend(p, q, delim);
      assert buf[r..w] == p + q;
      i := IndexByte(buf[r + s..w], delim);
      if i >= 0 { i := i + s; }
    }

    /** What ReadSlice promises when the stream was `stream`. */
    ghost predicate Sliced(delim: byte, stream: seq<byte>, line: seq<byte>, e: Option<Error>)
      reads this, buf, rd
    {
      && Valid() && line + Stream() == stream && |line| <= buf.Length
      && (e.None? ==> IndexByte(line, delim) == |line| - 1 >= 0)
      && (e.Some? ==> IndexByte(line, delim) == -1)
      && (e == Some(BufferFull) ==> |line| == r == w == buf.Length && line == buf[..])
      && (e == Some(EOF) ==> Stream() == []) && (e.Some? ==> err == None)
    }

    /** bufio.go:336-357 when `i` is where the buffered bytes have the delimiter: the end of the loop, if it ends. */
    method CutSlice(delim: byte, i: int) returns (line: seq<byte>, e: Option<Error>)
      requires Valid() && i == IndexByte(buf[r..w], delim)
      requires i >= 0 || err.Some? || Buffered() == buf.Length
      modifies this
      ensures Sliced(delim, old(Stream()), line, e)
      ensures old(Quiet()) ==> Quiet() && (e.Some? ==> e.value.EOF? || e.value.BufferFull?)
    {
      if i >= 0 {
        line := CutLine(delim, i);
        e := None;
      } else {
        line, e := CutAll(delim);
      }
    }

    /** The line up to the delimiter. */
    method CutLine(delim: byte, i: nat) returns (line: seq<byte>)
      requires Valid() && i == IndexByte(buf[r..w], delim)
      modifies this
      ensures Sliced(delim, old(Stream()), line, None) && err == old(err)
    {
      hide Stream, IndexByte;
      IndexFirst(buf[r..w], delim, i);
      line := Take(i + 1);
      IndexFirst(line, delim, i);
    }

    /** All that is buffered, and why. */
    method CutAll(delim: byte) returns (line: seq<byte>, e: Option<Error>)
      requires Valid() && IndexByte(buf[r..w], delim) == -1
      requires err.Some? || Buffered() == buf.Length
      modifies this
      ensures Sliced(delim, old(Stream()), line, e) && e.Some?
      ensures old(Quiet()) ==> Quiet() && (e.value.EOF? || e.value.BufferFull?)
    {
      hide IndexByte;
      ghost var all := buf[r..w];
      assert all[..w - r] == all;
      line := Take(w - r);
      if err.Some? {
        e := Failed();
      } else {
        assert all == buf[..];
        e := Some(BufferFull);
      }
    }

    /**
     ReadSlice: the bytes up to the first delimiter; all the bytes there are and
     the error; or a full buffer without a delimiter. The error is nil exactly
     when the line ends in the delimiter.
     */
    method ReadSlice(delim: byte) returns (line: seq<byte>, e: Option<Error>)
      requires Valid()
      modifies this, buf, rd
      ensures Sliced(delim, old(Stream()), line, e)
      ensures old(Quiet()) ==> Quiet() && (e.Some? ==> e.value.EOF? || e.value.BufferFull?)
    {
      var s := 0;
      var i := Search(delim, s);
      while i < 0 && err.None? && Buffered() < buf.Length
        invariant Valid() && Stream() == old(Stream())
        invariant old(Quiet()) ==> Quiet()
        invariant i == IndexByte(buf[r..w], delim)
        decreases |rd.data|, err.None?
      {
        s := w - r;
        Fill();
        i := Search(delim, s);
      }
      line, e := CutSlice(delim, i);
    }

    /**
     ReadLine. A fragment that fills the buffer is a prefix of its line, never one
     that ends between CR and LF; what is not a prefix is the rest of the line.
     */
    method ReadLine() returns (line: seq<byte>, isPrefix: bool, e: Option<Error>)
      requires Valid() && buf.Length >= 2
      modifies this, buf, rd
      ensures Valid()
      ensures isPrefix ==> e.None? && Fragment(old(Stream()), line) && |line| >= buf.Length - 1
      ensures !isPrefix && e.None? && old(Quiet()) ==>
               line == FirstLine(old(Stream())) && Stream() == AfterLine(old(Stream()))
      ensures !isPrefix && e.None? ==> old(Stream()) != []
      ensures e.Some? ==> line == [] && !isPrefix && Stream() == old(Stream())
      ensures e == Some(EOF) ==> Stream() == []
      ensures old(Quiet()) ==> Quiet() && (e.Some? ==> e.value.EOF?)
      ensures e.Some? ==> err == None
    {
      ghost var stream := Stream();
      line, e := ReadSlice(LF);
      if e == Some(BufferFull) {
        line := PutBackCR(line, stream);
        return line, true, None;
      }
      isPrefix := false;
      if line == [] { return; }
      line := WithoutEnd(line, stream, e);
      e := None;
    }

    /** bufio.go:405-418: the line without its end. */
    method WithoutEnd(line: seq<byte>, ghost stream: seq<byte>, ghost e: Option<Error>) returns (text: seq<byte>)
      requires line != [] && Sliced(LF, stream, line, e) && e != Some(BufferFull)
      ensures e.None? || e.value.EOF? ==> text == FirstLine(stream) && Stream() == AfterLine(stream)
    {
      text := line;
      IndexFirst(line, LF, IndexByte(line, LF));
      if line[|line| - 1] == LF {
        FirstLineCut(line, Stream());
        text := DropCR(line[..|line| - 1]);
      } else if e == Some(EOF) {
        assert line + [] == line;
      }
    }

    /** bufio.go:391-402: a CR at the end of a full buffer is left for the next call, which may find LF after it. */
    method PutBackCR(full: seq<byte>, ghost stream: seq<byte>) returns (line: seq<byte>)
      requires Sliced(LF, stream, full, Some(BufferFull))
      modifies this
      ensures Valid() && err == old(err)
      ensures Fragment(stream, line) && |line| >= buf.Length - 1
    {
      line := full;
      if line[|line| - 1] == CR {
        r := r - 1;
        line := line[..|line| - 1];
        ghost var cr := full[|full| - 1..];
        assert full == line + cr && buf[r..w] == cr;
        IndexAppend(line, cr, LF);
        assert Stream() == cr + rd.data;
        Reassociate(line, cr, rd.data);
        assert old(Stream()) == rd.data;
      }
    }

    /** `line` is the beginning of the first line of `stream`, and the rest is still to be read. */
    ghost predicate Fragment(stream: seq<byte>, line: seq<byte>)
      reads this, buf, rd
    {
      Valid() && line + Stream() == stream && IndexByte(line, LF) == -1 &&
      (line != [] && line[|line| - 1] == CR ==> Stream() != [] && Stream()[0] == CR)
    }

    /** The use of ReadLine that its documentation describes: fragments are joined up to one that is not a prefix. */
    method JoinLine() returns (line: seq<byte>, e: Option<Error>)
      requires Valid() && Quiet() && buf.Length >= 2
      modifies this, buf, rd
      ensures Valid() && Quiet()
      ensures line == FirstLine(old(Stream())) && Stream() == AfterLine(old(Stream()))
      ensures e.Some? ==> e.value.EOF? && Stream() == []
      ensures old(Stream()) == [] ==> e.Some?
    {
      ghost var stream := Stream();
      line, e := [], None;
      var more := true;
      while more
        invariant Valid() && Quiet()
        invariant more ==> Fragment(stream, line) && (line == [] ==> Stream() == stream)
        invariant !more ==> line == FirstLine(stream) && Stream() == AfterLine(stream)
        invariant !more && e.Some? ==> e.value.EOF? && Stream() == []
        invariant !more && stream == [] ==> e.Some?
        decreases more, |Stream()|
      {
        ghost var before := Stream();
        var part;
        part, more, e := ReadLine();
        if more {
          IndexAppend(line, part, LF);
          Reassociate(line, part, Stream());
        } else {
          FirstLineJoins(line, before);
        }
        line := line + part;
      }
    }

    /**
     collectFragments and ReadBytes: everything up to and including the first
     delimiter, or everything and the error.
     */
    method ReadBytes(delim: byte) returns (all: seq<byte>, e: Option<Error>)
      requires Valid()
      modifies this, buf, rd
      ensures Valid() && all + Stream() == old(Stream())
      ensures e.None? ==> IndexByte(all, delim) == |all| - 1 >= 0
      ensures e.Some? ==> IndexByte(all, delim) == -1 && !e.value.BufferFull?
      ensures e == Some(EOF) ==> Stream() == []
      ensures old(Quiet()) ==> Quiet() && (e.Some? ==> e.value.EOF?)
    {
      all, e := ReadSlice(delim);
      while e == Some(BufferFull)
        invariant Valid() && all + Stream() == old(Stream())
        invariant e.None? ==> IndexByte(all, delim) == |all| - 1 >= 0
        invariant e.Some? ==> IndexByte(all, delim) == -1
        invariant e == Some(EOF) ==> Stream() == []
        invariant old(Quiet()) ==> Quiet() && (e.Some? ==> e.value.EOF? || e.value.BufferFull?)
        decreases |Stream()|, e == Some(BufferFull)
      {
        var frag;
        frag, e := ReadSlice(delim);
        IndexAppend(all, frag, delim);
        Reassociate(all, frag, Stream());
        all := all + frag;
      }
    }
  }
}
