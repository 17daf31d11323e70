/** `bufio/bufio.go`, `Writer`, in front of a sink that may fail or write short. */
module BufioWriter {
  import opened Wrappers
  import opened Bytes
  import Bufio

  datatype Error = SinkFailed | ShortWrite
  datatype ReadFromError = Writing(err: Error) | NoProgress | ReadFault

  /** One answer of the sink: at most `max` bytes are taken, and it may say that it failed. */
  datatype Answer = Answer(max: nat, fails: bool)

  /** An `io.Writer`. After its plan it takes everything. */
  class Sink {
    var received: seq<byte>
    var plan: seq<Answer>

    constructor (plan: seq<Answer>)
      ensures received == [] && this.plan == plan
    {
      received, this.plan := [], plan;
    }

    method Write(p: seq<byte>) returns (n: nat, err: Option<Error>)
      modifies this
      ensures n <= |p| && received == old(received) + p[..n]
      ensures plan == if old(plan) == [] then [] else old(plan)[1..]
      ensures n < |p| ==> old(plan) != [] && n == old(plan)[0].max
      ensures err == if old(plan) != [] && old(plan)[0].fails then Some(SinkFailed) else None
    {
      var a := if plan == [] then Answer(|p|, false) else plan[0];
      plan := if plan == [] then [] else plan[1..];
      n := Bufio.Min(a.max, |p|);
      received := received + p[..n];
      err := if a.fails then Some(SinkFailed) else None;
    }
  }

  /**
   The sink, whose answers were to be `was`, has `plan` left; an error is its last
   answer: it failed, or it took less than it was given.
   */
  ghost predicate Because(was: seq<Answer>, plan: seq<Answer>, err: Option<Error>) {
    |plan| <= |was| && plan == was[|was| - |plan|..] &&
    (err.Some? ==> |plan| < |was| && err == Some(if was[|was| - |plan| - 1].fails then SinkFailed else ShortWrite))
  }

  lemma OneAnswer(was: seq<Answer>, plan: seq<Answer>, short: bool, e: Option<Error>)
    requires plan == if was == [] then [] else was[1..]
    requires short ==> was != []
    requires e == if was != [] && was[0].fails then Some(SinkFailed) else None
    ensures Because(was, plan, if e.None? && short then Some(ShortWrite) else e)
    ensures !short ==> Because(was, plan, e)
  {
  }

  lemma NoAnswers(plan: seq<Answer>)
    ensures Because(plan, plan, None)
  {
  }

  lemma BecauseThen(was: seq<Answer>, mid: seq<Answer>, plan: seq<Answer>, err: Option<Error>)
    requires Because(was, mid, None) && Because(mid, plan, err)
    ensures Because(was, plan, err)
  {
    var k := |was| - |mid|;
    assert plan == was[k..][|mid| - |plan|..];
    assert |plan| < |mid| ==> mid[|mid| - |plan| - 1] == was[|was| - |plan| - 1];
  }

  class Writer {
    var err: Option<Error>
    const buf: array<byte>
    var n: nat
    const wr: Sink

    /** NewWriterSize. */
    constructor (wr: Sink, buf: array<byte>)
      requires buf.Length > 0
      ensures Valid() && this.wr == wr && this.buf == buf && err == None && Contents() == wr.received
    {
      this.wr, this.buf, err, n := wr, buf, None, 0;
    }

    ghost predicate Valid()
      reads this
    {
      n <= buf.Length && buf.Length > 0
    }

    /** What the sink has received and what is still in the buffer. */
    ghost function Contents(): seq<byte>
      reads this, buf, wr
      requires Valid()
    {
      wr.received + buf[..n]
    }

    /** After an error the sink and the buffer are left alone. */
    ghost predicate Untouched(received: seq<byte>, plan: seq<Answer>, e: Option<Error>, k: nat)
      reads this, wr
    {
      wr.received == received && wr.plan == plan && err == e && n == k
    }

    function Available(): nat
      reads this
      requires Valid()
    {
      buf.Length - n
    }

    /** bufio.go:611-614: what was not taken moves to the front. */
    method Keep(k: nat)
      requires Valid() && k <= n
      modifies this`n, buf
      ensures Valid() && n == old(n) - k && buf[..n] == old(buf[..n])[k..]
    {
      if k > 0 && k < n {
        forall i | 0 <= i < n - k { buf[i] := buf[k + i]; }
      }
      n := n - k;
    }

    /** Flush: nothing gets lost, whatever the sink does. */
    method Flush() returns (e: Option<Error>)
      requires Valid()
      modifies this`err, this`n, buf, wr
      ensures Valid() && Contents() == old(Contents()) && e == err
      ensures err.None? ==> n == 0 && (old(n) == 0 || wr.received == old(Contents()))
      ensures old(err).Some? ==> Untouched(old(wr.received), old(wr.plan), old(err), old(n))
      ensures n <= old(n) && |wr.plan| <= |old(wr.plan)|
      ensures old(err).None? ==> Because(old(wr.plan), wr.plan, err)
    {
      hide Because;
      NoAnswers(wr.plan);
      if err.Some? { return err; }
      if n == 0 { return None; }
      ghost var held := buf[..n];
      var k, e0 := wr.Write(buf[..n]);
      OneAnswer(old(wr.plan), wr.plan, k < n, e0);
      assert held == held[..k] + held[k..];
      Reassociate(old(wr.received), held[..k], held[k..]);
      if k < n && e0.None? { e0 := Some(ShortWrite); }
      if e0.Some? {
        Keep(k);
        err := e0;
        return err;
      }
      n := 0;
      return None;
    }

    /** As much of `p` as there is room for goes into the buffer. */
    method Copy(p: seq<byte>) returns (k: nat)
      requires Valid()
      modifies this`n, buf
      ensures Valid() && k == Bufio.Min(|p|, old(Available()))
      ensures Contents() == old(Contents()) + p[..k] && n == old(n) + k
    {
      ghost var held := buf[..n];
      k := Bufio.Min(|p|, Available());
      forall i | 0 <= i < k { buf[n + i] := p[i]; }
      n := n + k;
      assert buf[..n] == held + p[..k];
      Reassociate(wr.received, held, p[..k]);
    }

    /** bufio.go:636-639: a large write past the empty buffer. */
    method WriteDirect(p: seq<byte>) returns (k: nat)
      requires Valid() && n == 0 && err.None?
      modifies this`err, wr
      ensures Valid() && k <= |p| && Contents() == old(Contents()) + p[..k]
      ensures (err.None? && k == |p|) || |wr.plan| < |old(wr.plan)|
      ensures |wr.plan| <= |old(wr.plan)| && Because(old(wr.plan), wr.plan, err)
    {
      k, err := wr.Write(p);
      OneAnswer(old(wr.plan), wr.plan, k < |p|, err);
      assert buf[..0] == [];
    }

    /** Write: the first `nn` bytes of `p` are accepted, all of them unless there is an error. */
    method Write(p: seq<byte>) returns (nn: nat, e: Option<Error>)
      requires Valid()
      modifies this`err, this`n, buf, wr
      ensures Valid() && nn <= |p| && Contents() == old(Contents()) + p[..nn] && e == err
      ensures e.None? ==> nn == |p|
      ensures old(err).None? ==> Because(old(wr.plan), wr.plan, err)
      ensures old(err).Some? ==> Untouched(old(wr.received), old(wr.plan), old(err), old(n)) && nn == 0
    {
      hide Because;
      NoAnswers(wr.plan);
      nn := 0;
      assert p[..0] == [] && p[0..] == p;
      while |p| - nn > Available() && err.None?
        invariant Valid() && nn <= |p| && Contents() == old(Contents()) + p[..nn]
        invariant old(err).None? ==> Because(old(wr.plan), wr.plan, err)
        invariant old(err).Some? ==> nn == 0 && n == old(n) && err == old(err)
        invariant old(err).Some? ==> wr.received == old(wr.received) && wr.plan == old(wr.plan)
        decreases |wr.plan| + |p| - nn, n, err.None?
      {
        var k;
        ghost var rest, plan := p[nn..], wr.plan;
        if n == 0 {
          k := WriteDirect(p[nn..]);
        } else {
          k := Copy(p[nn..]);
          var e0 := Flush();
        }
        if old(err).None? { BecauseThen(old(wr.plan), plan, wr.plan, err); }
        DropDrop(p, nn, k);
        Reassociate(old(Contents()), p[..nn], rest[..k]);
        nn := nn + k;
      }
      if err.Some? { return nn, err; }
      var k := Copy(p[nn..]);
      assert p[nn..][..k] == p[nn..] && p[..nn] + p[nn..] == p[..nn + k];
      Reassociate(old(Contents()), p[..nn], p[nn..]);
      nn := nn + k;
      e := None;
    }

    /** WriteString: the same, but always through the buffer. */
    method WriteString(s: seq<byte>) returns (nn: nat, e: Option<Error>)
      requires Valid()
      modifies this`err, this`n, buf, wr
      ensures Valid() && nn <= |s| && Contents() == old(Contents()) + s[..nn] && e == err
      ensures e.None? ==> nn == |s|
      ensures old(err).None? ==> Because(old(wr.plan), wr.plan, err)
      ensures old(err).Some? ==> Untouched(old(wr.received), old(wr.plan), old(err), old(n)) && nn == 0
    {
      hide Because;
      NoAnswers(wr.plan);
      nn := 0;
      assert s[..0] == [] && s[0..] == s;
      while |s| - nn > Available() && err.None?
        invariant Valid() && nn <= |s| && Contents() == old(Contents()) + s[..nn]
        invariant old(err).None? ==> Because(old(wr.plan), wr.plan, err)
        invariant old(err).Some? ==> nn == 0 && n == old(n) && err == old(err)
        invariant old(err).Some? ==> wr.received == old(wr.received) && wr.plan == old(wr.plan)
        decreases |s| - nn, n, err.None?
      {
        ghost var rest, plan := s[nn..], wr.plan;
        var k := Copy(s[nn..]);
        var e0 := Flush();
        if old(err).None? { BecauseThen(old(wr.plan), plan, wr.plan, err); }
        DropDrop(s, nn, k);
        Reassociate(old(Contents()), s[..nn], rest[..k]);
        nn := nn + k;
      }
      if err.Some? { return nn, err; }
      var k := Copy(s[nn..]);
      assert s[nn..][..k] == s[nn..] && s[..nn] + s[nn..] == s[..nn + k];
      Reassociate(old(Contents()), s[..nn], s[nn..]);
      nn := nn + k;
      e := None;
    }

    /** bufio.go:742-752: one read of `r` into the buffer, past answers without a byte. */
    method Fill(r: Bufio.Source) returns (m: nat, e: Option<ReadFromError>, eof: bool)
      requires Valid() && n < buf.Length
      modifies this`n, buf, r
      ensures Valid() && n == old(n) + m && m <= |old(r.data)| && old(r.data) == old(r.data)[..m] + r.data
      ensures Contents() == old(Contents()) + old(r.data)[..m]
      ensures m == 0 && e.None? ==> eof
      ensures eof ==> e.None? && r.data == []
      ensures e.Some? ==> !e.value.Writing?
      ensures Bufio.Steady(old(r.plan)) ==> e.None? && Bufio.Steady(r.plan)
    {
      hide Bufio.Faults, Bufio.Follows, Bufio.Willing;
      var nr := 0;
      ghost var held, data, plan := buf[..n], r.data, r.plan;
      assert data == [] + data;
      while nr < Bufio.MAX_EMPTY_READS
        invariant Valid() && n == old(n) && r.data == data && Contents() == old(Contents()) && buf[..n] == held
        invariant nr <= |plan| && r.plan == plan[nr..] && Bufio.Dry(plan, 0, nr)
        decreases Bufio.MAX_EMPTY_READS - nr
      {
        if Bufio.Steady(plan) { Bufio.WillingSteps(plan, nr); }
        ghost var before := r.plan;
        var err0;
        m, err0 := r.Read(buf, n, buf.Length);
        Bufio.FollowsWilling(before, r.plan);
        assert buf[..n] == held && buf[..n + m] == held + buf[n..n + m];
        if m != 0 || err0.Some? {
          assert data[..m] == buf[n..n + m];
          Reassociate(wr.received, held, data[..m]);
          n := n + m;
          eof := err0.Some? && err0.value.EOF?;
          e := if err0.Some? && !eof then Some(ReadFault) else None;
          return;
        }
        assert r.data == data;
        nr := nr + 1;
      }
      Bufio.TooDry(plan);
      m, e, eof := 0, Some(NoProgress), false;
    }

    /** ReadFrom, over a sink that cannot read for itself: what was read is accepted. */
    method ReadFrom(r: Bufio.Source) returns (k: nat, e: Option<ReadFromError>)
      requires Valid()
      modifies this`err, this`n, buf, wr, r
      ensures Valid() && k <= |old(r.data)| && r.data == old(r.data)[k..]
      ensures Contents() == old(Contents()) + old(r.data)[..k]
      ensures e.None? ==> r.data == []
      ensures old(err).None? ==> Because(old(wr.plan), wr.plan, err)
      ensures e.Some? && e.value.Writing? ==> err == Some(e.value.err)
      ensures Bufio.Steady(old(r.plan)) && e.Some? ==> e.value.Writing?
      ensures old(err).Some? ==> Untouched(old(wr.received), old(wr.plan), old(err), old(n)) && k == 0 && e.Some?
    {
      hide Because, Bufio.Steady;
      NoAnswers(wr.plan);
      k := 0;
      ghost var data := r.data;
      assert data[..0] == [] && data[0..] == data;
      if err.Some? { return 0, Some(Writing(err.value)); }
      while true
        invariant Valid() && k <= |data| && r.data == data[k..] && Contents() == old(Contents()) + data[..k]
        invariant err.None? && Because(old(wr.plan), wr.plan, err)
        invariant Bufio.Steady(old(r.plan)) ==> Bufio.Steady(r.plan)
        decreases |r.data|
      {
        if Available() == 0 {
          ghost var plan := wr.plan;
          var err1 := Flush();
          BecauseThen(old(wr.plan), plan, wr.plan, err);
          if err1.Some? { return k, Some(Writing(err1.value)); }
        }
        var m, eof;
        m, e, eof := Fill(r);
        DropDrop(data, k, m);
        Reassociate(old(Contents()), data[..k], data[k..][..m]);
        k := k + m;
        if e.Some? { return; }
        if eof {
          if Available() == 0 {
            ghost var plan := wr.plan;
            var err1 := Flush();
            BecauseThen(old(wr.plan), plan, wr.plan, err);
            if err1.Some? { e := Some(Writing(err1.value)); }
          }
          return;
        }
      }
    }
  }

  datatype Op =
    | DoWrite(p: seq<byte>) | DoWriteString(p: seq<byte>) | DoFlush | DoReadFrom(p: seq<byte>, plan: seq<Bufio.Turn>)

  /** The bytes an operation is given to write. */
  function Given(op: Op): seq<byte> {
    if op.DoFlush? then [] else op.p
  }

  /** The count and success an operation may report: without an error all that it was given is accepted. */
  ghost predicate Reports(op: Op, k: nat, ok: bool) {
    k <= |Given(op)| && (ok ==> k == |Given(op)|)
  }

  ghost predicate AllReport(ops: seq<Op>, counts: seq<nat>, oks: seq<bool>) {
    |counts| == |oks| <= |ops| && forall i :: 0 <= i < |counts| ==> Reports(ops[i], counts[i], oks[i])
  }

  /** The bytes accepted of each operation, by the counts that it reported. */
  ghost function Accepted(ops: seq<Op>, counts: seq<nat>, oks: seq<bool>): (taken: seq<seq<byte>>)
    requires AllReport(ops, counts, oks)
    ensures |taken| == |counts|
  {
    seq(|counts|, i requires 0 <= i < |counts| => Taken(ops[i], counts[i], oks[i]))
  }

  ghost function Taken(op: Op, k: nat, ok: bool): seq<byte>
    requires Reports(op, k, ok)
  {
    Given(op)[..k]
  }

  /** After operation `i` has failed to write, nothing is accepted. */
  ghost predicate FinalAt(ops: seq<Op>, counts: seq<nat>, oks: seq<bool>, i: nat)
    requires |counts| == |oks| <= |ops| && i < |counts|
  {
    !ops[i].DoReadFrom? && !oks[i] ==> forall j :: i < j < |counts| ==> counts[j] == 0 && !oks[j]
  }

  ghost predicate AllFinal(ops: seq<Op>, counts: seq<nat>, oks: seq<bool>) {
    |counts| == |oks| <= |ops| && forall i :: 0 <= i < |counts| ==> FinalAt(ops, counts, oks, i)
  }

  /** What the operation reads from, if anything, is steady. */
  ghost predicate SourceWilling(op: Op) {
    op.DoReadFrom? ==> Bufio.Steady(op.plan)
  }

  /** Where the sources are willing, an operation fails only by the writer's error. */
  ghost predicate Stands(ops: seq<Op>, oks: seq<bool>, err: Option<Error>) {
    |oks| <= |ops| && forall i :: 0 <= i < |oks| && !oks[i] && SourceWilling(ops[i]) ==> err.Some?
  }

  lemma OneMoreFinal(ops: seq<Op>, counts: seq<nat>, oks: seq<bool>, i: nat, k: nat, ok: bool, err: Option<Error>,
                     err': Option<Error>)
    requires AllFinal(ops, counts, oks) && Stands(ops, oks, err) && |counts| == i < |ops|
    requires err.Some? ==> k == 0 && !ok && err' == err
    requires !ok && SourceWilling(ops[i]) ==> err'.Some?
    ensures AllFinal(ops, counts + [k], oks + [ok]) && Stands(ops, oks + [ok], err')
  {
    forall j | 0 <= j < i + 1 ensures FinalAt(ops, counts + [k], oks + [ok], j) {
      if j < i {
        assert FinalAt(ops, counts, oks, j);
        if !ops[j].DoReadFrom? && !oks[j] { assert SourceWilling(ops[j]); }
      }
    }
  }

  /**
   Any sequence of operations: the sink and the buffer together hold exactly the
   bytes that the operations report as accepted, in order, which are all that an
   operation without an error was given; an error of a write is final, and the last
   answer of the sink is to blame for it.
   */
  method Run(w: Writer, ops: seq<Op>) returns (counts: seq<nat>, oks: seq<bool>)
    requires w.Valid()
    modifies w, w.buf, w.wr
    ensures w.Valid() && |counts| == |ops| && AllReport(ops, counts, oks)
    ensures w.Contents() == old(w.Contents()) + Flatten(Accepted(ops, counts, oks))
    ensures AllFinal(ops, counts, oks)
    ensures Stands(ops, oks, w.err)
    ensures old(w.err).Some? ==> w.Untouched(old(w.wr.received), old(w.wr.plan), old(w.err), old(w.n))
    ensures old(w.err).None? ==> Because(old(w.wr.plan), w.wr.plan, w.err)
  {
    hide Writer.Contents, Flatten, Reports, Given, Because, Accepted, AllFinal, Stands, SourceWilling;
    counts, oks := [], [];
    NoneTaken(ops);
    assert w.Contents() + [] == w.Contents();
    NoAnswers(w.wr.plan);
    for i := 0 to |ops|
      invariant w.Valid() && |counts| == i && AllReport(ops, counts, oks)
      invariant w.Contents() == old(w.Contents()) + Flatten(Accepted(ops, counts, oks))
      invariant AllFinal(ops, counts, oks) && Stands(ops, oks, w.err)
      invariant old(w.err).Some? ==> w.Untouched(old(w.wr.received), old(w.wr.plan), old(w.err), old(w.n))
      invariant old(w.err).None? ==> Because(old(w.wr.plan), w.wr.plan, w.err)
    {
      ghost var plan, e := w.wr.plan, w.err;
      var k, ok := Do(w, ops[i]);
      if old(w.err).None? && e.None? { BecauseThen(old(w.wr.plan), plan, w.wr.plan, w.err); }
      Reassociate(old(w.Contents()), Flatten(Accepted(ops, counts, oks)), Taken(ops[i], k, ok));
      OneMore(ops, counts, oks, i, k, ok);
      OneMoreFinal(ops, counts, oks, i, k, ok, e, w.err);
      counts, oks := counts + [k], oks + [ok];
    }
  }

  lemma NoneTaken(ops: seq<Op>)
    ensures AllReport(ops, [], []) && Flatten(Accepted(ops, [], [])) == []
    ensures AllFinal(ops, [], []) && forall err :: Stands(ops, [], err)
  {
    assert Accepted(ops, [], []) == [];
  }

  lemma OneMore(ops: seq<Op>, counts: seq<nat>, oks: seq<bool>, i: nat, k: nat, ok: bool)
    requires AllReport(ops, counts, oks) && |counts| == i < |ops| && Reports(ops[i], k, ok)
    ensures AllReport(ops, counts + [k], oks + [ok])
    ensures Flatten(Accepted(ops, counts + [k], oks + [ok])) ==
            Flatten(Accepted(ops, counts, oks)) + Taken(ops[i], k, ok)
  {
    hide Reports, Flatten, Given;
    var more := Accepted(ops, counts + [k], oks + [ok]);
    FlattenNext(more, i);
    assert more[..i + 1] == more && more[..i] == Accepted(ops, counts, oks);
  }

  method Do(w: Writer, op: Op) returns (k: nat, ok: bool)
    requires w.Valid()
    modifies w, w.buf, w.wr
    ensures w.Valid() && Reports(op, k, ok) && w.Contents() == old(w.Contents()) + Taken(op, k, ok)
    ensures !ok && SourceWilling(op) ==> w.err.Some?
    ensures old(w.err).None? ==> Because(old(w.wr.plan), w.wr.plan, w.err)
    ensures old(w.err).Some? ==> w.Untouched(old(w.wr.received), old(w.wr.plan), old(w.err), old(w.n)) && k == 0 && !ok
  {
    match op
    case DoWrite(p) =>
      var e;
      k, e := w.Write(p);
      ok := e.None?;
    case DoWriteString(p) =>
      var e;
      k, e := w.WriteString(p);
      ok := e.None?;
    case DoFlush =>
      var e := w.Flush();
      k, ok := 0, e.None?;
      assert w.Contents() + [] == w.Contents();
    case DoReadFrom(p, plan) =>
      var r := new Bufio.Source(p, plan);
      var e;
      k, e := w.ReadFrom(r);
      ok := e.None?;
      assert ok ==> k == |p|;
  }
}
