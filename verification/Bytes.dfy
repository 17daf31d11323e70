/** Bytes, and the few functions on byte strings that several models share. */
module Bytes {
  type byte = x: int | 0 <= x < 256

  const LF: byte := 10
  const CR: byte := 13

  /** The bytes of a text in ASCII. */
  function Ascii(text: string): seq<byte> {
    seq(|text|, i requires 0 <= i < |text| => text[i] as int % 0x80)
  }

  lemma AsciiJoin(a: string, b: string)
    ensures Ascii(a + b) == Ascii(a) + Ascii(b)
  {
  }

  /** `bytes.IndexByte`: the first index of `b`, or -1. */
  function IndexByte(p: seq<byte>, b: byte): (i: int)
    ensures -1 <= i < |p|
  {
    if p == [] then -1
    else if p[0] == b then 0
    else if IndexByte(p[1..], b) < 0 then -1 else IndexByte(p[1..], b) + 1
  }

  ghost predicate FirstAt(p: seq<byte>, b: byte, i: int) {
    -1 <= i < |p| &&
    (forall k :: 0 <= k < (if i < 0 then |p| else i) ==> p[k] != b) &&
    (i >= 0 ==> p[i] == b)
  }

  /** `IndexByte` returns the first index, and nothing else is that. */
  lemma {:induction false} IndexFirst(p: seq<byte>, b: byte, i: int)
    ensures FirstAt(p, b, i) <==> i == IndexByte(p, b)
  {
    if p != [] && p[0] != b {
      IndexFirst(p[1..], b, IndexByte(p[1..], b));
      var j := IndexByte(p[1..], b);
      assert FirstAt(p[1..], b, j);
      assert forall k :: 1 <= k < |p| ==> p[k] == p[1..][k - 1];
      assert FirstAt(p, b, IndexByte(p, b));
    }
    assert FirstAt(p, b, IndexByte(p, b));
  }

  /** A first newline of `p` is the first of `p + q`; without one, it is that of `q`. */
  lemma IndexAppend(p: seq<byte>, q: seq<byte>, b: byte)
    ensures IndexByte(p, b) >= 0 ==> IndexByte(p + q, b) == IndexByte(p, b)
    ensures IndexByte(p, b) < 0 && IndexByte(q, b) < 0 ==> IndexByte(p + q, b) == -1
    ensures IndexByte(p, b) < 0 && IndexByte(q, b) >= 0 ==> IndexByte(p + q, b) == |p| + IndexByte(q, b)
  {
    var i, j := IndexByte(p, b), IndexByte(q, b);
    IndexFirst(p, b, i);
    IndexFirst(q, b, j);
    IndexFirst(p + q, b, if i >= 0 then i else if j >= 0 then |p| + j else -1);
  }

  lemma TakeDrop(s: seq<byte>, n: nat, m: nat)
    requires m <= n <= |s|
    ensures s[..n][m..] == s[m..][..n - m] && s[..n][..m] == s[..m]
  {
  }

  /** The bytes after the first newline, if there is one. */
  function AfterLine(p: seq<byte>): seq<byte> {
    var i := IndexByte(p, LF);
    if i < 0 then [] else p[i + 1..]
  }

  lemma Reassociate(a: seq<byte>, b: seq<byte>, c: seq<byte>)
    ensures (a + b) + c == a + (b + c)
  {
  }

  /** A slice that has grown from `b` to `c`. */
  lemma SliceGrows(before: seq<byte>, now: seq<byte>, a: nat, b: nat, c: nat)
    requires a <= b <= c <= |now| && b <= |before| && forall i :: a <= i < b ==> now[i] == before[i]
    ensures now[a..c] == before[a..b] + now[b..c]
  {
  }

  lemma PartOf(front: seq<byte>, x: seq<byte>, k: nat, whole: seq<byte>)
    requires k <= |x| && x <= whole
    ensures front <= front + x[..k] <= front + whole
  {
  }

  lemma Cancel(a: seq<byte>, b: seq<byte>, c: seq<byte>, d: seq<byte>)
    requires a + b == c + d && |a| == |c|
    ensures a == c && b == d
  {
    assert (a + b)[..|a|] == a && (c + d)[..|a|] == c;
    assert (a + b)[|a|..] == b && (c + d)[|a|..] == d;
  }

  lemma CutLeft(p: seq<byte>, q: seq<byte>, i: nat)
    requires i <= |p|
    ensures (p + q)[..i] == p[..i] && (p + q)[i..] == p[i..] + q
  {
  }

  lemma CutRight(p: seq<byte>, q: seq<byte>, i: nat)
    requires i <= |q|
    ensures (p + q)[..|p| + i] == p + q[..i] && (p + q)[|p| + i..] == q[i..]
  {
  }

  lemma DropDrop(s: seq<byte>, a: nat, b: nat)
    requires a + b <= |s|
    ensures s[a..][b..] == s[a + b..]
    ensures s[..a + b] == s[..a] + s[a..][..b]
  {
  }

  lemma AfterNoNewline(p: seq<byte>, q: seq<byte>)
    requires IndexByte(p, LF) < 0
    ensures AfterLine(p + q) == AfterLine(q)
  {
    IndexAppend(p, q, LF);
    if IndexByte(q, LF) >= 0 { CutRight(p, q, IndexByte(q, LF) + 1); }
  }

  function Flatten(chunks: seq<seq<byte>>): seq<byte> {
    if chunks == [] then [] else Flatten(chunks[..|chunks| - 1]) + chunks[|chunks| - 1]
  }

  lemma FlattenNext(chunks: seq<seq<byte>>, i: nat)
    requires i < |chunks|
    ensures Flatten(chunks[..i + 1]) == Flatten(chunks[..i]) + chunks[i]
  {
    assert chunks[..i + 1][..i] == chunks[..i];
  }

  lemma FlattenLast(front: seq<seq<byte>>, last: seq<byte>)
    ensures Flatten(front + [last]) == Flatten(front) + last
  {
    assert (front + [last])[..|front|] == front;
  }

  lemma FlattenOne(chunk: seq<byte>)
    ensures Flatten([chunk]) == chunk
  {
    FlattenLast([], chunk);
    assert [] + [chunk] == [chunk] && [] + chunk == chunk;
  }

  lemma {:induction false} FlattenFront(chunks: seq<seq<byte>>)
    requires chunks != []
    ensures Flatten(chunks) == chunks[0] + Flatten(chunks[1..])
  {
    hide Flatten;
    if |chunks| > 1 {
      var most, last := chunks[..|chunks| - 1], chunks[|chunks| - 1];
      FlattenFront(most);
      FlattenLast(most, last);
      FlattenLast(most[1..], last);
      assert chunks == most + [last] && chunks[1..] == most[1..] + [last];
      Reassociate(chunks[0], Flatten(most[1..]), last);
    } else {
      FlattenOne(chunks[0]);
      FlattenNone();
      assert chunks == [chunks[0]] && chunks[1..] == [] && chunks[0] + [] == chunks[0];
    }
  }

  lemma FlattenNone()
    ensures Flatten([]) == []
  {
  }
}
