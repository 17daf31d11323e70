/**
 The tunnel's wire format: four-byte signals, and frames of id (4), op (2) and,
 for data, length (4) and payload. Numbers are big-endian.
 */
module Frames {
  import opened Bytes

  const PING_SIGNAL := 0xFFFF_FFFF
  const CLOSE_SIGNAL := 0xFFFF_FFFE
  const READY_SIGNAL := 0xFFFF_FFFD
  const ERROR_SIGNAL := 0xFFFF_FFFC
  const PRESERVED_SIGNAL := 0xFFFF_FFFF - 3000
  const DATA := 0
  const CLOSE := 1

  function Put16(x: nat): (p: seq<byte>)
    requires x < 0x1_0000
    ensures |p| == 2
  {
    assert x == x / 0x100 * 0x100 + x % 0x100;
    [x / 0x100, x % 0x100]
  }

  function Put32(x: nat): (p: seq<byte>)
    requires x < 0x1_0000_0000
    ensures |p| == 4
  {
    assert x == x / 0x1_0000 * 0x1_0000 + x % 0x1_0000;
    Put16(x / 0x1_0000) + Put16(x % 0x1_0000)
  }

  function Get16(p: seq<byte>): nat
    requires |p| >= 2
  {
    p[0] as nat * 0x100 + p[1] as nat
  }

  function Get32(p: seq<byte>): nat
    requires |p| >= 4
  {
    p[0] as nat * 0x100_0000 + p[1] as nat * 0x1_0000 + p[2] as nat * 0x100 + p[3] as nat
  }

  lemma Halves(p: seq<byte>)
    requires |p| >= 4
    ensures Get32(p) == Get16(p) * 0x1_0000 + Get16(p[2..])
  {
  }

  lemma Get16Put16(p: seq<byte>)
    requires |p| == 2
    ensures Get16(p) < 0x1_0000 && Put16(Get16(p)) == p
  {
  }

  lemma Put16Get16(x: nat, q: seq<byte>)
    requires x < 0x1_0000
    ensures Get16(Put16(x) + q) == x
  {
    assert x == x / 0x100 * 0x100 + x % 0x100;
  }

  lemma Get32Put32(p: seq<byte>)
    requires |p| == 4
    ensures Get32(p) < 0x1_0000_0000 && Put32(Get32(p)) == p
  {
    Halves(p);
    var a, b := p[..2], p[2..];
    Get16Put16(a);
    Get16Put16(b);
    assert Get16(p) == Get16(a);
    Split(Get16(a), Get16(b));
    assert p == a + b;
  }

  lemma Split(hi: nat, lo: nat)
    requires hi < 0x1_0000 && lo < 0x1_0000
    ensures (hi * 0x1_0000 + lo) / 0x1_0000 == hi && (hi * 0x1_0000 + lo) % 0x1_0000 == lo
  {
  }

  lemma Put32Get32(x: nat, q: seq<byte>)
    requires x < 0x1_0000_0000
    ensures Get32(Put32(x) + q) == x
  {
    hide Get32, Get16, Put16;
    assert x == x / 0x1_0000 * 0x1_0000 + x % 0x1_0000;
    var a, b := Put16(x / 0x1_0000), Put16(x % 0x1_0000);
    var s := Put32(x) + q;
    assert |a| == 2 && |b| == 2;
    assert s == a + (b + q) && s[2..] == b + q;
    Halves(s);
    Put16Get16(x / 0x1_0000, b + q);
    Put16Get16(x % 0x1_0000, q);
  }

  /** What follows on the tunnel: a signal, or a frame of one task `id`. */
  datatype Frame = Ping | CloseSignal | Ready | ErrorSignal(code: nat)
                 | Data(id: nat, payload: seq<byte>) | Close(id: nat) | Other(id: nat, op: nat)
  {
    predicate Valid() {
      match this
      case ErrorSignal(code) => code < 0x1_0000
      case Data(id, payload) => id < ERROR_SIGNAL && |payload| < 0x1_0000_0000
      case Close(id) => id < ERROR_SIGNAL
      case Other(id, op) => id < ERROR_SIGNAL && CLOSE < op < 0x1_0000
      case _ => true
    }
  }

  function Encode(f: Frame): seq<byte>
    requires f.Valid()
  {
    match f
    case Ping => Put32(PING_SIGNAL)
    case CloseSignal => Put32(CLOSE_SIGNAL)
    case Ready => Put32(READY_SIGNAL)
    case ErrorSignal(code) => Put32(ERROR_SIGNAL) + Put16(code)
    case Data(id, payload) => Put32(id) + Put16(DATA) + Put32(|payload|) + payload
    case Close(id) => Put32(id) + Put16(CLOSE)
    case Other(id, op) => Put32(id) + Put16(op)
  }

  /** The signal or id a frame begins with, and the op after it. */
  function First(f: Frame): nat
  {
    match f
    case Ping => PING_SIGNAL
    case CloseSignal => CLOSE_SIGNAL
    case Ready => READY_SIGNAL
    case ErrorSignal(_) => ERROR_SIGNAL
    case Data(id, _) => id
    case Close(id) => id
    case Other(id, _) => id
  }

  predicate HasSecond(f: Frame) {
    f.ErrorSignal? || f.Data? || f.Close? || f.Other?
  }

  function Second(f: Frame): nat
    requires HasSecond(f)
  {
    match f
    case ErrorSignal(code) => code
    case Data(_, _) => DATA
    case Close(_) => CLOSE
    case Other(_, op) => op
  }

  lemma Begins(f: Frame, q: seq<byte>)
    requires f.Valid()
    ensures 4 <= |Encode(f)| && Get32(Encode(f) + q) == First(f)
    ensures HasSecond(f) ==> 6 <= |Encode(f)| && Get16((Encode(f) + q)[4..]) == Second(f)
  {
    hide Get32, Get16, Put32, Put16;
    var s := Encode(f) + q;
    Put32Get32(First(f), s[4..]);
    assert s == Put32(First(f)) + s[4..];
    if HasSecond(f) {
      Put16Get16(Second(f), s[6..]);
      assert s[4..] == Put16(Second(f)) + s[6..];
    }
  }

  lemma BeginsData(f: Frame, q: seq<byte>)
    requires f.Valid() && f.Data?
    ensures 10 <= |Encode(f)| && Get32((Encode(f) + q)[6..]) == |f.payload| && (Encode(f) + q)[10..] == f.payload + q
  {
    hide Get32, Get16, Put32, Put16;
    var s := Encode(f) + q;
    Put32Get32(|f.payload|, s[10..]);
    assert s[6..] == Put32(|f.payload|) + s[10..];
    assert s[10..] == f.payload + q;
  }

  /** No two frames can be read off the same stream. */
  lemma OneReading(f: Frame, q: seq<byte>, g: Frame, r: seq<byte>)
    requires f.Valid() && g.Valid() && Encode(f) + q == Encode(g) + r
    ensures f == g && q == r
  {
    hide Get32, Get16, Put32, Put16, Encode;
    Begins(f, q);
    Begins(g, r);
    assert First(f) == First(g);
    if f.Data? {
      BeginsData(f, q);
      BeginsData(g, r);
      assert g.Data?;
      var s := (Encode(f) + q)[10..];
      assert s[..|f.payload|] == f.payload && s[..|f.payload|] == g.payload;
    }
    assert f == g;
    assert (Encode(f) + q)[|Encode(f)|..] == q && (Encode(g) + r)[|Encode(g)|..] == r;
  }

  /** What is on the wire, byte by byte. */
  lemma WireBytes(id: nat, payload: seq<byte>)
    requires id < 0xFFFF_FFFC && |payload| < 0x1_0000
    ensures Encode(Ping) == [0xFF, 0xFF, 0xFF, 0xFF] && Encode(CloseSignal) == [0xFF, 0xFF, 0xFF, 0xFE]
    ensures Encode(Ready) == [0xFF, 0xFF, 0xFF, 0xFD] && Encode(ErrorSignal(3)) == [0xFF, 0xFF, 0xFF, 0xFC, 0, 3]
    ensures
      var a, b, c, d := id / 0x100_0000, id / 0x1_0000 % 0x100, id / 0x100 % 0x100, id % 0x100;
      && Encode(Close(id)) == [a, b, c, d, 0, 1]
      && Encode(Data(id, payload)) == [a, b, c, d, 0, 0, 0, 0, |payload| / 0x100, |payload| % 0x100] + payload
  {
    FourBytes(id);
    FourBytes(|payload|);
    FourBytes(0xFFFF_FFFF);
    FourBytes(0xFFFF_FFFE);
    FourBytes(0xFFFF_FFFD);
    FourBytes(0xFFFF_FFFC);
    hide Put32;
  }

  lemma FourBytes(x: nat)
    requires x < 0x1_0000_0000
    ensures Put32(x) == [x / 0x100_0000, x / 0x1_0000 % 0x100, x / 0x100 % 0x100, x % 0x100]
  {
    var hi, lo := x / 0x1_0000, x % 0x1_0000;
    DivMod(hi / 0x100, hi % 0x100 * 0x1_0000 + lo, 0x100_0000);
    DivMod(hi * 0x100 + lo / 0x100, lo % 0x100, 0x100);
    DivMod(hi, lo / 0x100, 0x100);
  }

  lemma DivMod(q: nat, r: nat, m: nat)
    requires r < m
    ensures (q * m + r) / m == q && (q * m + r) % m == r
  {
    var d := (q * m + r) / m - q;
    assert (q * m + r) % m == q * m + r - (q + d) * m;
    assert 0 <= r - d * m < m;
  }
}
