/**
 How a tunnel begins: the bytes the client's `init` sends, and what `handle` and
 `handleTunnel` of the server read from them, up to the check of the secret.
 */
module Handshake {
  import opened Wrappers
  import opened Bytes
  import opened Bufio

  const VERSION_FIRST: byte := 0xF0
  const VERSION_SECOND: byte := 0x01
  const MIN_SIZE := 1
  const MAX_SIZE := 200
  const BUFFER_SIZE := 4096

  /** client/conn.go:50-78; a length goes into one byte, whatever it is. */
  function Hello(id: seq<byte>, secret: seq<byte>): seq<byte> {
    [VERSION_FIRST, VERSION_SECOND] + Sized(id) + Sized(secret) + [0]
  }

  function Sized(x: seq<byte>): seq<byte> {
    [|x| % 256] + x
  }

  /** What the server makes of the first bytes: no tunnel at all, a broken one, or one for an id with a secret. */
  datatype Outcome = NotATunnel | Broken | Tunnel(id: seq<byte>, secret: seq<byte>)

  /** The length check of `handleTunnel` (server/conn.go:189, 211). */
  predicate Refused(len: nat) {
    len < MIN_SIZE && len > MAX_SIZE
  }

  /** A field behind its length byte, and what comes after it. */
  function Field(s: seq<byte>): Option<(seq<byte>, seq<byte>)> {
    if s == [] || Refused(s[0]) || |s| < 1 + s[0] as nat then None
    else Some((s[1..1 + s[0] as nat], s[1 + s[0] as nat..]))
  }

  function Read(s: seq<byte>): Outcome {
    if |s| < 2 then Broken
    else if s[0] != VERSION_FIRST || s[1] != VERSION_SECOND then NotATunnel
    else
      var id := Field(s[2..]);
      if id.None? then Broken
      else
        var secret := Field(id.value.1);
        if secret.None? || secret.value.1 == [] then Broken else Tunnel(id.value.0, secret.value.0)
  }

  lemma FieldOfSized(x: seq<byte>, rest: seq<byte>)
    ensures
      var f := Field(Sized(x) + rest);
      var n := |x| % 256;
      f == Some((x[..n], x[n..] + rest))
  {
    var s, n := Sized(x) + rest, |x| % 256;
    assert s[1..] == x + rest;
    CutLeft(x, rest, n);
    assert s[1..1 + n] == (x + rest)[..n] && s[1 + n..] == (x + rest)[n..];
  }

  /** A field that was sent whole, and one that was not. */
  lemma FieldSent(x: seq<byte>, rest: seq<byte>)
    ensures |x| < 256 ==> Field(Sized(x) + rest) == Some((x, rest))
    ensures |x| >= 256 ==> Field(Sized(x) + rest).Some? && Field(Sized(x) + rest).value.0 != x
  {
    hide Field, Sized;
    FieldOfSized(x, rest);
    if |x| < 256 { assert x[..|x|] == x && x[|x|..] + rest == rest; }
  }

  /**
   The server reads the id and the secret that were sent exactly when their lengths
   fit a byte: empty ones and ones above 200 bytes too, which the length check was
   to refuse, but it asks for a length that is too small and too large at once.
   */
  lemma ReadsWhatWasSent(id: seq<byte>, secret: seq<byte>, rest: seq<byte>)
    ensures Read(Hello(id, secret) + rest) == Tunnel(id, secret) <==> |id| < 256 && |secret| < 256
  {
    hide Field, Sized;
    var s := Hello(id, secret) + rest;
    var tail := Sized(secret) + ([0] + rest);
    assert s[2..] == Sized(id) + tail;
    FieldSent(id, tail);
    FieldSent(secret, [0] + rest);
  }

  /** Two bytes that are not the version are left to the HTTP or TLS handler; else the tunnel begins, or is broken. */
  lemma NotATunnelIs(s: seq<byte>)
    ensures Read(s) == NotATunnel <==> |s| >= 2 && !([0xF0, 0x01] <= s)
  {
    hide Field;
  }

  lemma FieldIs(s: seq<byte>)
    requires Field(s).Some?
    ensures
      var (x, rest) := Field(s).value;
      |x| < 256 && s == [|x|] + x + rest
  {
  }

  /** And a tunnel is opened only by the version, an id and a secret behind their lengths, and an option. */
  lemma ReadOnlyHellos(s: seq<byte>) returns (option: byte, rest: seq<byte>)
    requires Read(s).Tunnel?
    ensures
      var Tunnel(id, secret) := Read(s);
      |id| < 256 && |secret| < 256 && s == [0xF0, 0x01, |id|] + id + [|secret|] + secret + [option] + rest
  {
    hide Field;
    FieldIs(s[2..]);
    var (id, s1) := Field(s[2..]).value;
    FieldIs(s1);
    var (secret, s2) := Field(s1).value;
    option, rest := s2[0], s2[1..];
    assert s2 == [option] + rest;
    assert s == [0xF0, 0x01] + s[2..];
  }

  /** ReadByte, Peek and Discard of one field. */
  method ReadField(reader: Reader) returns (x: Option<seq<byte>>)
    requires reader.Valid() && reader.Quiet() && reader.buf.Length == BUFFER_SIZE
    modifies reader, reader.buf, reader.rd
    ensures reader.Valid() && reader.Quiet()
    ensures
      var f := Field(old(reader.Stream()));
      if f.None? then x == None else x == Some(f.value.0) && reader.Stream() == f.value.1
  {
    hide Reader.Stream;
    var len, e := reader.ReadByte();
    if e.Some? { return None; }
    if len < MIN_SIZE && len > MAX_SIZE { return None; }
    ghost var s := reader.Stream();
    assert old(reader.Stream()) == [len] + s;
    var p;
    p, e := reader.Peek(len);
    if e.Some? {
      assert p == s && |s| < len;
      return None;
    }
    assert p == s[..len];
    var n;
    n, e := reader.Discard(len);
    assert ([len] + s)[1..1 + len as nat] == s[..len] && ([len] + s)[1 + len as nat..] == s[len..];
    x := Some(p);
  }

  /** server/conn.go:77-98 and 180-242: for every fragmentation the outcome is a function of the bytes. */
  method Handle(reader: Reader) returns (o: Outcome)
    requires reader.Valid() && reader.Quiet() && reader.buf.Length == BUFFER_SIZE
    modifies reader, reader.buf, reader.rd
    ensures reader.Valid() && o == Read(old(reader.Stream()))
    ensures o.NotATunnel? ==> reader.Stream() == old(reader.Stream())
  {
    hide Reader.Stream, Field;
    ghost var s := reader.Stream();
    var version, e := reader.Peek(2);
    if e.Some? { return Broken; }
    assert version[0] == s[0] && version[1] == s[1];
    if version[0] != VERSION_FIRST || version[1] != VERSION_SECOND { return NotATunnel; }
    var n;
    n, e := reader.Discard(2);
    assert reader.Stream() == s[2..];
    var id := ReadField(reader);
    if id.None? { return Broken; }
    var secret := ReadField(reader);
    if secret.None? { return Broken; }
    var option;
    option, e := reader.ReadByte();
    if e.Some? { return Broken; }
    o := Tunnel(id.value, secret.value);
  }
}
