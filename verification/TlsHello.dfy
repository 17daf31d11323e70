/**
 `server/tls.go`, `peekTLSHost`: the host_name of the server_name extension of a
 ClientHello (RFC 8446, section 4.1.2; RFC 6066, section 3).
 */
module TlsHello {
  import opened Wrappers
  import opened Bytes
  import opened Frames
  import Bufio

  const HANDSHAKE := 22
  const CLIENT_HELLO := 1
  const SERVER_NAME := 0
  const HOST_NAME := 0

  /** An extension of a type that is passed over. */
  datatype Extension = Extension(typ: nat, data: seq<byte>)

  /**
   A ClientHello in its record whose first server_name extension leads with a
   host_name. `more` is the rest of that extension, `after` the extensions behind it.
   */
  datatype Hello = Hello(recordHead: seq<byte>, handshakeHead: seq<byte>, session: seq<byte>, suites: seq<byte>,
                         compression: seq<byte>, before: seq<Extension>,
                         listLen: seq<byte>, name: seq<byte>, more: seq<byte>, after: seq<byte>)
  {
    /** The sizes that the length fields allow. */
    ghost predicate Valid() {
      && |recordHead| == 4 && |handshakeHead| == 37 && |session| < 0x100 && |suites| < 0x1_0000 && |compression| < 0x100
      && PassedOver(before) && |listLen| == 2 && |name| < 0x1_0000 && |ServerName()| < 0x1_0000 &&
          |Extensions()| < 0x1_0000
    }

    ghost function ServerName(): seq<byte>
      requires |name| < 0x1_0000
    {
      listLen + [0] + Put16(|name|) + name + more
    }

    ghost function Extensions(): seq<byte>
      requires PassedOver(before) && |name| < 0x1_0000 && |ServerName()| < 0x1_0000
    {
      Encoded(before) + (Put16(0) + Put16(|ServerName()|) + ServerName() + after)
    }
  }

  ghost predicate PassedOver(es: seq<Extension>) {
    forall i :: 0 <= i < |es| ==> es[i].typ != 0 && es[i].typ < 0x1_0000 && |es[i].data| < 0x1_0000
  }

  ghost function Encoded(es: seq<Extension>): seq<byte>
    requires PassedOver(es)
  {
    if es == [] then [] else Put16(es[0].typ) + Put16(|es[0].data|) + es[0].data + Encoded(es[1..])
  }

  ghost function Encode(h: Hello): seq<byte>
    requires h.Valid()
  {
    [22] + h.recordHead + [1] + h.handshakeHead + [|h.session|] + h.session +
    Put16(|h.suites|) + h.suites + [|h.compression|] + h.compression + Put16(|h.Extensions()|) + h.Extensions()
  }

  /** The walk over the extensions: `left` bytes of them are announced, and `s` is there. */
  function NameIn(s: seq<byte>, left: int): Option<seq<byte>>
    decreases |s|
  {
    if left <= 0 || |s| < 4 then None
    else if Get16(s) != SERVER_NAME then
      if |s| < 4 + Get16(s[2..]) then None else NameIn(s[4 + Get16(s[2..])..], left - 4 - Get16(s[2..]))
    else if |s| < 7 || s[6] != HOST_NAME || |s| < 9 || |s| < 9 + Get16(s[7..]) then None
    else Some(s[9..9 + Get16(s[7..])])
  }

  /** `s` without a vector of `n` bytes that it begins with, behind a length of `k` bytes. */
  function Past(s: seq<byte>, k: nat, n: nat): seq<byte> {
    if |s| < k + n then [] else s[k + n..]
  }

  /** The extensions of the ClientHello that `buf` begins with, and how many bytes of them are announced. */
  function ExtensionsOf(buf: seq<byte>): Option<(seq<byte>, nat)> {
    if |buf| < 44 || buf[0] != HANDSHAKE || buf[5] != CLIENT_HELLO then None
    else
      var session := buf[43..];
      var suites := Past(session, 1, session[0]);
      if |suites| < 2 then None
      else
        var compression := Past(suites, 2, Get16(suites));
        if |compression| < 1 then None
        else
          var exts := Past(compression, 1, compression[0]);
          if |exts| < 2 then None else Some((exts[2..], Get16(exts)))
  }

  function HostOf(buf: seq<byte>): Option<seq<byte>> {
    var e := ExtensionsOf(buf);
    if e.None? then None else NameIn(e.value.0, e.value.1)
  }

  lemma PastAt(buf: seq<byte>, i: nat, k: nat, n: nat)
    requires i <= |buf|
    ensures Past(buf[i..], k, n) == if i + k + n <= |buf| then buf[i + k + n..] else []
  {
    if i + k + n <= |buf| { DropDrop(buf, i, k + n); }
  }

  /** tls.go:17-59: where the extensions begin. */
  method FindExtensions(buf: seq<byte>) returns (at: Option<nat>, extensionsLen: nat)
    ensures at.Some? ==> at.value <= |buf| && ExtensionsOf(buf) == Some((buf[at.value..], extensionsLen))
    ensures at.None? ==> ExtensionsOf(buf).None?
  {
    hide Get16, Past;
    var bufLen, bufIndex := |buf|, 0;
    extensionsLen := 0;
    if bufIndex + 1 > bufLen { return None, 0; }
    var recordLayerType := buf[bufIndex];
    bufIndex := bufIndex + 1;
    if recordLayerType != HANDSHAKE { return None, 0; }
    bufIndex := bufIndex + 2 + 2;
    if bufIndex + 1 > bufLen { return None, 0; }
    var handshakeType := buf[bufIndex];
    bufIndex := bufIndex + 1;
    if handshakeType != CLIENT_HELLO { return None, 0; }
    bufIndex := bufIndex + 3 + 2 + 32;
    if bufIndex + 1 > bufLen { return None, 0; }
    var sessionIDLen := buf[bufIndex];
    PastAt(buf, bufIndex, 1, sessionIDLen);
    bufIndex := bufIndex + 1 + sessionIDLen;
    if bufIndex + 2 > bufLen { return None, 0; }
    var cipherSuitesLen := Get16(buf[bufIndex..]);
    PastAt(buf, bufIndex, 2, cipherSuitesLen);
    bufIndex := bufIndex + 2 + cipherSuitesLen;
    if bufIndex + 1 > bufLen { return None, 0; }
    var compressionMethodsLen := buf[bufIndex];
    PastAt(buf, bufIndex, 1, compressionMethodsLen);
    bufIndex := bufIndex + 1 + compressionMethodsLen;
    if bufIndex + 2 > bufLen { return None, 0; }
    extensionsLen := Get16(buf[bufIndex..]);
    DropDrop(buf, bufIndex, 2);
    at := Some(bufIndex + 2);
  }

  /** The walk from `i` on, which may be behind the end. */
  ghost function NameFrom(buf: seq<byte>, i: nat, left: int): Option<seq<byte>> {
    if i <= |buf| then NameIn(buf[i..], left) else None
  }

  /** One step of it. */
  lemma NameStep(buf: seq<byte>, i: nat, left: int)
    requires i <= |buf|
    ensures left <= 0 || i + 4 > |buf| ==> NameFrom(buf, i, left) == None
    ensures left > 0 && i + 4 <= |buf| && Get16(buf[i..]) != SERVER_NAME ==>
              var n := Get16(buf[i + 2..]);
              NameFrom(buf, i, left) == NameFrom(buf, i + 4 + n, left - 4 - n)
  {
    hide Get16;
    if i + 4 <= |buf| {
      DropDrop(buf, i, 2);
      var n := Get16(buf[i + 2..]);
      if i + 4 + n <= |buf| { DropDrop(buf, i, 4 + n); }
    }
  }

  /** tls.go:61-80: the walk, up to a server_name extension, whose data begin at `sni`. */
  method FindServerName(buf: seq<byte>, at: nat, announced: nat) returns (sni: Option<nat>, left: int)
    requires at <= |buf|
    ensures sni.Some? ==> 4 <= sni.value <= |buf| && left > 0 && Get16(buf[sni.value - 4..]) == SERVER_NAME
    ensures sni.Some? ==> NameIn(buf[at..], announced) == NameIn(buf[sni.value - 4..], left)
    ensures sni.None? ==> NameIn(buf[at..], announced) == None
  {
    hide Get16, NameIn;
    var bufLen, bufIndex, extensionsLen := |buf|, at, announced as int;
    ghost var name := NameFrom(buf, at, announced);
    while extensionsLen > 0
      invariant bufIndex >= 0 && NameFrom(buf, bufIndex, extensionsLen) == name
      decreases bufLen - bufIndex
    {
      left := extensionsLen;
      if bufIndex <= bufLen { NameStep(buf, bufIndex, left); }
      if bufIndex + 2 > bufLen { return None, 0; }
      var extensionType := Get16(buf[bufIndex..]);
      bufIndex := bufIndex + 2;
      extensionsLen := extensionsLen - 2;
      if bufIndex + 2 > bufLen { return None, 0; }
      var extensionLen := Get16(buf[bufIndex..]);
      bufIndex := bufIndex + 2;
      extensionsLen := extensionsLen - 2;
      if extensionType == SERVER_NAME { return Some(bufIndex), left; }
      bufIndex := bufIndex + extensionLen;
      extensionsLen := extensionsLen - extensionLen;
    }
    if bufIndex <= bufLen { NameStep(buf, bufIndex, extensionsLen); }
    return None, 0;
  }

  /** tls.go:81-103: the name at the front of a server_name extension. */
  method ReadName(buf: seq<byte>, sni: nat, ghost left: int) returns (name: Option<seq<byte>>)
    requires 4 <= sni <= |buf| && left > 0 && Get16(buf[sni - 4..]) == SERVER_NAME
    ensures name == NameIn(buf[sni - 4..], left)
  {
    hide Get16;
    ghost var s := buf[sni - 4..];
    var bufLen, bufIndex := |buf|, sni + 2;
    if bufIndex + 1 > bufLen { return None; }
    var serverNameType := buf[bufIndex];
    assert s[6] == serverNameType;
    bufIndex := bufIndex + 1;
    if serverNameType != HOST_NAME { return None; }
    if bufIndex + 2 > bufLen { return None; }
    DropDrop(buf, sni - 4, 7);
    var serverNameLen := Get16(buf[bufIndex..]);
    bufIndex := bufIndex + 2;
    if bufIndex + serverNameLen > bufLen { return None; }
    assert s[9..9 + serverNameLen] == buf[bufIndex..bufIndex + serverNameLen];
    return Some(buf[bufIndex..bufIndex + serverNameLen]);
  }

  method HostIn(buf: seq<byte>) returns (host: Option<seq<byte>>)
    ensures host == HostOf(buf)
  {
    hide ExtensionsOf, NameIn, Get16;
    var at, extensionsLen := FindExtensions(buf);
    if at.None? { return None; }
    var sni, left := FindServerName(buf, at.value, extensionsLen);
    if sni.None? { return None; }
    host := ReadName(buf, sni.value, left);
  }

  /**
   peekTLSHost: any bytes at all, in bounds and to an end; nothing is consumed. Of
   a ClientHello that is buffered it gives the name.
   */
  method PeekTLSHost(reader: Bufio.Reader) returns (host: Option<seq<byte>>)
    requires reader.Valid()
    modifies reader, reader.buf, reader.rd
    ensures reader.Valid() && reader.Stream() == old(reader.Stream())
    ensures reader.Buffered() >= old(reader.Buffered()) && host == HostOf(reader.Stream()[..reader.Buffered()])
    ensures forall h: Hello :: h.Valid() && Encode(h) <= old(reader.Stream()[..reader.Buffered()]) ==>
            host == Some(h.name)
  {
    hide HostOf, Bufio.Reader.Stream, Encode, Hello.Valid;
    assert reader.Buffered() <= |reader.Stream()| by { reader.FrontOf(reader.Buffered()); }
    ghost var front := reader.Stream()[..reader.Buffered()];
    var one, e := reader.Peek(1);
    var bufLen := reader.Buffered();
    var buf;
    buf, e := reader.Peek(bufLen);
    assert buf == reader.Stream()[..reader.Buffered()];
    host := HostIn(buf);
    forall h: Hello | h.Valid() && Encode(h) <= front ensures host == Some(h.name) {
      assert front <= buf;
      HostOfHello(h, buf[|Encode(h)|..]);
      assert buf == Encode(h) + buf[|Encode(h)|..];
    }
  }

  lemma NamePast(s: seq<byte>, n: nat, left: int)
    requires 4 + n <= |s| && Get16(s) != SERVER_NAME && Get16(s[2..]) == n && left > 0
    ensures NameIn(s, left) == NameIn(s[4 + n..], left - 4 - n)
  {
    hide Get16;
  }

  lemma {:induction false} NameAfterOthers(es: seq<Extension>, rest: seq<byte>, left: int)
    requires PassedOver(es) && left > |Encoded(es)|
    ensures NameIn(Encoded(es) + rest, left) == NameIn(rest, left - |Encoded(es)|)
    decreases |es|
  {
    hide NameIn;
    if es == [] {
      assert Encoded(es) + rest == rest;
    } else {
      hide Get16, Put16;
      var e, tail := es[0], Encoded(es[1..]) + rest;
      var s := Encoded(es) + rest;
      assert s == Put16(e.typ) + (Put16(|e.data|) + (e.data + tail));
      Put16Get16(e.typ, Put16(|e.data|) + (e.data + tail));
      assert s[2..] == Put16(|e.data|) + (e.data + tail);
      Put16Get16(|e.data|, e.data + tail);
      assert s[4 + |e.data|..] == tail;
      NamePast(s, |e.data|, left);
      NameAfterOthers(es[1..], rest, left - 4 - |e.data|);
    }
  }

  /** The extension that leads with a host_name gives it. */
  lemma NameInServerName(h: Hello, rest: seq<byte>, left: int)
    requires h.Valid() && left > 0
    ensures |h.name| < 0x1_0000
    ensures NameIn(Put16(SERVER_NAME) + Put16(|h.ServerName()|) + h.ServerName() + rest, left) == Some(h.name)
  {
    hide Get16, Put16;
    var sn := h.ServerName();
    var s := Put16(SERVER_NAME) + Put16(|sn|) + sn + rest;
    assert s == Put16(SERVER_NAME) + (Put16(|sn|) + sn + rest);
    Put16Get16(SERVER_NAME, Put16(|sn|) + sn + rest);
    assert s[4..] == sn + rest;
    var tail := h.name + h.more + rest;
    assert s[6] == HOST_NAME && s[7..] == Put16(|h.name|) + tail;
    Put16Get16(|h.name|, tail);
    assert s[9..] == tail;
    assert s[9..9 + |h.name|] == tail[..|h.name|] == h.name;
  }

  /** A vector behind its length is stepped over. */
  lemma PastVector(len: seq<byte>, v: seq<byte>, rest: seq<byte>)
    ensures Past(len + (v + rest), |len|, |v|) == rest
  {
    var s := len + (v + rest);
    assert s[|len| + |v|..] == rest;
  }

  ghost function Front(h: Hello): seq<byte>
    requires h.Valid()
  {
    [HANDSHAKE] + h.recordHead + [CLIENT_HELLO] + h.handshakeHead
  }

  /** The fields, each in front of all that is behind it. */
  lemma Nested(h: Hello, x: seq<byte>, tail: seq<byte>)
    requires h.Valid() && x == h.Extensions()
    ensures Encode(h) + tail ==
      Front(h) + ([|h.session|] + (h.session +
        (Put16(|h.suites|) + (h.suites + ([|h.compression|] + (h.compression + (Put16(|x|) + (x + tail))))))))
  {
    hide Put16, Hello.Extensions, Hello.ServerName;
    var p, q := Put16(|h.suites|), Put16(|x|);
    var a := Front(h) + [|h.session|] + h.session;
    var b := a + p + h.suites;
    var c := b + [|h.compression|] + h.compression;
    Right3(c, q, x, tail);
    Right3(b, [|h.compression|], h.compression, q + (x + tail));
    Right3(a, p, h.suites, [|h.compression|] + (h.compression + (q + (x + tail))));
    Right3(Front(h), [|h.session|], h.session, p +
      (h.suites + ([|h.compression|] + (h.compression + (q + (x + tail))))));
  }

  lemma Right3(a: seq<byte>, b: seq<byte>, c: seq<byte>, d: seq<byte>)
    ensures a + b + c + d == a + (b + (c + d))
  {
    Reassociate(a + b, c, d);
    Reassociate(a, b, c + d);
  }

  /** The fields in front of the extensions are stepped over by their lengths. */
  lemma ExtensionsOfHello(h: Hello, tail: seq<byte>)
    requires h.Valid()
    ensures ExtensionsOf(Encode(h) + tail) == Some((h.Extensions() + tail, |h.Extensions()|))
  {
    hide Get16, Put16, Hello.Extensions, Past, Encode;
    var x := h.Extensions();
    var exts := Put16(|x|) + (x + tail);
    var compression := [|h.compression|] + (h.compression + exts);
    var suites := Put16(|h.suites|) + (h.suites + compression);
    var session := [|h.session|] + (h.session + suites);
    Nested(h, x, tail);
    FrontBytes(h, session);
    PastVector([|h.session|], h.session, suites);
    Put16Get16(|h.suites|, h.suites + compression);
    PastVector(Put16(|h.suites|), h.suites, compression);
    PastVector([|h.compression|], h.compression, exts);
    Put16Get16(|x|, x + tail);
    assert exts[2..] == x + tail;
  }

  lemma FrontBytes(h: Hello, session: seq<byte>)
    requires h.Valid()
    ensures var buf := Front(h) + session; |buf| == 43 + |session| && buf[0] == HANDSHAKE
    ensures var buf := Front(h) + session; buf[5] == CLIENT_HELLO && buf[43..] == session
  {
  }

  /** Whatever extensions come before it, and whatever is buffered behind the ClientHello, the name is found. */
  lemma HostOfHello(h: Hello, tail: seq<byte>)
    requires h.Valid()
    ensures HostOf(Encode(h) + tail) == Some(h.name)
  {
    hide ExtensionsOf, NameIn, Encode, Put16;
    ExtensionsOfHello(h, tail);
    var sni := Put16(SERVER_NAME) + Put16(|h.ServerName()|) + h.ServerName();
    Reassociate(sni, h.after, tail);
    Reassociate(Encoded(h.before), sni + h.after, tail);
    NameAfterOthers(h.before, sni + (h.after + tail), |h.Extensions()|);
    NameInServerName(h, h.after + tail, |h.Extensions()| - |Encoded(h.before)|);
  }

  /**
   Nothing but this is taken for a name: extensions of other types, and a
   server_name extension that leads with a host_name; of the lengths around the
   name only its own is looked at.
   */
  lemma {:induction false} NameOnly(s: seq<byte>, left: int)
    returns (before: seq<Extension>, extensionLen: nat, listLen: seq<byte>, rest: seq<byte>)
    requires NameIn(s, left).Some?
    ensures PassedOver(before) && |Encoded(before)| < left && extensionLen < 0x1_0000 && |listLen| == 2
    ensures |NameIn(s, left).value| < 0x1_0000
    ensures
      var name := NameIn(s, left).value;
      s == Encoded(before) + (Put16(0) + Put16(extensionLen) + listLen + [0] + Put16(|name|) + name + rest)
    decreases |s|
  {
    hide Put16;
    var typ, n := Get16(s), Get16(s[2..]);
    Length16(s);
    Length16(s[2..]);
    assert s[2..][..2] == s[2..4];
    if typ == SERVER_NAME {
      NameHere(s, left);
      before, extensionLen, listLen, rest := [], n, s[4..6], s[9 + Get16(s[7..])..];
      assert Encoded(before) + s == s;
    } else {
      var data, tail := s[4..4 + n], s[4 + n..];
      assert NameIn(s, left) == NameIn(tail, left - 4 - n);
      before, extensionLen, listLen, rest := NameOnly(tail, left - 4 - n);
      var name := NameIn(s, left).value;
      assert s == Put16(typ) + Put16(n) + data + tail;
      before := Behind(Extension(typ, data), before,
                       Put16(0) + Put16(extensionLen) + listLen + [0] + Put16(|name|) + name + rest);
    }
  }

  lemma Behind(e: Extension, es: seq<Extension>, y: seq<byte>) returns (fs: seq<Extension>)
    requires PassedOver(es) && e.typ != 0 && e.typ < 0x1_0000 && |e.data| < 0x1_0000
    ensures PassedOver(fs) && |Encoded(fs)| == 4 + |e.data| + |Encoded(es)|
    ensures Put16(e.typ) + Put16(|e.data|) + e.data + (Encoded(es) + y) == Encoded(fs) + y
  {
    fs := [e] + es;
    OneMoreExtension(e, es);
    hide Put16, Encoded, PassedOver;
    Reassociate(Put16(e.typ) + Put16(|e.data|) + e.data, Encoded(es), y);
  }

  lemma NameHere(s: seq<byte>, left: int)
    requires NameIn(s, left).Some? && Get16(s) == SERVER_NAME
    ensures
      var name := NameIn(s, left).value;
      |name| < 0x1_0000 && 9 + |name| <= |s| && |name| == Get16(s[7..]) && Get16(s[2..]) < 0x1_0000 &&
      s == Put16(0) + Put16(Get16(s[2..])) + s[4..6] + [0] + Put16(|name|) + name + s[9 + |name|..]
  {
    Length16(s);
    Length16(s[2..]);
    Length16(s[7..]);
    hide Put16;
    var name := NameIn(s, left).value;
    assert s[2..][..2] == s[2..4] && s[7..][..2] == s[7..9];
    assert s == s[..2] + s[2..4] + s[4..6] + [s[6]] + s[7..9] + name + s[9 + |name|..];
  }

  lemma OneMoreExtension(e: Extension, es: seq<Extension>)
    requires PassedOver(es) && e.typ != 0 && e.typ < 0x1_0000 && |e.data| < 0x1_0000
    ensures PassedOver([e] + es)
    ensures Encoded([e] + es) == Put16(e.typ) + Put16(|e.data|) + e.data + Encoded(es)
  {
    assert ([e] + es)[1..] == es;
  }

  /** The fields in front of the extensions, which are `exts`, of `n` announced bytes. */
  ghost function Fields(head: seq<byte>, random: seq<byte>, session: seq<byte>, suites: seq<byte>,
                        compression: seq<byte>, n: nat, exts: seq<byte>): seq<byte>
    requires |session| < 0x100 && |suites| < 0x1_0000 && |compression| < 0x100 && n < 0x1_0000
  {
    [22] + head + [1] + random + ([|session|] + (session + (Put16(|suites|) + (suites +
      ([|compression|] + (compression + (Put16(n) + exts)))))))
  }

  lemma PastOnly(s: seq<byte>, k: nat, n: nat)
    requires 0 < |Past(s, k, n)|
    ensures k + n < |s| && s == s[..k] + (s[k..k + n] + Past(s, k, n))
  {
  }

  lemma {:induction false} ExtensionsOnly(buf: seq<byte>)
    returns (head: seq<byte>, random: seq<byte>, session: seq<byte>, suites: seq<byte>, compression: seq<byte>)
    requires ExtensionsOf(buf).Some?
    ensures |head| == 4 && |random| == 37 && |session| < 0x100 && |suites| < 0x1_0000 && |compression| < 0x100
    ensures ExtensionsOf(buf).value.1 < 0x1_0000
    ensures
      var (exts, n) := ExtensionsOf(buf).value;
      buf == Fields(head, random, session, suites, compression, n, exts)
  {
    hide Put16, Get16, Past;
    var s1 := buf[43..];
    var s2 := Past(s1, 1, s1[0]);
    var s3 := Past(s2, 2, Get16(s2));
    var s4 := Past(s3, 1, s3[0]);
    PastOnly(s1, 1, s1[0]);
    PastOnly(s2, 2, Get16(s2));
    PastOnly(s3, 1, s3[0]);
    Length16(s2);
    Length16(s4);
    head, random := buf[1..5], buf[6..43];
    session, suites, compression := s1[1..1 + s1[0] as nat], s2[2..2 + Get16(s2)], s3[1..1 + s3[0] as nat];
    assert s1[..1] == [s1[0]] && s3[..1] == [s3[0]];
    assert buf == [22] + head + [1] + random + s1;
    assert s4 == Put16(Get16(s4)) + s4[2..];
  }

  lemma Length16(s: seq<byte>)
    requires |s| >= 2
    ensures Get16(s) < 0x1_0000 && s[..2] == Put16(Get16(s))
  {
    Get16Put16(s[..2]);
  }

  /**
   A name is only found in a ClientHello: a handshake record that begins with one,
   with a server_name extension, behind others, that leads with that name.
   */
  lemma HostOnlyOfHello(buf: seq<byte>)
    returns (head: seq<byte>, random: seq<byte>, session: seq<byte>, suites: seq<byte>, compression: seq<byte>, n: nat,
             before: seq<Extension>, extensionLen: nat, listLen: seq<byte>, rest: seq<byte>)
    requires HostOf(buf).Some?
    ensures |head| == 4 && |random| == 37 && |session| < 0x100 && |suites| < 0x1_0000 && |compression| < 0x100
    ensures PassedOver(before) && |Encoded(before)| < n < 0x1_0000 && extensionLen < 0x1_0000 && |listLen| == 2
    ensures |HostOf(buf).value| < 0x1_0000
    ensures
      var name := HostOf(buf).value;
      buf == Fields(head, random, session, suites, compression, n,
                    Encoded(before) + (Put16(0) + Put16(extensionLen) + listLen + [0] + Put16(|name|) + name + rest))
  {
    hide Put16, ExtensionsOf, NameIn, Fields;
    head, random, session, suites, compression := ExtensionsOnly(buf);
    n := ExtensionsOf(buf).value.1;
    before, extensionLen, listLen, rest := NameOnly(ExtensionsOf(buf).value.0, n);
  }
}
