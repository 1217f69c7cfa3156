/** The id a DataNode registers under, host:port, and how the client takes it apart again. */
module NodeIds {
  import opened Bytes
  import opened Decimal
  import opened Wire

  const COLON: byte := 58

  /** The server's id: host + ":" + std::to_string(port). */
  function NodeId(host: bytes, port: int32): bytes {
    host + [COLON] + PrintInt(port)
  }

  /** std::string::rfind. */
  function RFind(b: bytes, c: byte): (r: Option<nat>)
    ensures r.Some? ==> r.value < |b| && b[r.value] == c && c !in b[r.value + 1..]
    ensures r.None? ==> c !in b
    decreases |b|
  {
    if b == [] then None
    else if b[|b| - 1] == c then Some(|b| - 1)
    else RFind(b[..|b| - 1], c)
  }

  /** What RegisterSelf fills in: nothing when there is no colon, and no message at all when stoi throws. */
  datatype Address = Unknown | HostPort(host: bytes, port: int32) | StoiThrows

  function Split(id: bytes): Address {
    match RFind(id, COLON)
    case None => Unknown
    case Some(colon) =>
      match ExtractInt(id[colon + 1..], -TWO_31, TWO_31 - 1).value
      case None => StoiThrows
      case Some(port) => HostPort(id[..colon], port)
  }

  lemma PrintHasNoColon(i: int)
    ensures COLON !in PrintInt(i)
  {
    var d := Print(Abs(i));
    assert forall k :: 0 <= k < |d| ==> IsDigit(d[k]);
  }

  lemma {:induction false} RFindIsLast(a: bytes, c: byte, t: bytes)
    requires c !in t
    ensures RFind(a + [c] + t, c) == Some(|a|)
    decreases |t|
  {
    var b := a + [c] + t;
    if t == [] {
      assert b[|b| - 1] == c;
    } else {
      assert b[|b| - 1] == t[|t| - 1];
      assert b[..|b| - 1] == a + [c] + t[..|t| - 1];
      RFindIsLast(a, c, t[..|t| - 1]);
    }
  }

  /** For every host, colons in it included, and every port: the client recovers what the server put together. */
  lemma NodeIdRoundTrip(host: bytes, port: int32)
    ensures Split(NodeId(host, port)) == HostPort(host, port)
  {
    var id, text := NodeId(host, port), PrintInt(port);
    PrintHasNoColon(port);
    RFindIsLast(host, COLON, text);
    assert id[..|host|] == host && id[|host| + 1..] == text;
    ExtractPrinted([], port, [], -TWO_31, TWO_31 - 1);
    assert [] + text + [] == text;
  }

  /** So no two nodes share an id. */
  lemma NodeIdInjective(host: bytes, port: int32, host': bytes, port': int32)
    requires NodeId(host, port) == NodeId(host', port')
    ensures host == host' && port == port'
  {
    NodeIdRoundTrip(host, port);
    NodeIdRoundTrip(host', port');
  }

  // ---------------------------------------------------------------- as a protocol-buffer string

  ghost predicate AllAscii(t: bytes) {
    forall i :: 0 <= i < |t| ==> t[i] < 0x80
  }

  lemma HeadBeforeAscii(b: bytes, t: bytes)
    requires b != [] && AllAscii(t)
    ensures Utf8Head(b + t) == Utf8Head(b)
  {
    var s := b + t;
    assert s[0] == b[0];
    assert forall i :: |b| <= i < |s| ==> s[i] == t[i - |b|];
  }

  lemma {:induction false} AsciiIsUtf8(t: bytes)
    requires AllAscii(t)
    ensures ValidUtf8(t)
    decreases |t|
  {
    if t != [] {
      AsciiIsUtf8(t[1..]);
    }
  }

  lemma {:induction false} Utf8BeforeAscii(b: bytes, t: bytes)
    requires AllAscii(t)
    ensures ValidUtf8(b + t) <==> ValidUtf8(b)
    decreases |b|
  {
    if b == [] {
      assert b + t == t;
      AsciiIsUtf8(t);
    } else {
      HeadBeforeAscii(b, t);
      var n := Utf8Head(b);
      if n > 0 {
        assert (b + t)[n..] == b[n..] + t;
        Utf8BeforeAscii(b[n..], t);
      }
    }
  }

  /** The id is a valid protocol-buffer string exactly when the host is. */
  lemma NodeIdIsUtf8(host: bytes, port: int32)
    ensures ValidUtf8(NodeId(host, port)) <==> ValidUtf8(host)
  {
    var t := [COLON] + PrintInt(port);
    var d := Print(Abs(port));
    assert forall k :: 0 <= k < |d| ==> IsDigit(d[k]);
    assert NodeId(host, port) == host + t;
    Utf8BeforeAscii(host, t);
  }
}
