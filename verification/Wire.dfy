/** The primitives of the protocol-buffer wire format: base-128 varints, tags, length prefixes, UTF-8. */
module Wire {
  import opened Bytes

  /** The largest length prefix the parser accepts: INT_MAX less the parser's slop bytes. */
  const MAX_SIZE: nat := 0x7FFF_FFEF

  // ---------------------------------------------------------------- varints

  function Varint(v: nat): (b: bytes)
    ensures |b| >= 1
    decreases v
  {
    if v < 128 then [v] else [v % 128 + 128] + Varint(v / 128)
  }

  /** The number of octets of a varint, as the size functions compute it. */
  function VarintSize(v: nat): (n: nat)
    ensures n >= 1
    decreases v
  {
    if v < 128 then 1 else 1 + VarintSize(v / 128)
  }

  /** A number and how many octets it took. */
  datatype Scan = Scan(value: nat, used: nat)

  /** Read a varint of at most `max` octets from the front of `b`. */
  function ReadVarint(b: bytes, max: nat): (r: Option<Scan>)
    ensures r.Some? ==> 0 < r.value.used <= |b| && r.value.used <= max
    decreases |b|
  {
    if b == [] || max == 0 then None
    else if b[0] < 128 then Some(Scan(b[0], 1))
    else
      match ReadVarint(b[1..], max - 1)
      case None => None
      case Some(s) => Some(Scan(b[0] - 128 + 128 * s.value, s.used + 1))
  }

  function Pow128(n: nat): nat
    decreases n
  {
    if n == 0 then 1 else 128 * Pow128(n - 1)
  }

  lemma {:induction false} VarintRead(v: nat, rest: bytes, max: nat)
    requires v < Pow128(max) && max > 0
    ensures ReadVarint(Varint(v) + rest, max) == Some(Scan(v, |Varint(v)|))
    decreases max
  {
    var b := Varint(v) + rest;
    assert Pow128(max) == 128 * Pow128(max - 1);
    if v >= 128 {
      assert b[1..] == Varint(v / 128) + rest;
      VarintRead(v / 128, rest, max - 1);
    }
  }

  lemma {:induction false} VarintLength(v: nat)
    ensures |Varint(v)| == VarintSize(v)
    decreases v
  {
    if v >= 128 {
      VarintLength(v / 128);
    }
  }

  lemma Pow128Values()
    ensures Pow128(5) > TWO_32 && Pow128(10) > TWO_64
  {
    assert Pow128(5) == 34359738368;
    assert Pow128(10) == 34359738368 * 34359738368;
  }

  // ---------------------------------------------------------------- tags and lengths

  /** The field number and the wire type of a record. */
  datatype Tag = Tag(num: nat, kind: nat)

  const VARINT := 0
  const FIXED64 := 1
  const DELIMITED := 2
  const START_GROUP := 3
  const END_GROUP := 4
  const FIXED32 := 5

  predicate GoodTag(t: Tag) {
    0 < t.num < 0x2000_0000 && t.kind < 8
  }

  function TagOctets(t: Tag): bytes {
    Varint(t.num * 8 + t.kind)
  }

  datatype TagScan = TagScan(tag: Tag, used: nat)

  /** A tag: at most five octets, of which 32 bits are kept. */
  function ReadTag(b: bytes): (r: Option<TagScan>)
    ensures r.Some? ==> 0 < r.value.used <= |b| && r.value.tag.num < 0x2000_0000 && r.value.tag.kind < 8
  {
    match ReadVarint(b, 5)
    case None => None
    case Some(s) => Some(TagScan(Tag(s.value % TWO_32 / 8, s.value % 8), s.used))
  }

  /** A 64-bit varint: at most ten octets, of which 64 bits are kept. */
  function ReadVarint64(b: bytes): (r: Option<Scan>)
    ensures r.Some? ==> 0 < r.value.used <= |b| && r.value.value < TWO_64
  {
    match ReadVarint(b, 10)
    case None => None
    case Some(s) => Some(Scan(s.value % TWO_64, s.used))
  }

  /** A length prefix and the octets it announces. */
  datatype Chunk = Chunk(payload: bytes, used: nat)

  function ReadChunk(b: bytes): (r: Option<Chunk>)
    ensures r.Some? ==> 0 < r.value.used <= |b| && |r.value.payload| < r.value.used
  {
    match ReadVarint(b, 5)
    case None => None
    case Some(s) =>
      if s.value > MAX_SIZE || s.used + s.value > |b| then None
      else Some(Chunk(b[s.used..s.used + s.value], s.used + s.value))
  }

  /** A payload behind its length. */
  function Prefixed(payload: bytes): bytes {
    Varint(|payload|) + payload
  }

  lemma TagRead(t: Tag, rest: bytes)
    requires t.num < 0x2000_0000 && t.kind < 8
    ensures ReadTag(TagOctets(t) + rest) == Some(TagScan(t, |TagOctets(t)|))
  {
    TagParts(t.num, t.kind);
    NumberRead(t.num * 8 + t.kind, rest);
  }

  lemma NumberRead(v: nat, rest: bytes)
    requires v < TWO_32
    ensures ReadTag(Varint(v) + rest) == Some(TagScan(Tag(v % TWO_32 / 8, v % 8), |Varint(v)|))
  {
    Pow128Values();
    VarintRead(v, rest, 5);
  }

  lemma TagParts(num: nat, kind: nat)
    requires num < 0x2000_0000 && kind < 8
    ensures (num * 8 + kind) % TWO_32 / 8 == num && (num * 8 + kind) % 8 == kind
  {}

  lemma Varint64Read(v: nat, rest: bytes)
    requires v < TWO_64
    ensures ReadVarint64(Varint(v) + rest) == Some(Scan(v, |Varint(v)|))
  {
    Pow128Values();
    VarintRead(v, rest, 10);
  }

  lemma ChunkRead(payload: bytes, rest: bytes)
    requires |payload| <= MAX_SIZE
    ensures ReadChunk(Prefixed(payload) + rest) == Some(Chunk(payload, |Prefixed(payload)|))
  {
    Pow128Values();
    VarintRead(|payload|, payload + rest, 5);
    assert Prefixed(payload) + rest == Varint(|payload|) + (payload + rest);
    var n := |Varint(|payload|)|;
    assert (Prefixed(payload) + rest)[n..n + |payload|] == payload;
  }

  // ---------------------------------------------------------------- UTF-8

  predicate IsTail(b: byte) {
    0x80 <= b < 0xC0
  }

  /** How many octets the well-formed UTF-8 sequence at the front of `b` takes, 0 if there is none (RFC 3629). */
  function Utf8Head(b: bytes): (n: nat)
    ensures n <= |b|
  {
    if b == [] then 0
    else if b[0] < 0x80 then 1
    else if 0xC2 <= b[0] < 0xE0 then if |b| >= 2 && IsTail(b[1]) then 2 else 0
    else if 0xE0 <= b[0] < 0xF0 then
      if |b| >= 3 && IsTail(b[1]) && IsTail(b[2]) &&
         (b[0] == 0xE0 ==> b[1] >= 0xA0) && (b[0] == 0xED ==> b[1] < 0xA0) then 3 else 0
    else if 0xF0 <= b[0] < 0xF5 then
      if |b| >= 4 && IsTail(b[1]) && IsTail(b[2]) && IsTail(b[3]) &&
         (b[0] == 0xF0 ==> b[1] >= 0x90) && (b[0] == 0xF4 ==> b[1] < 0x90) then 4 else 0
    else 0
  }

  predicate ValidUtf8(b: bytes)
    decreases |b|
  {
    b == [] || (Utf8Head(b) > 0 && ValidUtf8(b[Utf8Head(b)..]))
  }
}
