/** The wire format octet by octet: what a varint, a tag, a length prefix and an unknown field are, in numbers. */
module WireOctets {
  import opened Bytes
  import opened Wire
  import opened Messages
  import opened Codec

  // ---------------------------------------------------------------- varints

  /** The number whose groups of seven binary digits are in these octets, lowest first. */
  function Groups(b: bytes): nat {
    if b == [] then 0 else b[0] % 128 + 128 * Groups(b[1..])
  }

  /** All octets but the last have the top digit set. */
  ghost predicate IsVarint(b: bytes) {
    b != [] && b[|b| - 1] < 128 && forall i :: 0 <= i < |b| - 1 ==> b[i] >= 128
  }

  /** A number is written in its groups, as few as there are. */
  lemma {:induction false} VarintIs(v: nat)
    ensures var b := Varint(v); IsVarint(b) && Groups(b) == v && (|b| > 1 ==> b[|b| - 1] != 0)
    decreases v
  {
    if v >= 128 {
      var b, rest := Varint(v), Varint(v / 128);
      VarintIs(v / 128);
      assert b[1..] == rest;
      assert forall i :: 0 < i < |b| ==> b[i] == rest[i - 1];
    }
  }

  lemma {:induction false} ReadInFull(b: bytes, max: nat, n: nat)
    requires 0 < n <= |b| && n <= max && IsVarint(b[..n])
    ensures ReadVarint(b, max) == Some(Scan(Groups(b[..n]), n))
    decreases n
  {
    var front := b[..n];
    assert front[0] == b[0];
    if n == 1 {
      assert front[1..] == [];
    } else {
      assert front[1..] == b[1..][..n - 1];
      VarintBehind(front);
      ReadInFull(b[1..], max - 1, n - 1);
    }
  }

  lemma {:induction false} ReadIsVarint(b: bytes, max: nat)
    requires ReadVarint(b, max).Some?
    ensures IsVarint(b[..ReadVarint(b, max).value.used])
    decreases |b|
  {
    var n := ReadVarint(b, max).value.used;
    var front := b[..n];
    assert front[0] == b[0];
    if b[0] >= 128 {
      ReadIsVarint(b[1..], max - 1);
      assert front[1..] == b[1..][..n - 1];
      VarintBehind(front);
    }
  }

  /** A varint is read, minimal or not, if and only if it ends within `max` octets. */
  lemma ReadExactly(b: bytes, max: nat, v: nat, n: nat)
    ensures ReadVarint(b, max) == Some(Scan(v, n))
       <==> 0 < n <= |b| && n <= max && IsVarint(b[..n]) && v == Groups(b[..n])
  {
    if ReadVarint(b, max).Some? {
      ReadIsVarint(b, max);
      ReadInFull(b, max, ReadVarint(b, max).value.used);
    }
    if 0 < n <= |b| && n <= max && IsVarint(b[..n]) {
      ReadInFull(b, max, n);
    }
  }

  lemma VarintBehind(b: bytes)
    requires |b| > 1 && b[0] >= 128
    ensures IsVarint(b) <==> IsVarint(b[1..])
  {
    if IsVarint(b[1..]) {
      forall i | 0 <= i < |b| - 1 ensures b[i] >= 128 {
        assert i == 0 || b[i] == b[1..][i - 1];
      }
    }
  }

  /** A tag is at most five octets, of which 32 binary digits are kept: three for the form, the others for the
      number. */
  lemma TagExactly(b: bytes)
    ensures ReadTag(b) == match ReadVarint(b, 5)
      case None => None
      case Some(s) => Some(TagScan(Tag(s.value % 0x1_0000_0000 / 8, s.value % 8), s.used))
  {}

  /** A 64-bit varint keeps 64 binary digits of what was read from at most ten octets. */
  lemma Read64Exactly(b: bytes)
    ensures ReadVarint64(b) == match ReadVarint(b, 10)
      case None => None
      case Some(s) => Some(Scan(s.value % 0x1_0000_0000_0000_0000, s.used))
  {}

  /** A length prefix is at most five octets, and announces at most 0x7FFFFFEF that have to be there. */
  lemma ChunkExactly(b: bytes)
    ensures ReadChunk(b) == match ReadVarint(b, 5)
      case None => None
      case Some(s) =>
        if s.value > 0x7FFF_FFEF || s.used + s.value > |b| then None
        else Some(Chunk(b[s.used..s.used + s.value], s.used + s.value))
  {}

  // ---------------------------------------------------------------- scalars

  /** What a scalar field holds after a varint was read into it: the number of its type that agrees with the varint in
      as many binary digits as the type has. */
  lemma ScalarIs(k: Scalar, v: uint64)
    ensures var r := FromWire(k, v);
      match k
      case UInt64 => r == v
      case Int64 => -0x8000_0000_0000_0000 <= r < 0x8000_0000_0000_0000 && (v - r) % 0x1_0000_0000_0000_0000 == 0
      case UInt32 => 0 <= r < 0x1_0000_0000 && (v - r) % 0x1_0000_0000 == 0
      case Int32 => -0x8000_0000 <= r < 0x8000_0000 && (v - r) % 0x1_0000_0000 == 0
      case Enum => -0x8000_0000 <= r < 0x8000_0000 && (v - r) % 0x1_0000_0000 == 0
      case Bool => r == if v == 0 then 0 else 1
  {
    var q, w := v / 0x1_0000_0000, v % 0x1_0000_0000;
    assert v - w == q * 0x1_0000_0000;
    assert v - (w - 0x1_0000_0000) == (q + 1) * 0x1_0000_0000;
  }

  // ---------------------------------------------------------------- unknown fields

  /** An unknown field: eight times its number, and 0 to 5 for its form. */
  lemma UnknownIs(u: Unknown)
    ensures EncodeUnknown(u) == match u
      case UVarint(num, v) => Varint(8 * num) + Varint(v)
      case UFixed64(num, octets) => Varint(8 * num + 1) + octets
      case UBytes(num, octets) => Varint(8 * num + 2) + (Varint(|octets|) + octets)
      case UGroup(num, fields) => Varint(8 * num + 3) + (EncodeUnknowns(fields) + Varint(8 * num + 4))
      case UFixed32(num, octets) => Varint(8 * num + 5) + octets
  {}

  /** What no message contains: a field of number 0, the end of a group that was not begun, the forms 6 and 7. */
  lemma Refused(s: Schema, m: Message, t: Tag, rest: bytes)
    requires t.num < 0x2000_0000 && t.kind < 8 && (t.num == 0 || t.kind == 4 || t.kind == 6 || t.kind == 7)
    requires forall i :: 0 <= i < |s.fields| ==> s.fields[i].num > 0
    ensures ParseInto(s, m, Varint(8 * t.num + t.kind) + rest) == None
  {
    TagRead(t, rest);
    assert FindField(s.fields, t) == None;
  }

  /** A group ends with its own number, or not at all. */
  lemma GroupEnds(num: nat, other: nat, rest: bytes)
    requires num < 0x2000_0000 && other < 0x2000_0000
    ensures ParseGroup(num, Varint(8 * other + 4) + rest)
         == if other == num then Some(Parsed([], |Varint(8 * other + 4)|)) else None
  {
    TagRead(Tag(other, 4), rest);
  }
}
