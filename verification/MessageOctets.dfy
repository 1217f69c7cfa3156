/** The message types field by field, in the octets that begin their records and in the values that they hold. */
module MessageOctets {
  import opened Bytes
  import opened Wire
  import opened Messages
  import opened Codec
  import opened Utf8Texts

  /** What a field can hold. */
  datatype Shape = U64 | I64 | U32 | I32 | Flag | Text | Raw | Texts | Numbers | One(s: Schema) | Many(s: Schema)

  /** The octets in front of every record of a field, and its shape. */
  datatype Decl = Decl(tag: bytes, shape: Shape)

  ghost predicate Has(shape: Shape, v: Value) {
    match shape
    case U64 => v.Num? && 0 <= v.n < 0x1_0000_0000_0000_0000
    case I64 => v.Num? && -0x8000_0000_0000_0000 <= v.n < 0x8000_0000_0000_0000
    case U32 => v.Num? && 0 <= v.n < 0x1_0000_0000
    case I32 => v.Num? && -0x8000_0000 <= v.n < 0x8000_0000
    case Flag => v == Num(0) || v == Num(1)
    case Text => v.Str? && IsText(v.b)
    case Raw => v.Str?
    case Texts => v.Strs? && forall i :: 0 <= i < |v.bs| ==> IsText(v.bs[i])
    case Numbers => v.Nums?
    case One(s) => v.Msg? && (v.m.Some? ==> WellTyped(s, v.m.value))
    case Many(s) => v.Msgs? && forall i :: 0 <= i < |v.ms| ==> WellTyped(s, v.ms[i])
  }

  /** The fields of the type are these: every record of a field begins with its octets, and its values are those of its
      shape. */
  ghost predicate Declares(s: Schema, ds: seq<Decl>) {
    |s.fields| == |ds| && forall k :: 0 <= k < |ds| ==> DeclaresField(s.fields[k], ds[k])
  }

  ghost predicate DeclaresField(f: Field, d: Decl) {
    TagOctets(TagOf(f)) == d.tag && forall v :: Fits(f, v) <==> Has(d.shape, v)
  }

  // ---------------------------------------------------------------- records

  /** A record with a length in front of its contents. */
  function Delimited(tag: bytes, contents: bytes): bytes {
    tag + Varint(|contents|) + contents
  }

  function Delimiteds(tag: bytes, all: seq<bytes>): bytes {
    if all == [] then [] else Delimited(tag, all[0]) + Delimiteds(tag, all[1..])
  }

  function Varints(ns: seq<uint64>): bytes {
    if ns == [] then [] else Varint(ns[0]) + Varints(ns[1..])
  }

  function Encoded(s: Schema, ms: seq<Message>): (all: seq<bytes>)
    ensures |all| == |ms| && forall i :: 0 <= i < |ms| ==> all[i] == Encode(s, ms[i])
  {
    seq(|ms|, i requires 0 <= i < |ms| => Encode(s, ms[i]))
  }

  /** What a field is written as: nothing for zero and for what is empty or absent, a negative number as its 64-bit
      two's complement, packed numbers in one record, repeated texts and messages in one record each. */
  function Records(d: Decl, v: Value): bytes {
    match v
    case Num(n) =>
      if n == 0 || n < -0x8000_0000_0000_0000 then []
      else d.tag + Varint(if n > 0 then n else n + 0x1_0000_0000_0000_0000)
    case Str(b) => if b == [] then [] else Delimited(d.tag, b)
    case Strs(bs) => Delimiteds(d.tag, bs)
    case Nums(ns) => if ns == [] then [] else Delimited(d.tag, Varints(ns))
    case Msg(m) => if m.None? || !d.shape.One? then [] else Delimited(d.tag, Encode(d.shape.s, m.value))
    case Msgs(ms) => if !d.shape.Many? then [] else Delimiteds(d.tag, Encoded(d.shape.s, ms))
  }

  function AllRecords(ds: seq<Decl>, vs: seq<Value>): bytes {
    if ds == [] || vs == [] then [] else Records(ds[0], vs[0]) + AllRecords(ds[1..], vs[1..])
  }

  // ---------------------------------------------------------------- the serializer writes them

  lemma OneRecord(tag: bytes, contents: bytes)
    ensures tag + Prefixed(contents) == Delimited(tag, contents)
  {}

  lemma {:induction false} StringsAre(t: Tag, bs: seq<bytes>)
    ensures EncodeStrings(t, bs) == Delimiteds(TagOctets(t), bs)
    decreases |bs|
  {
    if bs != [] {
      OneRecord(TagOctets(t), bs[0]);
      StringsAre(t, bs[1..]);
    }
  }

  lemma {:induction false} VarintsAre(ns: seq<uint64>)
    ensures EncodePacked(ns) == Varints(ns) && (Varints(ns) == [] <==> ns == [])
    decreases |ns|
  {
    if ns != [] {
      VarintsAre(ns[1..]);
    }
  }

  lemma {:induction false} MessagesAre(s: Schema, t: Tag, ms: seq<Message>)
    ensures EncodeMessages(s, t, ms) == Delimiteds(TagOctets(t), Encoded(s, ms))
    decreases |ms|
  {
    if ms != [] {
      OneRecord(TagOctets(t), Encode(s, ms[0]));
      MessagesAre(s, t, ms[1..]);
      assert Encoded(s, ms)[1..] == Encoded(s, ms[1..]);
    }
  }

  /** The submessages of a field are of its type. */
  ghost predicate SameType(f: Field, shape: Shape) {
    && (f.Sub? ==> shape == One(f.schema)) && (f.Subs? ==> shape == Many(f.schema))
    && (shape.One? ==> f.Sub?) && (shape.Many? ==> f.Subs?)
  }

  lemma FieldIs(f: Field, d: Decl, v: Value)
    requires TagOctets(TagOf(f)) == d.tag && SameType(f, d.shape) && Fits(f, v)
    ensures EncodeField(f, v) == Records(d, v)
  {
    match v
    case Num(_) =>
    case Str(b) => OneRecord(d.tag, b);
    case Strs(bs) => StringsAre(TagOf(f), bs);
    case Nums(ns) =>
      VarintsAre(ns);
      OneRecord(d.tag, EncodePacked(ns));
    case Msg(m) =>
      if m.Some? {
        OneRecord(d.tag, Encode(f.schema, m.value));
      }
    case Msgs(ms) => MessagesAre(f.schema, TagOf(f), ms);
  }

  lemma {:induction false} FieldsAre(fields: seq<Field>, ds: seq<Decl>, vs: seq<Value>)
    requires |fields| == |ds| == |vs|
    requires forall k :: 0 <= k < |ds| ==>
      TagOctets(TagOf(fields[k])) == ds[k].tag && SameType(fields[k], ds[k].shape) && Fits(fields[k], vs[k])
    ensures EncodeFields(fields, vs) == AllRecords(ds, vs)
    decreases |ds|
  {
    if ds != [] {
      FieldIs(fields[0], ds[0], vs[0]);
      FieldsAre(fields[1..], ds[1..], vs[1..]);
    }
  }

  ghost predicate SameTypes(s: Schema, ds: seq<Decl>) {
    |s.fields| == |ds| && forall k :: 0 <= k < |ds| ==> SameType(s.fields[k], ds[k].shape)
  }

  /** A message of a type is written as the records of its fields in order, and then what was not recognized. */
  lemma MessageIs(s: Schema, ds: seq<Decl>, m: Message)
    requires Declares(s, ds) && SameTypes(s, ds) && WellTyped(s, m)
    ensures Encode(s, m) == AllRecords(ds, m.vals) + EncodeUnknowns(m.unknown)
  {
    forall k | 0 <= k < |ds|
      ensures TagOctets(TagOf(s.fields[k])) == ds[k].tag && SameType(s.fields[k], ds[k].shape)
      ensures Fits(s.fields[k], m.vals[k])
    {
      assert DeclaresField(s.fields[k], ds[k]);
    }
    FieldsAre(s.fields, ds, m.vals);
  }

  // ---------------------------------------------------------------- the types

  /** The shape of a field. */
  function ShapeOf(f: Field): Shape {
    match f
    case Number(_, _, k) =>
      (match k case UInt64 => U64 case Int64 => I64 case UInt32 => U32 case Int32 => I32 case Enum => I32
               case Bool => Flag)
    case Octets(_, _, utf8) => if utf8 then Text else Raw
    case Strings(_, _) => Texts
    case Packed(_, _) => Numbers
    case Sub(_, _, s) => One(s)
    case Subs(_, _, s) => Many(s)
  }

  lemma ShapeFits(f: Field, v: Value)
    ensures Fits(f, v) <==> Has(ShapeOf(f), v)
  {
    if f.Octets? && v.Str? {
      Utf8Exactly(v.b);
    } else if f.Strings? && v.Strs? {
      forall i | 0 <= i < |v.bs| ensures ValidUtf8(v.bs[i]) <==> IsText(v.bs[i]) {
        Utf8Exactly(v.bs[i]);
      }
    }
  }

  lemma DeclaredField(f: Field, d: Decl)
    requires ShapeOf(f) == d.shape && TagOctets(TagOf(f)) == d.tag
    ensures DeclaresField(f, d) && SameType(f, d.shape)
  {
    forall v ensures Fits(f, v) <==> Has(d.shape, v) {
      ShapeFits(f, v);
    }
  }

  lemma DeclaredBy(s: Schema, ds: seq<Decl>)
    requires |s.fields| == |ds|
    requires forall k :: 0 <= k < |ds| ==>
      ShapeOf(s.fields[k]) == ds[k].shape && TagOctets(TagOf(s.fields[k])) == ds[k].tag
    ensures Declares(s, ds) && SameTypes(s, ds)
  {
    forall k | 0 <= k < |ds| ensures DeclaresField(s.fields[k], ds[k]) && SameType(s.fields[k], ds[k].shape) {
      DeclaredField(s.fields[k], ds[k]);
    }
  }

  lemma OneOctet(t: Tag)
    requires t.num < 16 && t.kind < 8
    ensures TagOctets(t) == [8 * t.num + t.kind]
  {}

  lemma TwoOctets(t: Tag)
    requires 16 <= t.num < 32 && t.kind < 8
    ensures TagOctets(t) == [8 * (t.num - 16) + t.kind + 128, 1]
  {
    assert Varint(1) == [1];
  }
}
