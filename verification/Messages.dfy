/** Messages, as the generated classes hold them: the values of the declared fields, and unknown fields. */
module Messages {
  import opened Bytes
  import opened Wire

  /** The scalar types that travel as varints. */
  datatype Scalar = UInt64 | Int64 | UInt32 | Int32 | Bool | Enum

  /** A declared field.  `tagSize` is the number the size function adds for the tag. */
  datatype Field =
    | Number(num: nat, tagSize: nat, scalar: Scalar)
    | Octets(num: nat, tagSize: nat, utf8: bool)
    | Strings(num: nat, tagSize: nat)
    | Packed(num: nat, tagSize: nat)
    | Sub(num: nat, tagSize: nat, schema: Schema)
    | Subs(num: nat, tagSize: nat, schema: Schema)

  /** The declared fields of a message type, in the order in which they are serialized. */
  datatype Schema = Schema(fields: seq<Field>)

  datatype Value =
    | Num(n: int)
    | Str(b: bytes)
    | Strs(bs: seq<bytes>)
    | Nums(ns: seq<uint64>)
    | Msg(m: Option<Message>)
    | Msgs(ms: seq<Message>)

  datatype Unknown =
    | UVarint(num: nat, v: uint64)
    | UFixed64(num: nat, octets: bytes)
    | UBytes(num: nat, octets: bytes)
    | UGroup(num: nat, fields: seq<Unknown>)
    | UFixed32(num: nat, octets: bytes)

  datatype Message = Message(vals: seq<Value>, unknown: seq<Unknown>)

  // ---------------------------------------------------------------- scalars on the wire

  function Bits64(n: int): uint64
    requires -TWO_63 <= n < TWO_64
  {
    if n < 0 then n + TWO_64 else n
  }

  function Signed(v: nat, half: int): int {
    if v >= half then v - 2 * half else v
  }

  /** What a field of scalar type `k` holds after the varint `v` was read into it. */
  function FromWire(k: Scalar, v: uint64): int {
    match k
    case UInt64 => v
    case Int64 => Signed(v, TWO_63)
    case UInt32 => v % TWO_32
    case Int32 => Signed(v % TWO_32, TWO_31)
    case Enum => Signed(v % TWO_32, TWO_31)
    case Bool => if v == 0 then 0 else 1
  }

  predicate InRange(k: Scalar, n: int) {
    match k
    case UInt64 => 0 <= n < TWO_64
    case Int64 => -TWO_63 <= n < TWO_63
    case UInt32 => 0 <= n < TWO_32
    case Int32 => -TWO_31 <= n < TWO_31
    case Enum => -TWO_31 <= n < TWO_31
    case Bool => n == 0 || n == 1
  }

  lemma ScalarRoundTrip(k: Scalar, n: int)
    requires InRange(k, n)
    ensures FromWire(k, Bits64(n)) == n && (Bits64(n) == 0 <==> n == 0)
  {
    if n < 0 {
      assert TWO_64 == TWO_32 * TWO_32;
      assert (n + TWO_64) % TWO_32 == (n + TWO_32) % TWO_32;
    }
  }

  // ---------------------------------------------------------------- well-formedness

  function DefaultValue(f: Field): Value {
    match f
    case Number(_, _, _) => Num(0)
    case Octets(_, _, _) => Str([])
    case Strings(_, _) => Strs([])
    case Packed(_, _) => Nums([])
    case Sub(_, _, _) => Msg(None)
    case Subs(_, _, _) => Msgs([])
  }

  /** A message just constructed, or cleared. */
  function Default(s: Schema): (m: Message)
    ensures |m.vals| == |s.fields|
  {
    Message(seq(|s.fields|, i requires 0 <= i < |s.fields| => DefaultValue(s.fields[i])), [])
  }

  /** The tags a field's `case` accepts. */
  predicate Accepts(f: Field, tag: Tag) {
    tag.num == f.num &&
    match f
    case Number(_, _, _) => tag.kind == VARINT
    case Packed(_, _) => tag.kind == DELIMITED || tag.kind == VARINT
    case _ => tag.kind == DELIMITED
  }

  /** The tag a field is serialized with. */
  function TagOf(f: Field): Tag {
    Tag(f.num, if f.Number? then VARINT else DELIMITED)
  }

  ghost predicate GoodSchema(s: Schema)
    decreases s
  {
    && (forall i :: 0 <= i < |s.fields| ==> GoodField(s.fields[i]))
    && (forall i, j :: 0 <= i < j < |s.fields| ==> s.fields[i].num != s.fields[j].num)
  }

  ghost predicate GoodField(f: Field)
    decreases f
  {
    && 0 < f.num < 0x2000_0000 && f.tagSize == VarintSize(f.num * 8)
    && (f.Sub? || f.Subs? ==> GoodSchema(f.schema))
  }

  ghost predicate GoodUnknown(u: Unknown)
    decreases u
  {
    && 0 < u.num < 0x2000_0000
    && (u.UFixed64? ==> |u.octets| == 8)
    && (u.UFixed32? ==> |u.octets| == 4)
    && (u.UBytes? ==> |u.octets| <= MAX_SIZE)
    && (u.UGroup? ==> forall i :: 0 <= i < |u.fields| ==> GoodUnknown(u.fields[i]))
  }

  function UnknownTag(u: Unknown): Tag {
    Tag(u.num, match u case UVarint(_, _) => VARINT case UFixed64(_, _) => FIXED64 case UBytes(_, _) => DELIMITED
                       case UGroup(_, _) => START_GROUP case UFixed32(_, _) => FIXED32)
  }

  /** No case of the message takes this tag. */
  predicate Unusual(s: Schema, tag: Tag) {
    forall i :: 0 <= i < |s.fields| ==> !Accepts(s.fields[i], tag)
  }

  /** `v` is a value of the field's type. */
  ghost predicate Fits(f: Field, v: Value)
    decreases v
  {
    match f
    case Number(_, _, k) => v.Num? && InRange(k, v.n)
    case Octets(_, _, utf8) => v.Str? && (utf8 ==> ValidUtf8(v.b))
    case Strings(_, _) => v.Strs? && forall i :: 0 <= i < |v.bs| ==> ValidUtf8(v.bs[i])
    case Packed(_, _) => v.Nums?
    case Sub(_, _, s) => v.Msg? && (v.m.Some? ==> WellTyped(s, v.m.value))
    case Subs(_, _, s) => v.Msgs? && forall i :: 0 <= i < |v.ms| ==> WellTyped(s, v.ms[i])
  }

  /** `m` is a message of type `s`. */
  ghost predicate WellTyped(s: Schema, m: Message)
    decreases m
  {
    && |m.vals| == |s.fields|
    && (forall i :: 0 <= i < |m.vals| ==> Fits(s.fields[i], m.vals[i]))
    && (forall i :: 0 <= i < |m.unknown| ==> GoodUnknown(m.unknown[i]) && Unusual(s, UnknownTag(m.unknown[i])))
  }

  lemma DefaultIsWellTyped(s: Schema)
    ensures WellTyped(s, Default(s))
  {}
}
