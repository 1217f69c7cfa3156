/** The size pass: what ByteSizeLong adds up is what the serializer writes. */
module CodecSizes {
  import opened Bytes
  import opened Wire
  import opened Messages
  import opened Codec

  /** A payload and its length prefix. */
  function LengthDelimitedSize(n: nat): nat {
    VarintSize(n) + n
  }

  function PackedSize(ns: seq<uint64>): nat {
    if ns == [] then 0 else VarintSize(ns[0]) + PackedSize(ns[1..])
  }

  function StringsSize(bs: seq<bytes>): nat {
    if bs == [] then 0 else LengthDelimitedSize(|bs[0]|) + StringsSize(bs[1..])
  }

  function UnknownSize(u: Unknown): nat
    decreases u
  {
    var tag := UnknownTag(u);
    VarintSize(tag.num * 8 + tag.kind) +
    match u
    case UVarint(_, v) => VarintSize(v)
    case UFixed64(_, octets) => |octets|
    case UBytes(_, octets) => LengthDelimitedSize(|octets|)
    case UGroup(num, fields) => UnknownsSize(fields) + VarintSize(num * 8 + END_GROUP)
    case UFixed32(_, octets) => |octets|
  }

  function UnknownsSize(us: seq<Unknown>): nat
    decreases us
  {
    if us == [] then 0 else UnknownSize(us[0]) + UnknownsSize(us[1..])
  }

  /** One field: the size of its tag is a constant of the generated code. */
  function FieldSize(f: Field, v: Value): nat
    decreases v
  {
    match v
    case Num(n) => if n == 0 || n < -TWO_63 || n >= TWO_64 then 0 else f.tagSize + VarintSize(Bits64(n))
    case Str(b) => if b == [] then 0 else f.tagSize + LengthDelimitedSize(|b|)
    case Strs(bs) => f.tagSize * |bs| + StringsSize(bs)
    case Nums(ns) => if PackedSize(ns) == 0 then 0 else f.tagSize + LengthDelimitedSize(PackedSize(ns))
    case Msg(m) => if m.None? || !f.Sub? then 0 else f.tagSize + LengthDelimitedSize(ByteSize(f.schema, m.value))
    case Msgs(ms) => if !f.Subs? then 0 else f.tagSize * |ms| + MessagesSize(f.schema, ms)
  }

  function MessagesSize(s: Schema, ms: seq<Message>): nat
    decreases ms
  {
    if ms == [] then 0 else LengthDelimitedSize(ByteSize(s, ms[0])) + MessagesSize(s, ms[1..])
  }

  function FieldsSize(fields: seq<Field>, vals: seq<Value>): nat
    decreases vals
  {
    if fields == [] || vals == [] then 0 else FieldSize(fields[0], vals[0]) + FieldsSize(fields[1..], vals[1..])
  }

  /** ByteSizeLong. */
  function ByteSize(s: Schema, m: Message): nat
    decreases m
  {
    FieldsSize(s.fields, m.vals) + UnknownsSize(m.unknown)
  }

  lemma {:induction false} SizeOfOneMore(s: Schema, ms: seq<Message>, k: nat)
    requires k < |ms|
    ensures MessagesSize(s, ms[..k + 1]) == MessagesSize(s, ms[..k]) + LengthDelimitedSize(ByteSize(s, ms[k]))
    decreases k
  {
    if k == 0 {
      assert ms[..1][1..] == [];
    } else {
      SizeOfOneMore(s, ms[1..], k - 1);
      assert ms[..k + 1][1..] == ms[1..][..k] && ms[..k][1..] == ms[1..][..k - 1];
    }
  }

  // ---------------------------------------------------------------- sizes are lengths

  lemma TagLength(t: Tag)
    ensures |TagOctets(t)| == VarintSize(t.num * 8 + t.kind)
  {
    VarintLength(t.num * 8 + t.kind);
  }

  /** The wire type does not change how long a tag is. */
  lemma KindIsFree(num: nat, kind: nat)
    requires kind < 8
    ensures VarintSize(num * 8 + kind) == VarintSize(num * 8)
  {
    assert (num * 8 + kind) / 128 == num / 16 && num * 8 / 128 == num / 16;
  }

  lemma PrefixedLength(payload: bytes)
    ensures |Prefixed(payload)| == LengthDelimitedSize(|payload|)
  {
    VarintLength(|payload|);
  }

  lemma {:induction false} PackedLength(ns: seq<uint64>)
    ensures |EncodePacked(ns)| == PackedSize(ns)
  {
    if ns != [] {
      VarintLength(ns[0]);
      PackedLength(ns[1..]);
    }
  }

  lemma {:induction false} StringsLength(tag: Tag, bs: seq<bytes>)
    ensures |EncodeStrings(tag, bs)| == |TagOctets(tag)| * |bs| + StringsSize(bs)
  {
    if bs != [] {
      PrefixedLength(bs[0]);
      StringsLength(tag, bs[1..]);
      Times(|TagOctets(tag)|, |bs|);
    }
  }

  lemma Times(a: nat, n: nat)
    requires n > 0
    ensures a * n == a + a * (n - 1)
  {}

  lemma {:induction false} UnknownLength(u: Unknown)
    ensures |EncodeUnknown(u)| == UnknownSize(u)
    decreases u
  {
    TagLength(UnknownTag(u));
    match u
    case UVarint(_, v) => VarintLength(v);
    case UFixed64(_, _) =>
    case UBytes(_, octets) => PrefixedLength(octets);
    case UGroup(num, fields) =>
      UnknownsLength(fields);
      TagLength(Tag(num, END_GROUP));
    case UFixed32(_, _) =>
  }

  lemma {:induction false} UnknownsLength(us: seq<Unknown>)
    ensures |EncodeUnknowns(us)| == UnknownsSize(us)
    decreases us
  {
    if us != [] {
      UnknownLength(us[0]);
      UnknownsLength(us[1..]);
    }
  }

  lemma {:induction false} MessagesLength(s: Schema, tag: Tag, ms: seq<Message>)
    requires GoodSchema(s)
    ensures |EncodeMessages(s, tag, ms)| == |TagOctets(tag)| * |ms| + MessagesSize(s, ms)
    decreases ms
  {
    if ms != [] {
      SizeIsLength(s, ms[0]);
      PrefixedLength(Encode(s, ms[0]));
      MessagesLength(s, tag, ms[1..]);
      Times(|TagOctets(tag)|, |ms|);
    }
  }

  lemma {:induction false} FieldLength(f: Field, v: Value)
    requires GoodField(f)
    ensures |EncodeField(f, v)| == FieldSize(f, v)
    decreases v
  {
    TagLength(TagOf(f));
    KindIsFree(f.num, TagOf(f).kind);
    match v
    case Num(n) => if n != 0 && -TWO_63 <= n < TWO_64 { VarintLength(Bits64(n)); }
    case Str(b) => PrefixedLength(b);
    case Strs(bs) => StringsLength(TagOf(f), bs);
    case Nums(ns) =>
      PackedLength(ns);
      PrefixedLength(EncodePacked(ns));
    case Msg(m) =>
      if m.Some? && f.Sub? {
        SizeIsLength(f.schema, m.value);
        PrefixedLength(Encode(f.schema, m.value));
      }
    case Msgs(ms) =>
      if f.Subs? {
        MessagesLength(f.schema, TagOf(f), ms);
      }
  }

  lemma {:induction false} FieldsLength(fields: seq<Field>, vals: seq<Value>)
    requires forall i :: 0 <= i < |fields| ==> GoodField(fields[i])
    ensures |EncodeFields(fields, vals)| == FieldsSize(fields, vals)
    decreases vals
  {
    if fields != [] && vals != [] {
      FieldLength(fields[0], vals[0]);
      FieldsLength(fields[1..], vals[1..]);
    }
  }

  /** The size pass computes the length of the serialized message, at every level of nesting. */
  lemma {:induction false} SizeIsLength(s: Schema, m: Message)
    requires GoodSchema(s)
    ensures |Encode(s, m)| == ByteSize(s, m)
    decreases m
  {
    FieldsLength(s.fields, m.vals);
    UnknownsLength(m.unknown);
  }
}
