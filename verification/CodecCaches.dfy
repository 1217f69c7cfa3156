/** The two passes of SerializeToString: ByteSizeLong stores a size in every nested message and in every packed
    field; the serializer then writes those stored sizes as length prefixes without computing them again. */
module CodecCaches {
  import opened Bytes
  import opened Wire
  import opened Messages
  import opened Codec
  import opened CodecSizes

  /** The sizes stored in a message: its own, and what its fields store. */
  datatype Cache = Cache(size: nat, fields: seq<FieldCache>)

  datatype FieldCache = Nothing | PackedBytes(n: nat) | One(c: Cache) | Many(cs: seq<Cache>)

  // ---------------------------------------------------------------- the size pass

  function CacheField(f: Field, v: Value): FieldCache
    decreases v
  {
    match v
    case Nums(ns) => PackedBytes(PackedSize(ns))
    case Msg(m) => if m.Some? && f.Sub? then One(SizePass(f.schema, m.value)) else Nothing
    case Msgs(ms) => if f.Subs? then Many(CacheMessages(f.schema, ms)) else Nothing
    case _ => Nothing
  }

  function CacheMessages(s: Schema, ms: seq<Message>): (r: seq<Cache>)
    ensures |r| == |ms|
    decreases ms
  {
    if ms == [] then [] else [SizePass(s, ms[0])] + CacheMessages(s, ms[1..])
  }

  function CacheFields(fields: seq<Field>, vals: seq<Value>): seq<FieldCache>
    decreases vals
  {
    if fields == [] || vals == [] then []
    else [CacheField(fields[0], vals[0])] + CacheFields(fields[1..], vals[1..])
  }

  /** ByteSizeLong: what it leaves in the cached-size fields. */
  function SizePass(s: Schema, m: Message): Cache
    decreases m
  {
    Cache(ByteSize(s, m), CacheFields(s.fields, m.vals))
  }

  // ---------------------------------------------------------------- the write pass

  function WriteField(f: Field, v: Value, c: FieldCache): bytes
    decreases v
  {
    match v
    case Nums(ns) =>
      if !c.PackedBytes? || c.n == 0 then [] else TagOctets(TagOf(f)) + Varint(c.n) + EncodePacked(ns)
    case Msg(m) =>
      if m.None? || !f.Sub? || !c.One? then []
      else TagOctets(TagOf(f)) + Varint(c.c.size) + Write(f.schema, m.value, c.c)
    case Msgs(ms) => if !f.Subs? || !c.Many? then [] else WriteMessages(f.schema, TagOf(f), ms, c.cs)
    case _ => EncodeField(f, v)
  }

  function WriteMessages(s: Schema, tag: Tag, ms: seq<Message>, cs: seq<Cache>): bytes
    decreases ms
  {
    if ms == [] || cs == [] then []
    else TagOctets(tag) + Varint(cs[0].size) + Write(s, ms[0], cs[0]) + WriteMessages(s, tag, ms[1..], cs[1..])
  }

  function WriteFields(fields: seq<Field>, vals: seq<Value>, cs: seq<FieldCache>): bytes
    decreases vals
  {
    if fields == [] || vals == [] || cs == [] then []
    else WriteField(fields[0], vals[0], cs[0]) + WriteFields(fields[1..], vals[1..], cs[1..])
  }

  /** _InternalSerialize, with the sizes stored in `c`. */
  function Write(s: Schema, m: Message, c: Cache): bytes
    decreases m
  {
    WriteFields(s.fields, m.vals, c.fields) + EncodeUnknowns(m.unknown)
  }

  /** The messages of a repeated field, one more. */
  lemma {:induction false} WriteOneMore(s: Schema, tag: Tag, ms: seq<Message>, cs: seq<Cache>, k: nat)
    requires k < |ms| == |cs|
    ensures WriteMessages(s, tag, ms[..k + 1], cs[..k + 1])
         == WriteMessages(s, tag, ms[..k], cs[..k]) + (TagOctets(tag) + Varint(cs[k].size) + Write(s, ms[k], cs[k]))
    decreases k
  {
    if k == 0 {
      assert ms[..1][1..] == [] && cs[..1][1..] == [];
    } else {
      var head := TagOctets(tag) + Varint(cs[0].size) + Write(s, ms[0], cs[0]);
      var last := TagOctets(tag) + Varint(cs[k].size) + Write(s, ms[k], cs[k]);
      WriteOneMore(s, tag, ms[1..], cs[1..], k - 1);
      assert ms[..k + 1][1..] == ms[1..][..k] && cs[..k + 1][1..] == cs[1..][..k];
      assert ms[..k][1..] == ms[1..][..k - 1] && cs[..k][1..] == cs[1..][..k - 1];
      var middle := WriteMessages(s, tag, ms[1..][..k - 1], cs[1..][..k - 1]);
      assert head + (middle + last) == (head + middle) + last;
    }
  }

  // ---------------------------------------------------------------- together

  /** What the field stores is the length of what it serializes to, at every level below it. */
  ghost predicate FieldRight(f: Field, v: Value, c: FieldCache)
    decreases v
  {
    match v
    case Nums(ns) => c == PackedBytes(|EncodePacked(ns)|)
    case Msg(m) => m.Some? && f.Sub? ==> c.One? && Right(f.schema, m.value, c.c)
    case Msgs(ms) =>
      f.Subs? ==> c.Many? && |c.cs| == |ms| && forall i :: 0 <= i < |ms| ==> Right(f.schema, ms[i], c.cs[i])
    case _ => true
  }

  function Shorter(a: nat, b: nat): (n: nat)
    ensures n <= a && n <= b
  {
    if a < b then a else b
  }

  /** Every stored size, of the message and of all it contains, is the length of the octets it announces. */
  ghost predicate Right(s: Schema, m: Message, c: Cache)
    decreases m
  {
    && c.size == |Encode(s, m)|
    && |c.fields| == Shorter(|s.fields|, |m.vals|)
    && forall i :: 0 <= i < |c.fields| ==> FieldRight(s.fields[i], m.vals[i], c.fields[i])
  }

  lemma {:induction false} CacheFieldIsRight(f: Field, v: Value)
    requires GoodField(f)
    ensures FieldRight(f, v, CacheField(f, v))
    decreases v
  {
    match v
    case Nums(ns) => PackedLength(ns);
    case Msg(m) =>
      if m.Some? && f.Sub? {
        SizePassIsRight(f.schema, m.value);
      }
    case Msgs(ms) =>
      if f.Subs? {
        CacheMessagesAreRight(f.schema, ms);
      }
    case _ =>
  }

  lemma {:induction false} CacheMessagesAreRight(s: Schema, ms: seq<Message>)
    requires GoodSchema(s)
    ensures forall i :: 0 <= i < |ms| ==> Right(s, ms[i], CacheMessages(s, ms)[i])
    decreases ms
  {
    if ms != [] {
      SizePassIsRight(s, ms[0]);
      CacheMessagesAreRight(s, ms[1..]);
      var cs := CacheMessages(s, ms);
      forall i | 0 <= i < |ms| ensures Right(s, ms[i], cs[i]) {
        if i > 0 {
          assert Right(s, ms[1..][i - 1], cs[1..][i - 1]);
        }
      }
    }
  }

  lemma {:induction false} CacheFieldsAt(fields: seq<Field>, vals: seq<Value>, k: nat)
    ensures |CacheFields(fields, vals)| == Shorter(|fields|, |vals|)
    ensures k < Shorter(|fields|, |vals|) ==> CacheFields(fields, vals)[k] == CacheField(fields[k], vals[k])
    decreases |vals|
  {
    if fields != [] && vals != [] {
      CacheFieldsAt(fields[1..], vals[1..], if k == 0 then 0 else k - 1);
    }
  }

  lemma {:induction false} CacheMessagesAt(s: Schema, ms: seq<Message>, k: nat)
    requires k < |ms|
    ensures CacheMessages(s, ms)[k] == SizePass(s, ms[k])
    decreases k
  {
    if k > 0 {
      CacheMessagesAt(s, ms[1..], k - 1);
    }
  }

  /** ByteSizeLong leaves every stored size right. */
  lemma {:induction false} SizePassIsRight(s: Schema, m: Message)
    requires GoodSchema(s)
    ensures Right(s, m, SizePass(s, m))
    decreases m
  {
    SizeIsLength(s, m);
    CacheFieldsAt(s.fields, m.vals, 0);
    forall i | 0 <= i < Shorter(|s.fields|, |m.vals|)
      ensures FieldRight(s.fields[i], m.vals[i], SizePass(s, m).fields[i])
    {
      CacheFieldsAt(s.fields, m.vals, i);
      CacheFieldIsRight(s.fields[i], m.vals[i]);
    }
  }

  lemma {:induction false} WriteFieldAgrees(f: Field, v: Value, c: FieldCache)
    requires FieldRight(f, v, c)
    ensures WriteField(f, v, c) == EncodeField(f, v)
    decreases v
  {
    match v
    case Nums(ns) => Prefix(TagOctets(TagOf(f)), EncodePacked(ns));
    case Msg(m) =>
      if m.Some? && f.Sub? {
        WriteAgrees(f.schema, m.value, c.c);
        Prefix(TagOctets(TagOf(f)), Encode(f.schema, m.value));
      }
    case Msgs(ms) =>
      if f.Subs? {
        WriteMessagesAgree(f.schema, TagOf(f), ms, c.cs);
      }
    case _ =>
  }

  lemma Prefix(tag: bytes, payload: bytes)
    ensures tag + Varint(|payload|) + payload == tag + Prefixed(payload)
  {}

  lemma {:induction false} WriteMessagesAgree(s: Schema, tag: Tag, ms: seq<Message>, cs: seq<Cache>)
    requires |cs| == |ms| && forall i :: 0 <= i < |ms| ==> Right(s, ms[i], cs[i])
    ensures WriteMessages(s, tag, ms, cs) == EncodeMessages(s, tag, ms)
    decreases ms
  {
    if ms != [] {
      WriteAgrees(s, ms[0], cs[0]);
      WriteMessagesAgree(s, tag, ms[1..], cs[1..]);
      Prefix(TagOctets(tag), Encode(s, ms[0]));
    }
  }

  lemma {:induction false} WriteFieldsAgree(fields: seq<Field>, vals: seq<Value>, cs: seq<FieldCache>)
    requires |cs| == Shorter(|fields|, |vals|)
    requires forall i :: 0 <= i < |cs| ==> FieldRight(fields[i], vals[i], cs[i])
    ensures WriteFields(fields, vals, cs) == EncodeFields(fields, vals)
    decreases vals
  {
    if cs != [] {
      WriteFieldAgrees(fields[0], vals[0], cs[0]);
      WriteFieldsAgree(fields[1..], vals[1..], cs[1..]);
    }
  }

  /** With every stored size right, the write pass emits the serialized message. */
  lemma {:induction false} WriteAgrees(s: Schema, m: Message, c: Cache)
    requires Right(s, m, c)
    ensures Write(s, m, c) == Encode(s, m)
    decreases m
  {
    WriteFieldsAgree(s.fields, m.vals, c.fields);
  }

  /** SerializeToString: the size pass, then the write pass.  It emits the encoding, of exactly the size returned. */
  lemma TwoPasses(s: Schema, m: Message)
    requires GoodSchema(s)
    ensures Write(s, m, SizePass(s, m)) == Encode(s, m)
    ensures |Write(s, m, SizePass(s, m))| == ByteSize(s, m) == SizePass(s, m).size
  {
    SizePassIsRight(s, m);
    WriteAgrees(s, m, SizePass(s, m));
  }
}
