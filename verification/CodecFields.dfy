/** Serializing, sizing and merging a message one field at a time, as the generated code does. */
module CodecFields {
  import opened Bytes
  import opened Wire
  import opened Messages
  import opened Codec
  import opened CodecSizes
  import opened CodecCaches
  import opened CodecMerge

  /** The octets of the first `k` fields. */
  function FirstFields(s: Schema, m: Message, k: nat): bytes
    requires k <= |s.fields| == |m.vals|
  {
    if k == 0 then [] else FirstFields(s, m, k - 1) + EncodeField(s.fields[k - 1], m.vals[k - 1])
  }

  lemma {:induction false} FirstFieldsEnd(s: Schema, m: Message, k: nat)
    requires k <= |s.fields| == |m.vals|
    ensures EncodeFields(s.fields, m.vals) == FirstFields(s, m, k) + EncodeFields(s.fields[k..], m.vals[k..])
  {
    if k == 0 {
      assert s.fields[0..] == s.fields && m.vals[0..] == m.vals;
    } else {
      FirstFieldsEnd(s, m, k - 1);
      assert s.fields[k - 1..][1..] == s.fields[k..] && m.vals[k - 1..][1..] == m.vals[k..];
    }
  }

  lemma AllFields(s: Schema, m: Message)
    requires |s.fields| == |m.vals|
    ensures Encode(s, m) == FirstFields(s, m, |m.vals|) + EncodeUnknowns(m.unknown)
  {
    FirstFieldsEnd(s, m, |m.vals|);
  }

  /** The octets of the first `k` fields, with stored sizes. */
  function FirstWritten(s: Schema, m: Message, c: Cache, k: nat): bytes
    requires k <= |s.fields| == |m.vals| == |c.fields|
  {
    if k == 0 then []
    else FirstWritten(s, m, c, k - 1) + WriteField(s.fields[k - 1], m.vals[k - 1], c.fields[k - 1])
  }

  lemma {:induction false} FirstWrittenEnd(s: Schema, m: Message, c: Cache, k: nat)
    requires k <= |s.fields| == |m.vals| == |c.fields|
    ensures WriteFields(s.fields, m.vals, c.fields)
         == FirstWritten(s, m, c, k) + WriteFields(s.fields[k..], m.vals[k..], c.fields[k..])
  {
    if k == 0 {
      assert s.fields[0..] == s.fields && m.vals[0..] == m.vals && c.fields[0..] == c.fields;
    } else {
      FirstWrittenEnd(s, m, c, k - 1);
      assert s.fields[k - 1..][1..] == s.fields[k..] && m.vals[k - 1..][1..] == m.vals[k..];
      assert c.fields[k - 1..][1..] == c.fields[k..];
      Regroup(FirstWritten(s, m, c, k - 1), WriteField(s.fields[k - 1], m.vals[k - 1], c.fields[k - 1]),
              WriteFields(s.fields[k..], m.vals[k..], c.fields[k..]));
    }
  }

  lemma AllWritten(s: Schema, m: Message, c: Cache)
    requires |s.fields| == |m.vals| == |c.fields|
    ensures Write(s, m, c) == FirstWritten(s, m, c, |m.vals|) + EncodeUnknowns(m.unknown)
  {
    FirstWrittenEnd(s, m, c, |m.vals|);
  }

  /** The size of the first `k` fields. */
  function FirstSizes(s: Schema, m: Message, k: nat): nat
    requires k <= |s.fields| == |m.vals|
  {
    if k == 0 then 0 else FirstSizes(s, m, k - 1) + FieldSize(s.fields[k - 1], m.vals[k - 1])
  }

  lemma {:induction false} FirstSizesEnd(s: Schema, m: Message, k: nat)
    requires k <= |s.fields| == |m.vals|
    ensures FieldsSize(s.fields, m.vals) == FirstSizes(s, m, k) + FieldsSize(s.fields[k..], m.vals[k..])
  {
    if k == 0 {
      assert s.fields[0..] == s.fields && m.vals[0..] == m.vals;
    } else {
      FirstSizesEnd(s, m, k - 1);
      assert s.fields[k - 1..][1..] == s.fields[k..] && m.vals[k - 1..][1..] == m.vals[k..];
    }
  }

  /** The length of a serialized message is the sum of the sizes of its parts. */
  lemma AllSizes(s: Schema, m: Message)
    requires GoodSchema(s) && |s.fields| == |m.vals|
    ensures |Encode(s, m)| == FirstSizes(s, m, |m.vals|) + UnknownsSize(m.unknown)
  {
    SizeIsLength(s, m);
    FirstSizesEnd(s, m, |m.vals|);
  }

  // ---------------------------------------------------------------- single fields

  /** A scalar field on the wire: nothing when it is zero. */
  function NumberOctets(num: nat, n: int): bytes
    requires -TWO_63 <= n < TWO_64
  {
    if n == 0 then [] else TagOctets(Tag(num, VARINT)) + Varint(Bits64(n))
  }

  /** A string field on the wire: nothing when it is empty. */
  function PayloadOctets(num: nat, b: bytes): bytes {
    if b == [] then [] else TagOctets(Tag(num, DELIMITED)) + Prefixed(b)
  }

  function NumberSize(n: int): nat
    requires -TWO_63 <= n < TWO_64
  {
    if n == 0 then 0 else 1 + VarintSize(Bits64(n))
  }

  function PayloadSize(b: bytes): nat {
    if b == [] then 0 else 1 + LengthDelimitedSize(|b|)
  }

  lemma Regroup(a: bytes, b: bytes, c: bytes)
    ensures a + b + c == a + (b + c) && a + [] == a
  {}

  /** A message that agrees with the merge field by field is the merge. */
  lemma MergedByField(s: Schema, m: Message, from: Message, r: Message)
    requires |s.fields| == |m.vals| == |from.vals| == |r.vals| && r.unknown == m.unknown + from.unknown
    requires forall k :: 0 <= k < |r.vals| ==> r.vals[k] == MergeValue(s.fields[k], m.vals[k], from.vals[k])
    ensures r == Merge(s, m, from)
  {
    forall k | 0 <= k < |r.vals| ensures r.vals[k] == Merge(s, m, from).vals[k] {
      MergeValuesAt(s.fields, m.vals, from.vals, k);
    }
    EqualByField(r, Merge(s, m, from));
  }
}
