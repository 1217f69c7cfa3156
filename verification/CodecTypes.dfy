/** What the parser accepts: every octet string that parses yields a message of the type, so that serializing
    and parsing again changes nothing. */
module CodecTypes {
  import opened Bytes
  import opened Wire
  import opened Messages
  import opened Codec
  import opened CodecLocality
  import opened CodecMerge
  import opened CodecRoundTrip

  lemma WireInRange(k: Scalar, v: uint64)
    ensures InRange(k, FromWire(k, v))
  {}

  // ---------------------------------------------------------------- unknown fields

  lemma {:induction false} UnknownIsGood(tag: Tag, b: bytes)
    requires tag.num < 0x2000_0000 && ParseUnknown(tag, b).Some?
    ensures GoodUnknown(ParseUnknown(tag, b).value.value) && UnknownTag(ParseUnknown(tag, b).value.value) == tag
    decreases |b|, 1
  {
    if tag.kind == START_GROUP {
      GroupIsGood(tag.num, b);
    }
  }

  lemma {:induction false} GroupIsGood(num: nat, b: bytes)
    requires ParseGroup(num, b).Some?
    ensures forall i :: 0 <= i < |ParseGroup(num, b).value.value| ==> GoodUnknown(ParseGroup(num, b).value.value[i])
    decreases |b|, 0
  {
    var t, body, u, rest, g := GroupParts(num, b);
    if !Stops(t.tag) {
      UnknownIsGood(t.tag, body);
      GroupIsGood(num, rest);
      GroupTurn(num, b, t, body, u, rest, g);
    }
  }

  // ---------------------------------------------------------------- declared fields

  lemma {:induction false} FieldFits(f: Field, v: Value, tag: Tag, b: bytes)
    requires Fits(f, v) && Accepts(f, tag) && ParseField(f, v, tag, b).Some?
    ensures Fits(f, ParseField(f, v, tag, b).value.value)
    decreases |b|, 0
  {
    if f.Number? || (f.Packed? && tag.kind == VARINT) {
      if f.Number? {
        WireInRange(f.scalar, ReadVarint64(b).value.value);
      }
    } else {
      PayloadFits(f, v, ReadChunk(b).value.payload);
    }
  }

  lemma {:induction false} PayloadFits(f: Field, v: Value, payload: bytes)
    requires Fits(f, v) && ParsePayload(f, v, payload).Some?
    ensures Fits(f, ParsePayload(f, v, payload).value)
    decreases |payload|, 2
  {
    if f.Sub? || f.Subs? {
      DefaultIsWellTyped(f.schema);
      ParseKeepsType(f.schema, if v.Msg? && v.m.Some? then v.m.value else Default(f.schema), payload);
    }
  }

  lemma SetFits(s: Schema, m: Message, i: nat, v: Value)
    requires WellTyped(s, m) && i < |m.vals| && Fits(s.fields[i], v)
    ensures WellTyped(s, Set(m, i, v))
  {}

  lemma KeepFits(s: Schema, m: Message, u: Unknown)
    requires WellTyped(s, m) && GoodUnknown(u) && Unusual(s, UnknownTag(u))
    ensures WellTyped(s, Keep(m, u))
  {}

  lemma {:induction false} RecordKeepsType(s: Schema, m: Message, tag: Tag, b: bytes)
    requires WellTyped(s, m) && tag.num < 0x2000_0000 && ParseRecord(s, m, tag, b).Some?
    ensures WellTyped(s, ParseRecord(s, m, tag, b).value.value)
    decreases |b|, 1
  {
    match FindField(s.fields, tag)
    case Some(i) =>
      FieldFits(s.fields[i], m.vals[i], tag, b);
      SetFits(s, m, i, ParseField(s.fields[i], m.vals[i], tag, b).value.value);
    case None =>
      UnknownIsGood(tag, b);
      KeepFits(s, m, ParseUnknown(tag, b).value.value);
  }

  /** Whatever the octets are: if they parse, every field has a value of its type, every string is valid UTF-8,
      and the unknown fields are well-formed and belong to no case. */
  lemma {:induction false} ParseKeepsType(s: Schema, m: Message, b: bytes)
    requires WellTyped(s, m) && ParseInto(s, m, b).Some?
    ensures WellTyped(s, ParseInto(s, m, b).value)
    decreases |b|, 1
  {
    if b != [] {
      var t, body, p, rest := ParseParts(s, m, b);
      RecordKeepsType(s, m, t.tag, body);
      ParseKeepsType(s, p.value, rest);
    }
  }

  /** Any accepted octets, however they were encoded, denote the same message as its canonical octets. */
  lemma Canonical(s: Schema, b: bytes, m: Message)
    requires GoodSchema(s) && Parse(s, b) == Some(m) && |Encode(s, m)| <= MAX_SIZE
    ensures Parse(s, Encode(s, m)) == Some(m)
  {
    DefaultIsWellTyped(s);
    ParseKeepsType(s, Default(s), b);
    RoundTrip(s, m);
  }

  // ---------------------------------------------------------------- why defaults are skipped

  /** The octets that spell out a zero in scalar field `i`, which the serializer never writes. */
  function ExplicitZero(s: Schema, i: nat): bytes
    requires i < |s.fields|
  {
    TagOctets(Tag(s.fields[i].num, VARINT)) + Varint(0)
  }

  /** Concatenation merges only what the serializer wrote.  The octets of an explicit zero parse to the default
      message, which merges as nothing, but behind a message they reset the field: the two agree exactly when
      the field was zero already. */
  lemma ExplicitZeroResets(s: Schema, a: Message, i: nat)
    requires GoodSchema(s) && WellTyped(s, a) && |Encode(s, a)| <= MAX_SIZE
    requires i < |s.fields| && s.fields[i].Number?
    ensures Parse(s, ExplicitZero(s, i)) == Some(Default(s))
    ensures Parse(s, Encode(s, a) + ExplicitZero(s, i)) == Some(Merge(s, a, Default(s))) <==> a.vals[i] == Num(0)
  {
    var d := Default(s);
    DefaultIsWellTyped(s);
    assert Fits(s.fields[i], d.vals[i]) && Fits(s.fields[i], a.vals[i]);
    NumberRecord(s, d, i, 0);
    SetSame(d, i);
    NumberRecord(s, a, i, 0);
    SetSame(a, i);
    assert FromWire(s.fields[i].scalar, 0) == 0;
    RoundTrip(s, a);
    Chain(s, d, Encode(s, a), a, ExplicitZero(s, i), Set(a, i, Num(0)));
    MergeDefault(s, a);
    assert Set(a, i, Num(0)).vals[i] == Num(0);
  }
}
