/** Parsing what the serializer wrote: into any message of the type, it is MergeFrom. */
module CodecRoundTrip {
  import opened Bytes
  import opened Wire
  import opened Messages
  import opened Codec
  import opened CodecLocality
  import opened CodecMerge

  // ---------------------------------------------------------------- unknown fields

  lemma {:induction false} UnknownRoundTrip(u: Unknown)
    requires GoodUnknown(u)
    ensures ParseUnknown(UnknownTag(u), UnknownBody(u)) == Some(Parsed(u, |UnknownBody(u)|))
    decreases u
  {
    var body := UnknownBody(u);
    assert body + [] == body;
    match u
    case UVarint(_, v) => Varint64Read(v, []);
    case UFixed64(_, octets) => assert octets[..8] == octets;
    case UBytes(_, octets) => ChunkRead(octets, []);
    case UGroup(num, fields) => GroupRoundTrip(num, fields);
    case UFixed32(_, octets) => assert octets[..4] == octets;
  }

  lemma ThreeParts(a: bytes, b: bytes, c: bytes)
    ensures a + b + c == a + (b + c)
    ensures (a + b + c)[|a|..] == b + c && (a + b + c)[|a| + |b|..] == c
  {}

  /** A field of a group, when the rest of the group parses. */
  lemma GroupRecord(num: nat, tag: Tag, body: bytes, u: Unknown, us: seq<Unknown>, rest: bytes)
    requires GoodTag(tag) && !Stops(tag)
    requires ParseUnknown(tag, body) == Some(Parsed(u, |body|))
    requires ParseGroup(num, rest) == Some(Parsed(us, |rest|))
    ensures var b := TagOctets(tag) + body + rest;
      ParseGroup(num, b)
      == Some(Before(TagScan(tag, |TagOctets(tag)|), Parsed(u, |body|), Parsed(us, |rest|)))
  {
    var b := TagOctets(tag) + body + rest;
    var t := TagScan(tag, |TagOctets(tag)|);
    ThreeParts(TagOctets(tag), body, rest);
    TagRead(tag, body + rest);
    UnknownGrows(tag, body, rest);
    GroupTurn(num, b, t, body + rest, Parsed(u, |body|), rest, Parsed(us, |rest|));
  }

  lemma BeforeRest(tag: Tag, body: bytes, us: seq<Unknown>, rest: bytes)
    requires us != []
    ensures Before(TagScan(tag, |TagOctets(tag)|), Parsed(us[0], |body|), Parsed(us[1..], |rest|))
         == Parsed(us, |TagOctets(tag) + body + rest|)
  {
    assert [us[0]] + us[1..] == us;
  }

  lemma UnknownsSplit(us: seq<Unknown>, end: bytes)
    requires us != []
    ensures EncodeUnknowns(us) + end
         == TagOctets(UnknownTag(us[0])) + UnknownBody(us[0]) + (EncodeUnknowns(us[1..]) + end)
  {
    var a, c := EncodeUnknown(us[0]), EncodeUnknowns(us[1..]);
    ThreeParts(a, c, end);
  }

  lemma GroupEnd(num: nat)
    requires 0 < num < 0x2000_0000
    ensures var end := TagOctets(Tag(num, END_GROUP));
      ParseGroup(num, EncodeUnknowns([]) + end) == Some(Parsed([], |end|))
  {
    var end := TagOctets(Tag(num, END_GROUP));
    assert EncodeUnknowns([]) + end == end + [];
    TagRead(Tag(num, END_GROUP), []);
  }

  lemma {:induction false} GroupRoundTrip(num: nat, us: seq<Unknown>)
    requires 0 < num < 0x2000_0000 && forall i :: 0 <= i < |us| ==> GoodUnknown(us[i])
    ensures var b := EncodeUnknowns(us) + TagOctets(Tag(num, END_GROUP));
      ParseGroup(num, b) == Some(Parsed(us, |b|))
    decreases us
  {
    if us == [] {
      GroupEnd(num);
    } else {
      var end := TagOctets(Tag(num, END_GROUP));
      var u, rest := us[0], EncodeUnknowns(us[1..]) + end;
      UnknownRoundTrip(u);
      GroupRoundTrip(num, us[1..]);
      GroupRecord(num, UnknownTag(u), UnknownBody(u), u, us[1..], rest);
      UnknownsSplit(us, end);
      BeforeRest(UnknownTag(u), UnknownBody(u), us, rest);
    }
  }

  /** One unknown record. */
  lemma UnknownRecord(s: Schema, m: Message, u: Unknown)
    requires GoodUnknown(u) && Unusual(s, UnknownTag(u))
    ensures ParseInto(s, m, EncodeUnknown(u)) == Some(Keep(m, u))
  {
    UnknownRoundTrip(u);
    assert FindField(s.fields, UnknownTag(u)) == None;
    OneRecord(s, m, UnknownTag(u), UnknownBody(u), Keep(m, u));
  }

  function UnknownPieces(us: seq<Unknown>): (pieces: seq<bytes>)
    ensures |pieces| == |us| && forall k :: 0 <= k < |us| ==> pieces[k] == EncodeUnknown(us[k])
  {
    seq(|us|, k requires 0 <= k < |us| => EncodeUnknown(us[k]))
  }

  lemma {:induction false} UnknownsInPieces(us: seq<Unknown>)
    ensures EncodeUnknowns(us) == Concat(UnknownPieces(us))
    decreases us
  {
    if us != [] {
      UnknownsInPieces(us[1..]);
      assert UnknownPieces(us)[1..] == UnknownPieces(us[1..]);
    }
  }

  function Kept(m: Message, us: seq<Unknown>): Message {
    m.(unknown := m.unknown + us)
  }

  lemma UnknownsStep(s: Schema, m: Message, us: seq<Unknown>)
    requires forall i :: 0 <= i < |us| ==> GoodUnknown(us[i]) && Unusual(s, UnknownTag(us[i]))
    ensures ParseInto(s, m, EncodeUnknowns(us)) == Some(Kept(m, us))
  {
    var pieces := UnknownPieces(us);
    var states := seq(|us| + 1, k requires 0 <= k <= |us| => Kept(m, us[..k]));
    forall k | 0 <= k < |pieces| ensures ParseInto(s, states[k], pieces[k]) == Some(states[k + 1]) {
      UnknownRecord(s, states[k], us[k]);
      assert us[..k] + [us[k]] == us[..k + 1];
      assert m.unknown + us[..k] + [us[k]] == m.unknown + us[..k + 1];
    }
    ParseStepwise(s, states, pieces);
    UnknownsInPieces(us);
    assert us[..|us|] == us && m.unknown + us[..0] == m.unknown;
  }

  // ---------------------------------------------------------------- one field

  lemma SetSame(m: Message, i: nat)
    requires i < |m.vals|
    ensures Set(m, i, m.vals[i]) == m
  {
    assert m.vals[i := m.vals[i]] == m.vals;
  }

  lemma SetTwice(m: Message, i: nat, v: Value, w: Value)
    requires i < |m.vals|
    ensures Set(Set(m, i, v), i, w) == Set(m, i, w)
  {
    assert m.vals[i := v][i := w] == m.vals[i := w];
  }

  /** Field `i` of the type `s`, with the message `m` it is parsed into. */
  ghost predicate At(s: Schema, m: Message, i: nat) {
    GoodSchema(s) && |m.vals| == |s.fields| && i < |s.fields| && Fits(s.fields[i], m.vals[i])
  }

  lemma FindsField(s: Schema, i: nat, tag: Tag)
    requires GoodSchema(s) && i < |s.fields| && Accepts(s.fields[i], tag)
    ensures FindField(s.fields, tag) == Some(i)
  {}

  /** One record of field `i`. */
  lemma FieldRecord(s: Schema, m: Message, i: nat, tag: Tag, body: bytes, v: Value)
    requires At(s, m, i) && Accepts(s.fields[i], tag)
    requires ParseField(s.fields[i], m.vals[i], tag, body) == Some(Parsed(v, |body|))
    ensures ParseInto(s, m, TagOctets(tag) + body) == Some(Set(m, i, v))
  {
    FindsField(s, i, tag);
    assert GoodField(s.fields[i]);
    FoundRecord(s, m, i, tag, body, v);
  }

  lemma FoundRecord(s: Schema, m: Message, i: nat, tag: Tag, body: bytes, v: Value)
    requires FindField(s.fields, tag) == Some(i) && i < |m.vals| && GoodTag(tag)
    requires ParseField(s.fields[i], m.vals[i], tag, body) == Some(Parsed(v, |body|))
    ensures ParseInto(s, m, TagOctets(tag) + body) == Some(Set(m, i, v))
  {
    assert ParseRecord(s, m, tag, body) == Some(Parsed(Set(m, i, v), |body|));
    OneRecord(s, m, tag, body, Set(m, i, v));
  }

  /** One varint record of field `i`. */
  lemma NumberRecord(s: Schema, m: Message, i: nat, n: uint64)
    requires At(s, m, i) && (s.fields[i].Number? || s.fields[i].Packed?)
    ensures ParseInto(s, m, TagOctets(Tag(s.fields[i].num, VARINT)) + Varint(n))
         == Some(Set(m, i, AddNumber(s.fields[i], m.vals[i], n)))
  {
    assert Varint(n) + [] == Varint(n);
    Varint64Read(n, []);
    FieldRecord(s, m, i, Tag(s.fields[i].num, VARINT), Varint(n), AddNumber(s.fields[i], m.vals[i], n));
  }

  /** One length-delimited record of field `i`. */
  lemma PayloadRecord(s: Schema, m: Message, i: nat, payload: bytes, v: Value)
    requires At(s, m, i) && !s.fields[i].Number? && |payload| <= MAX_SIZE
    requires ParsePayload(s.fields[i], m.vals[i], payload) == Some(v)
    ensures ParseInto(s, m, TagOctets(TagOf(s.fields[i])) + Prefixed(payload)) == Some(Set(m, i, v))
  {
    assert Prefixed(payload) + [] == Prefixed(payload);
    ChunkRead(payload, []);
    FieldRecord(s, m, i, TagOf(s.fields[i]), Prefixed(payload), v);
  }

  lemma {:induction false} PackedRoundTrip(ns: seq<uint64>)
    ensures ParsePacked(EncodePacked(ns)) == Some(ns)
  {
    if ns != [] {
      var rest := EncodePacked(ns[1..]);
      Varint64Read(ns[0], rest);
      assert (Varint(ns[0]) + rest)[|Varint(ns[0])|..] == rest;
      PackedRoundTrip(ns[1..]);
      assert [ns[0]] + ns[1..] == ns;
    }
  }

  lemma StringsInPieces(tag: Tag, bs: seq<bytes>)
    ensures EncodeStrings(tag, bs)
         == Concat(seq(|bs|, k requires 0 <= k < |bs| => TagOctets(tag) + Prefixed(bs[k])))
  {
    if bs != [] {
      StringsInPieces(tag, bs[1..]);
      var pieces := seq(|bs|, k requires 0 <= k < |bs| => TagOctets(tag) + Prefixed(bs[k]));
      assert pieces[1..] == seq(|bs[1..]|, k requires 0 <= k < |bs[1..]| => TagOctets(tag) + Prefixed(bs[1..][k]));
    }
  }

  lemma {:induction false} StringsFit(tag: Tag, bs: seq<bytes>, k: nat)
    requires k < |bs|
    ensures |bs[k]| <= |EncodeStrings(tag, bs)|
    decreases k
  {
    if k > 0 {
      StringsFit(tag, bs[1..], k - 1);
    }
  }

  /** Field `i` set to its value with the strings `bs` appended. */
  function AddStrings(m: Message, i: nat, bs: seq<bytes>): (r: Message)
    requires i < |m.vals| && m.vals[i].Strs?
    ensures |r.vals| == |m.vals|
  {
    Set(m, i, Strs(m.vals[i].bs + bs))
  }

  lemma StringsNone(m: Message, i: nat)
    requires i < |m.vals| && m.vals[i].Strs?
    ensures AddStrings(m, i, []) == m
  {
    assert m.vals[i].bs + [] == m.vals[i].bs;
    SetSame(m, i);
  }

  lemma StringsMore(m: Message, i: nat, bs: seq<bytes>, k: nat)
    requires i < |m.vals| && m.vals[i].Strs? && k < |bs|
    ensures AddStrings(AddStrings(m, i, bs[..k]), i, [bs[k]]) == AddStrings(m, i, bs[..k + 1])
  {
    var v := m.vals[i].bs;
    assert v + bs[..k] + [bs[k]] == v + bs[..k + 1];
    SetTwice(m, i, Strs(v + bs[..k]), Strs(v + bs[..k + 1]));
  }

  lemma StringRecord(s: Schema, m: Message, i: nat, b: bytes)
    requires At(s, m, i) && s.fields[i].Strings? && ValidUtf8(b) && |b| <= MAX_SIZE
    ensures ParseInto(s, m, TagOctets(TagOf(s.fields[i])) + Prefixed(b)) == Some(AddStrings(m, i, [b]))
  {
    PayloadRecord(s, m, i, b, Strs(m.vals[i].bs + [b]));
  }

  lemma StringsStep(s: Schema, m: Message, i: nat, bs: seq<bytes>)
    requires At(s, m, i) && s.fields[i].Strings? && Fits(s.fields[i], Strs(bs))
    requires |EncodeStrings(TagOf(s.fields[i]), bs)| <= MAX_SIZE
    ensures ParseInto(s, m, EncodeStrings(TagOf(s.fields[i]), bs)) == Some(AddStrings(m, i, bs))
  {
    var tag := TagOf(s.fields[i]);
    var pieces := seq(|bs|, k requires 0 <= k < |bs| => TagOctets(tag) + Prefixed(bs[k]));
    var states := seq(|bs| + 1, k requires 0 <= k <= |bs| => AddStrings(m, i, bs[..k]));
    forall k | 0 <= k < |pieces| ensures ParseInto(s, states[k], pieces[k]) == Some(states[k + 1]) {
      StringsFit(tag, bs, k);
      var st := AddStrings(m, i, bs[..k]);
      assert Fits(s.fields[i], Strs(bs));
      StringsSoFar(s, m, i, bs, k);
      StringRecord(s, st, i, bs[k]);
      StringsMore(m, i, bs, k);
    }
    ParseStepwise(s, states, pieces);
    StringsInPieces(tag, bs);
    StringsNone(m, i);
    assert bs[..|bs|] == bs && bs[..0] == [];
  }

  lemma StringsSoFar(s: Schema, m: Message, i: nat, bs: seq<bytes>, k: nat)
    requires At(s, m, i) && s.fields[i].Strings? && Fits(s.fields[i], Strs(bs)) && k <= |bs|
    ensures At(s, AddStrings(m, i, bs[..k]), i)
  {}

  lemma SubSchemaIsGood(s: Schema, i: nat)
    requires GoodSchema(s) && i < |s.fields| && (s.fields[i].Sub? || s.fields[i].Subs?)
    ensures GoodSchema(s.fields[i].schema)
  {
    assert GoodField(s.fields[i]);
  }

  /** One element of a repeated submessage. */
  lemma {:induction false} ElementStep(s: Schema, m: Message, i: nat, x: Message)
    requires At(s, m, i) && s.fields[i].Subs? && WellTyped(s.fields[i].schema, x)
    requires |Encode(s.fields[i].schema, x)| <= MAX_SIZE
    ensures ParseInto(s, m, TagOctets(TagOf(s.fields[i])) + Prefixed(Encode(s.fields[i].schema, x)))
         == Some(AddSubs(m, i, [x]))
    decreases x, 1
  {
    var f := s.fields[i];
    SubSchemaIsGood(s, i);
    DefaultIsWellTyped(f.schema);
    ParseEncoded(f.schema, Default(f.schema), x);
    MergeIntoDefault(f.schema, x);
    PayloadRecord(s, m, i, Encode(f.schema, x), Msgs(m.vals[i].ms + [x]));
  }

  lemma SubsInPieces(s: Schema, tag: Tag, ms: seq<Message>)
    ensures EncodeMessages(s, tag, ms)
         == Concat(seq(|ms|, k requires 0 <= k < |ms| => TagOctets(tag) + Prefixed(Encode(s, ms[k]))))
    decreases |ms|
  {
    if ms != [] {
      SubsInPieces(s, tag, ms[1..]);
      var pieces := seq(|ms|, k requires 0 <= k < |ms| => TagOctets(tag) + Prefixed(Encode(s, ms[k])));
      assert pieces[1..]
          == seq(|ms[1..]|, k requires 0 <= k < |ms[1..]| => TagOctets(tag) + Prefixed(Encode(s, ms[1..][k])));
    }
  }

  lemma {:induction false} SubsFit(s: Schema, tag: Tag, ms: seq<Message>, k: nat)
    requires k < |ms|
    ensures |Encode(s, ms[k])| <= |EncodeMessages(s, tag, ms)|
    decreases k
  {
    if k > 0 {
      SubsFit(s, tag, ms[1..], k - 1);
    }
  }

  /** Field `i` set to its value with the messages `ms` appended. */
  function AddSubs(m: Message, i: nat, ms: seq<Message>): (r: Message)
    requires i < |m.vals| && m.vals[i].Msgs?
    ensures |r.vals| == |m.vals|
  {
    Set(m, i, Msgs(m.vals[i].ms + ms))
  }

  lemma SubsNone(m: Message, i: nat)
    requires i < |m.vals| && m.vals[i].Msgs?
    ensures AddSubs(m, i, []) == m
  {
    assert m.vals[i].ms + [] == m.vals[i].ms;
    SetSame(m, i);
  }

  lemma SubsMore(m: Message, i: nat, ms: seq<Message>, k: nat)
    requires i < |m.vals| && m.vals[i].Msgs? && k < |ms|
    ensures AddSubs(AddSubs(m, i, ms[..k]), i, [ms[k]]) == AddSubs(m, i, ms[..k + 1])
  {
    var v := m.vals[i].ms;
    assert v + ms[..k] + [ms[k]] == v + ms[..k + 1];
    SetTwice(m, i, Msgs(v + ms[..k]), Msgs(v + ms[..k + 1]));
  }

  lemma SubsSoFar(s: Schema, m: Message, i: nat, ms: seq<Message>, k: nat)
    requires At(s, m, i) && s.fields[i].Subs? && Fits(s.fields[i], Msgs(ms)) && k <= |ms|
    ensures At(s, AddSubs(m, i, ms[..k]), i)
  {}

  lemma {:induction false} NextElementStep(s: Schema, m: Message, i: nat, ms: seq<Message>, k: nat)
    requires At(s, m, i) && s.fields[i].Subs? && Fits(s.fields[i], Msgs(ms)) && k < |ms|
    requires |Encode(s.fields[i].schema, ms[k])| <= MAX_SIZE
    ensures ParseInto(s, AddSubs(m, i, ms[..k]),
                      TagOctets(TagOf(s.fields[i])) + Prefixed(Encode(s.fields[i].schema, ms[k])))
         == Some(AddSubs(m, i, ms[..k + 1]))
    decreases ms[k], 2
  {
    SubsSoFar(s, m, i, ms, k);
    ElementStep(s, AddSubs(m, i, ms[..k]), i, ms[k]);
    SubsMore(m, i, ms, k);
  }

  lemma {:induction false} SubsStep(s: Schema, m: Message, i: nat, ms: seq<Message>)
    requires At(s, m, i) && s.fields[i].Subs? && Fits(s.fields[i], Msgs(ms))
    requires |EncodeMessages(s.fields[i].schema, TagOf(s.fields[i]), ms)| <= MAX_SIZE
    ensures ParseInto(s, m, EncodeMessages(s.fields[i].schema, TagOf(s.fields[i]), ms)) == Some(AddSubs(m, i, ms))
    decreases ms
  {
    var t, tag := s.fields[i].schema, TagOf(s.fields[i]);
    var pieces := seq(|ms|, k requires 0 <= k < |ms| => TagOctets(tag) + Prefixed(Encode(t, ms[k])));
    var states := seq(|ms| + 1, k requires 0 <= k <= |ms| => AddSubs(m, i, ms[..k]));
    forall k | 0 <= k < |pieces| ensures ParseInto(s, states[k], pieces[k]) == Some(states[k + 1]) {
      SubsFit(t, tag, ms, k);
      NextElementStep(s, m, i, ms, k);
    }
    ParseStepwise(s, states, pieces);
    SubsInPieces(t, tag, ms);
    SubsNone(m, i);
    assert ms[..|ms|] == ms && ms[..0] == [];
  }

  lemma {:induction false} SubStep(s: Schema, m: Message, i: nat, x: Message)
    requires At(s, m, i) && s.fields[i].Sub? && WellTyped(s.fields[i].schema, x)
    requires |EncodeField(s.fields[i], Msg(Some(x)))| <= MAX_SIZE
    ensures ParseInto(s, m, EncodeField(s.fields[i], Msg(Some(x))))
         == Some(Set(m, i, MergeValue(s.fields[i], m.vals[i], Msg(Some(x)))))
    decreases x, 1
  {
    var f, v := s.fields[i], m.vals[i];
    var base := if v.m.Some? then v.m.value else Default(f.schema);
    SubSchemaIsGood(s, i);
    DefaultIsWellTyped(f.schema);
    ParseEncoded(f.schema, base, x);
    PayloadRecord(s, m, i, Encode(f.schema, x), Msg(Some(Merge(f.schema, base, x))));
  }

  /** Parsing a serialized field merges its value. */
  lemma {:induction false} FieldStep(s: Schema, m: Message, i: nat, w: Value)
    requires At(s, m, i) && Fits(s.fields[i], w) && |EncodeField(s.fields[i], w)| <= MAX_SIZE
    ensures ParseInto(s, m, EncodeField(s.fields[i], w))
         == Some(Set(m, i, MergeValue(s.fields[i], m.vals[i], w)))
    decreases w
  {
    var f, v := s.fields[i], m.vals[i];
    SetSame(m, i);
    match w
    case Num(n) =>
      if n != 0 {
        ScalarRoundTrip(f.scalar, n);
        NumberRecord(s, m, i, Bits64(n));
      }
    case Str(b) =>
      if b != [] {
        PayloadRecord(s, m, i, b, w);
      }
    case Strs(bs) => StringsStep(s, m, i, bs);
    case Nums(ns) => PackedStep(s, m, i, ns);
    case Msg(x) =>
      if x.Some? {
        SubStep(s, m, i, x.value);
      }
    case Msgs(ms) => SubsStep(s, m, i, ms);
  }

  lemma PackedStep(s: Schema, m: Message, i: nat, ns: seq<uint64>)
    requires At(s, m, i) && s.fields[i].Packed? && |EncodeField(s.fields[i], Nums(ns))| <= MAX_SIZE
    ensures ParseInto(s, m, EncodeField(s.fields[i], Nums(ns))) == Some(Set(m, i, Nums(m.vals[i].ns + ns)))
  {
    var v := m.vals[i];
    PackedRoundTrip(ns);
    if EncodePacked(ns) == [] {
      assert v.ns + ns == v.ns;
      SetSame(m, i);
    } else {
      PayloadRecord(s, m, i, EncodePacked(ns), Nums(v.ns + ns));
    }
  }

  // ---------------------------------------------------------------- messages

  /** The fields from number `k` on merged, those before as they are. */
  function MergedFrom(s: Schema, m: Message, vals: seq<Value>, k: nat): (r: Message)
    requires k <= |s.fields| == |vals| == |m.vals|
    ensures |r.vals| == |m.vals|
  {
    m.(vals := m.vals[..k] + MergeValues(s.fields[k..], m.vals[k..], vals[k..]))
  }

  lemma MergedFromNext(s: Schema, m: Message, vals: seq<Value>, k: nat)
    requires k < |s.fields| == |vals| == |m.vals|
    ensures MergedFrom(s, Set(m, k, MergeValue(s.fields[k], m.vals[k], vals[k])), vals, k + 1)
         == MergedFrom(s, m, vals, k)
  {
    var x := MergeValue(s.fields[k], m.vals[k], vals[k]);
    var m1 := Set(m, k, x);
    assert m1.vals[k + 1..] == m.vals[k..][1..];
    assert s.fields[k + 1..] == s.fields[k..][1..] && vals[k + 1..] == vals[k..][1..];
    var tail := MergeValues(s.fields[k + 1..], m1.vals[k + 1..], vals[k + 1..]);
    assert MergeValues(s.fields[k..], m.vals[k..], vals[k..]) == [x] + tail;
    assert m1.vals[..k + 1] + tail == m.vals[..k] + ([x] + tail);
  }

  lemma {:induction false} FieldsStep(s: Schema, m: Message, vals: seq<Value>, k: nat)
    requires GoodSchema(s) && k <= |s.fields| == |vals| == |m.vals|
    requires forall j :: k <= j < |vals| ==> Fits(s.fields[j], m.vals[j]) && Fits(s.fields[j], vals[j])
    requires |EncodeFields(s.fields[k..], vals[k..])| <= MAX_SIZE
    ensures ParseInto(s, m, EncodeFields(s.fields[k..], vals[k..])) == Some(MergedFrom(s, m, vals, k))
    decreases vals, |vals| - k
  {
    if k == |vals| {
      assert m.vals[..k] + [] == m.vals;
    } else {
      var f := s.fields[k];
      var m1 := Set(m, k, MergeValue(f, m.vals[k], vals[k]));
      var rest := EncodeFields(s.fields[k + 1..], vals[k + 1..]);
      assert s.fields[k + 1..] == s.fields[k..][1..] && vals[k + 1..] == vals[k..][1..];
      assert EncodeFields(s.fields[k..], vals[k..]) == EncodeField(f, vals[k]) + rest;
      FieldStep(s, m, k, vals[k]);
      FieldsStep(s, m1, vals, k + 1);
      MergedFromNext(s, m, vals, k);
      Chain(s, m, EncodeField(f, vals[k]), m1, rest, MergedFrom(s, m, vals, k));
    }
  }

  /** Parsing the octets of a serialized message into another message of its type is MergeFrom. */
  lemma {:induction false} ParseEncoded(s: Schema, into: Message, m: Message)
    requires GoodSchema(s) && WellTyped(s, into) && WellTyped(s, m) && |Encode(s, m)| <= MAX_SIZE
    ensures ParseInto(s, into, Encode(s, m)) == Some(Merge(s, into, m))
    decreases m, 0
  {
    assert s.fields[0..] == s.fields && m.vals[0..] == m.vals && into.vals[0..] == into.vals;
    FieldsStep(s, into, m.vals, 0);
    var m1 := MergedFrom(s, into, m.vals, 0);
    assert m1.vals == MergeValues(s.fields, into.vals, m.vals);
    UnknownsStep(s, m1, m.unknown);
    Chain(s, into, EncodeFields(s.fields, m.vals), m1, EncodeUnknowns(m.unknown), Merge(s, into, m));
  }

  // ---------------------------------------------------------------- main results

  /** ParseFromString after SerializeToString gives the message back. */
  lemma RoundTrip(s: Schema, m: Message)
    requires GoodSchema(s) && WellTyped(s, m) && |Encode(s, m)| <= MAX_SIZE
    ensures Parse(s, Encode(s, m)) == Some(m)
  {
    DefaultIsWellTyped(s);
    ParseEncoded(s, Default(s), m);
    MergeIntoDefault(s, m);
  }

  /** Two serialized messages one after the other parse to the merge of the two. */
  lemma ConcatenationMerges(s: Schema, a: Message, b: Message)
    requires GoodSchema(s) && WellTyped(s, a) && WellTyped(s, b)
    requires |Encode(s, a)| <= MAX_SIZE && |Encode(s, b)| <= MAX_SIZE
    ensures Parse(s, Encode(s, a) + Encode(s, b)) == Some(Merge(s, a, b))
  {
    RoundTrip(s, a);
    ParseEncoded(s, a, b);
    Chain(s, Default(s), Encode(s, a), a, Encode(s, b), Merge(s, a, b));
  }
}
