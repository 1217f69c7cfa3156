/** One turn of the parse loop, by the kind of case that takes the tag.  `b` is what is left at the top of the
    loop, `body` what follows the tag. */
module CodecTurns {
  import opened Bytes
  import opened Wire
  import opened Messages
  import opened Codec
  import opened CodecLocality
  import opened CodecRoundTrip

  /** The tag at the front of `b`, and the rest. */
  predicate AtTag(b: bytes, t: TagScan, body: bytes) {
    b != [] && ReadTag(b) == Some(t) && t.used <= |b| && body == b[t.used..]
  }

  lemma NoTag(s: Schema, m: Message, b: bytes)
    requires b != [] && ReadTag(b) == None
    ensures ParseInto(s, m, b) == None
  {}

  lemma RecordFails(s: Schema, m: Message, b: bytes, t: TagScan, body: bytes)
    requires AtTag(b, t, body) && ParseRecord(s, m, t.tag, body) == None
    ensures ParseInto(s, m, b) == None
  {}

  lemma RecordParses(s: Schema, m: Message, b: bytes, t: TagScan, body: bytes, p: Parsed<Message>)
    requires AtTag(b, t, body) && ParseRecord(s, m, t.tag, body) == Some(p)
    ensures p.used <= |body| && ParseInto(s, m, b) == ParseInto(s, p.value, body[p.used..])
  {
    assert body[p.used..] == b[t.used + p.used..];
    ParseTurn(s, m, b, t, body, p, body[p.used..]);
  }

  // ---------------------------------------------------------------- outcomes, by name

  /** The three predicates below say what some octets come to.  The equation stands under a quantifier that only the
      lemmas here instantiate, so that a method can carry an outcome through a loop without the parser's
      definition being unfolded in it. */
  predicate Given<T>(x: T) {
    true
  }

  /** `r` is what parsing `b` into `m` comes to. */
  ghost predicate Parses(s: Schema, m: Message, b: bytes, r: Option<Message>) {
    forall x {:trigger Given(x)} :: Given(x) && x == ParseInto(s, m, b) ==> x == r
  }

  /** `r` is what the record after `tag` comes to. */
  ghost predicate Yields(s: Schema, m: Message, tag: Tag, body: bytes, r: Option<Parsed<Message>>) {
    forall x {:trigger Given(x)} :: Given(x) && x == ParseRecord(s, m, tag, body) ==> x == r
  }

  /** The rest of the parse, from behind a tag. */
  function Continue(s: Schema, m: Message, tag: Tag, body: bytes): Option<Message> {
    match ParseRecord(s, m, tag, body)
    case None => None
    case Some(p) => ParseInto(s, p.value, body[p.used..])
  }

  /** `r` is what the parse comes to, from behind a tag. */
  ghost predicate Leads(s: Schema, m: Message, tag: Tag, body: bytes, r: Option<Message>) {
    forall x {:trigger Given(x)} :: Given(x) && x == Continue(s, m, tag, body) ==> x == r
  }

  lemma Outcome(s: Schema, m: Message, tag: Tag, body: bytes) returns (r: Option<Parsed<Message>>)
    ensures Yields(s, m, tag, body, r)
  {
    r := ParseRecord(s, m, tag, body);
  }

  lemma ParseOutcome(s: Schema, m: Message, b: bytes) returns (r: Option<Message>)
    ensures Parses(s, m, b, r)
  {
    r := ParseInto(s, m, b);
  }

  lemma ItParses(s: Schema, m: Message, b: bytes, r: Option<Message>)
    requires Parses(s, m, b, r)
    ensures r == ParseInto(s, m, b)
  {
    assert Given(ParseInto(s, m, b));
  }

  lemma ItYields(s: Schema, m: Message, tag: Tag, body: bytes, r: Option<Parsed<Message>>)
    requires Yields(s, m, tag, body, r)
    ensures r == ParseRecord(s, m, tag, body)
  {
    assert Given(ParseRecord(s, m, tag, body));
  }

  lemma ItLeads(s: Schema, m: Message, tag: Tag, body: bytes, r: Option<Message>)
    requires Leads(s, m, tag, body, r)
    ensures r == Continue(s, m, tag, body)
  {
    assert Given(Continue(s, m, tag, body));
  }

  /** At the end of the octets, the message is the outcome. */
  lemma AtEnd(s: Schema, m: Message, b: bytes, r: Option<Message>)
    requires Parses(s, m, b[|b|..], r)
    ensures r == Some(m)
  {
    ItParses(s, m, b[|b|..], r);
  }

  lemma NoTagHere(s: Schema, m: Message, b: bytes, ptr: nat, r: Option<Message>)
    requires ptr < |b| && Parses(s, m, b[ptr..], r) && ReadTag(b[ptr..]) == None
    ensures r == None
  {
    ItParses(s, m, b[ptr..], r);
    NoTag(s, m, b[ptr..]);
  }

  /** Past the tag at `ptr`, to `start`. */
  lemma PastTag(s: Schema, m: Message, b: bytes, ptr: nat, t: TagScan, start: nat, r: Option<Message>)
    requires ptr < |b| && Parses(s, m, b[ptr..], r) && ReadTag(b[ptr..]) == Some(t) && start == ptr + t.used
    ensures start <= |b| && Leads(s, m, t.tag, b[start..], r)
  {
    ItParses(s, m, b[ptr..], r);
    var body := b[start..];
    assert b[ptr..][t.used..] == body;
    match ParseRecord(s, m, t.tag, body)
    case None => RecordFails(s, m, b[ptr..], t, body);
    case Some(p) => RecordParses(s, m, b[ptr..], t, body, p);
  }

  /** Past the record at `ptr`, if it parses, to `next`. */
  lemma PastRecord(s: Schema, m: Message, tag: Tag, b: bytes, ptr: nat, r: Option<Message>,
                   q: Option<Parsed<Message>>, m1: Message, next: nat)
    requires ptr <= |b| && Leads(s, m, tag, b[ptr..], r) && Yields(s, m, tag, b[ptr..], q)
    requires q.Some? ==> ptr <= next && q == Some(Parsed(m1, next - ptr))
    ensures q == None ==> r == None
    ensures q.Some? ==> next <= |b| && Parses(s, m1, b[next..], r)
  {
    ItLeads(s, m, tag, b[ptr..], r);
    ItYields(s, m, tag, b[ptr..], q);
    if q.Some? {
      assert b[ptr..][q.value.used..] == b[next..];
    }
  }

  // ---------------------------------------------------------------- the cases of the switch

  lemma FieldCase(s: Schema, m: Message, tag: Tag, body: bytes, i: nat)
    requires GoodSchema(s) && i < |s.fields| == |m.vals| && Accepts(s.fields[i], tag)
    ensures match ParseField(s.fields[i], m.vals[i], tag, body)
      case None => ParseRecord(s, m, tag, body) == None
      case Some(p) => ParseRecord(s, m, tag, body) == Some(Parsed(Set(m, i, p.value), p.used))
  {
    FindsField(s, i, tag);
  }

  /** A varint case. */
  lemma NumberCase(s: Schema, m: Message, tag: Tag, body: bytes, r: Option<Parsed<Message>>, i: nat)
    requires Yields(s, m, tag, body, r)
    requires GoodSchema(s) && i < |s.fields| == |m.vals| && (s.fields[i].Number? || s.fields[i].Packed?)
    requires tag == Tag(s.fields[i].num, VARINT)
    ensures match ReadVarint64(body)
      case None => r == None
      case Some(x) => r == Some(Parsed(Set(m, i, AddNumber(s.fields[i], m.vals[i], x.value)), x.used))
  {
    ItYields(s, m, tag, body, r);
    FieldCase(s, m, tag, body, i);
  }

  /** A uint64 case. */
  lemma UInt64Case(s: Schema, m: Message, tag: Tag, body: bytes, r: Option<Parsed<Message>>, i: nat)
    requires Yields(s, m, tag, body, r)
    requires GoodSchema(s) && i < |s.fields| == |m.vals| && s.fields[i].Number? && s.fields[i].scalar == UInt64
    requires tag == Tag(s.fields[i].num, VARINT)
    ensures match ReadVarint64(body)
      case None => r == None
      case Some(x) => r == Some(Parsed(Set(m, i, Num(x.value)), x.used))
  {
    NumberCase(s, m, tag, body, r, i);
  }

  /** An int64 case. */
  lemma Int64Case(s: Schema, m: Message, tag: Tag, body: bytes, r: Option<Parsed<Message>>, i: nat)
    requires Yields(s, m, tag, body, r)
    requires GoodSchema(s) && i < |s.fields| == |m.vals| && s.fields[i].Number? && s.fields[i].scalar == Int64
    requires tag == Tag(s.fields[i].num, VARINT)
    ensures match ReadVarint64(body)
      case None => r == None
      case Some(x) => r == Some(Parsed(Set(m, i, Num(Signed(x.value, TWO_63))), x.used))
  {
    NumberCase(s, m, tag, body, r, i);
  }

  /** A uint32 case. */
  lemma UInt32Case(s: Schema, m: Message, tag: Tag, body: bytes, r: Option<Parsed<Message>>, i: nat)
    requires Yields(s, m, tag, body, r)
    requires GoodSchema(s) && i < |s.fields| == |m.vals| && s.fields[i].Number? && s.fields[i].scalar == UInt32
    requires tag == Tag(s.fields[i].num, VARINT)
    ensures match ReadVarint64(body)
      case None => r == None
      case Some(x) => r == Some(Parsed(Set(m, i, Num(x.value % TWO_32)), x.used))
  {
    NumberCase(s, m, tag, body, r, i);
  }

  /** An enum case: the value is kept whatever it is. */
  lemma EnumCase(s: Schema, m: Message, tag: Tag, body: bytes, r: Option<Parsed<Message>>, i: nat)
    requires Yields(s, m, tag, body, r)
    requires GoodSchema(s) && i < |s.fields| == |m.vals| && s.fields[i].Number? && s.fields[i].scalar == Enum
    requires tag == Tag(s.fields[i].num, VARINT)
    ensures match ReadVarint64(body)
      case None => r == None
      case Some(x) => r == Some(Parsed(Set(m, i, Num(Signed(x.value % TWO_32, TWO_31))), x.used))
  {
    NumberCase(s, m, tag, body, r, i);
  }

  /** A length-delimited case. */
  lemma PayloadCase(s: Schema, m: Message, tag: Tag, body: bytes, r: Option<Parsed<Message>>, i: nat)
    requires Yields(s, m, tag, body, r)
    requires GoodSchema(s) && i < |s.fields| == |m.vals| && !s.fields[i].Number?
    requires tag == Tag(s.fields[i].num, DELIMITED)
    ensures match ReadChunk(body)
      case None => r == None
      case Some(c) =>
        match ParsePayload(s.fields[i], m.vals[i], c.payload)
        case None => r == None
        case Some(v) => r == Some(Parsed(Set(m, i, v), c.used))
  {
    ItYields(s, m, tag, body, r);
    FieldCase(s, m, tag, body, i);
  }

  /** A string or bytes case. */
  lemma OctetsCase(s: Schema, m: Message, tag: Tag, body: bytes, r: Option<Parsed<Message>>, i: nat)
    requires Yields(s, m, tag, body, r)
    requires GoodSchema(s) && i < |s.fields| == |m.vals| && s.fields[i].Octets?
    requires tag == Tag(s.fields[i].num, DELIMITED)
    ensures match ReadChunk(body)
      case None => r == None
      case Some(c) =>
        if s.fields[i].utf8 && !ValidUtf8(c.payload) then r == None
        else r == Some(Parsed(Set(m, i, Str(c.payload)), c.used))
  {
    PayloadCase(s, m, tag, body, r, i);
  }

  /** A packed run. */
  lemma PackedCase(s: Schema, m: Message, tag: Tag, body: bytes, r: Option<Parsed<Message>>, i: nat)
    requires Yields(s, m, tag, body, r)
    requires GoodSchema(s) && i < |s.fields| == |m.vals| && s.fields[i].Packed? && m.vals[i].Nums?
    requires tag == Tag(s.fields[i].num, DELIMITED)
    ensures match ReadChunk(body)
      case None => r == None
      case Some(c) =>
        match ParsePacked(c.payload)
        case None => r == None
        case Some(ns) => r == Some(Parsed(Set(m, i, Nums(m.vals[i].ns + ns)), c.used))
  {
    PayloadCase(s, m, tag, body, r, i);
  }

  /** One element of a repeated message field: a new message, parsed from its own octets to `x`. */
  lemma ElementCase(s: Schema, m: Message, tag: Tag, body: bytes, r: Option<Parsed<Message>>, i: nat,
                    x: Option<Message>)
    requires Yields(s, m, tag, body, r)
    requires GoodSchema(s) && i < |s.fields| == |m.vals| && s.fields[i].Subs? && m.vals[i].Msgs?
    requires tag == Tag(s.fields[i].num, DELIMITED)
    requires ReadChunk(body).Some? ==>
      Parses(s.fields[i].schema, Default(s.fields[i].schema), ReadChunk(body).value.payload, x)
    ensures match ReadChunk(body)
      case None => r == None
      case Some(c) =>
        match x
        case None => r == None
        case Some(e) => r == Some(Parsed(Set(m, i, Msgs(m.vals[i].ms + [e])), c.used))
  {
    if ReadChunk(body).Some? {
      ItParses(s.fields[i].schema, Default(s.fields[i].schema), ReadChunk(body).value.payload, x);
    }
    PayloadCase(s, m, tag, body, r, i);
  }

  /** A submessage case: the payload is parsed into the submessage there is, or into a new one. */
  lemma SubCase(s: Schema, m: Message, tag: Tag, body: bytes, r: Option<Parsed<Message>>, i: nat, base: Message,
                x: Option<Message>)
    requires Yields(s, m, tag, body, r)
    requires GoodSchema(s) && i < |s.fields| == |m.vals| && s.fields[i].Sub? && m.vals[i].Msg?
    requires tag == Tag(s.fields[i].num, DELIMITED)
    requires base == if m.vals[i].m.Some? then m.vals[i].m.value else Default(s.fields[i].schema)
    requires ReadChunk(body).Some? ==> Parses(s.fields[i].schema, base, ReadChunk(body).value.payload, x)
    ensures match ReadChunk(body)
      case None => r == None
      case Some(c) =>
        match x
        case None => r == None
        case Some(e) => r == Some(Parsed(Set(m, i, Msg(Some(e))), c.used))
  {
    if ReadChunk(body).Some? {
      ItParses(s.fields[i].schema, base, ReadChunk(body).value.payload, x);
    }
    PayloadCase(s, m, tag, body, r, i);
  }

  /** handle_unusual. */
  lemma UnusualCase(s: Schema, m: Message, tag: Tag, body: bytes, r: Option<Parsed<Message>>)
    requires Yields(s, m, tag, body, r)
    requires Unusual(s, tag)
    ensures Stops(tag) ==> r == None
    ensures !Stops(tag) ==>
      match ParseUnknown(tag, body)
      case None => r == None
      case Some(u) => r == Some(Parsed(Keep(m, u.value), u.used))
  {
    ItYields(s, m, tag, body, r);
    assert FindField(s.fields, tag) == None;
  }

  /** A length-delimited record whose payload does not parse makes the whole parse fail, whatever follows. */
  lemma BadPayload(s: Schema, m: Message, i: nat, payload: bytes, rest: bytes)
    requires GoodSchema(s) && i < |s.fields| == |m.vals| && !s.fields[i].Number? && |payload| <= MAX_SIZE
    requires ParsePayload(s.fields[i], m.vals[i], payload) == None
    ensures ParseInto(s, m, TagOctets(TagOf(s.fields[i])) + (Prefixed(payload) + rest)) == None
  {
    var tag, body := TagOf(s.fields[i]), Prefixed(payload) + rest;
    var b := TagOctets(tag) + body;
    assert GoodField(s.fields[i]);
    TagRead(tag, body);
    ChunkRead(payload, rest);
    var q := Outcome(s, m, tag, body);
    PayloadCase(s, m, tag, body, q, i);
    ItYields(s, m, tag, body, q);
    assert b[|TagOctets(tag)|..] == body;
    RecordFails(s, m, b, TagScan(tag, |TagOctets(tag)|), body);
  }
}
