/** Parsing is local: what a record parses to depends only on its own octets, so parsing two stretches of
    octets one after the other is parsing their concatenation. */
module CodecLocality {
  import opened Bytes
  import opened Wire
  import opened Messages
  import opened Codec

  // ---------------------------------------------------------------- primitives

  lemma {:induction false} VarintGrows(b: bytes, more: bytes, max: nat)
    requires ReadVarint(b, max).Some?
    ensures ReadVarint(b + more, max) == ReadVarint(b, max)
    decreases max
  {
    if b[0] >= 128 {
      assert (b + more)[1..] == b[1..] + more;
      VarintGrows(b[1..], more, max - 1);
    }
  }

  lemma TagGrows(b: bytes, more: bytes)
    requires ReadTag(b).Some?
    ensures ReadTag(b + more) == ReadTag(b)
  {
    VarintGrows(b, more, 5);
  }

  lemma Varint64Grows(b: bytes, more: bytes)
    requires ReadVarint64(b).Some?
    ensures ReadVarint64(b + more) == ReadVarint64(b)
  {
    VarintGrows(b, more, 10);
  }

  lemma ChunkGrows(b: bytes, more: bytes)
    requires ReadChunk(b).Some?
    ensures ReadChunk(b + more) == ReadChunk(b)
  {
    VarintGrows(b, more, 5);
    var s := ReadVarint(b, 5).value;
    assert (b + more)[s.used..s.used + s.value] == b[s.used..s.used + s.value];
  }

  lemma FixedGrows(b: bytes, more: bytes, n: nat)
    requires Fixed(b, n).Some?
    ensures Fixed(b + more, n) == Fixed(b, n)
  {
    assert (b + more)[..n] == b[..n];
  }

  // ---------------------------------------------------------------- records

  lemma {:induction false} UnknownGrows(tag: Tag, b: bytes, more: bytes)
    requires ParseUnknown(tag, b).Some?
    ensures ParseUnknown(tag, b + more) == ParseUnknown(tag, b)
    decreases |b|, 1
  {
    if tag.kind == VARINT {
      Varint64Grows(b, more);
    } else if tag.kind == FIXED64 {
      FixedGrows(b, more, 8);
    } else if tag.kind == DELIMITED {
      ChunkGrows(b, more);
    } else if tag.kind == START_GROUP {
      GroupGrows(tag.num, b, more);
    } else {
      FixedGrows(b, more, 4);
    }
  }

  /** One field of a group, then the rest of the group. */
  lemma {:induction false} GroupTurn(num: nat, b: bytes, t: TagScan, body: bytes, u: Parsed<Unknown>, rest: bytes,
                                     g: Parsed<seq<Unknown>>)
    requires ReadTag(b) == Some(t) && !Stops(t.tag)
    requires body == b[t.used..] && ParseUnknown(t.tag, body) == Some(u)
    requires rest == b[t.used + u.used..] && ParseGroup(num, rest) == Some(g)
    ensures ParseGroup(num, b) == Some(Before(t, u, g))
  {}

  lemma {:induction false} GroupParts(num: nat, b: bytes)
    returns (t: TagScan, body: bytes, u: Parsed<Unknown>, rest: bytes, g: Parsed<seq<Unknown>>)
    requires ParseGroup(num, b).Some?
    ensures ReadTag(b) == Some(t)
    ensures !Stops(t.tag) ==>
      && body == b[t.used..] && ParseUnknown(t.tag, body) == Some(u)
      && t.used + u.used <= |b| && rest == b[t.used + u.used..] && ParseGroup(num, rest) == Some(g)
      && ParseGroup(num, b) == Some(Before(t, u, g))
    ensures Stops(t.tag) ==> t.tag == Tag(num, END_GROUP) && ParseGroup(num, b) == Some(Parsed([], t.used))
  {
    t := ReadTag(b).value;
    if !Stops(t.tag) {
      body := b[t.used..];
      u := ParseUnknown(t.tag, body).value;
      rest := b[t.used + u.used..];
      g := ParseGroup(num, rest).value;
    } else {
      body, u, rest, g := b, Parsed(UVarint(0, 0), 0), b, Parsed([], 0);
    }
  }

  lemma Beyond(b: bytes, more: bytes, k: nat)
    requires k <= |b|
    ensures (b + more)[k..] == b[k..] + more
  {}

  /** The first field of a group is the same when more octets follow. */
  lemma GroupTurnGrows(num: nat, b: bytes, more: bytes, t: TagScan, body: bytes, u: Parsed<Unknown>, rest: bytes,
                       g: Parsed<seq<Unknown>>)
    requires ReadTag(b) == Some(t) && !Stops(t.tag)
    requires t.used + u.used <= |b| && body == b[t.used..] && rest == b[t.used + u.used..]
    requires ParseUnknown(t.tag, body + more) == Some(u) && ParseGroup(num, rest + more) == Some(g)
    ensures ParseGroup(num, b + more) == Some(Before(t, u, g))
  {
    TagGrows(b, more);
    Beyond(b, more, t.used);
    Beyond(b, more, t.used + u.used);
    GroupTurn(num, b + more, t, body + more, u, rest + more, g);
  }

  lemma {:induction false} GroupGrows(num: nat, b: bytes, more: bytes)
    requires ParseGroup(num, b).Some?
    ensures ParseGroup(num, b + more) == ParseGroup(num, b)
    decreases |b|, 0
  {
    var t, body, u, rest, g := GroupParts(num, b);
    if Stops(t.tag) {
      TagGrows(b, more);
    } else {
      UnknownGrows(t.tag, body, more);
      GroupGrows(num, rest, more);
      GroupTurnGrows(num, b, more, t, body, u, rest, g);
    }
  }

  lemma FieldGrows(f: Field, v: Value, tag: Tag, b: bytes, more: bytes)
    requires ParseField(f, v, tag, b).Some?
    ensures ParseField(f, v, tag, b + more) == ParseField(f, v, tag, b)
  {
    if f.Number? || (f.Packed? && tag.kind == VARINT) {
      Varint64Grows(b, more);
    } else {
      ChunkGrows(b, more);
    }
  }

  lemma RecordGrows(s: Schema, m: Message, tag: Tag, b: bytes, more: bytes)
    requires ParseRecord(s, m, tag, b).Some?
    ensures ParseRecord(s, m, tag, b + more) == ParseRecord(s, m, tag, b)
  {
    match FindField(s.fields, tag)
    case Some(i) => FieldGrows(s.fields[i], m.vals[i], tag, b, more);
    case None => UnknownGrows(tag, b, more);
  }

  // ---------------------------------------------------------------- messages

  /** One turn of the parse loop. */
  lemma ParseTurn(s: Schema, m: Message, b: bytes, t: TagScan, body: bytes, p: Parsed<Message>, rest: bytes)
    requires b != [] && ReadTag(b) == Some(t)
    requires body == b[t.used..] && ParseRecord(s, m, t.tag, body) == Some(p)
    requires rest == b[t.used + p.used..]
    ensures ParseInto(s, m, b) == ParseInto(s, p.value, rest)
  {}

  /** A parse that succeeds goes by turns, each of which consumes at least one octet. */
  lemma ParseParts(s: Schema, m: Message, b: bytes) returns (t: TagScan, body: bytes, p: Parsed<Message>, rest: bytes)
    requires b != [] && ParseInto(s, m, b).Some?
    ensures ReadTag(b) == Some(t)
    ensures body == b[t.used..] && ParseRecord(s, m, t.tag, body) == Some(p)
    ensures rest == b[t.used + p.used..] && ParseInto(s, p.value, rest) == ParseInto(s, m, b)
    ensures |rest| < |b|
  {
    t := ReadTag(b).value;
    body := b[t.used..];
    p := ParseRecord(s, m, t.tag, body).value;
    rest := b[t.used + p.used..];
  }

  /** The first turn is the same when more octets follow. */
  lemma TurnGrows(s: Schema, m: Message, a: bytes, b: bytes, t: TagScan, body: bytes, p: Parsed<Message>, rest: bytes)
    requires a != [] && ReadTag(a) == Some(t)
    requires body == a[t.used..] && ParseRecord(s, m, t.tag, body) == Some(p)
    requires rest == a[t.used + p.used..]
    ensures ParseInto(s, m, a + b) == ParseInto(s, p.value, rest + b)
  {
    TagGrows(a, b);
    RecordGrows(s, m, t.tag, body, b);
    Beyond(a, b, t.used);
    Beyond(a, b, t.used + p.used);
    ParseTurn(s, m, a + b, t, body + b, p, rest + b);
  }

  /** Parsing a concatenation is parsing the second part into what the first part parsed to. */
  lemma {:induction false} ParseConcatenation(s: Schema, m: Message, a: bytes, b: bytes)
    requires ParseInto(s, m, a).Some?
    ensures ParseInto(s, m, a + b) == ParseInto(s, ParseInto(s, m, a).value, b)
    decreases |a|
  {
    if a == [] {
      assert a + b == b;
    } else {
      var t, body, p, rest := ParseParts(s, m, a);
      TurnGrows(s, m, a, b, t, body, p, rest);
      ParseConcatenation(s, p.value, rest, b);
    }
  }

  /** Two stretches that parse, parsed in turn. */
  lemma Chain(s: Schema, m: Message, a: bytes, m1: Message, b: bytes, m2: Message)
    requires ParseInto(s, m, a) == Some(m1)
    requires ParseInto(s, m1, b) == Some(m2)
    ensures ParseInto(s, m, a + b) == Some(m2)
  {
    ParseConcatenation(s, m, a, b);
  }

  /** Piece `k` takes the parser from state `k` to state `k + 1`. */
  ghost predicate Stepwise(s: Schema, states: seq<Message>, pieces: seq<bytes>) {
    && |states| == |pieces| + 1
    && forall k :: 0 <= k < |pieces| ==> ParseInto(s, states[k], pieces[k]) == Some(states[k + 1])
  }

  /** Any number of stretches, parsed in turn. */
  lemma {:induction false} ParseStepwise(s: Schema, states: seq<Message>, pieces: seq<bytes>)
    requires Stepwise(s, states, pieces)
    ensures ParseInto(s, states[0], Concat(pieces)) == Some(states[|pieces|])
    decreases |pieces|
  {
    if pieces != [] {
      assert ParseInto(s, states[0], pieces[0]) == Some(states[1]);
      assert Stepwise(s, states[1..], pieces[1..]) by {
        forall k | 0 <= k < |pieces[1..]|
          ensures ParseInto(s, states[1..][k], pieces[1..][k]) == Some(states[1..][k + 1])
        {
          assert ParseInto(s, states[k + 1], pieces[k + 1]) == Some(states[k + 2]);
        }
      }
      ParseStepwise(s, states[1..], pieces[1..]);
      Chain(s, states[0], pieces[0], states[1], Concat(pieces[1..]), states[|pieces|]);
    }
  }

  /** One record alone. */
  lemma OneRecord(s: Schema, m: Message, tag: Tag, body: bytes, m1: Message)
    requires GoodTag(tag)
    requires ParseRecord(s, m, tag, body) == Some(Parsed(m1, |body|))
    ensures ParseInto(s, m, TagOctets(tag) + body) == Some(m1)
  {
    TagRead(tag, body);
    var b := TagOctets(tag) + body;
    assert b[|TagOctets(tag)|..] == body;
    assert b[|b|..] == [];
  }
}
