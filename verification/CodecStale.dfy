/** The write pass with stored sizes that are not those of the message: which of them it forgives, and it is none.
    The sizes may come from a size pass before the message was changed, or from anywhere else. */
module CodecStale {
  import opened Bytes
  import opened Wire
  import opened Messages
  import opened Codec
  import opened CodecSizes
  import opened CodecCaches

  // ---------------------------------------------------------------- what can be told apart

  lemma {:induction false} VarintsApart(v: nat, a: bytes, w: nat, b: bytes)
    requires Varint(v) + a == Varint(w) + b
    ensures v == w && a == b
    decreases v
  {
    var l, r := Varint(v) + a, Varint(w) + b;
    assert l[0] == (if v < 128 then v else v % 128 + 128);
    assert r[0] == (if w < 128 then w else w % 128 + 128);
    if v < 128 {
      assert l[1..] == a && r[1..] == b;
    } else {
      assert l[1..] == Varint(v / 128) + a && r[1..] == Varint(w / 128) + b;
      VarintsApart(v / 128, a, w / 128, b);
    }
  }

  predicate Starts(x: bytes, t: Tag) {
    TagOctets(t) <= x
  }

  lemma TagsApart(t: Tag, u: Tag, rest: bytes)
    requires t.kind < 8 && u.kind < 8 && Starts(TagOctets(u) + rest, t)
    ensures t == u
  {
    var x := TagOctets(u) + rest;
    assert x == TagOctets(t) + x[|TagOctets(t)|..];
    VarintsApart(t.num * 8 + t.kind, x[|TagOctets(t)|..], u.num * 8 + u.kind, rest);
  }

  lemma OtherTag(t: Tag, u: Tag, rest: bytes)
    requires t.kind < 8 && u.kind < 8 && t != u
    ensures !Starts(TagOctets(u) + rest, t)
  {
    if Starts(TagOctets(u) + rest, t) {
      TagsApart(t, u, rest);
      assert false;
    }
  }

  lemma Cancel(p: bytes, x: bytes, y: bytes)
    requires p + x == p + y
    ensures x == y
  {
    assert x == (p + x)[|p|..] == (p + y)[|p|..] == y;
  }

  lemma Associates(a: bytes, b: bytes, c: bytes)
    ensures a + b + c == a + (b + c)
  {}

  /** Two records with the same tag, a length prefix each, and something behind. */
  lemma RecordsApart(tag: bytes, n: nat, p: bytes, x: bytes, k: nat, q: bytes, y: bytes)
    requires tag + Varint(n) + p + x == tag + Varint(k) + q + y
    ensures n == k && p + x == q + y
  {
    Behind(tag, Varint(n), p, x);
    Behind(tag, Varint(k), q, y);
    Cancel(tag, Varint(n) + (p + x), Varint(k) + (q + y));
    VarintsApart(n, p + x, k, q + y);
  }

  lemma Behind(a: bytes, b: bytes, c: bytes, d: bytes)
    ensures a + b + c + d == a + (b + (c + d))
  {}

  // ---------------------------------------------------------------- caches of the same shape

  /** The same nesting; the numbers may differ.  What an object stores has always the shape of the object. */
  ghost predicate Alike(c: FieldCache, d: FieldCache)
    decreases c
  {
    match c
    case Nothing => d.Nothing?
    case PackedBytes(_) => d.PackedBytes?
    case One(a) => d.One? && AllAlike(a.fields, d.c.fields)
    case Many(cs) => d.Many? && |cs| == |d.cs| && forall i :: 0 <= i < |cs| ==> AllAlike(cs[i].fields, d.cs[i].fields)
  }

  ghost predicate AllAlike(cs: seq<FieldCache>, ds: seq<FieldCache>)
    decreases cs
  {
    |cs| == |ds| && forall i :: 0 <= i < |cs| ==> Alike(cs[i], ds[i])
  }

  // ---------------------------------------------------------------- where a packed field can hide

  /** `t` is the tag of a packed field of `s`. */
  ghost predicate PackedIn(s: Schema, t: Tag) {
    exists i :: 0 <= i < |s.fields| && s.fields[i].Packed? && TagOf(s.fields[i]) == t
  }

  /** `t` is the tag of a packed field that `f` is, or that the messages in `f` have. */
  ghost predicate Hides(f: Field, t: Tag) {
    (f.Packed? && t == TagOf(f)) || ((f.Sub? || f.Subs?) && PackedIn(f.schema, t))
  }

  /** No packed field at any level. */
  ghost predicate Unpacked(s: Schema)
    decreases s
  {
    forall i :: 0 <= i < |s.fields| ==>
      !s.fields[i].Packed? && (s.fields[i].Sub? || s.fields[i].Subs? ==> Unpacked(s.fields[i].schema))
  }

  /** Packed fields at most at the outermost level. */
  ghost predicate PackedOutside(s: Schema) {
    forall i :: 0 <= i < |s.fields| && (s.fields[i].Sub? || s.fields[i].Subs?) ==> Unpacked(s.fields[i].schema)
  }

  /** The tag of a packed field is not that of another field which can come directly behind it. */
  ghost predicate NoClash(fields: seq<Field>) {
    forall i, j, t :: 0 <= i < |fields| && 0 <= j < |fields| && Hides(fields[i], t) && (i != j || fields[i].Subs?) ==>
      t != TagOf(fields[j])
  }

  /** The types this is about, all of the program among them: packed fields at the two outermost levels at most, and
      with tags of their own. */
  ghost predicate Separable(s: Schema) {
    && GoodSchema(s) && NoClash(s.fields)
    && forall i :: 0 <= i < |s.fields| && (s.fields[i].Sub? || s.fields[i].Subs?) ==> PackedOutside(s.fields[i].schema)
  }

  /** `x` and `y` cannot differ by one more record with the tag `t` in front of one of them. */
  ghost predicate Settled(t: Tag, x: bytes, y: bytes) {
    (Starts(x, t) ==> |x| <= |y|) && (Starts(y, t) ==> |y| <= |x|)
  }

  /** Not even by that record. */
  lemma NothingExtra(t: Tag, p: bytes, x: bytes, y: bytes)
    requires Settled(t, x, y)
    ensures [] + x != TagOctets(t) + p + y
  {
    Associates(TagOctets(t), p, y);
    assert [] + x == x;
  }

  // ---------------------------------------------------------------- what a field starts with

  lemma WrittenFieldStarts(f: Field, v: Value, c: FieldCache)
    requires Fits(f, v)
    ensures WriteField(f, v, c) == [] || Starts(WriteField(f, v, c), TagOf(f))
  {}

  lemma EncodedFieldStarts(f: Field, v: Value)
    requires Fits(f, v)
    ensures EncodeField(f, v) == [] || Starts(EncodeField(f, v), TagOf(f))
  {}

  /** What fields serialize to does not start with a tag that none of them has. */
  lemma {:induction false} FieldsStart(fields: seq<Field>, vals: seq<Value>, cs: seq<FieldCache>, t: Tag, z: bytes)
    requires |vals| == |fields| && t.kind < 8
    requires forall i :: 0 <= i < |fields| ==> Fits(fields[i], vals[i]) && t != TagOf(fields[i])
    ensures WriteFields(fields, vals, cs) == [] || !Starts(WriteFields(fields, vals, cs) + z, t)
    ensures EncodeFields(fields, vals) == [] || !Starts(EncodeFields(fields, vals) + z, t)
    decreases |fields|
  {
    if fields != [] {
      FieldsStart(fields[1..], vals[1..], if cs == [] then [] else cs[1..], t, z);
      EncodedFieldStarts(fields[0], vals[0]);
      NotStarted(EncodeField(fields[0], vals[0]), EncodeFields(fields[1..], vals[1..]), z, TagOf(fields[0]), t);
      if cs != [] {
        WrittenFieldStarts(fields[0], vals[0], cs[0]);
        NotStarted(WriteField(fields[0], vals[0], cs[0]), WriteFields(fields[1..], vals[1..], cs[1..]), z,
                   TagOf(fields[0]), t);
      }
    }
  }

  lemma {:induction false} NotStarted(a: bytes, b: bytes, z: bytes, u: Tag, t: Tag)
    requires t != u && t.kind < 8 && u.kind < 8 && (a == [] || Starts(a, u))
    requires b == [] || !Starts(b + z, t)
    ensures a + b == [] || !Starts(a + b + z, t)
  {
    if a == [] {
      assert a + b == b;
    } else {
      var tag, tail := TagOctets(u), a[|TagOctets(u)|..];
      assert a == tag + tail;
      Behind(tag, tail, b, z);
      OtherTag(t, u, tail + (b + z));
    }
  }

  /** Fields in front do not unsettle. */
  lemma StaysSettled(w: bytes, e: bytes, t: Tag, x: bytes, y: bytes)
    requires Settled(t, x, y)
    requires w == [] || !Starts(w + x, t)
    requires e == [] || !Starts(e + y, t)
    ensures Settled(t, w + x, e + y)
  {
    if w == [] {
      assert w + x == x;
    }
    if e == [] {
      assert e + y == y;
    }
  }

  // ---------------------------------------------------------------- the octets determine the sizes

  lemma PackedUnique(f: Field, ns: seq<uint64>, n: nat, x: bytes, y: bytes)
    requires f.Packed? && Settled(TagOf(f), x, y)
    requires WriteField(f, Nums(ns), PackedBytes(n)) + x == EncodeField(f, Nums(ns)) + y
    ensures n == PackedSize(ns) && x == y
  {
    var tag, e := TagOctets(TagOf(f)), EncodePacked(ns);
    PackedLength(ns);
    NothingExtra(TagOf(f), Prefixed(e), x, y);
    NothingExtra(TagOf(f), Varint(n) + e, y, x);
    Associates(tag, Varint(n), e);
    if n != 0 && e != [] {
      Prefix(tag, e);
      RecordsApart(tag, n, e, x, |e|, e, y);
      Cancel(e, x, y);
    } else {
      Cancel([], x, y);
    }
  }

  lemma {:induction false} FieldUnique(f: Field, v: Value, c: FieldCache, x: bytes, y: bytes)
    requires ComparableField(f, v, c)
    requires forall t :: Hides(f, t) ==> Settled(t, x, y) && (f.Subs? ==> t != TagOf(f))
    requires WriteField(f, v, c) + x == EncodeField(f, v) + y
    ensures c == CacheField(f, v) && x == y
    decreases v, 2
  {
    match v
    case Nums(ns) => PackedUnique(f, ns, c.n, x, y);
    case Msg(m) =>
      if m.Some? {
        SubUnique(f, m.value, c.c, x, y);
      } else {
        assert x == [] + x && y == [] + y;
      }
    case Msgs(ms) => MessagesUnique(f, ms, c.cs, x, y);
    case _ => Cancel(EncodeField(f, v), x, y);
  }

  lemma {:induction false} SubUnique(f: Field, m: Message, c: Cache, x: bytes, y: bytes)
    requires GoodField(f) && (f.Sub? || f.Subs?) && PackedOutside(f.schema)
    requires WellTyped(f.schema, m) && AllAlike(c.fields, SizePass(f.schema, m).fields)
    requires forall t :: Hides(f, t) ==> Settled(t, x, y)
    requires TagOctets(TagOf(f)) + Varint(c.size) + Write(f.schema, m, c) + x
          == TagOctets(TagOf(f)) + Prefixed(Encode(f.schema, m)) + y
    ensures c == SizePass(f.schema, m) && x == y
    decreases m, 3
  {
    var tag, p, q := TagOctets(TagOf(f)), Write(f.schema, m, c), Encode(f.schema, m);
    Prefix(tag, q);
    RecordsApart(tag, c.size, p, x, |q|, q, y);
    SizeIsLength(f.schema, m);
    forall t | PackedIn(f.schema, t) ensures Settled(t, x, y) {
      assert Hides(f, t);
    }
    MessageUnique(f.schema, m, c, x, y);
  }

  lemma {:induction false} MessagesUnique(f: Field, ms: seq<Message>, cs: seq<Cache>, x: bytes, y: bytes)
    requires GoodField(f) && f.Subs? && PackedOutside(f.schema)
    requires forall i :: 0 <= i < |ms| ==> WellTyped(f.schema, ms[i])
    requires |cs| == |ms| && forall i :: 0 <= i < |ms| ==> AllAlike(cs[i].fields, CacheMessages(f.schema, ms)[i].fields)
    requires forall t :: Hides(f, t) ==> Settled(t, x, y) && t != TagOf(f)
    requires WriteMessages(f.schema, TagOf(f), ms, cs) + x == EncodeMessages(f.schema, TagOf(f), ms) + y
    ensures cs == CacheMessages(f.schema, ms) && x == y
    decreases ms, 1
  {
    if ms == [] {
      assert x == [] + x && y == [] + y;
    } else {
      var s, tag := f.schema, TagOf(f);
      var w, e := WriteMessages(s, tag, ms[1..], cs[1..]), EncodeMessages(s, tag, ms[1..]);
      Associates(TagOctets(tag) + Varint(cs[0].size) + Write(s, ms[0], cs[0]), w, x);
      Associates(TagOctets(tag) + Prefixed(Encode(s, ms[0])), e, y);
      forall t | Hides(f, t) ensures Settled(t, w + x, e + y) {
        MessagesStart(f, ms[1..], cs[1..], t, x, y);
        StaysSettled(w, e, t, x, y);
      }
      SubUnique(f, ms[0], cs[0], w + x, e + y);
      assert CacheMessages(s, ms)[1..] == CacheMessages(s, ms[1..]);
      forall i | 0 <= i < |ms[1..]| ensures AllAlike(cs[1..][i].fields, CacheMessages(s, ms[1..])[i].fields) {
        assert AllAlike(cs[i + 1].fields, CacheMessages(s, ms)[i + 1].fields);
      }
      MessagesUnique(f, ms[1..], cs[1..], x, y);
      assert cs == [cs[0]] + cs[1..];
    }
  }

  lemma MessagesStart(f: Field, ms: seq<Message>, cs: seq<Cache>, t: Tag, x: bytes, y: bytes)
    requires f.Subs? && t != TagOf(f) && t.kind < 8
    ensures var w := WriteMessages(f.schema, TagOf(f), ms, cs); w == [] || !Starts(w + x, t)
    ensures var e := EncodeMessages(f.schema, TagOf(f), ms); e == [] || !Starts(e + y, t)
  {
    var w, e := WriteMessages(f.schema, TagOf(f), ms, cs), EncodeMessages(f.schema, TagOf(f), ms);
    assert w == [] || Starts(w, TagOf(f));
    assert e == [] || Starts(e, TagOf(f));
    assert w + [] == w && e + [] == e;
    NotStarted(w, [], x, TagOf(f), t);
    NotStarted(e, [], y, TagOf(f), t);
  }

  /** Fields with their values, and what is stored for them. */
  ghost predicate Comparable(fields: seq<Field>, vals: seq<Value>, cs: seq<FieldCache>) {
    && |vals| == |fields| == |cs|
    && forall i :: 0 <= i < |fields| ==> ComparableField(fields[i], vals[i], cs[i])
  }

  ghost predicate ComparableField(f: Field, v: Value, c: FieldCache) {
    && GoodField(f) && Fits(f, v) && Alike(c, CacheField(f, v))
    && (f.Sub? || f.Subs? ==> PackedOutside(f.schema))
  }

  lemma ComparableBehind(fields: seq<Field>, vals: seq<Value>, cs: seq<FieldCache>)
    requires Comparable(fields, vals, cs) && fields != []
    ensures ComparableField(fields[0], vals[0], cs[0]) && Comparable(fields[1..], vals[1..], cs[1..])
  {}

  lemma FirstSettled(fields: seq<Field>, vals: seq<Value>, cs: seq<FieldCache>, t: Tag, x: bytes, y: bytes)
    requires Comparable(fields, vals, cs) && NoClash(fields) && fields != []
    requires Hides(fields[0], t) && Settled(t, x, y)
    ensures Settled(t, WriteFields(fields[1..], vals[1..], cs[1..]) + x, EncodeFields(fields[1..], vals[1..]) + y)
    ensures fields[0].Subs? ==> t != TagOf(fields[0])
  {
    FieldsStart(fields[1..], vals[1..], cs[1..], t, x);
    FieldsStart(fields[1..], vals[1..], cs[1..], t, y);
    StaysSettled(WriteFields(fields[1..], vals[1..], cs[1..]), EncodeFields(fields[1..], vals[1..]), t, x, y);
  }

  lemma {:induction false} FieldsUnique(fields: seq<Field>, vals: seq<Value>, cs: seq<FieldCache>, x: bytes, y: bytes)
    requires Comparable(fields, vals, cs) && NoClash(fields)
    requires forall i, t :: 0 <= i < |fields| && Hides(fields[i], t) ==> Settled(t, x, y)
    requires WriteFields(fields, vals, cs) + x == EncodeFields(fields, vals) + y
    ensures cs == CacheFields(fields, vals) && x == y
    decreases vals, 1
  {
    if fields == [] {
      assert x == [] + x && y == [] + y;
    } else {
      var f, w, e := fields[0], WriteFields(fields[1..], vals[1..], cs[1..]), EncodeFields(fields[1..], vals[1..]);
      Associates(WriteField(f, vals[0], cs[0]), w, x);
      Associates(EncodeField(f, vals[0]), e, y);
      forall t | Hides(f, t) ensures Settled(t, w + x, e + y) && (f.Subs? ==> t != TagOf(f)) {
        assert Hides(fields[0], t);
        FirstSettled(fields, vals, cs, t, x, y);
      }
      FieldUnique(f, vals[0], cs[0], w + x, e + y);
      NoClashBehind(fields);
      HidesBehind(fields, x, y);
      ComparableBehind(fields, vals, cs);
      FieldsUnique(fields[1..], vals[1..], cs[1..], x, y);
      assert cs == [cs[0]] + cs[1..];
    }
  }

  lemma HidesBehind(fields: seq<Field>, x: bytes, y: bytes)
    requires fields != [] && forall i, t :: 0 <= i < |fields| && Hides(fields[i], t) ==> Settled(t, x, y)
    ensures forall i, t :: 0 <= i < |fields[1..]| && Hides(fields[1..][i], t) ==> Settled(t, x, y)
  {
    forall i, t | 0 <= i < |fields[1..]| && Hides(fields[1..][i], t) ensures Settled(t, x, y) {
      assert Hides(fields[i + 1], t);
    }
  }

  lemma NoClashBehind(fields: seq<Field>)
    requires NoClash(fields) && fields != []
    ensures NoClash(fields[1..])
  {
    var rest := fields[1..];
    forall i, j, t | 0 <= i < |rest| && 0 <= j < |rest| && Hides(rest[i], t) && (i != j || rest[i].Subs?)
      ensures t != TagOf(rest[j])
    {
      assert Hides(fields[i + 1], t);
    }
  }

  /** Unknown fields have none of the tags of the message. */
  lemma {:induction false} UnknownsStart(s: Schema, us: seq<Unknown>, t: Tag, z: bytes)
    requires PackedIn(s, t) && forall i :: 0 <= i < |us| ==> Unusual(s, UnknownTag(us[i]))
    ensures EncodeUnknowns(us) == [] || !Starts(EncodeUnknowns(us) + z, t)
  {
    if us != [] {
      var u := UnknownTag(us[0]);
      assert t != u;
      Behind(TagOctets(u), UnknownBody(us[0]), EncodeUnknowns(us[1..]), z);
      OtherTag(t, u, UnknownBody(us[0]) + (EncodeUnknowns(us[1..]) + z));
    }
  }

  lemma OutsideHasNoClash(s: Schema)
    requires GoodSchema(s) && PackedOutside(s)
    ensures NoClash(s.fields)
    ensures forall i, t :: 0 <= i < |s.fields| && Hides(s.fields[i], t) ==> s.fields[i].Packed?
  {}

  lemma {:induction false} MessageUnique(s: Schema, m: Message, c: Cache, x: bytes, y: bytes)
    requires GoodSchema(s) && (PackedOutside(s) || (Separable(s) && |x| == |y|))
    requires WellTyped(s, m) && AllAlike(c.fields, SizePass(s, m).fields)
    requires forall t :: PackedIn(s, t) ==> Settled(t, x, y)
    requires Write(s, m, c) + x == Encode(s, m) + y
    ensures c.fields == SizePass(s, m).fields && x == y
    decreases m, 2
  {
    var u := EncodeUnknowns(m.unknown);
    Associates(WriteFields(s.fields, m.vals, c.fields), u, x);
    Associates(EncodeFields(s.fields, m.vals), u, y);
    if PackedOutside(s) {
      OutsideHasNoClash(s);
    }
    forall i, t | 0 <= i < |s.fields| && Hides(s.fields[i], t) ensures Settled(t, u + x, u + y) {
      if s.fields[i].Packed? {
        assert PackedIn(s, t);
        UnknownsStart(s, m.unknown, t, x);
        UnknownsStart(s, m.unknown, t, y);
        StaysSettled(u, u, t, x, y);
      }
    }
    CacheFieldsAt(s.fields, m.vals, 0);
    forall i | 0 <= i < |s.fields| ensures ComparableField(s.fields[i], m.vals[i], c.fields[i]) {
      CacheFieldsAt(s.fields, m.vals, i);
    }
    FieldsUnique(s.fields, m.vals, c.fields, u + x, u + y);
    Cancel(u, x, y);
  }

  // ---------------------------------------------------------------- the main result

  /** Whatever sizes an object stores, left by a size pass before it was changed or never computed: the write pass
      emits the serialized message if and only if every size it uses, at every level and of every packed field, is the
      one a size pass of the message as it is now would store. */
  lemma StaleSizes(s: Schema, now: Message, c: Cache)
    requires Separable(s) && WellTyped(s, now) && AllAlike(c.fields, SizePass(s, now).fields)
    ensures Write(s, now, c) == Encode(s, now) <==> c.fields == SizePass(s, now).fields
  {
    TwoPasses(s, now);
    if Write(s, now, c) == Encode(s, now) {
      assert Write(s, now, c) + [] == Encode(s, now) + [];
      MessageUnique(s, now, c, [], []);
    }
  }
}
