/** Parsing, serializing and merging messages. */
module Codec {
  import opened Bytes
  import opened Wire
  import opened Messages

  // ---------------------------------------------------------------- unknown fields

  /** Something parsed from the front of some octets, and how many it took. */
  datatype Parsed<+T> = Parsed(value: T, used: nat)

  function Fixed(b: bytes, n: nat): Option<Parsed<bytes>> {
    if |b| < n then None else Some(Parsed(b[..n], n))
  }

  /** A field no case of the message takes, kept as it came.  `b` is what follows its tag. */
  function ParseUnknown(tag: Tag, b: bytes): (r: Option<Parsed<Unknown>>)
    ensures r.Some? ==> r.value.used <= |b|
    decreases |b|, 1
  {
    var num := tag.num;
    if num == 0 then None
    else if tag.kind == VARINT then
      match ReadVarint64(b) case None => None case Some(s) => Some(Parsed(UVarint(num, s.value), s.used))
    else if tag.kind == FIXED64 then
      match Fixed(b, 8) case None => None case Some(p) => Some(Parsed(UFixed64(num, p.value), p.used))
    else if tag.kind == DELIMITED then
      match ReadChunk(b) case None => None case Some(c) => Some(Parsed(UBytes(num, c.payload), c.used))
    else if tag.kind == START_GROUP then
      match ParseGroup(num, b) case None => None case Some(p) => Some(Parsed(UGroup(num, p.value), p.used))
    else if tag.kind == FIXED32 then
      match Fixed(b, 4) case None => None case Some(p) => Some(Parsed(UFixed32(num, p.value), p.used))
    else None
  }

  /** A zero tag or an end-group tag stops a parse loop. */
  predicate Stops(tag: Tag) {
    tag == Tag(0, 0) || tag.kind == END_GROUP
  }

  /** A field, with the tag before it, in front of the other fields of its group. */
  function Before(t: TagScan, u: Parsed<Unknown>, g: Parsed<seq<Unknown>>): Parsed<seq<Unknown>> {
    Parsed([u.value] + g.value, t.used + u.used + g.used)
  }

  /** The fields of a group, up to the end tag with its number. */
  function ParseGroup(num: nat, b: bytes): (r: Option<Parsed<seq<Unknown>>>)
    ensures r.Some? ==> r.value.used <= |b|
    decreases |b|, 0
  {
    match ReadTag(b)
    case None => None
    case Some(t) =>
      if Stops(t.tag) then
        if t.tag == Tag(num, END_GROUP) then Some(Parsed([], t.used)) else None
      else
        match ParseUnknown(t.tag, b[t.used..])
        case None => None
        case Some(u) =>
          match ParseGroup(num, b[t.used + u.used..])
          case None => None
          case Some(g) => Some(Before(t, u, g))
  }

  function EncodeUnknown(u: Unknown): bytes
    decreases u, 1
  {
    TagOctets(UnknownTag(u)) + UnknownBody(u)
  }

  function UnknownBody(u: Unknown): bytes
    decreases u, 0
  {
    match u
    case UVarint(_, v) => Varint(v)
    case UFixed64(_, octets) => octets
    case UBytes(_, octets) => Prefixed(octets)
    case UGroup(num, fields) => EncodeUnknowns(fields) + TagOctets(Tag(num, END_GROUP))
    case UFixed32(_, octets) => octets
  }

  function EncodeUnknowns(us: seq<Unknown>): bytes
    decreases us
  {
    if us == [] then [] else EncodeUnknown(us[0]) + EncodeUnknowns(us[1..])
  }

  // ---------------------------------------------------------------- declared fields

  /** Packed varints, up to the end of their run. */
  function ParsePacked(b: bytes): Option<seq<uint64>>
    decreases |b|
  {
    if b == [] then Some([])
    else
      match ReadVarint64(b)
      case None => None
      case Some(s) =>
        match ParsePacked(b[s.used..])
        case None => None
        case Some(ns) => Some([s.value] + ns)
  }

  function EncodePacked(ns: seq<uint64>): bytes {
    if ns == [] then [] else Varint(ns[0]) + EncodePacked(ns[1..])
  }

  /** The case of field `f`: from its value `v` and what follows the tag, the new value. */
  function ParseField(f: Field, v: Value, tag: Tag, b: bytes): (r: Option<Parsed<Value>>)
    ensures r.Some? ==> r.value.used <= |b|
    decreases |b|, 0
  {
    if f.Number? || (f.Packed? && tag.kind == VARINT) then
      match ReadVarint64(b)
      case None => None
      case Some(s) => Some(Parsed(AddNumber(f, v, s.value), s.used))
    else
      match ReadChunk(b)
      case None => None
      case Some(c) =>
        match ParsePayload(f, v, c.payload)
        case None => None
        case Some(v') => Some(Parsed(v', c.used))
  }

  function AddNumber(f: Field, v: Value, n: uint64): Value {
    if f.Number? then Num(FromWire(f.scalar, n))
    else if v.Nums? then Nums(v.ns + [n]) else v
  }

  /** A length-delimited record: the new value of the field. */
  function ParsePayload(f: Field, v: Value, payload: bytes): Option<Value>
    decreases |payload|, 2
  {
    match f
    case Octets(_, _, utf8) => if utf8 && !ValidUtf8(payload) then None else Some(Str(payload))
    case Strings(_, _) =>
      if !ValidUtf8(payload) || !v.Strs? then None else Some(Strs(v.bs + [payload]))
    case Packed(_, _) =>
      (match ParsePacked(payload)
       case None => None
       case Some(ns) => if v.Nums? then Some(Nums(v.ns + ns)) else None)
    case Sub(_, _, s) =>
      (match ParseInto(s, if v.Msg? && v.m.Some? then v.m.value else Default(s), payload)
       case None => None
       case Some(m) => Some(Msg(Some(m))))
    case Subs(_, _, s) =>
      (match ParseInto(s, Default(s), payload)
       case None => None
       case Some(m) => if v.Msgs? then Some(Msgs(v.ms + [m])) else None)
    case Number(_, _, _) => None
  }

  /** The field whose case takes `tag`. */
  function FindField(fields: seq<Field>, tag: Tag): (r: Option<nat>)
    ensures r.Some? ==> r.value < |fields| && Accepts(fields[r.value], tag)
    ensures r.None? ==> forall i :: 0 <= i < |fields| ==> !Accepts(fields[i], tag)
    decreases |fields|
  {
    if fields == [] then None
    else if Accepts(fields[|fields| - 1], tag) then Some(|fields| - 1)
    else FindField(fields[..|fields| - 1], tag)
  }

  function Set(m: Message, i: nat, v: Value): (r: Message)
    requires i < |m.vals|
    ensures |r.vals| == |m.vals|
  {
    m.(vals := m.vals[i := v])
  }

  function Keep(m: Message, u: Unknown): Message {
    m.(unknown := m.unknown + [u])
  }

  /** One turn of the parse loop, after the tag. */
  function ParseRecord(s: Schema, m: Message, tag: Tag, b: bytes): (r: Option<Parsed<Message>>)
    ensures r.Some? ==> r.value.used <= |b|
    decreases |b|, 1
  {
    match FindField(s.fields, tag)
    case Some(i) =>
      if i >= |m.vals| then None
      else
        (match ParseField(s.fields[i], m.vals[i], tag, b)
         case None => None
         case Some(p) => Some(Parsed(Set(m, i, p.value), p.used)))
    case None =>
      if Stops(tag) then None
      else
        match ParseUnknown(tag, b)
        case None => None
        case Some(u) => Some(Parsed(Keep(m, u.value), u.used))
  }

  /** The parse loop: read records into `m` until the octets are used up.
      A zero tag or an end-group tag stops the loop early, which both ParseFromString and the parser of a
      nested message treat as failure. */
  function ParseInto(s: Schema, m: Message, b: bytes): Option<Message>
    decreases |b|, 1
  {
    if b == [] then Some(m)
    else
      match ReadTag(b)
      case None => None
      case Some(t) =>
        match ParseRecord(s, m, t.tag, b[t.used..])
        case None => None
        case Some(p) => ParseInto(s, p.value, b[t.used + p.used..])
  }

  /** ParseFromString. */
  function Parse(s: Schema, b: bytes): Option<Message> {
    ParseInto(s, Default(s), b)
  }

  // ---------------------------------------------------------------- serializing

  function EncodeStrings(tag: Tag, bs: seq<bytes>): bytes {
    if bs == [] then [] else TagOctets(tag) + Prefixed(bs[0]) + EncodeStrings(tag, bs[1..])
  }

  function EncodeField(f: Field, v: Value): bytes
    decreases v
  {
    match v
    case Num(n) => if n == 0 || n < -TWO_63 || n >= TWO_64 then [] else TagOctets(TagOf(f)) + Varint(Bits64(n))
    case Str(b) => if b == [] then [] else TagOctets(TagOf(f)) + Prefixed(b)
    case Strs(bs) => EncodeStrings(TagOf(f), bs)
    case Nums(ns) => if EncodePacked(ns) == [] then [] else TagOctets(TagOf(f)) + Prefixed(EncodePacked(ns))
    case Msg(m) =>
      if m.None? || !f.Sub? then [] else TagOctets(TagOf(f)) + Prefixed(Encode(f.schema, m.value))
    case Msgs(ms) => if !f.Subs? then [] else EncodeMessages(f.schema, TagOf(f), ms)
  }

  function EncodeMessages(s: Schema, tag: Tag, ms: seq<Message>): bytes
    decreases ms
  {
    if ms == [] then [] else TagOctets(tag) + Prefixed(Encode(s, ms[0])) + EncodeMessages(s, tag, ms[1..])
  }

  function EncodeFields(fields: seq<Field>, vals: seq<Value>): bytes
    decreases vals
  {
    if fields == [] || vals == [] then []
    else EncodeField(fields[0], vals[0]) + EncodeFields(fields[1..], vals[1..])
  }

  /** Serialize: the declared fields in order, then the unknown ones. */
  function Encode(s: Schema, m: Message): bytes
    decreases m
  {
    EncodeFields(s.fields, m.vals) + EncodeUnknowns(m.unknown)
  }

  // ---------------------------------------------------------------- merging

  /** MergeFrom, field by field: a non-default scalar wins, repeated fields concatenate, submessages merge. */
  function MergeValue(f: Field, v: Value, w: Value): Value
    decreases w
  {
    match w
    case Num(n) => if n != 0 then w else v
    case Str(b) => if b != [] then w else v
    case Strs(bs) => if v.Strs? then Strs(v.bs + bs) else v
    case Nums(ns) => if v.Nums? then Nums(v.ns + ns) else v
    case Msgs(ms) => if v.Msgs? then Msgs(v.ms + ms) else v
    case Msg(m) =>
      if m.None? || !f.Sub? || !v.Msg? then v
      else Msg(Some(Merge(f.schema, if v.m.Some? then v.m.value else Default(f.schema), m.value)))
  }

  function MergeValues(fields: seq<Field>, vs: seq<Value>, ws: seq<Value>): (r: seq<Value>)
    ensures |r| == |vs|
    decreases ws
  {
    if fields == [] || vs == [] || ws == [] then vs
    else [MergeValue(fields[0], vs[0], ws[0])] + MergeValues(fields[1..], vs[1..], ws[1..])
  }

  /** `m.MergeFrom(from)`. */
  function Merge(s: Schema, m: Message, from: Message): Message
    decreases from
  {
    Message(MergeValues(s.fields, m.vals, from.vals), m.unknown + from.unknown)
  }
}
