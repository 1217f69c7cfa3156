/** A repeated varint field reads packed runs and single varints alike. */
module CodecPacked {
  import opened Bytes
  import opened Wire
  import opened Messages
  import opened Codec
  import opened CodecLocality
  import opened CodecRoundTrip

  /** One record of the field: a packed run behind its length, or one varint. */
  datatype Portion = Run(ns: seq<uint64>) | Single(n: uint64) {
    function Values(): seq<uint64> {
      if Run? then ns else [n]
    }
  }

  function Octets(f: Field, p: Portion): bytes {
    match p
    case Run(ns) => TagOctets(Tag(f.num, DELIMITED)) + Prefixed(EncodePacked(ns))
    case Single(n) => TagOctets(Tag(f.num, VARINT)) + Varint(n)
  }

  function OctetsOf(f: Field, ps: seq<Portion>): bytes {
    if ps == [] then [] else Octets(f, ps[0]) + OctetsOf(f, ps[1..])
  }

  function ValuesOf(ps: seq<Portion>): seq<uint64> {
    if ps == [] then [] else ps[0].Values() + ValuesOf(ps[1..])
  }

  function Append(m: Message, i: nat, ns: seq<uint64>): (r: Message)
    requires i < |m.vals| && m.vals[i].Nums?
    ensures |r.vals| == |m.vals|
  {
    Set(m, i, Nums(m.vals[i].ns + ns))
  }

  lemma AppendTwice(m: Message, i: nat, ns: seq<uint64>, ms: seq<uint64>)
    requires i < |m.vals| && m.vals[i].Nums?
    ensures Append(Append(m, i, ns), i, ms) == Append(m, i, ns + ms)
    ensures Append(m, i, []) == m
  {
    var v := m.vals[i].ns;
    assert v + ns + ms == v + (ns + ms) && v + [] == v;
    SetTwice(m, i, Nums(v + ns), Nums(v + (ns + ms)));
    SetSame(m, i);
  }

  lemma PortionStep(s: Schema, m: Message, i: nat, p: Portion)
    requires At(s, m, i) && s.fields[i].Packed?
    requires p.Run? ==> |EncodePacked(p.ns)| <= MAX_SIZE
    ensures ParseInto(s, m, Octets(s.fields[i], p)) == Some(Append(m, i, p.Values()))
  {
    match p
    case Run(ns) =>
      PackedRoundTrip(ns);
      PayloadRecord(s, m, i, EncodePacked(ns), Nums(m.vals[i].ns + ns));
    case Single(n) => NumberRecord(s, m, i, n);
  }

  /** Any mix of runs, empty ones among them, and single varints appends the values in order. */
  lemma {:induction false} AnyPortions(s: Schema, m: Message, i: nat, ps: seq<Portion>)
    requires At(s, m, i) && s.fields[i].Packed?
    requires forall k :: 0 <= k < |ps| && ps[k].Run? ==> |EncodePacked(ps[k].ns)| <= MAX_SIZE
    ensures ParseInto(s, m, OctetsOf(s.fields[i], ps)) == Some(Append(m, i, ValuesOf(ps)))
    decreases |ps|
  {
    if ps == [] {
      AppendTwice(m, i, [], []);
    } else {
      var m1 := Append(m, i, ps[0].Values());
      PortionStep(s, m, i, ps[0]);
      AnyPortions(s, m1, i, ps[1..]);
      AppendTwice(m, i, ps[0].Values(), ValuesOf(ps[1..]));
      Chain(s, m, Octets(s.fields[i], ps[0]), m1, OctetsOf(s.fields[i], ps[1..]), Append(m, i, ValuesOf(ps)));
    }
  }

  /** So two encodings of the same values, in any portions, parse to the same message, and serialize alike. */
  lemma SameValuesSameMessage(s: Schema, m: Message, i: nat, ps: seq<Portion>, qs: seq<Portion>)
    requires At(s, m, i) && s.fields[i].Packed? && ValuesOf(ps) == ValuesOf(qs)
    requires forall k :: 0 <= k < |ps| && ps[k].Run? ==> |EncodePacked(ps[k].ns)| <= MAX_SIZE
    requires forall k :: 0 <= k < |qs| && qs[k].Run? ==> |EncodePacked(qs[k].ns)| <= MAX_SIZE
    ensures ParseInto(s, m, OctetsOf(s.fields[i], ps)) == ParseInto(s, m, OctetsOf(s.fields[i], qs))
    ensures ParseInto(s, m, OctetsOf(s.fields[i], ps)).Some?
  {
    AnyPortions(s, m, i, ps);
    AnyPortions(s, m, i, qs);
  }
}
