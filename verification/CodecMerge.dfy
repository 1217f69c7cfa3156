/** The laws of MergeFrom: a monoid on the messages of each type, with the default message as its unit. */
module CodecMerge {
  import opened Messages
  import opened Codec

  lemma {:induction false} MergeValuesAt(fields: seq<Field>, vs: seq<Value>, ws: seq<Value>, k: nat)
    requires |fields| == |vs| == |ws| && k < |vs|
    ensures MergeValues(fields, vs, ws)[k] == MergeValue(fields[k], vs[k], ws[k])
    decreases k
  {
    if k > 0 {
      MergeValuesAt(fields[1..], vs[1..], ws[1..], k - 1);
    }
  }

  /** Two messages of the same type are equal when they agree field by field and on the unknown fields. */
  lemma EqualByField(a: Message, b: Message)
    requires |a.vals| == |b.vals| && a.unknown == b.unknown
    requires forall k :: 0 <= k < |a.vals| ==> a.vals[k] == b.vals[k]
    ensures a == b
  {
    assert a.vals == b.vals;
  }

  // ---------------------------------------------------------------- types

  lemma {:induction false} MergeFits(f: Field, v: Value, w: Value)
    requires Fits(f, v) && Fits(f, w)
    ensures Fits(f, MergeValue(f, v, w))
    decreases w
  {
    if w.Msg? && w.m.Some? {
      DefaultIsWellTyped(f.schema);
      MergeWellTyped(f.schema, if v.m.Some? then v.m.value else Default(f.schema), w.m.value);
    }
  }

  /** Merging stays within the type. */
  lemma {:induction false} MergeWellTyped(s: Schema, m: Message, from: Message)
    requires WellTyped(s, m) && WellTyped(s, from)
    ensures WellTyped(s, Merge(s, m, from))
    decreases from
  {
    var r := Merge(s, m, from);
    forall k | 0 <= k < |r.vals| ensures Fits(s.fields[k], r.vals[k]) {
      MergeValuesAt(s.fields, m.vals, from.vals, k);
      MergeFits(s.fields[k], m.vals[k], from.vals[k]);
    }
  }

  // ---------------------------------------------------------------- units

  lemma {:induction false} UnitLeftValue(f: Field, w: Value)
    requires Fits(f, w)
    ensures MergeValue(f, DefaultValue(f), w) == w
    decreases w
  {
    if w.Msg? && w.m.Some? {
      MergeIntoDefault(f.schema, w.m.value);
    }
  }

  /** Merging into a fresh message copies. */
  lemma {:induction false} MergeIntoDefault(s: Schema, m: Message)
    requires WellTyped(s, m)
    ensures Merge(s, Default(s), m) == m
    decreases m
  {
    var r := Merge(s, Default(s), m);
    forall k | 0 <= k < |r.vals| ensures r.vals[k] == m.vals[k] {
      MergeValuesAt(s.fields, Default(s).vals, m.vals, k);
      UnitLeftValue(s.fields[k], m.vals[k]);
    }
    EqualByField(r, m);
  }

  /** Merging a fresh message changes nothing. */
  lemma {:induction false} MergeDefault(s: Schema, m: Message)
    requires WellTyped(s, m)
    ensures Merge(s, m, Default(s)) == m
  {
    var r := Merge(s, m, Default(s));
    forall k | 0 <= k < |r.vals| ensures r.vals[k] == m.vals[k] {
      MergeValuesAt(s.fields, m.vals, Default(s).vals, k);
    }
    EqualByField(r, m);
  }

  // ---------------------------------------------------------------- associativity

  lemma {:induction false} AssociativeValue(f: Field, a: Value, b: Value, c: Value)
    requires Fits(f, a) && Fits(f, b) && Fits(f, c)
    ensures MergeValue(f, MergeValue(f, a, b), c) == MergeValue(f, a, MergeValue(f, b, c))
    decreases c
  {
    match c
    case Num(_) =>
    case Str(_) =>
    case Strs(_) => assert a.bs + b.bs + c.bs == a.bs + (b.bs + c.bs);
    case Nums(_) => assert a.ns + b.ns + c.ns == a.ns + (b.ns + c.ns);
    case Msgs(_) => assert a.ms + b.ms + c.ms == a.ms + (b.ms + c.ms);
    case Msg(_) => AssociativeSub(f, a, b, c);
  }

  lemma {:induction false} AssociativeSub(f: Field, a: Value, b: Value, c: Value)
    requires f.Sub? && Fits(f, a) && Fits(f, b) && Fits(f, c)
    ensures MergeValue(f, MergeValue(f, a, b), c) == MergeValue(f, a, MergeValue(f, b, c))
    decreases c, 0
  {
    var d := Default(f.schema);
    DefaultIsWellTyped(f.schema);
    if c.m.Some? {
      if b.m.Some? {
        MergeAssociative(f.schema, if a.m.Some? then a.m.value else d, b.m.value, c.m.value);
      } else {
        MergeIntoDefault(f.schema, c.m.value);
      }
    }
  }

  /** It does not matter in which order a chain of merges is carried out. */
  lemma {:induction false} MergeAssociative(s: Schema, a: Message, b: Message, c: Message)
    requires WellTyped(s, a) && WellTyped(s, b) && WellTyped(s, c)
    ensures Merge(s, Merge(s, a, b), c) == Merge(s, a, Merge(s, b, c))
    decreases c
  {
    var ab, bc := Merge(s, a, b), Merge(s, b, c);
    var l, r := Merge(s, ab, c), Merge(s, a, bc);
    forall k | 0 <= k < |l.vals| ensures l.vals[k] == r.vals[k] {
      var f := s.fields[k];
      MergeValuesAt(s.fields, a.vals, b.vals, k);
      MergeValuesAt(s.fields, b.vals, c.vals, k);
      MergeValuesAt(s.fields, ab.vals, c.vals, k);
      MergeValuesAt(s.fields, a.vals, bc.vals, k);
      AssociativeValue(f, a.vals[k], b.vals[k], c.vals[k]);
    }
    EqualByField(l, r);
  }
}
