/** mini_storage.BlockReportItem, as generated: three numbers of three widths. */
module BlockReportItems {
  import opened Bytes
  import opened Wire
  import opened Messages
  import opened Codec
  import opened CodecSizes
  import opened CodecCaches
  import opened CodecTurns
  import opened CodecFields
  import opened MessageTypes

  /** What the object holds. */
  datatype Fields = Fields(blockId: uint64, size: int64, crc32: uint32, unknown: seq<Unknown>) {
    function ToMessage(): (m: Message)
      ensures |m.vals| == |BLOCK_REPORT_ITEM.fields|
    {
      Message([Num(blockId), Num(size), Num(crc32)], unknown)
    }
  }

  lemma SetNumbers(f: Fields, id: uint64, size: int64, crc32: uint32)
    ensures Set(f.ToMessage(), 0, Num(id)) == f.(blockId := id).ToMessage()
    ensures Set(f.ToMessage(), 1, Num(size)) == f.(size := size).ToMessage()
    ensures Set(f.ToMessage(), 2, Num(crc32)) == f.(crc32 := crc32).ToMessage()
  {}

  // ---------------------------------------------------------------- octets and sizes

  lemma ItemOctetsBehind(target: bytes, f: Fields)
    ensures target + Encode(BLOCK_REPORT_ITEM, f.ToMessage())
         == target + NumberOctets(1, f.blockId) + NumberOctets(2, f.size) + NumberOctets(3, f.crc32)
            + EncodeUnknowns(f.unknown)
  {
    var s, m := BLOCK_REPORT_ITEM, f.ToMessage();
    var a, b, c := NumberOctets(1, f.blockId), NumberOctets(2, f.size), NumberOctets(3, f.crc32);
    AllFields(s, m);
    assert FirstFields(s, m, 1) == a;
    assert FirstFields(s, m, 2) == a + b;
    assert FirstFields(s, m, 3) == a + b + c;
    Regroup(target, a, b);
    Regroup(target, a + b, c);
    Regroup(target, a + b + c, EncodeUnknowns(f.unknown));
  }

  lemma ItemSize(f: Fields)
    ensures |Encode(BLOCK_REPORT_ITEM, f.ToMessage())|
         == NumberSize(f.blockId) + NumberSize(f.size) + NumberSize(f.crc32) + UnknownsSize(f.unknown)
  {
    var s, m := BLOCK_REPORT_ITEM, f.ToMessage();
    BlockReportIsGood();
    AllSizes(s, m);
    assert FirstSizes(s, m, 1) == NumberSize(f.blockId);
    assert FirstSizes(s, m, 2) == NumberSize(f.blockId) + NumberSize(f.size);
  }

  /** What an item stores: only its own size. */
  function ItemSizes(n: nat): Cache {
    Cache(n, [Nothing, Nothing, Nothing])
  }

  lemma ItemWritten(f: Fields, n: nat)
    ensures Write(BLOCK_REPORT_ITEM, f.ToMessage(), ItemSizes(n)) == Encode(BLOCK_REPORT_ITEM, f.ToMessage())
    ensures SizePass(BLOCK_REPORT_ITEM, f.ToMessage()) == ItemSizes(|Encode(BLOCK_REPORT_ITEM, f.ToMessage())|)
  {
    var s, m, c := BLOCK_REPORT_ITEM, f.ToMessage(), ItemSizes(n);
    forall k | 0 <= k < 3 ensures FieldRight(s.fields[k], m.vals[k], c.fields[k]) {}
    WriteFieldsAgree(s.fields, m.vals, c.fields);
    BlockReportIsGood();
    SizeIsLength(s, m);
    CacheFieldsAt(s.fields, m.vals, 0);
    CacheFieldsAt(s.fields, m.vals, 1);
    CacheFieldsAt(s.fields, m.vals, 2);
    assert SizePass(s, m).fields == [Nothing, Nothing, Nothing];
  }

  class BlockReportItem {
    var blockId: uint64
    var size: int64
    var crc32: uint32
    var unknown: seq<Unknown>
    var cachedSize: nat

    ghost function All(): Fields
      reads this`blockId, this`size, this`crc32, this`unknown
    {
      Fields(blockId, size, crc32, unknown)
    }

    ghost function Value(): Message
      reads this`blockId, this`size, this`crc32, this`unknown
    {
      All().ToMessage()
    }

    /** The stored sizes. */
    ghost function Sizes(): Cache
      reads this`cachedSize
    {
      ItemSizes(cachedSize)
    }

    constructor ()
      ensures All() == Fields(0, 0, 0, []) && Value() == Default(BLOCK_REPORT_ITEM)
    {
      blockId, size, crc32, unknown, cachedSize := 0, 0, 0, [], 0;
    }

    method Clear()
      modifies this`blockId, this`size, this`crc32, this`unknown
      ensures Value() == Default(BLOCK_REPORT_ITEM)
    {
      blockId, size, crc32 := 0, 0, 0;
      unknown := [];
    }

    /** One pass through the switch: the record after `tag`, which starts at `ptr` and comes to `r`. */
    method ParseCase(tag: Tag, b: bytes, ptr: nat, ghost r: Option<Parsed<Message>>) returns (ok: bool, next: nat)
      requires ptr <= |b| && Yields(BLOCK_REPORT_ITEM, Value(), tag, b[ptr..], r)
      modifies this`blockId, this`size, this`crc32, this`unknown
      ensures ok == r.Some?
      ensures ok ==> ptr <= next <= |b| && r == Some(Parsed(Value(), next - ptr))
    {
      BlockReportIsGood();
      ghost var f := All();
      if tag == Tag(1, VARINT) {
        UInt64Case(BLOCK_REPORT_ITEM, f.ToMessage(), tag, b[ptr..], r, 0);
        var v := ReadVarint64(b[ptr..]);
        if v.None? { return false, ptr; }
        SetNumbers(f, v.value.value, 0, 0);
        blockId := v.value.value;
        return true, ptr + v.value.used;
      } else if tag == Tag(2, VARINT) {
        Int64Case(BLOCK_REPORT_ITEM, f.ToMessage(), tag, b[ptr..], r, 1);
        var v := ReadVarint64(b[ptr..]);
        if v.None? { return false, ptr; }
        var n := Signed(v.value.value, TWO_63);
        SetNumbers(f, 0, n, 0);
        size := n;
        return true, ptr + v.value.used;
      } else if tag == Tag(3, VARINT) {
        UInt32Case(BLOCK_REPORT_ITEM, f.ToMessage(), tag, b[ptr..], r, 2);
        var v := ReadVarint64(b[ptr..]);
        if v.None? { return false, ptr; }
        var n := v.value.value % TWO_32;
        SetNumbers(f, 0, 0, n);
        crc32 := n;
        return true, ptr + v.value.used;
      } else {
        UnusualCase(BLOCK_REPORT_ITEM, f.ToMessage(), tag, b[ptr..], r);
        if Stops(tag) { return false, ptr; }
        var u := ParseUnknown(tag, b[ptr..]);
        if u.None? { return false, ptr; }
        unknown := unknown + [u.value.value];
        return true, ptr + u.value.used;
      }
    }

    /** One turn of the parse loop, from the tag at `ptr`. */
    method ParseTurn(b: bytes, ptr: nat, ghost r: Option<Message>) returns (ok: bool, next: nat)
      requires ptr < |b| && Parses(BLOCK_REPORT_ITEM, Value(), b[ptr..], r)
      modifies this`blockId, this`size, this`crc32, this`unknown
      ensures !ok ==> r == None
      ensures ok ==> ptr < next <= |b| && Parses(BLOCK_REPORT_ITEM, Value(), b[next..], r)
    {
      ghost var m := Value();
      var t := ReadTag(b[ptr..]);
      if t.None? {
        NoTagHere(BLOCK_REPORT_ITEM, m, b, ptr, r);
        return false, ptr;
      }
      var tag, start := t.value.tag, ptr + t.value.used;
      PastTag(BLOCK_REPORT_ITEM, m, b, ptr, t.value, start, r);
      ghost var q := Outcome(BLOCK_REPORT_ITEM, m, tag, b[start..]);
      ok, next := ParseCase(tag, b, start, q);
      PastRecord(BLOCK_REPORT_ITEM, m, tag, b, start, r, q, Value(), next);
    }

    /** Read fields from `b`, which come to `r`, into this item. */
    method InternalParse(b: bytes, ghost r: Option<Message>) returns (ok: bool)
      requires Parses(BLOCK_REPORT_ITEM, Value(), b, r)
      modifies this`blockId, this`size, this`crc32, this`unknown
      ensures ok == r.Some?
      ensures ok ==> r == Some(Value())
    {
      var ptr := 0;
      assert b[0..] == b;
      while ptr < |b|
        invariant ptr <= |b| && Parses(BLOCK_REPORT_ITEM, Value(), b[ptr..], r)
      {
        var good, next := ParseTurn(b, ptr, r);
        if !good { return false; }
        ptr := next;
      }
      AtEnd(BLOCK_REPORT_ITEM, Value(), b, r);
      return true;
    }

    /** Append this item to the octets written so far. */
    method InternalSerialize(target: bytes) returns (out: bytes)
      ensures out == target + Write(BLOCK_REPORT_ITEM, Value(), Sizes())
    {
      out := target;
      if blockId != 0 {
        out := out + (TagOctets(Tag(1, VARINT)) + Varint(blockId));
      }
      assert out == target + NumberOctets(1, blockId) by { Regroup(target, [], []); }
      ghost var sofar := out;
      if size != 0 {
        out := out + (TagOctets(Tag(2, VARINT)) + Varint(Bits64(size)));
      }
      assert out == sofar + NumberOctets(2, size) by { Regroup(sofar, [], []); }
      sofar := out;
      if crc32 != 0 {
        out := out + (TagOctets(Tag(3, VARINT)) + Varint(crc32));
      }
      assert out == sofar + NumberOctets(3, crc32) by { Regroup(sofar, [], []); }
      sofar := out;
      if unknown != [] {
        out := out + EncodeUnknowns(unknown);
      }
      assert out == sofar + EncodeUnknowns(unknown) by { Regroup(sofar, [], []); }
      ItemOctetsBehind(target, All());
      ItemWritten(All(), cachedSize);
    }

    /** The size of this item on the wire, which is also stored. */
    method ByteSizeLong() returns (total: nat)
      modifies this`cachedSize
      ensures total == cachedSize == |Encode(BLOCK_REPORT_ITEM, Value())|
    {
      ItemSize(All());
      total := 0;
      if blockId != 0 {
        total := total + 1 + VarintSize(blockId);
      }
      if size != 0 {
        total := total + 1 + VarintSize(Bits64(size));
      }
      if crc32 != 0 {
        total := total + 1 + VarintSize(crc32);
      }
      if unknown != [] {
        total := total + UnknownsSize(unknown);
      }
      cachedSize := total;
    }

    method MergeFrom(from: BlockReportItem)
      requires from != this
      modifies this`blockId, this`size, this`crc32, this`unknown
      ensures Value() == Merge(BLOCK_REPORT_ITEM, old(Value()), from.Value())
    {
      if from.blockId != 0 { blockId := from.blockId; }
      if from.size != 0 { size := from.size; }
      if from.crc32 != 0 { crc32 := from.crc32; }
      unknown := unknown + from.unknown;
      MergedByField(BLOCK_REPORT_ITEM, old(Value()), from.Value(), Value());
    }

    method CopyFrom(from: BlockReportItem)
      modifies this`blockId, this`size, this`crc32, this`unknown
      ensures Value() == old(from.Value())
    {
      if from == this { return; }
      Clear();
      MergeFrom(from);
      MergedByField(BLOCK_REPORT_ITEM, Default(BLOCK_REPORT_ITEM), from.Value(), from.Value());
    }
  }
}
