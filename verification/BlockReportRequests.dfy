/** mini_storage.BlockReportRequest, as generated: the reported blocks are objects of their own, each with its own
    cached size. */
module BlockReportRequests {
  import opened Bytes
  import opened Wire
  import opened Messages
  import opened Codec
  import opened CodecSizes
  import opened CodecCaches
  import opened CodecTurns
  import opened CodecFields
  import opened MessageTypes
  import BlockReportItems

  type Item = BlockReportItems.BlockReportItem

  /** What the object holds, the blocks by their values. */
  datatype Fields = Fields(datanodeId: bytes, blocks: seq<Message>, unknown: seq<Unknown>) {
    function ToMessage(): (m: Message)
      ensures |m.vals| == |BLOCK_REPORT_REQUEST.fields|
    {
      Message([Str(datanodeId), Msgs(blocks)], unknown)
    }
  }

  lemma SetDatanodeId(f: Fields, b: bytes)
    ensures Set(f.ToMessage(), 0, Str(b)) == f.(datanodeId := b).ToMessage()
  {}

  lemma SetBlocks(f: Fields, ms: seq<Message>)
    ensures Set(f.ToMessage(), 1, Msgs(ms)) == f.(blocks := ms).ToMessage()
  {}

  // ---------------------------------------------------------------- octets and sizes

  /** What a report stores: its own size, and what its items store. */
  function ReportSizes(n: nat, cs: seq<Cache>): Cache {
    Cache(n, [Nothing, Many(cs)])
  }

  lemma ReportWrittenBehind(target: bytes, f: Fields, n: nat, cs: seq<Cache>)
    ensures target + Write(BLOCK_REPORT_REQUEST, f.ToMessage(), ReportSizes(n, cs))
         == target + PayloadOctets(1, f.datanodeId) + WriteMessages(BLOCK_REPORT_ITEM, Tag(2, DELIMITED), f.blocks, cs)
            + EncodeUnknowns(f.unknown)
  {
    var s, m, c := BLOCK_REPORT_REQUEST, f.ToMessage(), ReportSizes(n, cs);
    var p1 := PayloadOctets(1, f.datanodeId);
    var p2 := WriteMessages(BLOCK_REPORT_ITEM, Tag(2, DELIMITED), f.blocks, cs);
    AllWritten(s, m, c);
    assert FirstWritten(s, m, c, 1) == p1;
    assert FirstWritten(s, m, c, 2) == p1 + p2;
    Regroup(target, p1, p2);
    Regroup(target, p1 + p2, EncodeUnknowns(f.unknown));
  }

  lemma ReportSize(f: Fields)
    ensures |Encode(BLOCK_REPORT_REQUEST, f.ToMessage())|
         == |f.blocks| + MessagesSize(BLOCK_REPORT_ITEM, f.blocks) + PayloadSize(f.datanodeId) + UnknownsSize(f.unknown)
  {
    var s, m := BLOCK_REPORT_REQUEST, f.ToMessage();
    BlockReportIsGood();
    AllSizes(s, m);
    assert FirstSizes(s, m, 1) == PayloadSize(f.datanodeId);
    assert FirstSizes(s, m, 2) == FirstSizes(s, m, 1) + (|f.blocks| + MessagesSize(BLOCK_REPORT_ITEM, f.blocks));
  }

  lemma ReportSizePass(f: Fields)
    ensures SizePass(BLOCK_REPORT_REQUEST, f.ToMessage())
         == ReportSizes(|Encode(BLOCK_REPORT_REQUEST, f.ToMessage())|, CacheMessages(BLOCK_REPORT_ITEM, f.blocks))
  {
    var s, m := BLOCK_REPORT_REQUEST, f.ToMessage();
    BlockReportIsGood();
    SizeIsLength(s, m);
    CacheFieldsAt(s.fields, m.vals, 0);
    CacheFieldsAt(s.fields, m.vals, 1);
    assert SizePass(s, m).fields == [Nothing, Many(CacheMessages(BLOCK_REPORT_ITEM, f.blocks))];
  }

  lemma NextSize(ms: seq<Message>, i: nat)
    requires i < |ms|
    ensures MessagesSize(BLOCK_REPORT_ITEM, ms[..i + 1])
         == MessagesSize(BLOCK_REPORT_ITEM, ms[..i]) + LengthDelimitedSize(|Encode(BLOCK_REPORT_ITEM, ms[i])|)
  {
    BlockReportIsGood();
    SizeIsLength(BLOCK_REPORT_ITEM, ms[i]);
    SizeOfOneMore(BLOCK_REPORT_ITEM, ms, i);
  }

  // ---------------------------------------------------------------- the items

  ghost function ItemValues(items: seq<Item>): (ms: seq<Message>)
    reads items`blockId, items`size, items`crc32, items`unknown
    ensures |ms| == |items| && forall i :: 0 <= i < |items| ==> ms[i] == items[i].Value()
  {
    if items == [] then [] else ItemValues(items[..|items| - 1]) + [items[|items| - 1].Value()]
  }

  ghost function ItemCaches(items: seq<Item>): (cs: seq<Cache>)
    reads items`cachedSize
    ensures |cs| == |items| && forall i :: 0 <= i < |items| ==> cs[i] == items[i].Sizes()
  {
    if items == [] then [] else ItemCaches(items[..|items| - 1]) + [items[|items| - 1].Sizes()]
  }

  /** The items have the values `ms`. */
  ghost predicate Hold(items: seq<Item>, ms: seq<Message>)
    reads items`blockId, items`size, items`crc32, items`unknown
  {
    |ms| == |items| && forall i :: 0 <= i < |items| ==> items[i].Value() == ms[i]
  }

  class BlockReportRequest {
    var datanodeId: bytes
    var blocks: seq<Item>
    var unknown: seq<Unknown>
    var cachedSize: nat

    /** The fields, if the items had the values `ms`. */
    ghost function With(ms: seq<Message>): Fields
      reads this`datanodeId, this`unknown
    {
      Fields(datanodeId, ms, unknown)
    }

    ghost function Value(): Message
      reads this`datanodeId, this`blocks, this`unknown
      reads blocks`blockId, blocks`size, blocks`crc32, blocks`unknown
    {
      With(ItemValues(blocks)).ToMessage()
    }

    /** The stored sizes, in this report and in its items. */
    ghost function Sizes(): Cache
      reads this`cachedSize, this`blocks, blocks`cachedSize
    {
      ReportSizes(cachedSize, ItemCaches(blocks))
    }

    lemma IsValue(ms: seq<Message>)
      requires Hold(blocks, ms)
      ensures Value() == With(ms).ToMessage()
    {
      assert ItemValues(blocks) == ms;
    }

    constructor ()
      ensures Value() == Default(BLOCK_REPORT_REQUEST)
      ensures blocks == [] && unknown == []
    {
      datanodeId, blocks, unknown, cachedSize := [], [], [], 0;
    }

    method Clear()
      modifies this`datanodeId, this`blocks, this`unknown
      ensures Value() == Default(BLOCK_REPORT_REQUEST)
      ensures blocks == []
    {
      blocks := [];
      datanodeId := [];
      unknown := [];
    }

    /** The items are the ones there were, and new ones behind them. */
    twostate predicate OnlyAdds()
      reads this
    {
      && old(blocks) <= blocks
      && forall i :: |old(blocks)| <= i < |blocks| ==> fresh(blocks[i])
    }

    /** A new item, at the end of the list. */
    method AddBlocks() returns (item: Item)
      modifies this`blocks
      ensures fresh(item) && blocks == old(blocks) + [item]
      ensures item.All() == BlockReportItems.Fields(0, 0, 0, []) && item.Value() == Default(BLOCK_REPORT_ITEM)
    {
      item := new BlockReportItems.BlockReportItem();
      blocks := blocks + [item];
    }

    /** One pass through the switch, for a tag other than that of the items: the record after `tag`, which starts
        at `ptr` and comes to `r`.  The items, with the values `ms`, stay as they are. */
    method ParseCase(tag: Tag, b: bytes, ptr: nat, ghost ms: seq<Message>, ghost r: Option<Parsed<Message>>)
        returns (ok: bool, next: nat)
      requires ptr <= |b| && tag != Tag(2, DELIMITED)
      requires Yields(BLOCK_REPORT_REQUEST, With(ms).ToMessage(), tag, b[ptr..], r)
      modifies this`datanodeId, this`unknown
      ensures ok == r.Some?
      ensures ok ==> ptr <= next <= |b| && r == Some(Parsed(With(ms).ToMessage(), next - ptr))
    {
      BlockReportIsGood();
      ghost var f := With(ms);
      if tag == Tag(1, DELIMITED) {
        OctetsCase(BLOCK_REPORT_REQUEST, f.ToMessage(), tag, b[ptr..], r, 0);
        var c := ReadChunk(b[ptr..]);
        if c.None? { return false, ptr; }
        SetDatanodeId(f, c.value.payload);
        datanodeId := c.value.payload;
        if !ValidUtf8(datanodeId) { return false, ptr; }
        return true, ptr + c.value.used;
      } else {
        UnusualCase(BLOCK_REPORT_REQUEST, f.ToMessage(), tag, b[ptr..], r);
        if Stops(tag) { return false, ptr; }
        var u := ParseUnknown(tag, b[ptr..]);
        if u.None? { return false, ptr; }
        unknown := unknown + [u.value.value];
        return true, ptr + u.value.used;
      }
    }

    /** One item, behind its tag: a new object, parsed from its length-delimited range. */
    method ParseItem(b: bytes, ptr: nat, ghost ms: seq<Message>, ghost r: Option<Parsed<Message>>)
        returns (ok: bool, next: nat, ghost ns: seq<Message>)
      requires ptr <= |b| && Hold(blocks, ms)
      requires Yields(BLOCK_REPORT_REQUEST, With(ms).ToMessage(), Tag(2, DELIMITED), b[ptr..], r)
      modifies this`blocks
      ensures OnlyAdds() && Hold(blocks, ns)
      ensures ok == r.Some?
      ensures ok ==> ptr < next <= |b| && r == Some(Parsed(With(ns).ToMessage(), next - ptr))
    {
      BlockReportIsGood();
      ghost var f := With(ms);
      var c := ReadChunk(b[ptr..]);
      if c.None? {
        ElementCase(BLOCK_REPORT_REQUEST, f.ToMessage(), Tag(2, DELIMITED), b[ptr..], r, 1, None);
        return false, ptr, ms;
      }
      ghost var x := ParseOutcome(BLOCK_REPORT_ITEM, Default(BLOCK_REPORT_ITEM), c.value.payload);
      ElementCase(BLOCK_REPORT_REQUEST, f.ToMessage(), Tag(2, DELIMITED), b[ptr..], r, 1, x);
      var item := AddBlocks();
      ok := item.InternalParse(c.value.payload, x);
      next := ptr + c.value.used;
      ns := ms + [item.Value()];
      SetBlocks(f, ns);
    }

    /** The record behind a tag of the items; when the next octet is again their tag, there is more to do here, from
        behind that tag. */
    method ParseNextItem(b: bytes, ptr: nat, ghost ms: seq<Message>, ghost r: Option<Message>)
        returns (ok: bool, more: bool, next: nat, ghost ns: seq<Message>)
      requires ptr <= |b| && Hold(blocks, ms)
      requires Leads(BLOCK_REPORT_REQUEST, With(ms).ToMessage(), Tag(2, DELIMITED), b[ptr..], r)
      modifies this`blocks
      ensures OnlyAdds() && Hold(blocks, ns)
      ensures !ok ==> r == None && !more
      ensures ok ==> ptr < next <= |b|
      ensures ok && more ==> Leads(BLOCK_REPORT_REQUEST, With(ns).ToMessage(), Tag(2, DELIMITED), b[next..], r)
      ensures ok && !more ==> Parses(BLOCK_REPORT_REQUEST, With(ns).ToMessage(), b[next..], r)
    {
      ghost var m := With(ms).ToMessage();
      ghost var q := Outcome(BLOCK_REPORT_REQUEST, m, Tag(2, DELIMITED), b[ptr..]);
      ok, next, ns := ParseItem(b, ptr, ms, q);
      PastItem(m, b, ptr, r, q, With(ns).ToMessage(), next);
      more := ok && next < |b| && b[next] == 18;
      if more {
        next := next + 1;
      }
    }

    /** The items, from behind the tag of the first: as long as the next octet is again their tag, go on without
        returning to the top of the parse loop. */
    method ParseItems(b: bytes, ptr: nat, ghost ms: seq<Message>, ghost r: Option<Message>)
        returns (ok: bool, next: nat, ghost ns: seq<Message>)
      requires ptr <= |b| && Hold(blocks, ms)
      requires Leads(BLOCK_REPORT_REQUEST, With(ms).ToMessage(), Tag(2, DELIMITED), b[ptr..], r)
      modifies this`blocks
      ensures OnlyAdds() && Hold(blocks, ns)
      ensures !ok ==> r == None
      ensures ok ==> ptr < next <= |b| && Parses(BLOCK_REPORT_REQUEST, With(ns).ToMessage(), b[next..], r)
    {
      var more;
      ok, more, next, ns := ParseNextItem(b, ptr, ms, r);
      while more
        invariant OnlyAdds() && Hold(blocks, ns)
        invariant !ok ==> r == None && !more
        invariant ok ==> ptr < next <= |b|
        invariant ok && more ==> Leads(BLOCK_REPORT_REQUEST, With(ns).ToMessage(), Tag(2, DELIMITED), b[next..], r)
        invariant ok && !more ==> Parses(BLOCK_REPORT_REQUEST, With(ns).ToMessage(), b[next..], r)
        decreases more, if ok then |b| - next else 0
      {
        ok, more, next, ns := ParseNextItem(b, next, ns, r);
      }
    }

    /** One turn of the parse loop, from the tag at `ptr`. */
    method ParseTurn(b: bytes, ptr: nat, ghost ms: seq<Message>, ghost r: Option<Message>)
        returns (ok: bool, next: nat, ghost ns: seq<Message>)
      requires ptr < |b| && Hold(blocks, ms)
      requires Parses(BLOCK_REPORT_REQUEST, With(ms).ToMessage(), b[ptr..], r)
      modifies this`datanodeId, this`blocks, this`unknown
      ensures OnlyAdds() && Hold(blocks, ns)
      ensures !ok ==> r == None
      ensures ok ==> ptr < next <= |b| && Parses(BLOCK_REPORT_REQUEST, With(ns).ToMessage(), b[next..], r)
    {
      ghost var m := With(ms).ToMessage();
      ns := ms;
      var t := ReadTag(b[ptr..]);
      if t.None? {
        NoTagHere(BLOCK_REPORT_REQUEST, m, b, ptr, r);
        return false, ptr, ns;
      }
      var tag, start := t.value.tag, ptr + t.value.used;
      PastTag(BLOCK_REPORT_REQUEST, m, b, ptr, t.value, start, r);
      if tag == Tag(2, DELIMITED) {
        ok, next, ns := ParseItems(b, start, ms, r);
      } else {
        ghost var q := Outcome(BLOCK_REPORT_REQUEST, m, tag, b[start..]);
        ok, next := ParseCase(tag, b, start, ms, q);
        PastRecord(BLOCK_REPORT_REQUEST, m, tag, b, start, r, q, With(ms).ToMessage(), next);
      }
    }

    /** Read fields from `b`, which come to `r`, into this report. */
    method InternalParse(b: bytes, ghost r: Option<Message>) returns (ok: bool)
      requires Parses(BLOCK_REPORT_REQUEST, Value(), b, r)
      modifies this`datanodeId, this`blocks, this`unknown
      ensures OnlyAdds()
      ensures ok == r.Some?
      ensures ok ==> r == Some(Value())
    {
      var ptr := 0;
      assert b[0..] == b;
      ghost var ms := ItemValues(blocks);
      while ptr < |b|
        invariant ptr <= |b| && OnlyAdds() && Hold(blocks, ms)
        invariant Parses(BLOCK_REPORT_REQUEST, With(ms).ToMessage(), b[ptr..], r)
      {
        var good, next;
        good, next, ms := ParseTurn(b, ptr, ms, r);
        if !good { return false; }
        ptr := next;
      }
      IsValue(ms);
      AtEnd(BLOCK_REPORT_REQUEST, Value(), b, r);
      return true;
    }

    /** The first `k` items store the sizes of the values `ms`. */
    ghost predicate Sized(ms: seq<Message>, k: nat)
      requires k <= |blocks| == |ms|
      reads this`blocks, blocks`cachedSize
    {
      forall i :: 0 <= i < k ==> blocks[i].cachedSize == |Encode(BLOCK_REPORT_ITEM, ms[i])|
    }

    /** The part of the items: one octet of tag each, and each with its length. */
    method SizeItems(ghost ms: seq<Message>) returns (total: nat)
      requires Hold(blocks, ms)
      modifies blocks`cachedSize
      ensures Sized(ms, |ms|)
      ensures total == |ms| + MessagesSize(BLOCK_REPORT_ITEM, ms)
    {
      total := |blocks|;
      for i := 0 to |blocks|
        invariant Hold(blocks, ms) && Sized(ms, i)
        invariant total == |ms| + MessagesSize(BLOCK_REPORT_ITEM, ms[..i])
      {
        var size := blocks[i].ByteSizeLong();
        assert size == |Encode(BLOCK_REPORT_ITEM, ms[i])|;
        NextSize(ms, i);
        total := total + LengthDelimitedSize(size);
      }
      assert ms[..|blocks|] == ms;
    }

    /** The size of this report on the wire; it and the sizes of the items are stored. */
    method ByteSizeLong() returns (total: nat)
      modifies this`cachedSize, blocks`cachedSize
      ensures total == cachedSize == |Encode(BLOCK_REPORT_REQUEST, Value())|
      ensures Sizes() == SizePass(BLOCK_REPORT_REQUEST, Value())
    {
      ghost var ms := ItemValues(blocks);
      total := SizeItems(ms);
      if datanodeId != [] {
        total := total + 1 + LengthDelimitedSize(|datanodeId|);
      }
      if unknown != [] {
        total := total + UnknownsSize(unknown);
      }
      cachedSize := total;
      Totals(ms);
    }

    lemma Totals(ms: seq<Message>)
      requires Hold(blocks, ms) && Sized(ms, |ms|)
      requires cachedSize
        == |ms| + MessagesSize(BLOCK_REPORT_ITEM, ms) + PayloadSize(datanodeId) + UnknownsSize(unknown)
      ensures cachedSize == |Encode(BLOCK_REPORT_REQUEST, Value())|
      ensures Sizes() == SizePass(BLOCK_REPORT_REQUEST, Value())
    {
      IsValue(ms);
      ReportSize(With(ms));
      ReportSizePass(With(ms));
      ItemsSized(ms);
    }

    lemma ItemsSized(ms: seq<Message>)
      requires Hold(blocks, ms) && Sized(ms, |ms|)
      ensures ItemCaches(blocks) == CacheMessages(BLOCK_REPORT_ITEM, ms)
    {
      forall i | 0 <= i < |ms| ensures ItemCaches(blocks)[i] == CacheMessages(BLOCK_REPORT_ITEM, ms)[i] {
        CacheMessagesAt(BLOCK_REPORT_ITEM, ms, i);
        BlockReportItems.ItemWritten(blocks[i].All(), 0);
      }
    }

    /** Append the items, each behind its tag and the size it stores. */
    method SerializeItems(target: bytes) returns (out: bytes)
      ensures out == target
        + WriteMessages(BLOCK_REPORT_ITEM, Tag(2, DELIMITED), ItemValues(blocks), ItemCaches(blocks))
    {
      ghost var ms, cs := ItemValues(blocks), ItemCaches(blocks);
      out := target;
      for i := 0 to |blocks|
        invariant out == target + WriteMessages(BLOCK_REPORT_ITEM, Tag(2, DELIMITED), ms[..i], cs[..i])
      {
        ghost var sofar := WriteMessages(BLOCK_REPORT_ITEM, Tag(2, DELIMITED), ms[..i], cs[..i]);
        var header := TagOctets(Tag(2, DELIMITED)) + Varint(blocks[i].cachedSize);
        out := blocks[i].InternalSerialize(out + header);
        Regroup(target + sofar, header, Write(BLOCK_REPORT_ITEM, ms[i], cs[i]));
        Regroup(target, sofar, header + Write(BLOCK_REPORT_ITEM, ms[i], cs[i]));
        WriteOneMore(BLOCK_REPORT_ITEM, Tag(2, DELIMITED), ms, cs, i);
      }
      assert ms[..|blocks|] == ms && cs[..|blocks|] == cs;
    }

    /** Append this report to the octets written so far, with the sizes that are stored, be they right or stale. */
    method InternalSerialize(target: bytes) returns (out: bytes)
      ensures out == target + Write(BLOCK_REPORT_REQUEST, Value(), Sizes())
    {
      out := target;
      if datanodeId != [] {
        out := out + (TagOctets(Tag(1, DELIMITED)) + Prefixed(datanodeId));
      }
      assert out == target + PayloadOctets(1, datanodeId) by { Regroup(target, [], []); }
      out := SerializeItems(out);
      ghost var sofar := out;
      if unknown != [] {
        out := out + EncodeUnknowns(unknown);
      }
      assert out == sofar + EncodeUnknowns(unknown) by { Regroup(sofar, [], []); }
      ReportWrittenBehind(target, With(ItemValues(blocks)), cachedSize, ItemCaches(blocks));
    }

    /** A copy of an item, at the end of the list. */
    method AddCopy(source: Item, ghost ms: seq<Message>) returns (item: Item)
      requires Hold(blocks, ms)
      modifies this`blocks
      ensures fresh(item) && blocks == old(blocks) + [item]
      ensures Hold(blocks, ms + [source.Value()])
    {
      item := AddBlocks();
      item.CopyFrom(source);
    }

    /** Copies of the items of another report, behind those of this one. */
    method MergeItems(from: BlockReportRequest)
      requires from != this
      modifies this`blocks
      ensures OnlyAdds()
      ensures Hold(blocks, old(ItemValues(blocks)) + old(ItemValues(from.blocks)))
    {
      ghost var ms, ns := ItemValues(blocks), ItemValues(from.blocks);
      for i := 0 to |from.blocks|
        invariant OnlyAdds() && from.blocks == old(from.blocks)
        invariant Hold(blocks, ms + ns[..i]) && Hold(from.blocks, ns)
      {
        ghost var sofar := ms + ns[..i];
        assert from.blocks[i].Value() == ns[i];
        var _ := AddCopy(from.blocks[i], sofar);
        assert ms + ns[..i + 1] == sofar + [ns[i]];
      }
      assert ns[..|from.blocks|] == ns;
    }

    method MergeFrom(from: BlockReportRequest)
      requires from != this
      modifies this`datanodeId, this`blocks, this`unknown
      ensures OnlyAdds()
      ensures Value() == Merge(BLOCK_REPORT_REQUEST, old(Value()), old(from.Value()))
    {
      ghost var ms, ns := ItemValues(blocks), ItemValues(from.blocks);
      ghost var f, g := With(ms), from.With(ns);
      MergeItems(from);
      if from.datanodeId != [] { datanodeId := from.datanodeId; }
      unknown := unknown + from.unknown;
      IsValue(ms + ns);
      ReportMerged(f, g, With(ms + ns));
    }

    method CopyFrom(from: BlockReportRequest)
      modifies this`datanodeId, this`blocks, this`unknown
      ensures Value() == old(from.Value())
      ensures from != this ==> forall i :: 0 <= i < |blocks| ==> fresh(blocks[i])
    {
      if from == this { return; }
      ghost var g := from.With(ItemValues(from.blocks));
      Clear();
      MergeFrom(from);
      ReportCopied(g);
    }
  }

  lemma ReportMerged(f: Fields, g: Fields, r: Fields)
    requires r.blocks == f.blocks + g.blocks && r.unknown == f.unknown + g.unknown
    requires r.datanodeId == if g.datanodeId != [] then g.datanodeId else f.datanodeId
    ensures r.ToMessage() == Merge(BLOCK_REPORT_REQUEST, f.ToMessage(), g.ToMessage())
  {
    MergedByField(BLOCK_REPORT_REQUEST, f.ToMessage(), g.ToMessage(), r.ToMessage());
  }

  lemma ReportCopied(g: Fields)
    ensures Merge(BLOCK_REPORT_REQUEST, Default(BLOCK_REPORT_REQUEST), g.ToMessage()) == g.ToMessage()
  {
    MergedByField(BLOCK_REPORT_REQUEST, Default(BLOCK_REPORT_REQUEST), g.ToMessage(), g.ToMessage());
  }

  /** Octet 18 is the tag of the items. */
  lemma ExpectTag(b: bytes, ptr: nat)
    requires ptr < |b| && b[ptr] == 18
    ensures ReadTag(b[ptr..]) == Some(TagScan(Tag(2, DELIMITED), 1))
  {
    assert b[ptr..] == Varint(18) + b[ptr + 1..];
    TagRead(Tag(2, DELIMITED), b[ptr + 1..]);
  }

  /** After an item: either the parse goes on at the top of the loop, or the tag of another item is read here. */
  lemma PastItem(m: Message, b: bytes, ptr: nat, r: Option<Message>, q: Option<Parsed<Message>>, m1: Message, next: nat)
    requires ptr <= |b| && Leads(BLOCK_REPORT_REQUEST, m, Tag(2, DELIMITED), b[ptr..], r)
    requires Yields(BLOCK_REPORT_REQUEST, m, Tag(2, DELIMITED), b[ptr..], q)
    requires q.Some? ==> ptr <= next && q == Some(Parsed(m1, next - ptr))
    ensures q == None ==> r == None
    ensures q.Some? ==> next <= |b| && Parses(BLOCK_REPORT_REQUEST, m1, b[next..], r)
    ensures q.Some? && next < |b| && b[next] == 18 ==>
      Leads(BLOCK_REPORT_REQUEST, m1, Tag(2, DELIMITED), b[next + 1..], r)
  {
    PastRecord(BLOCK_REPORT_REQUEST, m, Tag(2, DELIMITED), b, ptr, r, q, m1, next);
    if q.Some? && next < |b| && b[next] == 18 {
      ExpectTag(b, next);
      PastTag(BLOCK_REPORT_REQUEST, m1, b, next, TagScan(Tag(2, DELIMITED), 1), next + 1, r);
    }
  }
}
