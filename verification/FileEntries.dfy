/** mini_storage.MetadataStoreSnapshot.FileEntry, as generated: a packed field, whose size has a cache of its own. */
module FileEntries {
  import opened Bytes
  import opened Wire
  import opened Messages
  import opened Codec
  import opened CodecSizes
  import opened CodecCaches
  import opened CodecTurns
  import opened CodecFields
  import opened MessageTypes

  /** What the object holds. */
  datatype Fields = Fields(path: bytes, size: int64, createTime: int64, modifyTime: int64, blocks: seq<uint64>,
                           unknown: seq<Unknown>)
  {
    function ToMessage(): (m: Message)
      ensures |m.vals| == |FILE_ENTRY.fields|
    {
      Message([Str(path), Num(size), Num(createTime), Num(modifyTime), Nums(blocks)], unknown)
    }
  }

  lemma SetPath(f: Fields, b: bytes)
    ensures Set(f.ToMessage(), 0, Str(b)) == f.(path := b).ToMessage()
  {}

  lemma SetSize(f: Fields, v: int64)
    ensures Set(f.ToMessage(), 1, Num(v)) == f.(size := v).ToMessage()
  {}

  lemma SetCreateTime(f: Fields, v: int64)
    ensures Set(f.ToMessage(), 2, Num(v)) == f.(createTime := v).ToMessage()
  {}

  lemma SetModifyTime(f: Fields, v: int64)
    ensures Set(f.ToMessage(), 3, Num(v)) == f.(modifyTime := v).ToMessage()
  {}

  lemma SetBlocks(f: Fields, ns: seq<uint64>)
    ensures Set(f.ToMessage(), 4, Nums(ns)) == f.(blocks := ns).ToMessage()
  {}

  // ---------------------------------------------------------------- octets and sizes

  /** What a file entry stores: its size, and the length of the packed blocks. */
  function EntrySizes(n: nat, blocks: nat): Cache {
    Cache(n, [Nothing, Nothing, Nothing, Nothing, PackedBytes(blocks)])
  }

  /** The packed field, behind the length that is stored; nothing when that is zero. */
  function PackedOctets(byteSize: nat, ns: seq<uint64>): bytes {
    if byteSize == 0 then [] else TagOctets(Tag(5, DELIMITED)) + Varint(byteSize) + EncodePacked(ns)
  }

  lemma EntryWritten(f: Fields, n: nat, k: nat)
    ensures Write(FILE_ENTRY, f.ToMessage(), EntrySizes(n, k))
         == PayloadOctets(1, f.path) + NumberOctets(2, f.size) + NumberOctets(3, f.createTime)
            + NumberOctets(4, f.modifyTime) + PackedOctets(k, f.blocks) + EncodeUnknowns(f.unknown)
  {
    var s, m, c := FILE_ENTRY, f.ToMessage(), EntrySizes(n, k);
    AllWritten(s, m, c);
    assert FirstWritten(s, m, c, 1) == PayloadOctets(1, f.path);
    assert FirstWritten(s, m, c, 2) == FirstWritten(s, m, c, 1) + NumberOctets(2, f.size);
    assert FirstWritten(s, m, c, 3) == FirstWritten(s, m, c, 2) + NumberOctets(3, f.createTime);
    assert FirstWritten(s, m, c, 4) == FirstWritten(s, m, c, 3) + NumberOctets(4, f.modifyTime);
    assert FirstWritten(s, m, c, 5) == FirstWritten(s, m, c, 4) + PackedOctets(k, f.blocks);
  }

  lemma EntryWrittenBehind(target: bytes, f: Fields, n: nat, k: nat)
    ensures target + Write(FILE_ENTRY, f.ToMessage(), EntrySizes(n, k))
         == target + PayloadOctets(1, f.path) + NumberOctets(2, f.size) + NumberOctets(3, f.createTime)
            + NumberOctets(4, f.modifyTime) + PackedOctets(k, f.blocks) + EncodeUnknowns(f.unknown)
  {
    EntryWritten(f, n, k);
    var p1, p2, p3 := PayloadOctets(1, f.path), NumberOctets(2, f.size), NumberOctets(3, f.createTime);
    var p4, p5, p6 := NumberOctets(4, f.modifyTime), PackedOctets(k, f.blocks), EncodeUnknowns(f.unknown);
    Regroup(target, p1, p2);
    Regroup(target, p1 + p2, p3);
    Regroup(target, p1 + p2 + p3, p4);
    Regroup(target, p1 + p2 + p3 + p4, p5);
    Regroup(target, p1 + p2 + p3 + p4 + p5, p6);
  }

  function PackedFieldSize(ns: seq<uint64>): nat {
    if PackedSize(ns) == 0 then 0 else 1 + LengthDelimitedSize(PackedSize(ns))
  }

  lemma EntrySize(f: Fields)
    ensures |Encode(FILE_ENTRY, f.ToMessage())|
         == PackedFieldSize(f.blocks) + PayloadSize(f.path) + NumberSize(f.size) + NumberSize(f.createTime)
            + NumberSize(f.modifyTime) + UnknownsSize(f.unknown)
  {
    var s, m := FILE_ENTRY, f.ToMessage();
    FileEntryIsGood();
    AllSizes(s, m);
    assert FirstSizes(s, m, 1) == PayloadSize(f.path);
    assert FirstSizes(s, m, 2) == FirstSizes(s, m, 1) + NumberSize(f.size);
    assert FirstSizes(s, m, 3) == FirstSizes(s, m, 2) + NumberSize(f.createTime);
    assert FirstSizes(s, m, 4) == FirstSizes(s, m, 3) + NumberSize(f.modifyTime);
    assert FirstSizes(s, m, 5) == FirstSizes(s, m, 4) + PackedFieldSize(f.blocks);
  }

  lemma EntrySizePass(f: Fields)
    ensures SizePass(FILE_ENTRY, f.ToMessage())
         == EntrySizes(|Encode(FILE_ENTRY, f.ToMessage())|, PackedSize(f.blocks))
  {
    var s, m := FILE_ENTRY, f.ToMessage();
    FileEntryIsGood();
    SizeIsLength(s, m);
    CacheFieldsAt(s.fields, m.vals, 0);
    forall k | 0 <= k < 5 ensures SizePass(s, m).fields[k] == EntrySizes(0, PackedSize(f.blocks)).fields[k] {
      CacheFieldsAt(s.fields, m.vals, k);
    }
    assert SizePass(s, m).fields == EntrySizes(0, PackedSize(f.blocks)).fields;
  }

  lemma EntryTwoPasses(f: Fields)
    ensures Write(FILE_ENTRY, f.ToMessage(), SizePass(FILE_ENTRY, f.ToMessage())) == Encode(FILE_ENTRY, f.ToMessage())
  {
    FileEntryIsGood();
    TwoPasses(FILE_ENTRY, f.ToMessage());
  }

  class FileEntry {
    var path: bytes
    var size: int64
    var createTime: int64
    var modifyTime: int64
    var blocks: seq<uint64>
    var unknown: seq<Unknown>
    var cachedSize: nat
    var blocksCachedByteSize: nat

    ghost function All(): Fields
      reads this`path, this`size, this`createTime, this`modifyTime, this`blocks, this`unknown
    {
      Fields(path, size, createTime, modifyTime, blocks, unknown)
    }

    ghost function Value(): Message
      reads this`path, this`size, this`createTime, this`modifyTime, this`blocks, this`unknown
    {
      All().ToMessage()
    }

    /** The stored sizes. */
    ghost function Sizes(): Cache
      reads this`cachedSize, this`blocksCachedByteSize
    {
      EntrySizes(cachedSize, blocksCachedByteSize)
    }

    constructor ()
      ensures Value() == Default(FILE_ENTRY)
    {
      path, size, createTime, modifyTime, blocks, unknown := [], 0, 0, 0, [], [];
      cachedSize, blocksCachedByteSize := 0, 0;
    }

    method Clear()
      modifies this`path, this`size, this`createTime, this`modifyTime, this`blocks, this`unknown
      ensures Value() == Default(FILE_ENTRY)
    {
      blocks := [];
      path := [];
      size, createTime, modifyTime := 0, 0, 0;
      unknown := [];
    }

    /** A packed run: append its varints one by one. */
    method ParsePackedRun(payload: bytes) returns (ok: bool)
      modifies this`blocks
      ensures ok == ParsePacked(payload).Some?
      ensures ok ==> blocks == old(blocks) + ParsePacked(payload).value
    {
      var ptr := 0;
      assert payload[0..] == payload;
      ghost var done: seq<uint64> := [];
      AfterNone(ParsePacked(payload));
      while ptr < |payload|
        invariant ptr <= |payload| && blocks == old(blocks) + done
        invariant ParsePacked(payload) == After(done, ParsePacked(payload[ptr..]))
      {
        ghost var rest := payload[ptr..];
        var v := ReadVarint64(payload[ptr..]);
        if v.None? { return false; }
        blocks := blocks + [v.value.value];
        ptr := ptr + v.value.used;
        assert rest[v.value.used..] == payload[ptr..];
        AfterNext(done, v.value.value, ParsePacked(payload[ptr..]));
        done := done + [v.value.value];
      }
      assert done + [] == done;
      return true;
    }

    /** One pass through the switch: the record after `tag`, which starts at `ptr` and comes to `r`. */
    method ParseCase(tag: Tag, b: bytes, ptr: nat, ghost r: Option<Parsed<Message>>) returns (ok: bool, next: nat)
      requires ptr <= |b| && Yields(FILE_ENTRY, Value(), tag, b[ptr..], r)
      modifies this`path, this`size, this`createTime, this`modifyTime, this`blocks, this`unknown
      ensures ok == r.Some?
      ensures ok ==> ptr <= next <= |b| && r == Some(Parsed(Value(), next - ptr))
    {
      if tag.num == 5 && (tag.kind == DELIMITED || tag.kind == VARINT) {
        ok, next := ParseBlocks(tag, b, ptr, r);
        return;
      }
      FileEntryIsGood();
      ghost var f := All();
      if tag == Tag(1, DELIMITED) {
        OctetsCase(FILE_ENTRY, f.ToMessage(), tag, b[ptr..], r, 0);
        var c := ReadChunk(b[ptr..]);
        if c.None? { return false, ptr; }
        SetPath(f, c.value.payload);
        path := c.value.payload;
        if !ValidUtf8(path) { return false, ptr; }
        return true, ptr + c.value.used;
      } else if tag == Tag(2, VARINT) {
        Int64Case(FILE_ENTRY, f.ToMessage(), tag, b[ptr..], r, 1);
        var v := ReadVarint64(b[ptr..]);
        if v.None? { return false, ptr; }
        var n := Signed(v.value.value, TWO_63);
        SetSize(f, n);
        size := n;
        return true, ptr + v.value.used;
      } else if tag == Tag(3, VARINT) {
        Int64Case(FILE_ENTRY, f.ToMessage(), tag, b[ptr..], r, 2);
        var v := ReadVarint64(b[ptr..]);
        if v.None? { return false, ptr; }
        var n := Signed(v.value.value, TWO_63);
        SetCreateTime(f, n);
        createTime := n;
        return true, ptr + v.value.used;
      } else if tag == Tag(4, VARINT) {
        Int64Case(FILE_ENTRY, f.ToMessage(), tag, b[ptr..], r, 3);
        var v := ReadVarint64(b[ptr..]);
        if v.None? { return false, ptr; }
        var n := Signed(v.value.value, TWO_63);
        SetModifyTime(f, n);
        modifyTime := n;
        return true, ptr + v.value.used;
      } else {
        ok, next := HandleUnusual(tag, b, ptr, r);
      }
    }

    /** A tag that no case of the switch takes. */
    method HandleUnusual(tag: Tag, b: bytes, ptr: nat, ghost r: Option<Parsed<Message>>) returns (ok: bool, next: nat)
      requires ptr <= |b| && Unusual(FILE_ENTRY, tag) && Yields(FILE_ENTRY, Value(), tag, b[ptr..], r)
      modifies this`unknown
      ensures ok == r.Some?
      ensures ok ==> ptr <= next <= |b| && r == Some(Parsed(Value(), next - ptr))
    {
      UnusualCase(FILE_ENTRY, All().ToMessage(), tag, b[ptr..], r);
      if Stops(tag) { return false, ptr; }
      var u := ParseUnknown(tag, b[ptr..]);
      if u.None? { return false, ptr; }
      unknown := unknown + [u.value.value];
      return true, ptr + u.value.used;
    }

    /** The case of the blocks, packed or one by one. */
    method ParseBlocks(tag: Tag, b: bytes, ptr: nat, ghost r: Option<Parsed<Message>>) returns (ok: bool, next: nat)
      requires ptr <= |b| && Yields(FILE_ENTRY, Value(), tag, b[ptr..], r)
      requires tag == Tag(5, DELIMITED) || tag == Tag(5, VARINT)
      modifies this`blocks
      ensures ok == r.Some?
      ensures ok ==> ptr <= next <= |b| && r == Some(Parsed(Value(), next - ptr))
    {
      FileEntryIsGood();
      ghost var f := All();
      if tag == Tag(5, DELIMITED) {
        PackedCase(FILE_ENTRY, f.ToMessage(), tag, b[ptr..], r, 4);
        var c := ReadChunk(b[ptr..]);
        if c.None? { return false, ptr; }
        ok := ParsePackedRun(c.value.payload);
        SetBlocks(f, blocks);
        next := ptr + c.value.used;
      } else {
        NumberCase(FILE_ENTRY, f.ToMessage(), tag, b[ptr..], r, 4);
        var v := ReadVarint64(b[ptr..]);
        if v.None? { return false, ptr; }
        blocks := blocks + [v.value.value];
        SetBlocks(f, blocks);
        return true, ptr + v.value.used;
      }
    }

    /** One turn of the parse loop, from the tag at `ptr`. */
    method ParseTurn(b: bytes, ptr: nat, ghost r: Option<Message>) returns (ok: bool, next: nat)
      requires ptr < |b| && Parses(FILE_ENTRY, Value(), b[ptr..], r)
      modifies this`path, this`size, this`createTime, this`modifyTime, this`blocks, this`unknown
      ensures !ok ==> r == None
      ensures ok ==> ptr < next <= |b| && Parses(FILE_ENTRY, Value(), b[next..], r)
    {
      ghost var m := Value();
      var t := ReadTag(b[ptr..]);
      if t.None? {
        NoTagHere(FILE_ENTRY, m, b, ptr, r);
        return false, ptr;
      }
      var tag, start := t.value.tag, ptr + t.value.used;
      PastTag(FILE_ENTRY, m, b, ptr, t.value, start, r);
      ghost var q := Outcome(FILE_ENTRY, m, tag, b[start..]);
      ok, next := ParseCase(tag, b, start, q);
      PastRecord(FILE_ENTRY, m, tag, b, start, r, q, Value(), next);
    }

    /** Read fields from `b`, which come to `r`, into this file entry. */
    method InternalParse(b: bytes, ghost r: Option<Message>) returns (ok: bool)
      requires Parses(FILE_ENTRY, Value(), b, r)
      modifies this`path, this`size, this`createTime, this`modifyTime, this`blocks, this`unknown
      ensures ok == r.Some?
      ensures ok ==> r == Some(Value())
    {
      var ptr := 0;
      assert b[0..] == b;
      while ptr < |b|
        invariant ptr <= |b| && Parses(FILE_ENTRY, Value(), b[ptr..], r)
      {
        var good, next := ParseTurn(b, ptr, r);
        if !good { return false; }
        ptr := next;
      }
      AtEnd(FILE_ENTRY, Value(), b, r);
      return true;
    }

    method ParseFromString(b: bytes) returns (ok: bool)
      modifies this`path, this`size, this`createTime, this`modifyTime, this`blocks, this`unknown
      ensures ok == Parse(FILE_ENTRY, b).Some?
      ensures ok ==> Parse(FILE_ENTRY, b) == Some(Value())
    {
      Clear();
      ok := InternalParse(b, Parse(FILE_ENTRY, b));
    }

    /** The size of this file entry on the wire.  It is stored, and so is the length of the packed blocks. */
    method ByteSizeLong() returns (total: nat)
      modifies this`cachedSize, this`blocksCachedByteSize
      ensures total == cachedSize == |Encode(FILE_ENTRY, Value())|
      ensures blocksCachedByteSize == |EncodePacked(blocks)|
      ensures Sizes() == SizePass(FILE_ENTRY, Value())
    {
      PackedLength(blocks);
      total := 0;
      var dataSize := PackedSize(blocks);
      if dataSize > 0 {
        total := total + 1 + VarintSize(dataSize);
      }
      blocksCachedByteSize := dataSize;
      total := total + dataSize;
      assert total == PackedFieldSize(blocks);
      var scalars := SizeScalars();
      total := total + scalars;
      cachedSize := total;
      EntrySize(All());
      EntrySizePass(All());
    }

    /** The part of the fields other than the blocks. */
    method SizeScalars() returns (total: nat)
      ensures total == PayloadSize(path) + NumberSize(size) + NumberSize(createTime) + NumberSize(modifyTime)
                       + UnknownsSize(unknown)
    {
      total := 0;
      if path != [] {
        total := total + 1 + LengthDelimitedSize(|path|);
      }
      if size != 0 {
        total := total + 1 + VarintSize(Bits64(size));
      }
      if createTime != 0 {
        total := total + 1 + VarintSize(Bits64(createTime));
      }
      if modifyTime != 0 {
        total := total + 1 + VarintSize(Bits64(modifyTime));
      }
      if unknown != [] {
        total := total + UnknownsSize(unknown);
      }
    }

    /** The fields in front of the blocks. */
    method SerializeHead(target: bytes) returns (out: bytes)
      ensures out == target + PayloadOctets(1, path) + NumberOctets(2, size) + NumberOctets(3, createTime)
                     + NumberOctets(4, modifyTime)
    {
      out := target;
      if path != [] {
        out := out + (TagOctets(Tag(1, DELIMITED)) + Prefixed(path));
      }
      assert out == target + PayloadOctets(1, path) by { Regroup(target, [], []); }
      ghost var sofar := out;
      if size != 0 {
        out := out + (TagOctets(Tag(2, VARINT)) + Varint(Bits64(size)));
      }
      assert out == sofar + NumberOctets(2, size) by { Regroup(sofar, [], []); }
      sofar := out;
      if createTime != 0 {
        out := out + (TagOctets(Tag(3, VARINT)) + Varint(Bits64(createTime)));
      }
      assert out == sofar + NumberOctets(3, createTime) by { Regroup(sofar, [], []); }
      sofar := out;
      if modifyTime != 0 {
        out := out + (TagOctets(Tag(4, VARINT)) + Varint(Bits64(modifyTime)));
      }
      assert out == sofar + NumberOctets(4, modifyTime) by { Regroup(sofar, [], []); }
    }

    /** Append this file entry to the octets written so far, with the packed length that is stored, be it right or
        stale. */
    method InternalSerialize(target: bytes) returns (out: bytes)
      ensures out == target + Write(FILE_ENTRY, Value(), Sizes())
    {
      out := SerializeHead(target);
      ghost var sofar := out;
      var byteSize := blocksCachedByteSize;
      if byteSize > 0 {
        out := out + (TagOctets(Tag(5, DELIMITED)) + Varint(byteSize) + EncodePacked(blocks));
      }
      assert out == sofar + PackedOctets(byteSize, blocks) by { Regroup(sofar, [], []); }
      sofar := out;
      if unknown != [] {
        out := out + EncodeUnknowns(unknown);
      }
      assert out == sofar + EncodeUnknowns(unknown) by { Regroup(sofar, [], []); }
      EntryWrittenBehind(target, All(), cachedSize, blocksCachedByteSize);
    }

    /** The size pass, then the write pass. */
    method SerializeToString() returns (b: bytes)
      modifies this`cachedSize, this`blocksCachedByteSize
      ensures b == Encode(FILE_ENTRY, Value())
      ensures |b| == cachedSize
    {
      var n := ByteSizeLong();
      b := InternalSerialize([]);
      EntryTwoPasses(All());
      assert [] + Write(FILE_ENTRY, Value(), Sizes()) == Write(FILE_ENTRY, Value(), Sizes());
    }

    method MergeFrom(from: FileEntry)
      requires from != this
      modifies this`path, this`size, this`createTime, this`modifyTime, this`blocks, this`unknown
      ensures Value() == Merge(FILE_ENTRY, old(Value()), from.Value())
    {
      blocks := blocks + from.blocks;
      if from.path != [] { path := from.path; }
      if from.size != 0 { size := from.size; }
      if from.createTime != 0 { createTime := from.createTime; }
      if from.modifyTime != 0 { modifyTime := from.modifyTime; }
      unknown := unknown + from.unknown;
      EntryMerged(old(All()), from.All(), All());
    }

    method CopyFrom(from: FileEntry)
      modifies this`path, this`size, this`createTime, this`modifyTime, this`blocks, this`unknown
      ensures Value() == old(from.Value())
    {
      if from == this { return; }
      Clear();
      MergeFrom(from);
      MergedByField(FILE_ENTRY, Default(FILE_ENTRY), from.Value(), from.Value());
    }
  }

  /** `r` has every non-default scalar of `g` and the others of `f`, and the blocks and unknown fields of both. */
  predicate Overrides(f: Fields, g: Fields, r: Fields) {
    && r.blocks == f.blocks + g.blocks && r.unknown == f.unknown + g.unknown
    && r.path == (if g.path != [] then g.path else f.path)
    && r.size == (if g.size != 0 then g.size else f.size)
    && r.createTime == (if g.createTime != 0 then g.createTime else f.createTime)
    && r.modifyTime == (if g.modifyTime != 0 then g.modifyTime else f.modifyTime)
  }

  lemma EntryMerged(f: Fields, g: Fields, r: Fields)
    requires Overrides(f, g, r)
    ensures r.ToMessage() == Merge(FILE_ENTRY, f.ToMessage(), g.ToMessage())
  {
    MergedByField(FILE_ENTRY, f.ToMessage(), g.ToMessage(), r.ToMessage());
  }

  function After(done: seq<uint64>, r: Option<seq<uint64>>): Option<seq<uint64>> {
    match r case None => None case Some(ns) => Some(done + ns)
  }

  lemma AfterNone(r: Option<seq<uint64>>)
    ensures After([], r) == r
  {
    if r.Some? {
      assert [] + r.value == r.value;
    }
  }

  lemma AfterNext(done: seq<uint64>, n: uint64, r: Option<seq<uint64>>)
    ensures After(done + [n], r) == After(done, After([n], r))
  {
    if r.Some? {
      assert done + [n] + r.value == done + ([n] + r.value);
    }
  }
}
