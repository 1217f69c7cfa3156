/** mini_storage.RaftLogEntry, as generated: fields set in place by the parser, and a cached size. */
module RaftLogEntries {
  import opened Bytes
  import opened Wire
  import opened Messages
  import opened Codec
  import opened CodecSizes
  import opened CodecCaches
  import opened CodecTurns
  import opened CodecFields
  import opened MessageTypes

  /** The message with these fields. */
  function Entry(term: uint64, index: uint64, command: bytes, unknown: seq<Unknown>): (m: Message)
    ensures |m.vals| == |RAFT_LOG_ENTRY.fields|
  {
    Message([Num(term), Num(index), Str(command)], unknown)
  }

  lemma EntryUpdates(term: uint64, index: uint64, command: bytes, unknown: seq<Unknown>)
    ensures var m := Entry(term, index, command, unknown);
      && (forall v: uint64 :: Set(m, 0, Num(v)) == Entry(v, index, command, unknown))
      && (forall v: uint64 :: Set(m, 1, Num(v)) == Entry(term, v, command, unknown))
      && (forall b: bytes :: Set(m, 2, Str(b)) == Entry(term, index, b, unknown))
      && (forall u :: Keep(m, u) == Entry(term, index, command, unknown + [u]))
  {}

  lemma EntryOctets(term: uint64, index: uint64, command: bytes, unknown: seq<Unknown>)
    ensures Encode(RAFT_LOG_ENTRY, Entry(term, index, command, unknown))
         == NumberOctets(1, term) + NumberOctets(2, index) + PayloadOctets(3, command) + EncodeUnknowns(unknown)
  {
    var m := Entry(term, index, command, unknown);
    AllFields(RAFT_LOG_ENTRY, m);
    assert FirstFields(RAFT_LOG_ENTRY, m, 1) == NumberOctets(1, term);
    assert FirstFields(RAFT_LOG_ENTRY, m, 2) == NumberOctets(1, term) + NumberOctets(2, index);
    assert FirstFields(RAFT_LOG_ENTRY, m, 3) == FirstFields(RAFT_LOG_ENTRY, m, 2) + PayloadOctets(3, command);
  }

  lemma EntryOctetsBehind(target: bytes, term: uint64, index: uint64, command: bytes, unknown: seq<Unknown>)
    ensures target + Encode(RAFT_LOG_ENTRY, Entry(term, index, command, unknown))
         == target + NumberOctets(1, term) + NumberOctets(2, index) + PayloadOctets(3, command)
            + EncodeUnknowns(unknown)
  {
    EntryOctets(term, index, command, unknown);
    var a, b, c, d := NumberOctets(1, term), NumberOctets(2, index), PayloadOctets(3, command), EncodeUnknowns(unknown);
    Regroup(target, a, b);
    Regroup(target, a + b, c);
    Regroup(target, a + b + c, d);
  }

  lemma EntrySize(term: uint64, index: uint64, command: bytes, unknown: seq<Unknown>)
    ensures |Encode(RAFT_LOG_ENTRY, Entry(term, index, command, unknown))|
         == PayloadSize(command) + NumberSize(term) + NumberSize(index) + UnknownsSize(unknown)
  {
    var m := Entry(term, index, command, unknown);
    LogEntryIsGood();
    AllSizes(RAFT_LOG_ENTRY, m);
    assert FirstSizes(RAFT_LOG_ENTRY, m, 1) == NumberSize(term);
    assert FirstSizes(RAFT_LOG_ENTRY, m, 2) == NumberSize(term) + NumberSize(index);
  }

  /** What an entry stores: only its own size. */
  function FlatSizes(n: nat): Cache {
    Cache(n, [Nothing, Nothing, Nothing])
  }

  lemma EntryWritten(term: uint64, index: uint64, command: bytes, unknown: seq<Unknown>, n: nat)
    ensures var m := Entry(term, index, command, unknown);
      && Write(RAFT_LOG_ENTRY, m, FlatSizes(n)) == Encode(RAFT_LOG_ENTRY, m)
      && SizePass(RAFT_LOG_ENTRY, m) == FlatSizes(|Encode(RAFT_LOG_ENTRY, m)|)
  {
    var m, c := Entry(term, index, command, unknown), FlatSizes(n);
    forall k | 0 <= k < 3 ensures FieldRight(RAFT_LOG_ENTRY.fields[k], m.vals[k], c.fields[k]) {}
    WriteFieldsAgree(RAFT_LOG_ENTRY.fields, m.vals, c.fields);
    LogEntryIsGood();
    SizeIsLength(RAFT_LOG_ENTRY, m);
    CacheFieldsAt(RAFT_LOG_ENTRY.fields, m.vals, 0);
    CacheFieldsAt(RAFT_LOG_ENTRY.fields, m.vals, 1);
    CacheFieldsAt(RAFT_LOG_ENTRY.fields, m.vals, 2);
    assert SizePass(RAFT_LOG_ENTRY, m).fields == [Nothing, Nothing, Nothing];
  }

  class RaftLogEntry {
    var term: uint64
    var index: uint64
    var command: bytes
    var unknown: seq<Unknown>
    var cachedSize: nat

    ghost function Value(): Message
      reads this`term, this`index, this`command, this`unknown
    {
      Entry(term, index, command, unknown)
    }

    /** The stored sizes. */
    ghost function Sizes(): Cache
      reads this`cachedSize
    {
      FlatSizes(cachedSize)
    }

    constructor ()
      ensures Value() == Default(RAFT_LOG_ENTRY)
    {
      term, index, command, unknown, cachedSize := 0, 0, [], [], 0;
    }

    method Clear()
      modifies this`term, this`index, this`command, this`unknown
      ensures Value() == Default(RAFT_LOG_ENTRY)
    {
      command := [];
      term, index := 0, 0;
      unknown := [];
    }

    /** One pass through the switch: the record after `tag`, which starts at `ptr` and comes to `r`. */
    method ParseCase(tag: Tag, b: bytes, ptr: nat, ghost r: Option<Parsed<Message>>) returns (ok: bool, next: nat)
      requires ptr <= |b| && Yields(RAFT_LOG_ENTRY, Value(), tag, b[ptr..], r)
      modifies this`term, this`index, this`command, this`unknown
      ensures ok == r.Some?
      ensures ok ==> ptr <= next <= |b| && r == Some(Parsed(Value(), next - ptr))
    {
      LogEntryIsGood();
      EntryUpdates(term, index, command, unknown);
      if tag == Tag(1, VARINT) {
        UInt64Case(RAFT_LOG_ENTRY, Value(), tag, b[ptr..], r, 0);
        var v := ReadVarint64(b[ptr..]);
        if v.None? { return false, ptr; }
        term := v.value.value;
        return true, ptr + v.value.used;
      } else if tag == Tag(2, VARINT) {
        UInt64Case(RAFT_LOG_ENTRY, Value(), tag, b[ptr..], r, 1);
        var v := ReadVarint64(b[ptr..]);
        if v.None? { return false, ptr; }
        index := v.value.value;
        return true, ptr + v.value.used;
      } else if tag == Tag(3, DELIMITED) {
        OctetsCase(RAFT_LOG_ENTRY, Value(), tag, b[ptr..], r, 2);
        var c := ReadChunk(b[ptr..]);
        if c.None? { return false, ptr; }
        command := c.value.payload;
        return true, ptr + c.value.used;
      } else {
        UnusualCase(RAFT_LOG_ENTRY, Value(), tag, b[ptr..], r);
        if Stops(tag) { return false, ptr; }
        var u := ParseUnknown(tag, b[ptr..]);
        if u.None? { return false, ptr; }
        unknown := unknown + [u.value.value];
        return true, ptr + u.value.used;
      }
    }

    /** One turn of the parse loop, from the tag at `ptr`. */
    method ParseTurn(b: bytes, ptr: nat, ghost r: Option<Message>) returns (ok: bool, next: nat)
      requires ptr < |b| && Parses(RAFT_LOG_ENTRY, Value(), b[ptr..], r)
      modifies this`term, this`index, this`command, this`unknown
      ensures !ok ==> r == None
      ensures ok ==> ptr < next <= |b| && Parses(RAFT_LOG_ENTRY, Value(), b[next..], r)
    {
      ghost var m := Value();
      var t := ReadTag(b[ptr..]);
      if t.None? {
        NoTagHere(RAFT_LOG_ENTRY, m, b, ptr, r);
        return false, ptr;
      }
      var tag, start := t.value.tag, ptr + t.value.used;
      PastTag(RAFT_LOG_ENTRY, m, b, ptr, t.value, start, r);
      ghost var q := Outcome(RAFT_LOG_ENTRY, m, tag, b[start..]);
      ok, next := ParseCase(tag, b, start, q);
      PastRecord(RAFT_LOG_ENTRY, m, tag, b, start, r, q, Value(), next);
    }

    /** Read fields from `b`, which come to `r`, into this entry. */
    method InternalParse(b: bytes, ghost r: Option<Message>) returns (ok: bool)
      requires Parses(RAFT_LOG_ENTRY, Value(), b, r)
      modifies this`term, this`index, this`command, this`unknown
      ensures ok == r.Some?
      ensures ok ==> r == Some(Value())
    {
      var ptr := 0;
      assert b[0..] == b;
      while ptr < |b|
        invariant ptr <= |b| && Parses(RAFT_LOG_ENTRY, Value(), b[ptr..], r)
      {
        var good, next := ParseTurn(b, ptr, r);
        if !good { return false; }
        ptr := next;
      }
      AtEnd(RAFT_LOG_ENTRY, Value(), b, r);
      return true;
    }

    method ParseFromString(b: bytes) returns (ok: bool)
      modifies this`term, this`index, this`command, this`unknown
      ensures ok == Parse(RAFT_LOG_ENTRY, b).Some?
      ensures ok ==> Parse(RAFT_LOG_ENTRY, b) == Some(Value())
    {
      Clear();
      ok := InternalParse(b, Parse(RAFT_LOG_ENTRY, b));
    }

    /** Append this entry to the octets written so far. */
    method InternalSerialize(target: bytes) returns (out: bytes)
      ensures out == target + Encode(RAFT_LOG_ENTRY, Value())
      ensures out == target + Write(RAFT_LOG_ENTRY, Value(), Sizes())
    {
      out := target;
      if term != 0 {
        out := out + (TagOctets(Tag(1, VARINT)) + Varint(term));
      }
      assert out == target + NumberOctets(1, term) by { Regroup(target, [], []); }
      ghost var sofar := out;
      if index != 0 {
        out := out + (TagOctets(Tag(2, VARINT)) + Varint(index));
      }
      assert out == sofar + NumberOctets(2, index) by { Regroup(sofar, [], []); }
      sofar := out;
      if command != [] {
        out := out + (TagOctets(Tag(3, DELIMITED)) + Prefixed(command));
      }
      assert out == sofar + PayloadOctets(3, command) by { Regroup(sofar, [], []); }
      sofar := out;
      if unknown != [] {
        out := out + EncodeUnknowns(unknown);
      }
      assert out == sofar + EncodeUnknowns(unknown) by { Regroup(sofar, [], []); }
      EntryOctetsBehind(target, term, index, command, unknown);
      EntryWritten(term, index, command, unknown, cachedSize);
    }

    /** The size of this entry on the wire, which is also stored. */
    method ByteSizeLong() returns (total: nat)
      modifies this`cachedSize
      ensures total == cachedSize == |Encode(RAFT_LOG_ENTRY, Value())|
      ensures Sizes() == SizePass(RAFT_LOG_ENTRY, Value())
    {
      EntrySize(term, index, command, unknown);
      total := 0;
      if command != [] {
        total := total + 1 + LengthDelimitedSize(|command|);
      }
      if term != 0 {
        total := total + 1 + VarintSize(term);
      }
      if index != 0 {
        total := total + 1 + VarintSize(index);
      }
      if unknown != [] {
        total := total + UnknownsSize(unknown);
      }
      cachedSize := total;
      EntryWritten(term, index, command, unknown, cachedSize);
    }

    method MergeFrom(from: RaftLogEntry)
      requires from != this
      modifies this`term, this`index, this`command, this`unknown
      ensures Value() == Merge(RAFT_LOG_ENTRY, old(Value()), from.Value())
    {
      if from.command != [] { command := from.command; }
      if from.term != 0 { term := from.term; }
      if from.index != 0 { index := from.index; }
      unknown := unknown + from.unknown;
      MergedByField(RAFT_LOG_ENTRY, old(Value()), from.Value(), Value());
    }

    method CopyFrom(from: RaftLogEntry)
      modifies this`term, this`index, this`command, this`unknown
      ensures Value() == old(from.Value())
    {
      if from == this { return; }
      Clear();
      MergeFrom(from);
      CopiedEntry(from.term, from.index, from.command, from.unknown);
    }
  }

  lemma CopiedEntry(term: uint64, index: uint64, command: bytes, unknown: seq<Unknown>)
    ensures var m := Entry(term, index, command, unknown);
      Merge(RAFT_LOG_ENTRY, Default(RAFT_LOG_ENTRY), m) == m
  {
    var m := Entry(term, index, command, unknown);
    MergedByField(RAFT_LOG_ENTRY, Default(RAFT_LOG_ENTRY), m, m);
  }
}
