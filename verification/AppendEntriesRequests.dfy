/** mini_storage.AppendEntriesRequest, as generated: the log entries are objects of their own, each with its own
    cached size. */
module AppendEntriesRequests {
  import opened Bytes
  import opened Wire
  import opened Messages
  import opened Codec
  import opened CodecSizes
  import opened CodecCaches
  import opened CodecTurns
  import opened CodecFields
  import opened MessageTypes
  import opened RaftLogEntries

  /** What the object holds, the entries by their values. */
  datatype Fields = Fields(term: uint64, leaderId: bytes, prevLogIndex: uint64, prevLogTerm: uint64,
                           entries: seq<Message>, leaderCommit: uint64, unknown: seq<Unknown>)
  {
    function ToMessage(): (m: Message)
      ensures |m.vals| == |APPEND_ENTRIES_REQUEST.fields|
    {
      Message([Num(term), Str(leaderId), Num(prevLogIndex), Num(prevLogTerm), Msgs(entries), Num(leaderCommit)],
              unknown)
    }
  }

  lemma SetTerm(f: Fields, v: uint64)
    ensures Set(f.ToMessage(), 0, Num(v)) == f.(term := v).ToMessage()
  {}

  lemma SetLeaderId(f: Fields, b: bytes)
    ensures Set(f.ToMessage(), 1, Str(b)) == f.(leaderId := b).ToMessage()
  {}

  lemma SetPrevLogIndex(f: Fields, v: uint64)
    ensures Set(f.ToMessage(), 2, Num(v)) == f.(prevLogIndex := v).ToMessage()
  {}

  lemma SetPrevLogTerm(f: Fields, v: uint64)
    ensures Set(f.ToMessage(), 3, Num(v)) == f.(prevLogTerm := v).ToMessage()
  {}

  lemma SetLeaderCommit(f: Fields, v: uint64)
    ensures Set(f.ToMessage(), 5, Num(v)) == f.(leaderCommit := v).ToMessage()
  {}

  lemma SetEntries(f: Fields, es: seq<Message>)
    ensures Set(f.ToMessage(), 4, Msgs(es)) == f.(entries := es).ToMessage()
  {}

  /** What a request stores: its own size, and what its entries store. */
  function RequestSizes(n: nat, cs: seq<Cache>): Cache {
    Cache(n, [Nothing, Nothing, Nothing, Nothing, Many(cs), Nothing])
  }

  lemma RequestWritten(f: Fields, n: nat, cs: seq<Cache>)
    ensures Write(APPEND_ENTRIES_REQUEST, f.ToMessage(), RequestSizes(n, cs))
         == NumberOctets(1, f.term) + PayloadOctets(2, f.leaderId) + NumberOctets(3, f.prevLogIndex)
            + NumberOctets(4, f.prevLogTerm) + WriteMessages(RAFT_LOG_ENTRY, Tag(5, DELIMITED), f.entries, cs)
            + NumberOctets(6, f.leaderCommit) + EncodeUnknowns(f.unknown)
  {
    var s, m, c := APPEND_ENTRIES_REQUEST, f.ToMessage(), RequestSizes(n, cs);
    AllWritten(s, m, c);
    assert FirstWritten(s, m, c, 1) == NumberOctets(1, f.term);
    assert FirstWritten(s, m, c, 2) == FirstWritten(s, m, c, 1) + PayloadOctets(2, f.leaderId);
    assert FirstWritten(s, m, c, 3) == FirstWritten(s, m, c, 2) + NumberOctets(3, f.prevLogIndex);
    assert FirstWritten(s, m, c, 4) == FirstWritten(s, m, c, 3) + NumberOctets(4, f.prevLogTerm);
    assert FirstWritten(s, m, c, 5)
        == FirstWritten(s, m, c, 4) + WriteMessages(RAFT_LOG_ENTRY, Tag(5, DELIMITED), f.entries, cs);
    assert FirstWritten(s, m, c, 6) == FirstWritten(s, m, c, 5) + NumberOctets(6, f.leaderCommit);
  }

  lemma RequestSize(f: Fields)
    ensures |Encode(APPEND_ENTRIES_REQUEST, f.ToMessage())|
         == |f.entries| + MessagesSize(RAFT_LOG_ENTRY, f.entries) + PayloadSize(f.leaderId) + NumberSize(f.term)
            + NumberSize(f.prevLogIndex) + NumberSize(f.prevLogTerm) + NumberSize(f.leaderCommit)
            + UnknownsSize(f.unknown)
  {
    var s, m := APPEND_ENTRIES_REQUEST, f.ToMessage();
    AppendEntriesIsGood();
    AllSizes(s, m);
    assert FirstSizes(s, m, 1) == NumberSize(f.term);
    assert FirstSizes(s, m, 2) == FirstSizes(s, m, 1) + PayloadSize(f.leaderId);
    assert FirstSizes(s, m, 3) == FirstSizes(s, m, 2) + NumberSize(f.prevLogIndex);
    assert FirstSizes(s, m, 4) == FirstSizes(s, m, 3) + NumberSize(f.prevLogTerm);
    assert FirstSizes(s, m, 5) == FirstSizes(s, m, 4) + (|f.entries| + MessagesSize(RAFT_LOG_ENTRY, f.entries));
    assert FirstSizes(s, m, 6) == FirstSizes(s, m, 5) + NumberSize(f.leaderCommit);
  }

  lemma RequestSizePass(f: Fields)
    ensures SizePass(APPEND_ENTRIES_REQUEST, f.ToMessage())
         == RequestSizes(|Encode(APPEND_ENTRIES_REQUEST, f.ToMessage())|, CacheMessages(RAFT_LOG_ENTRY, f.entries))
  {
    var s, m := APPEND_ENTRIES_REQUEST, f.ToMessage();
    AppendEntriesIsGood();
    SizeIsLength(s, m);
    CacheFieldsAt(s.fields, m.vals, 0);
    forall k | 0 <= k < 6
      ensures SizePass(s, m).fields[k] == RequestSizes(0, CacheMessages(RAFT_LOG_ENTRY, f.entries)).fields[k]
    {
      CacheFieldsAt(s.fields, m.vals, k);
    }
    assert SizePass(s, m).fields == RequestSizes(0, CacheMessages(RAFT_LOG_ENTRY, f.entries)).fields;
  }

  ghost function EntryValues(es: seq<RaftLogEntry>): (ms: seq<Message>)
    reads es`term, es`index, es`command, es`unknown
    ensures |ms| == |es| && forall i :: 0 <= i < |es| ==> ms[i] == es[i].Value()
  {
    if es == [] then [] else EntryValues(es[..|es| - 1]) + [es[|es| - 1].Value()]
  }

  ghost function EntrySizes(es: seq<RaftLogEntry>): (cs: seq<Cache>)
    reads es`cachedSize
    ensures |cs| == |es| && forall i :: 0 <= i < |es| ==> cs[i] == es[i].Sizes()
  {
    if es == [] then [] else EntrySizes(es[..|es| - 1]) + [es[|es| - 1].Sizes()]
  }

  /** The entries `es` have the values `ms`. */
  ghost predicate Hold(es: seq<RaftLogEntry>, ms: seq<Message>)
    reads es`term, es`index, es`command, es`unknown
  {
    |ms| == |es| && forall i :: 0 <= i < |es| ==> es[i].Value() == ms[i]
  }

  class AppendEntriesRequest {
    var term: uint64
    var leaderId: bytes
    var prevLogIndex: uint64
    var prevLogTerm: uint64
    var entries: seq<RaftLogEntry>
    var leaderCommit: uint64
    var unknown: seq<Unknown>
    var cachedSize: nat

    /** The fields, if the entries had the values `ms`. */
    ghost function With(ms: seq<Message>): Fields
      reads this`term, this`leaderId, this`prevLogIndex, this`prevLogTerm, this`leaderCommit, this`unknown
    {
      Fields(term, leaderId, prevLogIndex, prevLogTerm, ms, leaderCommit, unknown)
    }

    ghost function Value(): Message
      reads this, entries
    {
      With(EntryValues(entries)).ToMessage()
    }

    /** The stored sizes, in this request and in its entries. */
    ghost function Sizes(): Cache
      reads this, entries
    {
      RequestSizes(cachedSize, EntrySizes(entries))
    }

    lemma IsValue(ms: seq<Message>)
      requires Hold(entries, ms)
      ensures Value() == With(ms).ToMessage()
    {
      assert EntryValues(entries) == ms;
    }

    constructor ()
      ensures Value() == Default(APPEND_ENTRIES_REQUEST)
      ensures entries == []
    {
      term, leaderId, prevLogIndex, prevLogTerm, entries, leaderCommit := 0, [], 0, 0, [], 0;
      unknown, cachedSize := [], 0;
    }

    method Clear()
      modifies this
      ensures Value() == Default(APPEND_ENTRIES_REQUEST)
      ensures entries == [] && cachedSize == old(cachedSize)
    {
      entries := [];
      leaderId := [];
      term, prevLogIndex, prevLogTerm, leaderCommit := 0, 0, 0, 0;
      unknown := [];
    }

    /** The entries are the ones there were, and new ones behind them. */
    twostate predicate OnlyAdds()
      reads this
    {
      && old(entries) <= entries
      && forall i :: |old(entries)| <= i < |entries| ==> fresh(entries[i])
    }

    /** One pass through the switch, for a tag other than that of the entries: the record after `tag`, which starts
        at `ptr` and comes to `r`.  The entries, with the values `ms`, stay as they are. */
    method ParseCase(tag: Tag, b: bytes, ptr: nat, ghost ms: seq<Message>, ghost r: Option<Parsed<Message>>)
        returns (ok: bool, next: nat)
      requires ptr <= |b| && tag != Tag(5, DELIMITED)
      requires Yields(APPEND_ENTRIES_REQUEST, With(ms).ToMessage(), tag, b[ptr..], r)
      modifies this
      ensures entries == old(entries) && cachedSize == old(cachedSize)
      ensures ok == r.Some?
      ensures ok ==> ptr <= next <= |b| && r == Some(Parsed(With(ms).ToMessage(), next - ptr))
    {
      AppendEntriesIsGood();
      ghost var f := With(ms);
      if tag == Tag(1, VARINT) {
        UInt64Case(APPEND_ENTRIES_REQUEST, f.ToMessage(), tag, b[ptr..], r, 0);
        var v := ReadVarint64(b[ptr..]);
        if v.None? { return false, ptr; }
        SetTerm(f, v.value.value);
        term := v.value.value;
        return true, ptr + v.value.used;
      } else if tag == Tag(2, DELIMITED) {
        OctetsCase(APPEND_ENTRIES_REQUEST, f.ToMessage(), tag, b[ptr..], r, 1);
        var c := ReadChunk(b[ptr..]);
        if c.None? { return false, ptr; }
        SetLeaderId(f, c.value.payload);
        leaderId := c.value.payload;
        if !ValidUtf8(leaderId) { return false, ptr; }
        return true, ptr + c.value.used;
      } else if tag == Tag(3, VARINT) {
        UInt64Case(APPEND_ENTRIES_REQUEST, f.ToMessage(), tag, b[ptr..], r, 2);
        var v := ReadVarint64(b[ptr..]);
        if v.None? { return false, ptr; }
        SetPrevLogIndex(f, v.value.value);
        prevLogIndex := v.value.value;
        return true, ptr + v.value.used;
      } else if tag == Tag(4, VARINT) {
        UInt64Case(APPEND_ENTRIES_REQUEST, f.ToMessage(), tag, b[ptr..], r, 3);
        var v := ReadVarint64(b[ptr..]);
        if v.None? { return false, ptr; }
        SetPrevLogTerm(f, v.value.value);
        prevLogTerm := v.value.value;
        return true, ptr + v.value.used;
      } else if tag == Tag(6, VARINT) {
        UInt64Case(APPEND_ENTRIES_REQUEST, f.ToMessage(), tag, b[ptr..], r, 5);
        var v := ReadVarint64(b[ptr..]);
        if v.None? { return false, ptr; }
        SetLeaderCommit(f, v.value.value);
        leaderCommit := v.value.value;
        return true, ptr + v.value.used;
      } else {
        ok, next := HandleUnusual(tag, b, ptr, ms, r);
      }
    }

    /** A tag that no case of the switch takes. */
    method HandleUnusual(tag: Tag, b: bytes, ptr: nat, ghost ms: seq<Message>, ghost r: Option<Parsed<Message>>)
        returns (ok: bool, next: nat)
      requires ptr <= |b| && Unusual(APPEND_ENTRIES_REQUEST, tag)
      requires Yields(APPEND_ENTRIES_REQUEST, With(ms).ToMessage(), tag, b[ptr..], r)
      modifies this`unknown
      ensures ok == r.Some?
      ensures ok ==> ptr <= next <= |b| && r == Some(Parsed(With(ms).ToMessage(), next - ptr))
    {
      UnusualCase(APPEND_ENTRIES_REQUEST, With(ms).ToMessage(), tag, b[ptr..], r);
      if Stops(tag) { return false, ptr; }
      var u := ParseUnknown(tag, b[ptr..]);
      if u.None? { return false, ptr; }
      unknown := unknown + [u.value.value];
      return true, ptr + u.value.used;
    }

    /** A new entry, at the end of the list. */
    method AddEntry() returns (entry: RaftLogEntry)
      modifies this`entries
      ensures fresh(entry) && entries == old(entries) + [entry]
      ensures entry.Value() == Default(RAFT_LOG_ENTRY)
    {
      entry := new RaftLogEntry();
      entries := entries + [entry];
    }

    /** One log entry, behind its tag: a new object, parsed from its length-delimited range. */
    method ParseEntry(b: bytes, ptr: nat, ghost ms: seq<Message>, ghost r: Option<Parsed<Message>>)
        returns (ok: bool, next: nat, ghost ns: seq<Message>)
      requires ptr <= |b| && Hold(entries, ms)
      requires Yields(APPEND_ENTRIES_REQUEST, With(ms).ToMessage(), Tag(5, DELIMITED), b[ptr..], r)
      modifies this`entries
      ensures OnlyAdds() && Hold(entries, ns)
      ensures ok == r.Some?
      ensures ok ==> ptr < next <= |b| && r == Some(Parsed(With(ns).ToMessage(), next - ptr))
    {
      AppendEntriesIsGood();
      ghost var f := With(ms);
      var c := ReadChunk(b[ptr..]);
      if c.None? {
        ElementCase(APPEND_ENTRIES_REQUEST, f.ToMessage(), Tag(5, DELIMITED), b[ptr..], r, 4, None);
        return false, ptr, ms;
      }
      ghost var x := ParseOutcome(RAFT_LOG_ENTRY, Default(RAFT_LOG_ENTRY), c.value.payload);
      ElementCase(APPEND_ENTRIES_REQUEST, f.ToMessage(), Tag(5, DELIMITED), b[ptr..], r, 4, x);
      var entry := AddEntry();
      ok := entry.InternalParse(c.value.payload, x);
      next := ptr + c.value.used;
      ns := ms + [entry.Value()];
      SetEntries(f, ns);
    }

    /** The record behind a tag of the entries; when the next octet is again their tag, there is more to do here,
        from behind that tag. */
    method ParseNextEntry(b: bytes, ptr: nat, ghost ms: seq<Message>, ghost r: Option<Message>)
        returns (ok: bool, more: bool, next: nat, ghost ns: seq<Message>)
      requires ptr <= |b| && Hold(entries, ms)
      requires Leads(APPEND_ENTRIES_REQUEST, With(ms).ToMessage(), Tag(5, DELIMITED), b[ptr..], r)
      modifies this`entries
      ensures OnlyAdds() && Hold(entries, ns)
      ensures !ok ==> r == None && !more
      ensures ok ==> ptr < next <= |b|
      ensures ok && more ==> Leads(APPEND_ENTRIES_REQUEST, With(ns).ToMessage(), Tag(5, DELIMITED), b[next..], r)
      ensures ok && !more ==> Parses(APPEND_ENTRIES_REQUEST, With(ns).ToMessage(), b[next..], r)
    {
      ghost var m := With(ms).ToMessage();
      ghost var q := Outcome(APPEND_ENTRIES_REQUEST, m, Tag(5, DELIMITED), b[ptr..]);
      ok, next, ns := ParseEntry(b, ptr, ms, q);
      PastEntry(m, b, ptr, r, q, With(ns).ToMessage(), next);
      more := ok && next < |b| && b[next] == 42;
      if more {
        next := next + 1;
      }
    }

    /** The entries, from behind the tag of the first: as long as the next octet is again their tag, go on without
        returning to the top of the parse loop. */
    method ParseEntries(b: bytes, ptr: nat, ghost ms: seq<Message>, ghost r: Option<Message>)
        returns (ok: bool, next: nat, ghost ns: seq<Message>)
      requires ptr <= |b| && Hold(entries, ms)
      requires Leads(APPEND_ENTRIES_REQUEST, With(ms).ToMessage(), Tag(5, DELIMITED), b[ptr..], r)
      modifies this`entries
      ensures OnlyAdds() && Hold(entries, ns)
      ensures !ok ==> r == None
      ensures ok ==> ptr < next <= |b| && Parses(APPEND_ENTRIES_REQUEST, With(ns).ToMessage(), b[next..], r)
    {
      var more;
      ok, more, next, ns := ParseNextEntry(b, ptr, ms, r);
      while more
        invariant OnlyAdds() && Hold(entries, ns)
        invariant !ok ==> r == None && !more
        invariant ok ==> ptr < next <= |b|
        invariant ok && more ==> Leads(APPEND_ENTRIES_REQUEST, With(ns).ToMessage(), Tag(5, DELIMITED), b[next..], r)
        invariant ok && !more ==> Parses(APPEND_ENTRIES_REQUEST, With(ns).ToMessage(), b[next..], r)
        decreases more, if ok then |b| - next else 0
      {
        ok, more, next, ns := ParseNextEntry(b, next, ns, r);
      }
    }

    /** One turn of the parse loop, from the tag at `ptr`. */
    method ParseTurn(b: bytes, ptr: nat, ghost ms: seq<Message>, ghost r: Option<Message>)
        returns (ok: bool, next: nat, ghost ns: seq<Message>)
      requires ptr < |b| && Hold(entries, ms)
      requires Parses(APPEND_ENTRIES_REQUEST, With(ms).ToMessage(), b[ptr..], r)
      modifies this
      ensures OnlyAdds() && cachedSize == old(cachedSize) && Hold(entries, ns)
      ensures !ok ==> r == None
      ensures ok ==> ptr < next <= |b| && Parses(APPEND_ENTRIES_REQUEST, With(ns).ToMessage(), b[next..], r)
    {
      ghost var m := With(ms).ToMessage();
      ns := ms;
      var t := ReadTag(b[ptr..]);
      if t.None? {
        NoTagHere(APPEND_ENTRIES_REQUEST, m, b, ptr, r);
        return false, ptr, ns;
      }
      var tag, start := t.value.tag, ptr + t.value.used;
      PastTag(APPEND_ENTRIES_REQUEST, m, b, ptr, t.value, start, r);
      if tag == Tag(5, DELIMITED) {
        ok, next, ns := ParseEntries(b, start, ms, r);
      } else {
        ghost var q := Outcome(APPEND_ENTRIES_REQUEST, m, tag, b[start..]);
        ok, next := ParseCase(tag, b, start, ms, q);
        PastRecord(APPEND_ENTRIES_REQUEST, m, tag, b, start, r, q, With(ms).ToMessage(), next);
      }
    }

    /** Read fields from `b`, which come to `r`, into this request. */
    method InternalParse(b: bytes, ghost r: Option<Message>) returns (ok: bool)
      requires Parses(APPEND_ENTRIES_REQUEST, Value(), b, r)
      modifies this
      ensures OnlyAdds() && cachedSize == old(cachedSize)
      ensures ok == r.Some?
      ensures ok ==> r == Some(Value())
    {
      var ptr := 0;
      assert b[0..] == b;
      ghost var ms := EntryValues(entries);
      while ptr < |b|
        invariant ptr <= |b| && OnlyAdds() && cachedSize == old(cachedSize) && Hold(entries, ms)
        invariant Parses(APPEND_ENTRIES_REQUEST, With(ms).ToMessage(), b[ptr..], r)
      {
        var good, next;
        good, next, ms := ParseTurn(b, ptr, ms, r);
        if !good { return false; }
        ptr := next;
      }
      IsValue(ms);
      AtEnd(APPEND_ENTRIES_REQUEST, Value(), b, r);
      return true;
    }

    method ParseFromString(b: bytes) returns (ok: bool)
      modifies this
      ensures forall i :: 0 <= i < |entries| ==> fresh(entries[i])
      ensures ok == Parse(APPEND_ENTRIES_REQUEST, b).Some?
      ensures ok ==> Parse(APPEND_ENTRIES_REQUEST, b) == Some(Value())
    {
      Clear();
      ok := InternalParse(b, Parse(APPEND_ENTRIES_REQUEST, b));
    }

    /** The entries store the sizes of the values `ms`. */
    ghost predicate Sized(ms: seq<Message>, k: nat)
      requires k <= |entries| == |ms|
      reads this`entries, entries`cachedSize
    {
      forall i :: 0 <= i < k ==> entries[i].cachedSize == |Encode(RAFT_LOG_ENTRY, ms[i])|
    }

    /** The part of the entries: one octet of tag each, and each with its length. */
    method SizeEntries(ghost ms: seq<Message>) returns (total: nat)
      requires Hold(entries, ms)
      modifies entries`cachedSize
      ensures Sized(ms, |ms|)
      ensures total == |ms| + MessagesSize(RAFT_LOG_ENTRY, ms)
    {
      total := |entries|;
      for i := 0 to |entries|
        invariant Hold(entries, ms) && Sized(ms, i)
        invariant total == |ms| + MessagesSize(RAFT_LOG_ENTRY, ms[..i])
      {
        var size := entries[i].ByteSizeLong();
        assert size == |Encode(RAFT_LOG_ENTRY, ms[i])|;
        NextSize(ms, i);
        total := total + LengthDelimitedSize(size);
      }
      assert ms[..|entries|] == ms;
    }

    /** The part of the other fields. */
    method SizeScalars() returns (total: nat)
      ensures total == PayloadSize(leaderId) + NumberSize(term) + NumberSize(prevLogIndex) + NumberSize(prevLogTerm)
                       + NumberSize(leaderCommit) + UnknownsSize(unknown)
    {
      total := 0;
      if leaderId != [] {
        total := total + 1 + LengthDelimitedSize(|leaderId|);
      }
      if term != 0 {
        total := total + 1 + VarintSize(term);
      }
      if prevLogIndex != 0 {
        total := total + 1 + VarintSize(prevLogIndex);
      }
      if prevLogTerm != 0 {
        total := total + 1 + VarintSize(prevLogTerm);
      }
      if leaderCommit != 0 {
        total := total + 1 + VarintSize(leaderCommit);
      }
      if unknown != [] {
        total := total + UnknownsSize(unknown);
      }
    }

    /** The size of this request on the wire; it and the sizes of the entries are stored. */
    method ByteSizeLong() returns (total: nat)
      modifies this`cachedSize, entries`cachedSize
      ensures total == cachedSize == |Encode(APPEND_ENTRIES_REQUEST, Value())|
      ensures Sizes() == SizePass(APPEND_ENTRIES_REQUEST, Value())
    {
      ghost var ms := EntryValues(entries);
      total := SizeEntries(ms);
      var scalars := SizeScalars();
      total := total + scalars;
      cachedSize := total;
      Totals(ms);
    }

    lemma Totals(ms: seq<Message>)
      requires Hold(entries, ms) && Sized(ms, |ms|)
      requires cachedSize == |ms| + MessagesSize(RAFT_LOG_ENTRY, ms) + PayloadSize(leaderId) + NumberSize(term)
        + NumberSize(prevLogIndex) + NumberSize(prevLogTerm) + NumberSize(leaderCommit) + UnknownsSize(unknown)
      ensures cachedSize == |Encode(APPEND_ENTRIES_REQUEST, Value())|
      ensures Sizes() == SizePass(APPEND_ENTRIES_REQUEST, Value())
    {
      IsValue(ms);
      RequestSize(With(ms));
      RequestSizePass(With(ms));
      EntriesSized(ms);
    }

    lemma EntriesSized(ms: seq<Message>)
      requires Hold(entries, ms) && Sized(ms, |ms|)
      ensures EntrySizes(entries) == CacheMessages(RAFT_LOG_ENTRY, ms)
    {
      forall i | 0 <= i < |ms| ensures EntrySizes(entries)[i] == CacheMessages(RAFT_LOG_ENTRY, ms)[i] {
        CacheMessagesAt(RAFT_LOG_ENTRY, ms, i);
        var e := entries[i];
        EntryWritten(e.term, e.index, e.command, e.unknown, 0);
      }
    }

    /** Append the entries, each behind its tag and the size it stores. */
    method SerializeEntries(target: bytes) returns (out: bytes)
      ensures out == target
        + WriteMessages(RAFT_LOG_ENTRY, Tag(5, DELIMITED), EntryValues(entries), EntrySizes(entries))
    {
      ghost var ms, cs := EntryValues(entries), EntrySizes(entries);
      out := target;
      for i := 0 to |entries|
        invariant out == target + WriteMessages(RAFT_LOG_ENTRY, Tag(5, DELIMITED), ms[..i], cs[..i])
      {
        ghost var sofar := WriteMessages(RAFT_LOG_ENTRY, Tag(5, DELIMITED), ms[..i], cs[..i]);
        var header := TagOctets(Tag(5, DELIMITED)) + Varint(entries[i].cachedSize);
        out := entries[i].InternalSerialize(out + header);
        Regroup(target + sofar, header, Write(RAFT_LOG_ENTRY, ms[i], cs[i]));
        Regroup(target, sofar, header + Write(RAFT_LOG_ENTRY, ms[i], cs[i]));
        WriteOneMore(RAFT_LOG_ENTRY, Tag(5, DELIMITED), ms, cs, i);
      }
      assert ms[..|entries|] == ms && cs[..|entries|] == cs;
    }

    /** Append this request to the octets written so far, with the sizes that are stored, be they right or stale. */
    method InternalSerialize(target: bytes) returns (out: bytes)
      ensures out == target + Write(APPEND_ENTRIES_REQUEST, Value(), Sizes())
    {
      out := SerializeHead(target);
      out := SerializeEntries(out);
      ghost var sofar := out;
      if leaderCommit != 0 {
        out := out + (TagOctets(Tag(6, VARINT)) + Varint(leaderCommit));
      }
      assert out == sofar + NumberOctets(6, leaderCommit) by { Regroup(sofar, [], []); }
      sofar := out;
      if unknown != [] {
        out := out + EncodeUnknowns(unknown);
      }
      assert out == sofar + EncodeUnknowns(unknown) by { Regroup(sofar, [], []); }
      RequestWrittenBehind(target, With(EntryValues(entries)), cachedSize, EntrySizes(entries));
    }

    /** The fields in front of the entries. */
    method SerializeHead(target: bytes) returns (out: bytes)
      ensures out == target + NumberOctets(1, term) + PayloadOctets(2, leaderId) + NumberOctets(3, prevLogIndex)
                     + NumberOctets(4, prevLogTerm)
    {
      out := target;
      if term != 0 {
        out := out + (TagOctets(Tag(1, VARINT)) + Varint(term));
      }
      assert out == target + NumberOctets(1, term) by { Regroup(target, [], []); }
      ghost var sofar := out;
      if leaderId != [] {
        out := out + (TagOctets(Tag(2, DELIMITED)) + Prefixed(leaderId));
      }
      assert out == sofar + PayloadOctets(2, leaderId) by { Regroup(sofar, [], []); }
      sofar := out;
      if prevLogIndex != 0 {
        out := out + (TagOctets(Tag(3, VARINT)) + Varint(prevLogIndex));
      }
      assert out == sofar + NumberOctets(3, prevLogIndex) by { Regroup(sofar, [], []); }
      sofar := out;
      if prevLogTerm != 0 {
        out := out + (TagOctets(Tag(4, VARINT)) + Varint(prevLogTerm));
      }
      assert out == sofar + NumberOctets(4, prevLogTerm) by { Regroup(sofar, [], []); }
    }

    /** The size pass, then the write pass. */
    method SerializeToString() returns (b: bytes)
      modifies this`cachedSize, entries`cachedSize
      ensures b == Encode(APPEND_ENTRIES_REQUEST, Value())
      ensures |b| == cachedSize
    {
      var n := ByteSizeLong();
      b := InternalSerialize([]);
      RequestTwoPasses(With(EntryValues(entries)));
      assert [] + Write(APPEND_ENTRIES_REQUEST, Value(), Sizes()) == Write(APPEND_ENTRIES_REQUEST, Value(), Sizes());
    }

    /** A copy of an entry, at the end of the list. */
    method AddCopy(source: RaftLogEntry, ghost ms: seq<Message>) returns (entry: RaftLogEntry)
      requires Hold(entries, ms)
      modifies this`entries
      ensures fresh(entry) && entries == old(entries) + [entry]
      ensures Hold(entries, ms + [source.Value()])
    {
      entry := AddEntry();
      entry.CopyFrom(source);
    }

    /** Copies of the entries of another request, behind those of this one. */
    method MergeEntries(from: AppendEntriesRequest)
      requires from != this
      modifies this`entries
      ensures OnlyAdds()
      ensures Hold(entries, old(EntryValues(entries)) + old(EntryValues(from.entries)))
    {
      ghost var ms, ns := EntryValues(entries), EntryValues(from.entries);
      for i := 0 to |from.entries|
        invariant OnlyAdds() && from.entries == old(from.entries)
        invariant Hold(entries, ms + ns[..i]) && Hold(from.entries, ns)
      {
        ghost var sofar := ms + ns[..i];
        assert from.entries[i].Value() == ns[i];
        var _ := AddCopy(from.entries[i], sofar);
        assert ms + ns[..i + 1] == sofar + [ns[i]];
      }
      assert ns[..|from.entries|] == ns;
    }

    method MergeFrom(from: AppendEntriesRequest)
      requires from != this
      modifies this
      ensures OnlyAdds() && cachedSize == old(cachedSize)
      ensures Value() == Merge(APPEND_ENTRIES_REQUEST, old(Value()), old(from.Value()))
    {
      ghost var ms, ns := EntryValues(entries), EntryValues(from.entries);
      ghost var f, g := With(ms), from.With(ns);
      MergeEntries(from);
      MergeScalars(from, ms, ns);
      IsValue(ms + ns);
      RequestMerged(f, g, With(ms + ns));
    }

    /** The fields other than the entries: a value that is not the default replaces the one there was. */
    method MergeScalars(from: AppendEntriesRequest, ghost ms: seq<Message>, ghost ns: seq<Message>)
      requires from != this
      modifies this`term, this`leaderId, this`prevLogIndex, this`prevLogTerm, this`leaderCommit, this`unknown
      ensures Overrides(old(With(ms)), old(from.With(ns)), With(ms + ns))
    {
      if from.leaderId != [] { leaderId := from.leaderId; }
      if from.term != 0 { term := from.term; }
      if from.prevLogIndex != 0 { prevLogIndex := from.prevLogIndex; }
      if from.prevLogTerm != 0 { prevLogTerm := from.prevLogTerm; }
      if from.leaderCommit != 0 { leaderCommit := from.leaderCommit; }
      unknown := unknown + from.unknown;
    }

    method CopyFrom(from: AppendEntriesRequest)
      modifies this
      ensures Value() == old(from.Value())
      ensures from != this ==> forall i :: 0 <= i < |entries| ==> fresh(entries[i])
    {
      if from == this { return; }
      ghost var g := from.With(EntryValues(from.entries));
      Clear();
      MergeFrom(from);
      RequestCopied(g);
    }
  }

  lemma RequestWrittenBehind(target: bytes, f: Fields, n: nat, cs: seq<Cache>)
    ensures target + Write(APPEND_ENTRIES_REQUEST, f.ToMessage(), RequestSizes(n, cs))
         == target + NumberOctets(1, f.term) + PayloadOctets(2, f.leaderId) + NumberOctets(3, f.prevLogIndex)
            + NumberOctets(4, f.prevLogTerm) + WriteMessages(RAFT_LOG_ENTRY, Tag(5, DELIMITED), f.entries, cs)
            + NumberOctets(6, f.leaderCommit) + EncodeUnknowns(f.unknown)
  {
    RequestWritten(f, n, cs);
    var p1, p2, p3 := NumberOctets(1, f.term), PayloadOctets(2, f.leaderId), NumberOctets(3, f.prevLogIndex);
    var p4, p5 := NumberOctets(4, f.prevLogTerm), WriteMessages(RAFT_LOG_ENTRY, Tag(5, DELIMITED), f.entries, cs);
    var p6, p7 := NumberOctets(6, f.leaderCommit), EncodeUnknowns(f.unknown);
    Regroup(target, p1, p2);
    Regroup(target, p1 + p2, p3);
    Regroup(target, p1 + p2 + p3, p4);
    Regroup(target, p1 + p2 + p3 + p4, p5);
    Regroup(target, p1 + p2 + p3 + p4 + p5, p6);
    Regroup(target, p1 + p2 + p3 + p4 + p5 + p6, p7);
  }

  lemma RequestTwoPasses(f: Fields)
    ensures var m := f.ToMessage();
      Write(APPEND_ENTRIES_REQUEST, m, SizePass(APPEND_ENTRIES_REQUEST, m)) == Encode(APPEND_ENTRIES_REQUEST, m)
  {
    AppendEntriesIsGood();
    TwoPasses(APPEND_ENTRIES_REQUEST, f.ToMessage());
  }

  /** `r` has every non-default scalar of `g` and the others of `f`, and the entries and unknown fields of both. */
  predicate Overrides(f: Fields, g: Fields, r: Fields) {
    && r.entries == f.entries + g.entries && r.unknown == f.unknown + g.unknown
    && r.leaderId == (if g.leaderId != [] then g.leaderId else f.leaderId)
    && r.term == (if g.term != 0 then g.term else f.term)
    && r.prevLogIndex == (if g.prevLogIndex != 0 then g.prevLogIndex else f.prevLogIndex)
    && r.prevLogTerm == (if g.prevLogTerm != 0 then g.prevLogTerm else f.prevLogTerm)
    && r.leaderCommit == (if g.leaderCommit != 0 then g.leaderCommit else f.leaderCommit)
  }

  lemma RequestMerged(f: Fields, g: Fields, r: Fields)
    requires Overrides(f, g, r)
    ensures r.ToMessage() == Merge(APPEND_ENTRIES_REQUEST, f.ToMessage(), g.ToMessage())
  {
    MergedByField(APPEND_ENTRIES_REQUEST, f.ToMessage(), g.ToMessage(), r.ToMessage());
  }

  lemma RequestCopied(g: Fields)
    ensures Merge(APPEND_ENTRIES_REQUEST, Default(APPEND_ENTRIES_REQUEST), g.ToMessage()) == g.ToMessage()
  {
    MergedByField(APPEND_ENTRIES_REQUEST, Default(APPEND_ENTRIES_REQUEST), g.ToMessage(), g.ToMessage());
  }

  lemma NextSize(ms: seq<Message>, i: nat)
    requires i < |ms|
    ensures MessagesSize(RAFT_LOG_ENTRY, ms[..i + 1])
         == MessagesSize(RAFT_LOG_ENTRY, ms[..i]) + LengthDelimitedSize(|Encode(RAFT_LOG_ENTRY, ms[i])|)
  {
    LogEntryIsGood();
    SizeIsLength(RAFT_LOG_ENTRY, ms[i]);
    SizeOfOneMore(RAFT_LOG_ENTRY, ms, i);
  }

  /** Octet 42 is the tag of the entries. */
  lemma ExpectTag(b: bytes, ptr: nat)
    requires ptr < |b| && b[ptr] == 42
    ensures ReadTag(b[ptr..]) == Some(TagScan(Tag(5, DELIMITED), 1))
  {
    assert b[ptr..] == Varint(42) + b[ptr + 1..];
    TagRead(Tag(5, DELIMITED), b[ptr + 1..]);
  }

  /** After an entry: either the parse goes on at the top of the loop, or the tag of another entry is read here. */
  lemma PastEntry(m: Message, b: bytes, ptr: nat, r: Option<Message>, q: Option<Parsed<Message>>, m1: Message,
                  next: nat)
    requires ptr <= |b| && Leads(APPEND_ENTRIES_REQUEST, m, Tag(5, DELIMITED), b[ptr..], r)
    requires Yields(APPEND_ENTRIES_REQUEST, m, Tag(5, DELIMITED), b[ptr..], q)
    requires q.Some? ==> ptr <= next && q == Some(Parsed(m1, next - ptr))
    ensures q == None ==> r == None
    ensures q.Some? ==> next <= |b| && Parses(APPEND_ENTRIES_REQUEST, m1, b[next..], r)
    ensures q.Some? && next < |b| && b[next] == 42 ==>
      Leads(APPEND_ENTRIES_REQUEST, m1, Tag(5, DELIMITED), b[next + 1..], r)
  {
    PastRecord(APPEND_ENTRIES_REQUEST, m, Tag(5, DELIMITED), b, ptr, r, q, m1, next);
    if q.Some? && next < |b| && b[next] == 42 {
      ExpectTag(b, next);
      PastTag(APPEND_ENTRIES_REQUEST, m1, b, next, TagScan(Tag(5, DELIMITED), 1), next + 1, r);
    }
  }
}
