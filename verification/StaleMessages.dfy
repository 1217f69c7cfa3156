/** What stale sizes do to the messages of the program, and inputs on which they do it. */
module StaleMessages {
  import opened Wire
  import opened Messages
  import opened Codec
  import opened CodecSizes
  import opened CodecCaches
  import opened CodecStale
  import opened MessageTypes
  import AppendEntriesRequests
  import FileEntries
  import RaftLogEntries

  // ---------------------------------------------------------------- the types are separable

  lemma UnpackedIsSeparable(s: Schema)
    requires GoodSchema(s) && Unpacked(s)
    ensures Separable(s)
  {}

  lemma LogEntryIsUnpacked()
    ensures Unpacked(RAFT_LOG_ENTRY)
  {}

  lemma AppendEntriesIsSeparable()
    ensures Unpacked(APPEND_ENTRIES_REQUEST) && Separable(APPEND_ENTRIES_REQUEST)
  {
    LogEntryIsUnpacked();
    AppendEntriesIsGood();
    UnpackedIsSeparable(APPEND_ENTRIES_REQUEST);
  }

  lemma RaftMessageIsSeparable()
    ensures Separable(RAFT_MESSAGE)
  {
    AppendEntriesIsSeparable();
    RaftMessageIsGood();
    assert Unpacked(REQUEST_VOTE_REQUEST) && Unpacked(REQUEST_VOTE_RESPONSE) && Unpacked(APPEND_ENTRIES_RESPONSE);
    assert Unpacked(INSTALL_SNAPSHOT_REQUEST) && Unpacked(INSTALL_SNAPSHOT_RESPONSE);
    UnpackedIsSeparable(RAFT_MESSAGE);
  }

  lemma NameNodeRequestIsSeparable()
    ensures Separable(NAME_NODE_REQUEST)
  {
    NameNodeRequestIsGood();
    assert Unpacked(ONE_PATH) && Unpacked(REGISTER_DATA_NODE_REQUEST) && Unpacked(HEARTBEAT_REQUEST);
    assert Unpacked(BLOCK_REPORT_ITEM);
    assert Unpacked(BLOCK_REPORT_REQUEST);
    UnpackedIsSeparable(NAME_NODE_REQUEST);
  }

  lemma FileEntryIsSeparable()
    ensures Separable(FILE_ENTRY)
    ensures forall t :: PackedIn(FILE_ENTRY, t) ==> t == Tag(5, DELIMITED)
  {
    FileEntryIsGood();
  }

  /** The packed field of a file entry has number 5, the fields of the snapshot around it have 1 and 2. */
  lemma SnapshotIsSeparable()
    ensures Separable(METADATA_STORE_SNAPSHOT)
  {
    SnapshotIsGood();
    FileEntryIsSeparable();
    assert Unpacked(BLOCK_ENTRY);
  }

  // ---------------------------------------------------------------- requests with log entries

  /** An AppendEntriesRequest whose entries store the sizes `cs`, whatever they are. */
  lemma EntrySizesMatter(f: AppendEntriesRequests.Fields, n: nat, cs: seq<Cache>)
    requires WellTyped(APPEND_ENTRIES_REQUEST, f.ToMessage()) && |cs| == |f.entries|
    requires forall i :: 0 <= i < |cs| ==> cs[i] == RaftLogEntries.FlatSizes(cs[i].size)
    ensures Write(APPEND_ENTRIES_REQUEST, f.ToMessage(), AppendEntriesRequests.RequestSizes(n, cs))
            == Encode(APPEND_ENTRIES_REQUEST, f.ToMessage())
       <==> forall i :: 0 <= i < |cs| ==> cs[i].size == |Encode(RAFT_LOG_ENTRY, f.entries[i])|
  {
    var s, m := APPEND_ENTRIES_REQUEST, f.ToMessage();
    var c, d := AppendEntriesRequests.RequestSizes(n, cs), CacheMessages(RAFT_LOG_ENTRY, f.entries);
    assert Fits(s.fields[4], m.vals[4]);
    AppendEntriesRequests.RequestSizePass(f);
    EntriesStore(f.entries);
    FlatCaches(n, |Encode(s, m)|, cs, d);
    AppendEntriesIsSeparable();
    StaleSizes(s, m, c);
  }

  /** Requests store the same sizes exactly when all their entries do. */
  lemma FlatCaches(n: nat, k: nat, cs: seq<Cache>, ds: seq<Cache>)
    requires |cs| == |ds| && forall i :: 0 <= i < |cs| ==> cs[i].fields == ds[i].fields == [Nothing, Nothing, Nothing]
    ensures var c, d := AppendEntriesRequests.RequestSizes(n, cs), AppendEntriesRequests.RequestSizes(k, ds);
      && AllAlike(c.fields, d.fields)
      && (c.fields == d.fields <==> forall i :: 0 <= i < |cs| ==> cs[i].size == ds[i].size)
  {
    var c, d := AppendEntriesRequests.RequestSizes(n, cs), AppendEntriesRequests.RequestSizes(k, ds);
    assert Alike(Many(cs), Many(ds));
    assert c.fields[4] == Many(cs) && d.fields[4] == Many(ds);
    if forall i :: 0 <= i < |cs| ==> cs[i].size == ds[i].size {
      assert cs == ds;
    }
  }

  /** What a size pass stores for an entry. */
  function Stored(m: Message): Cache {
    RaftLogEntries.FlatSizes(|Encode(RAFT_LOG_ENTRY, m)|)
  }

  lemma EntriesStore(ms: seq<Message>)
    requires forall i :: 0 <= i < |ms| ==> WellTyped(RAFT_LOG_ENTRY, ms[i])
    ensures forall i :: 0 <= i < |ms| ==>
      CacheMessages(RAFT_LOG_ENTRY, ms)[i] == Stored(ms[i])
  {
    forall i | 0 <= i < |ms|
      ensures CacheMessages(RAFT_LOG_ENTRY, ms)[i] == Stored(ms[i])
    {
      CacheMessagesAt(RAFT_LOG_ENTRY, ms, i);
      EntryStores(ms[i]);
    }
  }

  lemma EntryStores(m: Message)
    requires WellTyped(RAFT_LOG_ENTRY, m)
    ensures SizePass(RAFT_LOG_ENTRY, m) == Stored(m)
  {
    var s := RAFT_LOG_ENTRY;
    assert Fits(s.fields[0], m.vals[0]) && Fits(s.fields[1], m.vals[1]) && Fits(s.fields[2], m.vals[2]);
    RaftLogEntries.EntryWritten(m.vals[0].n, m.vals[1].n, m.vals[2].b, m.unknown, 0);
    assert m == RaftLogEntries.Entry(m.vals[0].n, m.vals[1].n, m.vals[2].b, m.unknown);
  }

  /** Two entries that change places after the size pass.  The size of the request stays the same, and so does every
      size around the entries; but it is written right if and only if the two entries are equally long. */
  lemma SwappedEntries(was: AppendEntriesRequests.Fields, a: Message, b: Message)
    requires was.entries == [a, b] && WellTyped(APPEND_ENTRIES_REQUEST, was.ToMessage())
    ensures var s, now := APPEND_ENTRIES_REQUEST, was.(entries := [b, a]);
      && |Encode(s, now.ToMessage())| == |Encode(s, was.ToMessage())|
      && (Write(s, now.ToMessage(), SizePass(s, was.ToMessage())) == Encode(s, now.ToMessage())
          <==> |Encode(RAFT_LOG_ENTRY, a)| == |Encode(RAFT_LOG_ENTRY, b)|)
  {
    var now := was.(entries := [b, a]);
    SwappedIsWellTyped(was, a, b);
    SwappedHasSameSize(was, a, b);
    var cs := [Stored(a), Stored(b)];
    AppendEntriesRequests.RequestSizePass(was);
    TwoStore(a, b);
    EntrySizesMatter(now, |Encode(APPEND_ENTRIES_REQUEST, was.ToMessage())|, cs);
    assert now.entries[0] == b && now.entries[1] == a;
  }

  lemma TwoStore(a: Message, b: Message)
    requires WellTyped(RAFT_LOG_ENTRY, a) && WellTyped(RAFT_LOG_ENTRY, b)
    ensures CacheMessages(RAFT_LOG_ENTRY, [a, b]) == [Stored(a), Stored(b)]
  {
    CacheMessagesAt(RAFT_LOG_ENTRY, [a, b], 0);
    CacheMessagesAt(RAFT_LOG_ENTRY, [a, b], 1);
    EntryStores(a);
    EntryStores(b);
  }

  lemma SwappedHasSameSize(was: AppendEntriesRequests.Fields, a: Message, b: Message)
    requires was.entries == [a, b]
    ensures |Encode(APPEND_ENTRIES_REQUEST, was.(entries := [b, a]).ToMessage())|
         == |Encode(APPEND_ENTRIES_REQUEST, was.ToMessage())|
  {
    AppendEntriesRequests.RequestSize(was);
    AppendEntriesRequests.RequestSize(was.(entries := [b, a]));
    SizesOfTwo(RAFT_LOG_ENTRY, a, b);
    SizesOfTwo(RAFT_LOG_ENTRY, b, a);
  }

  lemma SwappedIsWellTyped(was: AppendEntriesRequests.Fields, a: Message, b: Message)
    requires was.entries == [a, b] && WellTyped(APPEND_ENTRIES_REQUEST, was.ToMessage())
    ensures WellTyped(RAFT_LOG_ENTRY, a) && WellTyped(RAFT_LOG_ENTRY, b)
    ensures WellTyped(APPEND_ENTRIES_REQUEST, was.(entries := [b, a]).ToMessage())
  {
    var s, m, m' := APPEND_ENTRIES_REQUEST, was.ToMessage(), was.(entries := [b, a]).ToMessage();
    assert Fits(s.fields[4], m.vals[4]);
    assert WellTyped(RAFT_LOG_ENTRY, was.entries[0]) && WellTyped(RAFT_LOG_ENTRY, was.entries[1]);
    forall k | 0 <= k < 6 ensures Fits(s.fields[k], m'.vals[k]) {
      if k != 4 {
        assert m'.vals[k] == m.vals[k];
      }
    }
  }

  lemma SizesOfTwo(s: Schema, a: Message, b: Message)
    ensures MessagesSize(s, [a, b]) == LengthDelimitedSize(ByteSize(s, a)) + LengthDelimitedSize(ByteSize(s, b))
  {
    assert [a, b][1..] == [b] && [b][1..] == [];
    assert MessagesSize(s, [b]) == LengthDelimitedSize(ByteSize(s, b)) + MessagesSize(s, []);
  }

  lemma {:induction false} OnlyEntriesAreWellTyped(a: Message, b: Message)
    requires WellTyped(RAFT_LOG_ENTRY, a) && WellTyped(RAFT_LOG_ENTRY, b)
    ensures WellTyped(APPEND_ENTRIES_REQUEST, AppendEntriesRequests.Fields(0, [], 0, 0, [a, b], 0, []).ToMessage())
  {
    var m := AppendEntriesRequests.Fields(0, [], 0, 0, [a, b], 0, []).ToMessage();
    forall k | 0 <= k < 6 ensures Fits(APPEND_ENTRIES_REQUEST.fields[k], m.vals[k]) {}
  }

  /** So equal sizes of the whole are not enough: entries of term 0 and term 1, in a request that is empty but for
      them, exchanged. */
  lemma EqualSizesAreNotEnough()
    ensures var a, b := RaftLogEntries.Entry(0, 0, [], []), RaftLogEntries.Entry(1, 0, [], []);
      var was := AppendEntriesRequests.Fields(0, [], 0, 0, [a, b], 0, []);
      var s, now := APPEND_ENTRIES_REQUEST, was.(entries := [b, a]);
      && |Encode(s, now.ToMessage())| == |Encode(s, was.ToMessage())|
      && Write(s, now.ToMessage(), SizePass(s, was.ToMessage())) != Encode(s, now.ToMessage())
  {
    var a, b := RaftLogEntries.Entry(0, 0, [], []), RaftLogEntries.Entry(1, 0, [], []);
    var was := AppendEntriesRequests.Fields(0, [], 0, 0, [a, b], 0, []);
    OnlyEntriesAreWellTyped(a, b);
    RaftLogEntries.EntrySize(0, 0, [], []);
    RaftLogEntries.EntrySize(1, 0, [], []);
    SwappedEntries(was, a, b);
  }

  // ---------------------------------------------------------------- file entries

  /** A file entry changed after its size pass is written right if and only if the packed length of its blocks is what
      it was; all other fields may change as they like. */
  lemma PackedSizeMatters(was: FileEntries.Fields, now: FileEntries.Fields)
    requires WellTyped(FILE_ENTRY, now.ToMessage())
    ensures Write(FILE_ENTRY, now.ToMessage(), SizePass(FILE_ENTRY, was.ToMessage()))
            == Encode(FILE_ENTRY, now.ToMessage())
       <==> PackedSize(now.blocks) == PackedSize(was.blocks)
  {
    FileEntries.EntrySizePass(was);
    FileEntries.EntrySizePass(now);
    FileEntryIsSeparable();
    var c, d := SizePass(FILE_ENTRY, was.ToMessage()), SizePass(FILE_ENTRY, now.ToMessage());
    assert AllAlike(c.fields, d.fields);
    StaleSizes(FILE_ENTRY, now.ToMessage(), c);
    assert c.fields[4] == PackedBytes(PackedSize(was.blocks)) && d.fields[4] == PackedBytes(PackedSize(now.blocks));
  }

  /** Blocks given to a file entry that had none in the size pass are not written at all: the stored zero suppresses
      the field. */
  lemma LateBlocksAreLost(now: FileEntries.Fields)
    ensures Write(FILE_ENTRY, now.ToMessage(), SizePass(FILE_ENTRY, now.(blocks := []).ToMessage()))
         == Encode(FILE_ENTRY, now.(blocks := []).ToMessage())
  {
    var was := now.(blocks := []);
    FileEntries.EntrySizePass(was);
    FileEntries.EntryWritten(now, |Encode(FILE_ENTRY, was.ToMessage())|, 0);
    FileEntries.EntryWritten(was, |Encode(FILE_ENTRY, was.ToMessage())|, 0);
    FileEntries.EntryTwoPasses(was);
  }
}
