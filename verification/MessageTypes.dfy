/** The message types of raft.proto and the request types of namenode.proto, as the generated classes have them:
    field numbers, types and tag sizes, in serialization order. */
module MessageTypes {
  import opened Wire
  import opened Messages

  // ---------------------------------------------------------------- raft.proto

  const RAFT_LOG_ENTRY := Schema([Number(1, 1, UInt64), Number(2, 1, UInt64), Octets(3, 1, false)])

  const REQUEST_VOTE_REQUEST :=
    Schema([Number(1, 1, UInt64), Octets(2, 1, true), Number(3, 1, UInt64), Number(4, 1, UInt64)])

  const REQUEST_VOTE_RESPONSE := Schema([Number(1, 1, UInt64), Number(2, 1, Bool)])

  const APPEND_ENTRIES_REQUEST :=
    Schema([Number(1, 1, UInt64), Octets(2, 1, true), Number(3, 1, UInt64), Number(4, 1, UInt64),
            Subs(5, 1, RAFT_LOG_ENTRY), Number(6, 1, UInt64)])

  const APPEND_ENTRIES_RESPONSE := Schema([Number(1, 1, UInt64), Number(2, 1, Bool), Number(3, 1, UInt64)])

  const INSTALL_SNAPSHOT_REQUEST :=
    Schema([Number(1, 1, UInt64), Octets(2, 1, true), Number(3, 1, UInt64), Number(4, 1, UInt64),
            Octets(5, 1, false)])

  const INSTALL_SNAPSHOT_RESPONSE := Schema([Number(1, 1, UInt64), Number(2, 1, Bool)])

  const FILE_ENTRY :=
    Schema([Octets(1, 1, true), Number(2, 1, Int64), Number(3, 1, Int64), Number(4, 1, Int64), Packed(5, 1)])

  const BLOCK_ENTRY := Schema([Number(1, 1, UInt64), Number(2, 1, Int64), Strings(3, 1)])

  const METADATA_STORE_SNAPSHOT := Schema([Subs(1, 1, FILE_ENTRY), Subs(2, 1, BLOCK_ENTRY)])

  const RAFT_MESSAGE :=
    Schema([Number(1, 1, Enum), Sub(10, 1, REQUEST_VOTE_REQUEST), Sub(11, 1, REQUEST_VOTE_RESPONSE),
            Sub(12, 1, APPEND_ENTRIES_REQUEST), Sub(13, 1, APPEND_ENTRIES_RESPONSE),
            Sub(14, 1, INSTALL_SNAPSHOT_REQUEST), Sub(15, 1, INSTALL_SNAPSHOT_RESPONSE)])

  // ---------------------------------------------------------------- namenode.proto

  /** CreateFileRequest, AllocateBlockRequest, GetFileBlocksRequest, DeleteFileRequest and ListFilesRequest. */
  const ONE_PATH := Schema([Octets(1, 1, true)])

  const REGISTER_DATA_NODE_REQUEST :=
    Schema([Octets(1, 1, true), Octets(2, 1, true), Number(3, 1, Int32), Number(4, 1, Int64)])

  const HEARTBEAT_REQUEST :=
    Schema([Octets(1, 1, true), Number(2, 1, Int64), Number(3, 1, Int64), Number(4, 1, Int64)])

  const BLOCK_REPORT_ITEM := Schema([Number(1, 1, UInt64), Number(2, 1, Int64), Number(3, 1, UInt32)])

  const BLOCK_REPORT_REQUEST := Schema([Octets(1, 1, true), Subs(2, 1, BLOCK_REPORT_ITEM)])

  /** The tags of fields 16 and 18 take two octets. */
  const NAME_NODE_REQUEST :=
    Schema([Number(1, 1, Enum), Number(2, 1, UInt64), Sub(10, 1, ONE_PATH), Sub(11, 1, ONE_PATH),
            Sub(12, 1, ONE_PATH), Sub(13, 1, ONE_PATH), Sub(14, 1, ONE_PATH),
            Sub(15, 1, REGISTER_DATA_NODE_REQUEST), Sub(16, 2, HEARTBEAT_REQUEST), Sub(18, 2, BLOCK_REPORT_REQUEST)])

  // ---------------------------------------------------------------- all of them are good

  predicate Ascending(fields: seq<Field>) {
    forall i, j :: 0 <= i < j < |fields| ==> fields[i].num < fields[j].num
  }

  /** The tag sizes of the generated code: one octet up to field 15, two up to field 2047. */
  predicate PlainField(f: Field) {
    0 < f.num < 2048 && f.tagSize == (if f.num < 16 then 1 else 2)
  }

  lemma TagSizeIsRight(f: Field)
    requires PlainField(f)
    ensures f.tagSize == VarintSize(f.num * 8)
  {
    assert VarintSize(f.num * 8 / 128) == 1;
  }

  lemma GoodFromParts(s: Schema)
    requires Ascending(s.fields)
    requires forall i :: 0 <= i < |s.fields| ==> PlainField(s.fields[i])
    requires forall i :: 0 <= i < |s.fields| && (s.fields[i].Sub? || s.fields[i].Subs?) ==>
      GoodSchema(s.fields[i].schema)
    ensures GoodSchema(s)
  {
    forall i | 0 <= i < |s.fields| ensures GoodField(s.fields[i]) {
      TagSizeIsRight(s.fields[i]);
    }
  }

  lemma LogEntryIsGood()
    ensures GoodSchema(RAFT_LOG_ENTRY)
  {
    GoodFromParts(RAFT_LOG_ENTRY);
  }

  lemma VoteTypesAreGood()
    ensures GoodSchema(REQUEST_VOTE_REQUEST) && GoodSchema(REQUEST_VOTE_RESPONSE)
  {
    GoodFromParts(REQUEST_VOTE_REQUEST);
    GoodFromParts(REQUEST_VOTE_RESPONSE);
  }

  lemma AppendEntriesIsGood()
    ensures GoodSchema(APPEND_ENTRIES_REQUEST)
  {
    LogEntryIsGood();
    GoodFromParts(APPEND_ENTRIES_REQUEST);
  }

  lemma ResponseTypesAreGood()
    ensures GoodSchema(APPEND_ENTRIES_RESPONSE) && GoodSchema(INSTALL_SNAPSHOT_RESPONSE)
  {
    GoodFromParts(APPEND_ENTRIES_RESPONSE);
    GoodFromParts(INSTALL_SNAPSHOT_RESPONSE);
  }

  lemma InstallSnapshotIsGood()
    ensures GoodSchema(INSTALL_SNAPSHOT_REQUEST)
  {
    GoodFromParts(INSTALL_SNAPSHOT_REQUEST);
  }

  lemma RaftMessageIsGood()
    ensures GoodSchema(RAFT_MESSAGE)
  {
    VoteTypesAreGood();
    AppendEntriesIsGood();
    ResponseTypesAreGood();
    InstallSnapshotIsGood();
    GoodFromParts(RAFT_MESSAGE);
  }

  lemma FileEntryIsGood()
    ensures GoodSchema(FILE_ENTRY)
  {
    GoodFromParts(FILE_ENTRY);
  }

  lemma BlockEntryIsGood()
    ensures GoodSchema(BLOCK_ENTRY)
  {
    GoodFromParts(BLOCK_ENTRY);
  }

  lemma SnapshotIsGood()
    ensures GoodSchema(METADATA_STORE_SNAPSHOT)
  {
    FileEntryIsGood();
    BlockEntryIsGood();
    GoodFromParts(METADATA_STORE_SNAPSHOT);
  }

  lemma ClientTypesAreGood()
    ensures GoodSchema(ONE_PATH) && GoodSchema(REGISTER_DATA_NODE_REQUEST)
  {
    GoodFromParts(ONE_PATH);
    GoodFromParts(REGISTER_DATA_NODE_REQUEST);
  }

  lemma HeartbeatIsGood()
    ensures GoodSchema(HEARTBEAT_REQUEST)
  {
    GoodFromParts(HEARTBEAT_REQUEST);
  }

  lemma BlockReportIsGood()
    ensures GoodSchema(BLOCK_REPORT_ITEM) && GoodSchema(BLOCK_REPORT_REQUEST)
  {
    GoodFromParts(BLOCK_REPORT_ITEM);
    GoodFromParts(BLOCK_REPORT_REQUEST);
  }

  lemma NameNodeRequestIsGood()
    ensures GoodSchema(NAME_NODE_REQUEST)
  {
    ClientTypesAreGood();
    HeartbeatIsGood();
    BlockReportIsGood();
    GoodFromParts(NAME_NODE_REQUEST);
  }
}
