/** The message types of the program, each by the octets that begin the records of its fields and by what these hold. */
module MessageDeclarations {
  import opened Bytes
  import opened Wire
  import opened Messages
  import opened Codec
  import opened MessageTypes
  import opened MessageOctets
  import opened BlockMetas
  import opened NodeIds
  import opened NameNodeRequests

  /** The type has these fields, and is written in their records. */
  ghost predicate Described(s: Schema, ds: seq<Decl>) {
    && Declares(s, ds)
    && forall m :: WellTyped(s, m) ==> Encode(s, m) == AllRecords(ds, m.vals) + EncodeUnknowns(m.unknown)
  }

  lemma DescribedBy(s: Schema, ds: seq<Decl>)
    requires |s.fields| == |ds|
    requires forall k :: 0 <= k < |ds| ==>
      ShapeOf(s.fields[k]) == ds[k].shape && TagOctets(TagOf(s.fields[k])) == ds[k].tag
    ensures Described(s, ds)
  {
    DeclaredBy(s, ds);
    forall m | WellTyped(s, m) ensures Encode(s, m) == AllRecords(ds, m.vals) + EncodeUnknowns(m.unknown) {
      MessageIs(s, ds, m);
    }
  }

  const LOG_ENTRY_FIELDS: seq<Decl> :=
    [Decl([8], U64), Decl([16], U64), Decl([26], Raw)]

  lemma LogEntryIs()
    ensures Described(RAFT_LOG_ENTRY, LOG_ENTRY_FIELDS)
  {
    DescribedBy(RAFT_LOG_ENTRY, LOG_ENTRY_FIELDS);
  }

  const VOTE_REQUEST_FIELDS: seq<Decl> :=
    [Decl([8], U64), Decl([18], Text), Decl([24], U64), Decl([32], U64)]

  lemma VoteRequestIs()
    ensures Described(REQUEST_VOTE_REQUEST, VOTE_REQUEST_FIELDS)
  {
    DescribedBy(REQUEST_VOTE_REQUEST, VOTE_REQUEST_FIELDS);
  }

  const VOTE_RESPONSE_FIELDS: seq<Decl> :=
    [Decl([8], U64), Decl([16], Flag)]

  lemma VoteResponseIs()
    ensures Described(REQUEST_VOTE_RESPONSE, VOTE_RESPONSE_FIELDS)
  {
    DescribedBy(REQUEST_VOTE_RESPONSE, VOTE_RESPONSE_FIELDS);
  }

  const APPEND_REQUEST_FIELDS: seq<Decl> :=
    [Decl([8], U64), Decl([18], Text), Decl([24], U64), Decl([32], U64),
     Decl([42], Many(RAFT_LOG_ENTRY)), Decl([48], U64)]

  lemma AppendRequestIs()
    ensures Described(APPEND_ENTRIES_REQUEST, APPEND_REQUEST_FIELDS)
  {
    DescribedBy(APPEND_ENTRIES_REQUEST, APPEND_REQUEST_FIELDS);
  }

  const APPEND_RESPONSE_FIELDS: seq<Decl> :=
    [Decl([8], U64), Decl([16], Flag), Decl([24], U64)]

  lemma AppendResponseIs()
    ensures Described(APPEND_ENTRIES_RESPONSE, APPEND_RESPONSE_FIELDS)
  {
    DescribedBy(APPEND_ENTRIES_RESPONSE, APPEND_RESPONSE_FIELDS);
  }

  const INSTALL_REQUEST_FIELDS: seq<Decl> :=
    [Decl([8], U64), Decl([18], Text), Decl([24], U64), Decl([32], U64), Decl([42], Raw)]

  lemma InstallRequestIs()
    ensures Described(INSTALL_SNAPSHOT_REQUEST, INSTALL_REQUEST_FIELDS)
  {
    DescribedBy(INSTALL_SNAPSHOT_REQUEST, INSTALL_REQUEST_FIELDS);
  }

  const INSTALL_RESPONSE_FIELDS: seq<Decl> :=
    [Decl([8], U64), Decl([16], Flag)]

  lemma InstallResponseIs()
    ensures Described(INSTALL_SNAPSHOT_RESPONSE, INSTALL_RESPONSE_FIELDS)
  {
    DescribedBy(INSTALL_SNAPSHOT_RESPONSE, INSTALL_RESPONSE_FIELDS);
  }

  const FILE_ENTRY_FIELDS: seq<Decl> :=
    [Decl([10], Text), Decl([16], I64), Decl([24], I64), Decl([32], I64), Decl([42], Numbers)]

  lemma FileEntryIs()
    ensures Described(FILE_ENTRY, FILE_ENTRY_FIELDS)
  {
    DescribedBy(FILE_ENTRY, FILE_ENTRY_FIELDS);
  }

  const BLOCK_ENTRY_FIELDS: seq<Decl> :=
    [Decl([8], U64), Decl([16], I64), Decl([26], Texts)]

  lemma BlockEntryIs()
    ensures Described(BLOCK_ENTRY, BLOCK_ENTRY_FIELDS)
  {
    DescribedBy(BLOCK_ENTRY, BLOCK_ENTRY_FIELDS);
  }

  const SNAPSHOT_FIELDS: seq<Decl> :=
    [Decl([10], Many(FILE_ENTRY)), Decl([18], Many(BLOCK_ENTRY))]

  lemma SnapshotIs()
    ensures Described(METADATA_STORE_SNAPSHOT, SNAPSHOT_FIELDS)
  {
    DescribedBy(METADATA_STORE_SNAPSHOT, SNAPSHOT_FIELDS);
  }

  const RAFT_MESSAGE_FIELDS: seq<Decl> :=
    [Decl([8], I32), Decl([82], One(REQUEST_VOTE_REQUEST)), Decl([90], One(REQUEST_VOTE_RESPONSE)),
     Decl([98], One(APPEND_ENTRIES_REQUEST)), Decl([106], One(APPEND_ENTRIES_RESPONSE)),
     Decl([114], One(INSTALL_SNAPSHOT_REQUEST)), Decl([122], One(INSTALL_SNAPSHOT_RESPONSE))]

  lemma RaftMessageIs()
    ensures Described(RAFT_MESSAGE, RAFT_MESSAGE_FIELDS)
  {
    DescribedBy(RAFT_MESSAGE, RAFT_MESSAGE_FIELDS);
  }

  const ONE_PATH_FIELDS: seq<Decl> :=
    [Decl([10], Text)]

  lemma OnePathIs()
    ensures Described(ONE_PATH, ONE_PATH_FIELDS)
  {
    DescribedBy(ONE_PATH, ONE_PATH_FIELDS);
  }

  const REGISTRATION_FIELDS: seq<Decl> :=
    [Decl([10], Text), Decl([18], Text), Decl([24], I32), Decl([32], I64)]

  lemma RegistrationIs()
    ensures Described(REGISTER_DATA_NODE_REQUEST, REGISTRATION_FIELDS)
  {
    DescribedBy(REGISTER_DATA_NODE_REQUEST, REGISTRATION_FIELDS);
  }

  const HEARTBEAT_FIELDS: seq<Decl> :=
    [Decl([10], Text), Decl([16], I64), Decl([24], I64), Decl([32], I64)]

  lemma HeartbeatIs()
    ensures Described(HEARTBEAT_REQUEST, HEARTBEAT_FIELDS)
  {
    DescribedBy(HEARTBEAT_REQUEST, HEARTBEAT_FIELDS);
  }

  const REPORT_ITEM_FIELDS: seq<Decl> :=
    [Decl([8], U64), Decl([16], I64), Decl([24], U32)]

  lemma ReportItemIs()
    ensures Described(BLOCK_REPORT_ITEM, REPORT_ITEM_FIELDS)
  {
    DescribedBy(BLOCK_REPORT_ITEM, REPORT_ITEM_FIELDS);
  }

  const BLOCK_REPORT_FIELDS: seq<Decl> :=
    [Decl([10], Text), Decl([18], Many(BLOCK_REPORT_ITEM))]

  lemma BlockReportIs()
    ensures Described(BLOCK_REPORT_REQUEST, BLOCK_REPORT_FIELDS)
  {
    DescribedBy(BLOCK_REPORT_REQUEST, BLOCK_REPORT_FIELDS);
  }

  const NAME_NODE_REQUEST_FIELDS: seq<Decl> :=
    [Decl([8], I32), Decl([16], U64), Decl([82], One(ONE_PATH)), Decl([90], One(ONE_PATH)),
     Decl([98], One(ONE_PATH)), Decl([106], One(ONE_PATH)), Decl([114], One(ONE_PATH)),
     Decl([122], One(REGISTER_DATA_NODE_REQUEST)), Decl([130, 1], One(HEARTBEAT_REQUEST)),
     Decl([146, 1], One(BLOCK_REPORT_REQUEST))]

  lemma NameNodeRequestIs()
    ensures Described(NAME_NODE_REQUEST, NAME_NODE_REQUEST_FIELDS)
  {
    TwoOctets(Tag(16, DELIMITED));
    TwoOctets(Tag(18, DELIMITED));
    DescribedBy(NAME_NODE_REQUEST, NAME_NODE_REQUEST_FIELDS);
  }

  // ---------------------------------------------------------------- what the client sends

  /** A request that holds one submessage: its operation, its number, and the submessage in its record. */
  lemma RequestRecords(op: nat, requestId: nat, k: nat, sub: Message)
    requires 0 < op < 128 && 0 < requestId < 128 && 7 <= k < 10
    requires WellTyped(NAME_NODE_REQUEST, Request(op, requestId, k, sub))
    ensures Encode(NAME_NODE_REQUEST, Request(op, requestId, k, sub))
         == [8, op, 16, requestId]
            + match k
              case 7 => Delimited([122], Encode(REGISTER_DATA_NODE_REQUEST, sub))
              case 8 => Delimited([130, 1], Encode(HEARTBEAT_REQUEST, sub))
              case _ => Delimited([146, 1], Encode(BLOCK_REPORT_REQUEST, sub))
  {
    WrittenInRecords(Request(op, requestId, k, sub));
    RequestValues(op, requestId, k, sub);
    NumbersAndOne(NAME_NODE_REQUEST_FIELDS, Request(op, requestId, k, sub).vals, op, requestId, k);
    SubmessageRecord(k, sub);
  }

  lemma WrittenInRecords(m: Message)
    requires WellTyped(NAME_NODE_REQUEST, m) && m.unknown == []
    ensures Encode(NAME_NODE_REQUEST, m) == AllRecords(NAME_NODE_REQUEST_FIELDS, m.vals)
  {
    NameNodeRequestIs();
    assert AllRecords(NAME_NODE_REQUEST_FIELDS, m.vals) + [] == AllRecords(NAME_NODE_REQUEST_FIELDS, m.vals);
  }

  lemma RequestValues(op: nat, requestId: nat, k: nat, sub: Message)
    requires requestId < 128 && 2 <= k < 10
    ensures var vs := Request(op, requestId, k, sub).vals;
      && |vs| == 10 && vs[0] == Num(op) && vs[1] == Num(requestId) && vs[k] == Msg(Some(sub))
      && forall i :: 2 <= i < 10 && i != k ==> vs[i] == Msg(None)
  {}

  lemma SubmessageRecord(k: nat, sub: Message)
    requires 7 <= k < 10
    ensures Records(NAME_NODE_REQUEST_FIELDS[k], Msg(Some(sub)))
         == match k
            case 7 => Delimited([122], Encode(REGISTER_DATA_NODE_REQUEST, sub))
            case 8 => Delimited([130, 1], Encode(HEARTBEAT_REQUEST, sub))
            case _ => Delimited([146, 1], Encode(BLOCK_REPORT_REQUEST, sub))
  {}

  lemma NumbersAndOne(ds: seq<Decl>, vs: seq<Value>, op: nat, requestId: nat, k: nat)
    requires 0 < op < 128 && 0 < requestId < 128 && 2 <= k < |ds| == |vs|
    requires ds[0] == Decl([8], I32) && ds[1] == Decl([16], U64) && vs[0] == Num(op) && vs[1] == Num(requestId)
    requires forall i :: 2 <= i < |vs| && i != k ==> vs[i] == Msg(None)
    ensures AllRecords(ds, vs) == [8, op, 16, requestId] + Records(ds[k], vs[k])
  {
    SmallNumber(ds[0], op);
    SmallNumber(ds[1], requestId);
    TwoNumbers(ds, vs);
    OneBehind(ds, vs, k);
    FourOctets(op, requestId, Records(ds[k], vs[k]));
  }

  lemma FourOctets(op: byte, requestId: byte, rest: bytes)
    ensures [8] + [op] + ([16] + [requestId]) + rest == [8, op, 16, requestId] + rest
  {}

  lemma OneBehind(ds: seq<Decl>, vs: seq<Value>, k: nat)
    requires 2 <= k < |ds| == |vs| && forall i :: 2 <= i < |vs| && i != k ==> vs[i] == Msg(None)
    ensures AllRecords(ds[2..], vs[2..]) == Records(ds[k], vs[k])
  {
    OnlyOne(ds[2..], vs[2..], k - 2);
  }

  lemma SmallNumber(d: Decl, n: nat)
    requires 0 < n < 128
    ensures Records(d, Num(n)) == d.tag + [n]
  {}

  lemma TwoNumbers(ds: seq<Decl>, vs: seq<Value>)
    requires |ds| == |vs| >= 2
    ensures AllRecords(ds, vs) == Records(ds[0], vs[0]) + Records(ds[1], vs[1]) + AllRecords(ds[2..], vs[2..])
  {
    assert ds[1..][1..] == ds[2..] && vs[1..][1..] == vs[2..];
    assert AllRecords(ds[1..], vs[1..]) == Records(ds[1], vs[1]) + AllRecords(ds[2..], vs[2..]);
  }

  /** Absent submessages leave no octets. */
  lemma {:induction false} OnlyOne(ds: seq<Decl>, vs: seq<Value>, k: nat)
    requires |ds| == |vs| && k < |ds| && forall i :: 0 <= i < |vs| && i != k ==> vs[i] == Msg(None)
    ensures AllRecords(ds, vs) == Records(ds[k], vs[k])
    decreases |ds|
  {
    if k == 0 {
      AllAbsent(ds[1..], vs[1..]);
    } else {
      OnlyOne(ds[1..], vs[1..], k - 1);
    }
  }

  lemma {:induction false} AllAbsent(ds: seq<Decl>, vs: seq<Value>)
    requires |ds| == |vs| && forall i :: 0 <= i < |vs| ==> vs[i] == Msg(None)
    ensures AllRecords(ds, vs) == []
    decreases |ds|
  {
    if ds != [] {
      AllAbsent(ds[1..], vs[1..]);
    }
  }

  /** Registration: operation 5, request 1. */
  lemma RegistrationOctets(host: bytes, port: int32, freeSpace: int64)
    requires ValidUtf8(host)
    ensures var id, request := NodeId(host, port), RegisterRequest(NodeId(host, port), freeSpace);
      && request.Some?
      && Encode(NAME_NODE_REQUEST, request.value)
         == [8, 5, 16, 1]
            + Delimited([122], Encode(REGISTER_DATA_NODE_REQUEST,
                                      Message([Str(id), Str(host), Num(port), Num(freeSpace)], [])))
  {
    RegistrationNames(host, port, freeSpace);
    NodeIdIsUtf8(host, port);
    RegistrationIsWellTyped(NodeId(host, port), host, port, freeSpace);
    RequestRecords(REGISTER_DN, 1, 7, Message([Str(NodeId(host, port)), Str(host), Num(port), Num(freeSpace)], []));
  }

  /** Heartbeat: operation 6, request 3. */
  lemma HeartbeatOctets(nodeId: bytes, freeSpace: int64, blocks: nat)
    requires ValidUtf8(nodeId)
    ensures Encode(NAME_NODE_REQUEST, HeartbeatRequest(nodeId, freeSpace, blocks))
         == [8, 6, 16, 3]
            + Delimited([130, 1], Encode(HEARTBEAT_REQUEST, Message([Str(nodeId), Num(0), Num(freeSpace),
                                  Num((blocks + 0x8000_0000) % 0x1_0000_0000 - 0x8000_0000)], [])))
  {
    HeartbeatIsWellTyped(nodeId, freeSpace, blocks);
    RequestRecords(HEARTBEAT, 3, 8, HeartbeatRequest(nodeId, freeSpace, blocks).vals[8].m.value);
  }

  /** Block report: operation 8, request 2. */
  lemma ReportOctets(nodeId: bytes, blocks: seq<BlockMeta>)
    requires ValidUtf8(nodeId)
    ensures Encode(NAME_NODE_REQUEST, ReportRequest(nodeId, blocks))
         == [8, 8, 16, 2]
            + Delimited([146, 1], Encode(BLOCK_REPORT_REQUEST, Message([Str(nodeId), Msgs(ReportItems(blocks))], [])))
  {
    RequestIsWellTyped(nodeId, blocks);
    RequestRecords(BLOCK_REPORT, 2, 9, BlockReport(nodeId, blocks));
  }
}
