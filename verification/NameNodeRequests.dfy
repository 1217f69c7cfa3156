/** The requests a DataNode sends to the NameNode, and the block report from end to end: its octets decode to the
    index it was built from. */
module NameNodeRequests {
  import opened Bytes
  import opened BlockMetas
  import opened Wire
  import opened Messages
  import opened Codec
  import opened CodecLocality
  import opened CodecFields
  import opened CodecTurns
  import opened CodecRoundTrip
  import opened MessageTypes
  import opened NodeIds

  const REGISTER_DN := 5
  const HEARTBEAT := 6
  const BLOCK_REPORT := 8

  /** A NameNodeRequest with one of its submessages, that of field `k` in the order of declaration, present. */
  function Request(op: int, requestId: uint64, k: nat, sub: Message): (m: Message)
    requires 2 <= k < 10
    ensures |m.vals| == |NAME_NODE_REQUEST.fields|
  {
    Bare(op, requestId).(vals := Bare(op, requestId).vals[k := Msg(Some(sub))])
  }

  /** A NameNodeRequest with no submessage. */
  function Bare(op: int, requestId: uint64): (m: Message)
    ensures |m.vals| == |NAME_NODE_REQUEST.fields|
  {
    Message([Num(op), Num(requestId), Msg(None), Msg(None), Msg(None), Msg(None), Msg(None), Msg(None), Msg(None),
             Msg(None)], [])
  }

  /** RegisterSelf: None when stoi throws. */
  function RegisterRequest(nodeId: bytes, freeSpace: int64): Option<Message> {
    match Split(nodeId)
    case StoiThrows => None
    case Unknown => Some(Request(REGISTER_DN, 1, 7, Message([Str(nodeId), Str([]), Num(0), Num(freeSpace)], [])))
    case HostPort(host, port) =>
      Some(Request(REGISTER_DN, 1, 7, Message([Str(nodeId), Str(host), Num(port), Num(freeSpace)], [])))
  }

  /** SendHeartbeat: the timestamp is never set, and the number of blocks passes through an int32_t. */
  function HeartbeatRequest(nodeId: bytes, freeSpace: int64, blocks: nat): Message {
    Request(HEARTBEAT, 3, 8,
            Message([Str(nodeId), Num(0), Num(freeSpace), Num(Signed(blocks % TWO_32, TWO_31))], []))
  }

  // ---------------------------------------------------------------- registration and heartbeat, decoded

  /** The fields of the submessage in field `k` of a request. */
  function SubFields(m: Message, k: nat): seq<Value> {
    if k < |m.vals| && m.vals[k].Msg? && m.vals[k].m.Some? then m.vals[k].m.value.vals else []
  }

  lemma RegistrationIsWellTyped(nodeId: bytes, host: bytes, port: int32, freeSpace: int64)
    requires ValidUtf8(nodeId) && ValidUtf8(host)
    ensures WellTyped(NAME_NODE_REQUEST,
                      Request(REGISTER_DN, 1, 7, Message([Str(nodeId), Str(host), Num(port), Num(freeSpace)], [])))
  {
    var sub := Message([Str(nodeId), Str(host), Num(port), Num(freeSpace)], []);
    assert WellTyped(REGISTER_DATA_NODE_REQUEST, sub);
    var m := Request(REGISTER_DN, 1, 7, sub);
    forall k | 0 <= k < 10 ensures Fits(NAME_NODE_REQUEST.fields[k], m.vals[k]) {}
  }

  /** A node that was given `host` and `port` does register, and what it sends names that host and that port. */
  lemma RegistrationNames(host: bytes, port: int32, freeSpace: int64)
    ensures RegisterRequest(NodeId(host, port), freeSpace)
         == Some(Request(REGISTER_DN, 1, 7,
                         Message([Str(NodeId(host, port)), Str(host), Num(port), Num(freeSpace)], [])))
  {
    NodeIdRoundTrip(host, port);
  }

  /** And the NameNode decodes what was sent. */
  lemma RegistrationDecodes(host: bytes, port: int32, freeSpace: int64, m: Message)
    requires ValidUtf8(host) && RegisterRequest(NodeId(host, port), freeSpace) == Some(m)
    requires |Encode(NAME_NODE_REQUEST, m)| <= MAX_SIZE
    ensures Parse(NAME_NODE_REQUEST, Encode(NAME_NODE_REQUEST, m)) == Some(m)
    ensures SubFields(m, 7) == [Str(NodeId(host, port)), Str(host), Num(port), Num(freeSpace)]
  {
    RegistrationNames(host, port, freeSpace);
    NodeIdIsUtf8(host, port);
    RegistrationIsWellTyped(NodeId(host, port), host, port, freeSpace);
    NameNodeRequestIsGood();
    RoundTrip(NAME_NODE_REQUEST, m);
  }

  lemma HeartbeatIsWellTyped(nodeId: bytes, freeSpace: int64, blocks: nat)
    requires ValidUtf8(nodeId)
    ensures WellTyped(NAME_NODE_REQUEST, HeartbeatRequest(nodeId, freeSpace, blocks))
  {
    var m := HeartbeatRequest(nodeId, freeSpace, blocks);
    assert WellTyped(HEARTBEAT_REQUEST, m.vals[8].m.value);
    forall k | 0 <= k < 10 ensures Fits(NAME_NODE_REQUEST.fields[k], m.vals[k]) {}
  }

  /** A heartbeat tells the number of blocks if and only if it is below 2^31; it never tells the time. */
  lemma HeartbeatDecodes(nodeId: bytes, freeSpace: int64, blocks: nat)
    requires ValidUtf8(nodeId) && |Encode(NAME_NODE_REQUEST, HeartbeatRequest(nodeId, freeSpace, blocks))| <= MAX_SIZE
    ensures var d := Parse(NAME_NODE_REQUEST, Encode(NAME_NODE_REQUEST, HeartbeatRequest(nodeId, freeSpace, blocks)));
      && d.Some? && |SubFields(d.value, 8)| == 4
      && SubFields(d.value, 8)[..3] == [Str(nodeId), Num(0), Num(freeSpace)]
      && (SubFields(d.value, 8)[3] == Num(blocks) <==> blocks < TWO_31)
  {
    HeartbeatIsWellTyped(nodeId, freeSpace, blocks);
    NameNodeRequestIsGood();
    RoundTrip(NAME_NODE_REQUEST, HeartbeatRequest(nodeId, freeSpace, blocks));
  }

  // ---------------------------------------------------------------- the block report

  function ReportItem(b: BlockMeta): Message {
    Message([Num(b.block_id), Num(b.size), Num(b.crc32)], [])
  }

  function ReportItems(blocks: seq<BlockMeta>): (ms: seq<Message>)
    ensures |ms| == |blocks| && forall i :: 0 <= i < |ms| ==> ms[i] == ReportItem(blocks[i])
  {
    seq(|blocks|, i requires 0 <= i < |blocks| => ReportItem(blocks[i]))
  }

  function BlockReport(nodeId: bytes, blocks: seq<BlockMeta>): Message {
    Message([Str(nodeId), Msgs(ReportItems(blocks))], [])
  }

  function ReportRequest(nodeId: bytes, blocks: seq<BlockMeta>): Message {
    Request(BLOCK_REPORT, 2, 9, BlockReport(nodeId, blocks))
  }

  /** What the receiver of a request reads in its block report: the sender, and the reported blocks. */
  datatype Report = Report(op: int, requestId: int, nodeId: bytes, blocks: seq<(int, int, int)>)

  function Triple(m: Message): (int, int, int) {
    if |m.vals| == 3 && m.vals[0].Num? && m.vals[1].Num? && m.vals[2].Num?
    then (m.vals[0].n, m.vals[1].n, m.vals[2].n) else (0, 0, 0)
  }

  function ReadReport(m: Message): Option<Report> {
    if |m.vals| != 10 || !m.vals[0].Num? || !m.vals[1].Num? || !m.vals[9].Msg? || m.vals[9].m.None? then None
    else
      var r := m.vals[9].m.value;
      if |r.vals| != 2 || !r.vals[0].Str? || !r.vals[1].Msgs? then None
      else
        Some(Report(m.vals[0].n, m.vals[1].n, r.vals[0].b, ReadTriples(r.vals[1].ms)))
  }

  function ReadTriples(ms: seq<Message>): (ts: seq<(int, int, int)>)
    ensures |ts| == |ms|
  {
    seq(|ms|, i requires 0 <= i < |ms| => Triple(ms[i]))
  }

  function Triples(blocks: seq<BlockMeta>): seq<(int, int, int)> {
    seq(|blocks|, i requires 0 <= i < |blocks| => (blocks[i].block_id, blocks[i].size, blocks[i].crc32))
  }

  lemma ReportReads(nodeId: bytes, blocks: seq<BlockMeta>)
    ensures ReadReport(ReportRequest(nodeId, blocks)) == Some(Report(BLOCK_REPORT, 2, nodeId, Triples(blocks)))
  {
    assert ReadTriples(ReportItems(blocks)) == Triples(blocks);
  }

  lemma ItemIsWellTyped(b: BlockMeta)
    ensures WellTyped(BLOCK_REPORT_ITEM, ReportItem(b))
  {}

  lemma ReportIsWellTyped(nodeId: bytes, blocks: seq<BlockMeta>)
    requires ValidUtf8(nodeId)
    ensures WellTyped(BLOCK_REPORT_REQUEST, BlockReport(nodeId, blocks))
  {
    forall i | 0 <= i < |blocks| ensures WellTyped(BLOCK_REPORT_ITEM, ReportItems(blocks)[i]) {
      ItemIsWellTyped(blocks[i]);
    }
  }

  lemma RequestIsWellTyped(nodeId: bytes, blocks: seq<BlockMeta>)
    requires ValidUtf8(nodeId)
    ensures WellTyped(NAME_NODE_REQUEST, ReportRequest(nodeId, blocks))
  {
    ReportIsWellTyped(nodeId, blocks);
    var m := ReportRequest(nodeId, blocks);
    forall k | 0 <= k < 10 ensures Fits(NAME_NODE_REQUEST.fields[k], m.vals[k]) {}
  }

  /** With an id that is a valid string, the octets of the report decode to the request, and its triples are those
      of the index, in order. */
  lemma ReportDecodes(nodeId: bytes, blocks: seq<BlockMeta>)
    requires ValidUtf8(nodeId) && |Encode(NAME_NODE_REQUEST, ReportRequest(nodeId, blocks))| <= MAX_SIZE
    ensures var b := Encode(NAME_NODE_REQUEST, ReportRequest(nodeId, blocks));
      && Parse(NAME_NODE_REQUEST, b).Some?
      && ReadReport(Parse(NAME_NODE_REQUEST, b).value) == Some(Report(BLOCK_REPORT, 2, nodeId, Triples(blocks)))
  {
    RequestIsWellTyped(nodeId, blocks);
    NameNodeRequestIsGood();
    RoundTrip(NAME_NODE_REQUEST, ReportRequest(nodeId, blocks));
    ReportReads(nodeId, blocks);
  }

  // ---------------------------------------------------------------- an id that is not a valid string

  lemma RequestOctets(op: uint32, requestId: uint64, sub: Message)
    ensures Encode(NAME_NODE_REQUEST, Request(op, requestId, 9, sub))
         == NumberOctets(1, op) + NumberOctets(2, requestId)
            + (TagOctets(Tag(18, DELIMITED)) + Prefixed(Encode(BLOCK_REPORT_REQUEST, sub)))
  {
    var s, m := NAME_NODE_REQUEST, Request(op, requestId, 9, sub);
    AllFields(s, m);
    assert FirstFields(s, m, 1) == NumberOctets(1, op);
    assert FirstFields(s, m, 2) == FirstFields(s, m, 1) + NumberOctets(2, requestId);
    NothingBetween(m, 9);
    var last := TagOctets(Tag(18, DELIMITED)) + Prefixed(Encode(BLOCK_REPORT_REQUEST, sub));
    assert EncodeField(s.fields[9], m.vals[9]) == last;
    Regroup(FirstFields(s, m, 10), [], []);
  }

  /** Absent submessages leave no octets. */
  lemma {:induction false} NothingBetween(m: Message, k: nat)
    requires |m.vals| == 10 && 2 <= k <= 10 && forall i :: 2 <= i < k ==> m.vals[i] == Msg(None)
    ensures FirstFields(NAME_NODE_REQUEST, m, k) == FirstFields(NAME_NODE_REQUEST, m, 2)
  {
    if k > 2 {
      NothingBetween(m, k - 1);
    }
  }

  lemma ReportOctets(nodeId: bytes, blocks: seq<BlockMeta>)
    requires nodeId != []
    ensures exists rest :: Encode(BLOCK_REPORT_REQUEST, BlockReport(nodeId, blocks))
                        == TagOctets(Tag(1, DELIMITED)) + (Prefixed(nodeId) + rest)
  {
    var s, m := BLOCK_REPORT_REQUEST, BlockReport(nodeId, blocks);
    FirstFieldsEnd(s, m, 1);
    var rest := EncodeFields(s.fields[1..], m.vals[1..]) + EncodeUnknowns(m.unknown);
    assert FirstFields(s, m, 1) == TagOctets(Tag(1, DELIMITED)) + Prefixed(nodeId);
    assert Encode(s, m) == TagOctets(Tag(1, DELIMITED)) + (Prefixed(nodeId) + rest);
  }

  lemma BadReport(nodeId: bytes, blocks: seq<BlockMeta>)
    requires !ValidUtf8(nodeId) && |nodeId| <= MAX_SIZE
    ensures Parse(BLOCK_REPORT_REQUEST, Encode(BLOCK_REPORT_REQUEST, BlockReport(nodeId, blocks))) == None
  {
    ReportOctets(nodeId, blocks);
    var rest :| Encode(BLOCK_REPORT_REQUEST, BlockReport(nodeId, blocks))
             == TagOctets(Tag(1, DELIMITED)) + (Prefixed(nodeId) + rest);
    BlockReportIsGood();
    BadPayload(BLOCK_REPORT_REQUEST, Default(BLOCK_REPORT_REQUEST), 0, nodeId, rest);
  }

  lemma BareOctets(op: uint32, requestId: uint64)
    ensures Encode(NAME_NODE_REQUEST, Bare(op, requestId)) == NumberOctets(1, op) + NumberOctets(2, requestId)
  {
    var s, m := NAME_NODE_REQUEST, Bare(op, requestId);
    AllFields(s, m);
    assert FirstFields(s, m, 1) == NumberOctets(1, op);
    assert FirstFields(s, m, 2) == FirstFields(s, m, 1) + NumberOctets(2, requestId);
    NothingBetween(m, 10);
    Regroup(FirstFields(s, m, 10), [], []);
  }

  lemma BareIsWellTyped(op: nat, requestId: uint64)
    requires op < TWO_31
    ensures WellTyped(NAME_NODE_REQUEST, Bare(op, requestId))
  {
    var m := Bare(op, requestId);
    forall k | 0 <= k < 10 ensures Fits(NAME_NODE_REQUEST.fields[k], m.vals[k]) {}
  }

  /** The two numbers in front of the report. */
  lemma HeadParses(op: nat, requestId: uint64)
    requires op < TWO_31 && |NumberOctets(1, op) + NumberOctets(2, requestId)| <= MAX_SIZE
    ensures ParseInto(NAME_NODE_REQUEST, Default(NAME_NODE_REQUEST), NumberOctets(1, op) + NumberOctets(2, requestId))
         == Some(Bare(op, requestId))
  {
    NameNodeRequestIsGood();
    BareIsWellTyped(op, requestId);
    BareOctets(op, requestId);
    RoundTrip(NAME_NODE_REQUEST, Bare(op, requestId));
  }

  lemma BadField(m: Message, inner: bytes)
    requires |m.vals| == 10 && m.vals[9] == Msg(None) && |inner| <= MAX_SIZE
    requires Parse(BLOCK_REPORT_REQUEST, inner) == None
    ensures ParseInto(NAME_NODE_REQUEST, m, TagOctets(Tag(18, DELIMITED)) + Prefixed(inner)) == None
  {
    NameNodeRequestIsGood();
    BadPayload(NAME_NODE_REQUEST, m, 9, inner, []);
    assert Prefixed(inner) + [] == Prefixed(inner);
  }

  /** The serializer writes the report all the same, but no receiver can parse it. */
  lemma ReportRejected(nodeId: bytes, blocks: seq<BlockMeta>)
    requires !ValidUtf8(nodeId) && |Encode(NAME_NODE_REQUEST, ReportRequest(nodeId, blocks))| <= MAX_SIZE
    ensures Parse(NAME_NODE_REQUEST, Encode(NAME_NODE_REQUEST, ReportRequest(nodeId, blocks))) == None
  {
    var inner := Encode(BLOCK_REPORT_REQUEST, BlockReport(nodeId, blocks));
    RequestOctets(BLOCK_REPORT, 2, BlockReport(nodeId, blocks));
    ReportOctets(nodeId, blocks);
    BadReport(nodeId, blocks);
    HeadParses(BLOCK_REPORT, 2);
    BadField(Bare(BLOCK_REPORT, 2), inner);
    ParseConcatenation(NAME_NODE_REQUEST, Default(NAME_NODE_REQUEST),
                       NumberOctets(1, BLOCK_REPORT) + NumberOctets(2, 2),
                       TagOctets(Tag(18, DELIMITED)) + Prefixed(inner));
  }

  /** The report of a node built from host and port decodes exactly when the host is valid UTF-8. */
  lemma ReportEndToEnd(host: bytes, port: int32, blocks: seq<BlockMeta>)
    requires |Encode(NAME_NODE_REQUEST, ReportRequest(NodeId(host, port), blocks))| <= MAX_SIZE
    ensures var r := Parse(NAME_NODE_REQUEST, Encode(NAME_NODE_REQUEST, ReportRequest(NodeId(host, port), blocks)));
      && (r.Some? <==> ValidUtf8(host))
      && (r.Some? ==> ReadReport(r.value) == Some(Report(BLOCK_REPORT, 2, NodeId(host, port), Triples(blocks))))
  {
    NodeIdIsUtf8(host, port);
    if ValidUtf8(host) {
      ReportDecodes(NodeId(host, port), blocks);
    } else {
      ReportRejected(NodeId(host, port), blocks);
    }
  }
}
