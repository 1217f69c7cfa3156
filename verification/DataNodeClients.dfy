/** The DataNode's client of the NameNode: registration, block report, heartbeat. */
module DataNodeClients {
  import opened Bytes
  import opened BlockMetas
  import opened StoreSteps
  import opened StoreSystem
  import opened StoreReads
  import opened StoreIndex
  import opened BlockStores
  import opened Wire
  import opened Messages
  import opened Codec
  import opened MessageTypes
  import opened NodeIds
  import opened NameNodeRequests
  import opened NameNodeObjects
  import opened RequestBuilding

  /** How one exchange goes: the request does not get through, its answer does not, or it is answered. */
  datatype Reply = Unreached | Unanswered | Answered(success: bool)

  /** The way to the NameNode: how the coming exchanges will go, and the octets that got through. */
  class Link {
    var replies: seq<Reply>
    var sent: seq<bytes>

    constructor (replies: seq<Reply>)
      ensures this.replies == replies && sent == []
    {
      this.replies, sent := replies, [];
    }

    method Exchange(b: bytes) returns (success: bool)
      modifies this
      ensures var r := NextReply(old(replies));
        && replies == RestReplies(old(replies))
        && sent == old(sent) + Through(r, b)
        && success == (r == Answered(true))
    {
      var r := NextReply(replies);
      replies := RestReplies(replies);
      if !r.Unreached? {
        sent := sent + [b];
      }
      success := r == Answered(true);
    }
  }

  function NextReply(rs: seq<Reply>): Reply {
    if rs == [] then Answered(true) else rs[0]
  }

  function RestReplies(rs: seq<Reply>): seq<Reply> {
    if rs == [] then [] else rs[1..]
  }

  function Through(r: Reply, b: bytes): seq<bytes> {
    if r.Unreached? then [] else [b]
  }

  /** A request gets through unless the NameNode is not reached, and is answered as the way to it has it. */
  lemma GetsThrough(r: Reply, rs: seq<Reply>, b: bytes)
    ensures Through(r, b) == (if r == Unreached then [] else [b])
    ensures NextReply([r] + rs) == r && RestReplies([r] + rs) == rs
  {}

  class DataNodeClient {
    const datanodeId: bytes
    const store: BlockStore
    const link: Link
    /** Whether the heartbeat thread has been started. */
    var started: bool

    constructor (datanodeId: bytes, store: BlockStore, link: Link)
      ensures this.datanodeId == datanodeId && this.store == store && this.link == link && !started
    {
      this.datanodeId, this.store, this.link, started := datanodeId, store, link, false;
    }

    /** Serialize, send, and wait for the answer. */
    method SendToNameNode(req: NameNodeRequest) returns (success: bool)
      modifies link, req`cachedSize, req`otherSizes, req.Reports()`cachedSize, req.Items()`cachedSize
      ensures var r := NextReply(old(link.replies));
        && link.replies == RestReplies(old(link.replies))
        && link.sent == old(link.sent) + Through(r, Encode(NAME_NODE_REQUEST, old(req.Value())))
        && success == (r == Answered(true))
    {
      var b := req.SerializeToString();
      success := link.Exchange(b);
    }

    /** False, or an exception of stoi with nothing sent, when the node is not registered. */
    method RegisterSelf(freeSpace: int64) returns (r: Result<bool>)
      modifies link
      ensures match RegisterRequest(datanodeId, freeSpace)
        case None => r.Thrown? && link.sent == old(link.sent) && link.replies == old(link.replies)
        case Some(req) =>
          var reply := NextReply(old(link.replies));
          && link.replies == RestReplies(old(link.replies))
          && link.sent == old(link.sent) + Through(reply, Encode(NAME_NODE_REQUEST, req))
          && r == Ok(reply == Answered(true))
    {
      var split := Split(datanodeId);
      if split.StoiThrows? { return Thrown; }
      var host, port := [], 0;
      if split.HostPort? {
        host, port := split.host, split.port;
      }
      var req := NewRequest(REGISTER_DN, 1, 7, Message([Str(datanodeId), Str(host), Num(port), Num(freeSpace)], []));
      var success := SendToNameNode(req);
      return Ok(success);
    }

    /** `blocks` is what ListAllBlocks found: the index if all calls worked, nothing that is not in it in any case.
        `names` is the order in which the directory was iterated. */
    ghost predicate Found(blocks: seq<BlockMeta>, names: seq<bytes>, env: seq<Choice>)
      reads store.fs
    {
      var index := ListBlocks(LayoutOf(store.dataDir), store.fs.files, names);
      && ListsBlocksDir(store.dataDir, store.fs.files, names)
      && (env == [] ==> store.fs.env == [] && blocks == index)
      && forall m :: m in blocks ==> m in index
    }

    /** The report of what ListAllBlocks finds; nothing is sent if that throws. */
    method SendBlockReport() returns (r: Result<bool>, ghost blocks: seq<BlockMeta>, ghost names: seq<bytes>)
      modifies link, store.fs
      ensures store.fs.files == old(store.fs.files)
      ensures r.Thrown? <==> Next(old(store.fs.env)) == Fail
      ensures r.Thrown? ==> link.sent == old(link.sent) && link.replies == old(link.replies)
      ensures r.Ok? ==> Found(blocks, names, old(store.fs.env))
      ensures r.Ok? ==>
        var reply := NextReply(old(link.replies));
        && link.replies == RestReplies(old(link.replies))
        && link.sent
           == old(link.sent) + Through(reply, Encode(NAME_NODE_REQUEST, ReportRequest(datanodeId, blocks)))
        && r == Ok(reply == Answered(true))
    {
      var found;
      found, names := store.ListAllBlocks();
      if found.Thrown? { return Thrown, [], names; }
      blocks := found.value;
      var req := NewReport(datanodeId, found.value);
      var success := SendToNameNode(req);
      return Ok(success), blocks, names;
    }

    /** The number of blocks that ListAllBlocks finds; nothing is sent if that throws. */
    method SendHeartbeat(freeSpace: int64) returns (r: Result<bool>, ghost blocks: seq<BlockMeta>,
                                                    ghost names: seq<bytes>)
      modifies link, store.fs
      ensures store.fs.files == old(store.fs.files)
      ensures r.Thrown? <==> Next(old(store.fs.env)) == Fail
      ensures r.Thrown? ==> link.sent == old(link.sent) && link.replies == old(link.replies)
      ensures r.Ok? ==> Found(blocks, names, old(store.fs.env))
      ensures r.Ok? ==>
        var reply := NextReply(old(link.replies));
        && link.replies == RestReplies(old(link.replies))
        && link.sent
           == old(link.sent)
              + Through(reply, Encode(NAME_NODE_REQUEST, HeartbeatRequest(datanodeId, freeSpace, |blocks|)))
        && r == Ok(reply == Answered(true))
    {
      var found;
      found, names := store.ListAllBlocks();
      if found.Thrown? { return Thrown, [], names; }
      blocks := found.value;
      var count := Signed(|found.value| % TWO_32, TWO_31);
      var req := NewRequest(HEARTBEAT, 3, 8, Message([Str(datanodeId), Num(0), Num(freeSpace), Num(count)], []));
      var success := SendToNameNode(req);
      return Ok(success), blocks, names;
    }

    /** Register, then report, then start the heartbeat thread.  Without a successful registration there is no
        report and no thread, and an exception on the way to the report leaves no thread either; a report that fails
        changes nothing. */
    method Start(freeSpace: int64) returns (r: Result<bool>, ghost blocks: seq<BlockMeta>, ghost names: seq<bytes>)
      requires !started
      modifies this, link, store.fs
      ensures store.fs.files == old(store.fs.files)
      ensures started == (r == Ok(true))
      ensures r == Ok(true) ==> Found(blocks, names, old(store.fs.env))
      ensures match RegisterRequest(datanodeId, freeSpace)
        case None => r.Thrown? && link.sent == old(link.sent)
        case Some(req) =>
          var reply := NextReply(old(link.replies));
          var registration := Through(reply, Encode(NAME_NODE_REQUEST, req));
          && r == (if reply != Answered(true) then Ok(false)
                   else if Next(old(store.fs.env)) == Fail then Thrown else Ok(true))
          && link.sent
             == old(link.sent) + registration
                + if r == Ok(true)
                  then Through(NextReply(RestReplies(old(link.replies))),
                               Encode(NAME_NODE_REQUEST, ReportRequest(datanodeId, blocks)))
                  else []
    {
      blocks, names := [], [];
      var registered := RegisterSelf(freeSpace);
      if registered != Ok(true) {
        return registered, blocks, names;
      }
      var reported;
      reported, blocks, names := SendBlockReport();
      if reported.Thrown? {
        return Thrown, blocks, names;
      }
      started := true;
      return Ok(true), blocks, names;
    }
  }

  // ---------------------------------------------------------------- the report of a reachable store

  /** The report mentions block `id` with this size and checksum. */
  ghost predicate Reported(blocks: seq<(int, int, int)>, id: int, size: int, crc32: int) {
    (id, size, crc32) in blocks
  }

  lemma {:induction false} TripleOf(blocks: seq<BlockMeta>, id: int, size: int, crc32: int)
    ensures Reported(Triples(blocks), id, size, crc32)
       <==> exists m: BlockMeta :: m in blocks && m.block_id == id && m.size == size && m.crc32 == crc32
  {
    var ts := Triples(blocks);
    if (id, size, crc32) in ts {
      var i :| 0 <= i < |ts| && ts[i] == (id, size, crc32);
      assert blocks[i] in blocks;
    }
    if m: BlockMeta :| m in blocks && m.block_id == id && m.size == size && m.crc32 == crc32 {
      var i :| 0 <= i < |blocks| && blocks[i] == m;
      assert ts[i] == (id, size, crc32);
    }
  }

  /** The meta file of block `id` is readable and records this size and checksum. */
  ghost predicate Recorded(l: Layout, files: Files, id: uint64, size: int, crc32: int) {
    var m := GetBlockMeta(l.Files(id), files);
    m.Some? && m.value.size == size && m.value.crc32 == crc32
  }

  ghost predicate ReportsExactly(l: Layout, files: Files, blocks: seq<(int, int, int)>) {
    && (forall id: uint64, size: int, crc32: int ::
          Reported(blocks, id, size, crc32) <==> Recorded(l, files, id, size, crc32))
    && (forall i, j :: 0 <= i < j < |blocks| ==> blocks[i].0 != blocks[j].0)
  }

  lemma IndexIsReported(d: bytes, s: Sys, names: seq<bytes>)
    requires Reachable(LayoutOf(d), s) && ListsBlocksDir(d, s.files, names)
    ensures ReportsExactly(LayoutOf(d), s.files, Triples(ListBlocks(LayoutOf(d), s.files, names)))
  {
    var l := LayoutOf(d);
    var blocks := ListBlocks(l, s.files, names);
    IndexRecovered(d, s, names);
    forall id: uint64, size: int, crc32: int
      ensures Reported(Triples(blocks), id, size, crc32) <==> Recorded(l, s.files, id, size, crc32)
    {
      TripleOf(blocks, id, size, crc32);
      if m: BlockMeta :| m in blocks && m.block_id == id && m.size == size && m.crc32 == crc32 {
        assert GetBlockMeta(l.Files(id), s.files) == Some(m);
      }
    }
  }

  /** In every reachable state of the store, whatever crashed or failed before, and for every order of the directory:
      the octets of the block report decode to a request of the right kind from this node, which reports a block
      exactly when its meta file is readable, with the size and checksum recorded there, and no block twice. */
  lemma ReportOfReachableStore(d: bytes, s: Sys, names: seq<bytes>, host: bytes, port: int32)
    requires Reachable(LayoutOf(d), s) && ListsBlocksDir(d, s.files, names) && ValidUtf8(host)
    requires |Encode(NAME_NODE_REQUEST, ReportRequest(NodeId(host, port), ListBlocks(LayoutOf(d), s.files, names)))|
             <= MAX_SIZE
    ensures var blocks := ListBlocks(LayoutOf(d), s.files, names);
      var decoded := Parse(NAME_NODE_REQUEST, Encode(NAME_NODE_REQUEST, ReportRequest(NodeId(host, port), blocks)));
      && decoded.Some? && ReadReport(decoded.value).Some?
      && var r := ReadReport(decoded.value).value;
      && r.op == BLOCK_REPORT && Split(r.nodeId) == HostPort(host, port)
      && ReportsExactly(LayoutOf(d), s.files, r.blocks)
  {
    ReportEndToEnd(host, port, ListBlocks(LayoutOf(d), s.files, names));
    NodeIdRoundTrip(host, port);
    IndexIsReported(d, s, names);
  }
}
