/** The requests of a DataNode, set up as objects the way the client sets them up: field by field, the submessage
    allocated in the request, the blocks added to the report one by one. */
module RequestBuilding {
  import opened Bytes
  import opened BlockMetas
  import opened Messages
  import opened NameNodeRequests
  import opened NameNodeObjects
  import BlockReportRequests

  /** The values of the fields, as one message. */
  lemma IsRequest(op: int32, requestId: uint64, k: nat, sub: Message)
    requires 2 <= k < 9
    ensures NameNodeObjects.Fields(op, requestId, NONE[k - 2 := Some(sub)], None, []).ToMessage()
         == Request(op, requestId, k, sub)
  {
    var m := NameNodeObjects.Fields(op, requestId, NONE[k - 2 := Some(sub)], None, []).ToMessage();
    var r := Request(op, requestId, k, sub);
    assert m.vals == r.vals;
  }

  lemma IsReport(op: int32, requestId: uint64, sub: Message)
    ensures NameNodeObjects.Fields(op, requestId, NONE, Some(sub), []).ToMessage() == Request(op, requestId, 9, sub)
  {
    var m := NameNodeObjects.Fields(op, requestId, NONE, Some(sub), []).ToMessage();
    assert m.vals == Request(op, requestId, 9, sub).vals;
  }

  /** A request of which `sub` is the only submessage, in field `k`. */
  method NewRequest(op: int32, requestId: uint64, k: nat, sub: Message) returns (req: NameNodeRequest)
    requires 2 <= k < 9
    ensures fresh(req) && req.blockReport == null
    ensures req.Value() == Request(op, requestId, k, sub)
  {
    req := new NameNodeRequest();
    req.op, req.requestId := op, requestId;
    req.others := NONE[k - 2 := Some(sub)];
    IsRequest(op, requestId, k, sub);
  }

  /** One more item, with its three numbers. */
  method AddBlock(report: NameNodeObjects.Report, block: BlockMeta, ghost ms: seq<Message>)
    requires BlockReportRequests.Hold(report.blocks, ms)
    modifies report`blocks
    ensures |report.blocks| == |old(report.blocks)| + 1 && report.blocks[..|old(report.blocks)|] == old(report.blocks)
    ensures fresh(report.blocks[|old(report.blocks)|])
    ensures BlockReportRequests.Hold(report.blocks, ms + [ReportItem(block)])
  {
    var item := report.AddBlocks();
    item.blockId := block.block_id;
    item.size := block.size;
    item.crc32 := block.crc32;
  }

  /** An item for every block, in the order of the index. */
  method AddBlocks(report: NameNodeObjects.Report, blocks: seq<BlockMeta>)
    requires report.blocks == []
    modifies report`blocks
    ensures forall i :: 0 <= i < |report.blocks| ==> fresh(report.blocks[i])
    ensures BlockReportRequests.Hold(report.blocks, ReportItems(blocks))
  {
    for i := 0 to |blocks|
      invariant forall j :: 0 <= j < |report.blocks| ==> fresh(report.blocks[j])
      invariant BlockReportRequests.Hold(report.blocks, ReportItems(blocks)[..i])
    {
      AddBlock(report, blocks[i], ReportItems(blocks)[..i]);
      assert ReportItems(blocks)[..i + 1] == ReportItems(blocks)[..i] + [ReportItem(blocks[i])];
    }
    assert ReportItems(blocks)[..|blocks|] == ReportItems(blocks);
  }

  /** The sender and all blocks, in a report just allocated. */
  method FillReport(report: NameNodeObjects.Report, nodeId: bytes, blocks: seq<BlockMeta>)
    requires report.blocks == [] && report.unknown == []
    modifies report`datanodeId, report`blocks
    ensures forall i :: 0 <= i < |report.blocks| ==> fresh(report.blocks[i])
    ensures report.Value() == BlockReport(nodeId, blocks)
  {
    report.datanodeId := nodeId;
    AddBlocks(report, blocks);
    report.IsValue(ReportItems(blocks));
  }

  method NewReport(nodeId: bytes, blocks: seq<BlockMeta>) returns (req: NameNodeRequest)
    ensures fresh(req) && fresh(req.Reports()) && fresh(req.Items())
    ensures req.Value() == ReportRequest(nodeId, blocks)
  {
    req := new NameNodeRequest();
    req.op, req.requestId := BLOCK_REPORT, 2;
    var report := req.MutableBlockReport();
    FillReport(report, nodeId, blocks);
    assert req.With(req.ReportValue())
        == NameNodeObjects.Fields(BLOCK_REPORT, 2, NONE, Some(BlockReport(nodeId, blocks)), []);
    IsReport(BLOCK_REPORT, 2, BlockReport(nodeId, blocks));
  }
}
