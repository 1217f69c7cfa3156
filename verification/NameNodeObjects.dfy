/** mini_storage.NameNodeRequest, as generated: submessages that are allocated when they are first needed.  The block
    report is an object, which holds its items as objects; the seven other submessages are held by value. */
module NameNodeObjects {
  import opened Bytes
  import opened Wire
  import opened Messages
  import opened Codec
  import opened CodecSizes
  import opened CodecCaches
  import opened CodecTurns
  import opened CodecFields
  import opened MessageTypes
  import CodecMerge
  import BlockReportRequests

  type Report = BlockReportRequests.BlockReportRequest

  /** The submessages of fields 10 to 16. */
  type Seven = s: seq<Option<Message>> | |s| == 7 witness [None, None, None, None, None, None, None]

  type SevenSizes = s: seq<FieldCache> | |s| == 7
    witness [Nothing, Nothing, Nothing, Nothing, Nothing, Nothing, Nothing]

  const NONE: Seven := [None, None, None, None, None, None, None]

  function OtherValues(others: Seven): (vs: seq<Value>)
    ensures |vs| == 7 && forall k :: 0 <= k < 7 ==> vs[k] == Msg(others[k])
  {
    seq(7, k requires 0 <= k < 7 => Msg(others[k]))
  }

  /** What the object holds, the report by its value. */
  datatype Fields = Fields(op: int32, requestId: uint64, others: Seven, report: Option<Message>, unknown: seq<Unknown>)
  {
    function ToMessage(): (m: Message)
      ensures |m.vals| == |NAME_NODE_REQUEST.fields|
    {
      Message([Num(op), Num(requestId)] + OtherValues(others) + [Msg(report)], unknown)
    }
  }

  lemma SetOp(f: Fields, v: int32)
    ensures Set(f.ToMessage(), 0, Num(v)) == f.(op := v).ToMessage()
  {}

  lemma SetRequestId(f: Fields, v: uint64)
    ensures Set(f.ToMessage(), 1, Num(v)) == f.(requestId := v).ToMessage()
  {}

  lemma SetOther(f: Fields, k: nat, m: Message)
    requires k < 7
    ensures Set(f.ToMessage(), k + 2, Msg(Some(m))) == f.(others := f.others[k := Some(m)]).ToMessage()
  {}

  lemma SetReport(f: Fields, m: Message)
    ensures Set(f.ToMessage(), 9, Msg(Some(m))) == f.(report := Some(m)).ToMessage()
  {}

  lemma BlankFields()
    ensures Fields(0, 0, NONE, None, []).ToMessage() == Default(NAME_NODE_REQUEST)
  {
    var d := Default(NAME_NODE_REQUEST);
    var m := Fields(0, 0, NONE, None, []).ToMessage();
    forall k | 0 <= k < 10 ensures m.vals[k] == d.vals[k] {
      if 2 <= k < 9 {
        assert m.vals[k] == Msg(NONE[k - 2]);
      }
    }
    assert m.vals == d.vals;
  }

  /** The declaration of the submessage in place `k`. */
  function OtherField(k: nat): (f: Field)
    requires k < 7
    ensures f.Sub? && f.num == k + 10
  {
    NAME_NODE_REQUEST.fields[k + 2]
  }

  function ReportSizes(c: Option<Cache>): FieldCache {
    match c case None => Nothing case Some(c) => One(c)
  }

  /** What a request stores: its own size, and what its submessages store. */
  function RequestSizes(n: nat, others: SevenSizes, report: Option<Cache>): (c: Cache)
    ensures |c.fields| == |NAME_NODE_REQUEST.fields|
  {
    Cache(n, [Nothing, Nothing] + others + [ReportSizes(report)])
  }

  // ---------------------------------------------------------------- octets and sizes

  /** The size of the first `k` submessages held by value. */
  function OthersSize(others: Seven, k: nat): nat
    requires k <= 7
  {
    if k == 0 then 0 else OthersSize(others, k - 1) + FieldSize(OtherField(k - 1), Msg(others[k - 1]))
  }

  function ReportSize(report: Option<Message>): nat {
    match report
    case None => 0
    case Some(m) => 2 + LengthDelimitedSize(|Encode(BLOCK_REPORT_REQUEST, m)|)
  }

  lemma {:induction false} OthersAdd(f: Fields, k: nat)
    requires k <= 7
    ensures FirstSizes(NAME_NODE_REQUEST, f.ToMessage(), k + 2)
         == NumberSize(f.op) + NumberSize(f.requestId) + OthersSize(f.others, k)
  {
    var m := f.ToMessage();
    if k == 0 {
      assert FirstSizes(NAME_NODE_REQUEST, m, 1) == NumberSize(f.op);
    } else {
      OthersAdd(f, k - 1);
      assert m.vals[k + 1] == Msg(f.others[k - 1]);
    }
  }

  lemma RequestSize(f: Fields)
    ensures |Encode(NAME_NODE_REQUEST, f.ToMessage())|
         == OthersSize(f.others, |f.others|) + ReportSize(f.report) + NumberSize(f.requestId) + NumberSize(f.op)
            + UnknownsSize(f.unknown)
  {
    var s, m := NAME_NODE_REQUEST, f.ToMessage();
    NameNodeRequestIsGood();
    BlockReportIsGood();
    AllSizes(s, m);
    OthersAdd(f, |f.others|);
    if f.report.Some? {
      SizeIsLength(BLOCK_REPORT_REQUEST, f.report.value);
    }
    assert FieldSize(s.fields[9], m.vals[9]) == ReportSize(f.report);
    assert FirstSizes(s, m, 10) == FirstSizes(s, m, 9) + ReportSize(f.report);
  }

  /** What the size pass stores for the submessages held by value. */
  function OtherCaches(others: Seven): (cs: SevenSizes)
    ensures forall k :: 0 <= k < 7 ==> cs[k] == CacheField(OtherField(k), Msg(others[k]))
  {
    seq(7, k requires 0 <= k < 7 => CacheField(OtherField(k), Msg(others[k])))
  }

  lemma RequestSizePass(f: Fields, c: Option<Cache>)
    requires match f.report case None => c == None case Some(m) => c == Some(SizePass(BLOCK_REPORT_REQUEST, m))
    ensures SizePass(NAME_NODE_REQUEST, f.ToMessage())
         == RequestSizes(|Encode(NAME_NODE_REQUEST, f.ToMessage())|, OtherCaches(f.others), c)
  {
    var s, m := NAME_NODE_REQUEST, f.ToMessage();
    var r := RequestSizes(0, OtherCaches(f.others), c);
    NameNodeRequestIsGood();
    SizeIsLength(s, m);
    CacheFieldsAt(s.fields, m.vals, 0);
    forall k | 0 <= k < 10 ensures SizePass(s, m).fields[k] == r.fields[k] {
      CacheFieldsAt(s.fields, m.vals, k);
      StoredInPlace(f, c, k);
    }
    assert SizePass(s, m).fields == r.fields;
  }

  lemma StoredInPlace(f: Fields, c: Option<Cache>, k: nat)
    requires match f.report case None => c == None case Some(m) => c == Some(SizePass(BLOCK_REPORT_REQUEST, m))
    requires k < 10
    ensures RequestSizes(0, OtherCaches(f.others), c).fields[k]
         == CacheField(NAME_NODE_REQUEST.fields[k], f.ToMessage().vals[k])
  {
    var r := RequestSizes(0, OtherCaches(f.others), c);
    if 2 <= k < 9 {
      assert r.fields[k] == OtherCaches(f.others)[k - 2] && f.ToMessage().vals[k] == Msg(f.others[k - 2]);
    }
  }

  /** The octets of the first fields, one field at a time. */
  lemma NumbersWritten(f: Fields, c: Cache)
    requires |c.fields| == 10
    ensures FirstWritten(NAME_NODE_REQUEST, f.ToMessage(), c, 1) == NumberOctets(1, f.op)
    ensures FirstWritten(NAME_NODE_REQUEST, f.ToMessage(), c, 2)
         == FirstWritten(NAME_NODE_REQUEST, f.ToMessage(), c, 1) + NumberOctets(2, f.requestId)
  {}

  lemma OtherWritten(f: Fields, c: Cache, k: nat)
    requires |c.fields| == 10 && k < 7
    ensures FirstWritten(NAME_NODE_REQUEST, f.ToMessage(), c, k + 3)
         == FirstWritten(NAME_NODE_REQUEST, f.ToMessage(), c, k + 2)
            + WriteField(OtherField(k), Msg(f.others[k]), c.fields[k + 2])
  {
    assert f.ToMessage().vals[k + 2] == Msg(f.others[k]);
  }

  /** The report, behind its two-octet tag and the size that is stored. */
  function ReportOctets(report: Option<Message>, c: Option<Cache>): bytes {
    if report.None? || c.None? then []
    else TagOctets(Tag(18, DELIMITED)) + Varint(c.value.size) + Write(BLOCK_REPORT_REQUEST, report.value, c.value)
  }

  lemma ReportWritten(f: Fields, c: Cache, r: Option<Cache>)
    requires |c.fields| == 10 && c.fields[9] == ReportSizes(r)
    ensures Write(NAME_NODE_REQUEST, f.ToMessage(), c)
         == FirstWritten(NAME_NODE_REQUEST, f.ToMessage(), c, |f.others| + 2) + ReportOctets(f.report, r)
            + EncodeUnknowns(f.unknown)
  {
    var s, m := NAME_NODE_REQUEST, f.ToMessage();
    AllWritten(s, m, c);
    assert WriteField(s.fields[9], m.vals[9], c.fields[9]) == ReportOctets(f.report, r);
  }

  lemma ReportWrittenBehind(target: bytes, f: Fields, c: Cache, r: Option<Cache>)
    requires |c.fields| == 10 && c.fields[9] == ReportSizes(r)
    ensures target + Write(NAME_NODE_REQUEST, f.ToMessage(), c)
         == target + FirstWritten(NAME_NODE_REQUEST, f.ToMessage(), c, |f.others| + 2) + ReportOctets(f.report, r)
            + EncodeUnknowns(f.unknown)
  {
    ReportWritten(f, c, r);
    var head, report := FirstWritten(NAME_NODE_REQUEST, f.ToMessage(), c, |f.others| + 2), ReportOctets(f.report, r);
    Regroup(target, head, report);
    Regroup(target, head + report, EncodeUnknowns(f.unknown));
  }

  class NameNodeRequest {
    var op: int32
    var requestId: uint64
    var others: Seven
    var otherSizes: SevenSizes
    var blockReport: BlockReportRequests.BlockReportRequest?
    var unknown: seq<Unknown>
    var cachedSize: nat

    /** The fields, if the report had the value `rv`. */
    ghost function With(rv: Option<Message>): Fields
      reads this`op, this`requestId, this`others, this`unknown
    {
      Fields(op, requestId, others, rv, unknown)
    }

    /** The report, if there is one. */
    ghost function Reports(): set<Report>
      reads this`blockReport
    {
      if blockReport == null then {} else {blockReport}
    }

    /** The items of the report. */
    ghost function Items(): set<BlockReportRequests.Item>
      reads this`blockReport, Reports()`blocks
    {
      if blockReport == null then {} else set i | i in blockReport.blocks
    }

    ghost function ReportValue(): Option<Message>
      reads this`blockReport, Reports()`datanodeId, Reports()`blocks, Reports()`unknown
      reads Items()`blockId, Items()`size, Items()`crc32, Items()`unknown
    {
      if blockReport == null then None else Some(blockReport.Value())
    }

    ghost function Value(): Message
      reads this`op, this`requestId, this`others, this`unknown
      reads this`blockReport, Reports()`datanodeId, Reports()`blocks, Reports()`unknown
      reads Items()`blockId, Items()`size, Items()`crc32, Items()`unknown
    {
      With(ReportValue()).ToMessage()
    }

    ghost function ReportCache(): Option<Cache>
      reads this`blockReport, Reports()`cachedSize, Reports()`blocks, Items()`cachedSize
    {
      if blockReport == null then None else Some(blockReport.Sizes())
    }

    /** The stored sizes, in this request, in its report and in the items of that. */
    ghost function Sizes(): Cache
      reads this`cachedSize, this`otherSizes
      reads this`blockReport, Reports()`cachedSize, Reports()`blocks, Items()`cachedSize
    {
      RequestSizes(cachedSize, otherSizes, ReportCache())
    }

    constructor ()
      ensures With(None) == Fields(0, 0, NONE, None, []) && blockReport == null
    {
      op, requestId, others, blockReport, unknown := 0, 0, NONE, null, [];
      otherSizes, cachedSize := [Nothing, Nothing, Nothing, Nothing, Nothing, Nothing, Nothing], 0;
    }

    /** The report, allocated if there is none. */
    method MutableBlockReport() returns (report: Report)
      modifies this`blockReport
      ensures blockReport == report
      ensures if old(blockReport) == null
        then fresh(report) && report.blocks == [] && report.unknown == []
             && report.Value() == Default(BLOCK_REPORT_REQUEST)
        else report == old(blockReport)
    {
      if blockReport == null {
        blockReport := new BlockReportRequests.BlockReportRequest();
      }
      report := blockReport;
    }

    /** One pass through the switch, for a tag other than that of the report: the record after `tag`, which starts at
        `ptr` and comes to `r`.  The report, with the value `rv`, stays as it is. */
    method ParseCase(tag: Tag, b: bytes, ptr: nat, ghost rv: Option<Message>, ghost r: Option<Parsed<Message>>)
        returns (ok: bool, next: nat)
      requires ptr <= |b| && tag != Tag(18, DELIMITED)
      requires Yields(NAME_NODE_REQUEST, With(rv).ToMessage(), tag, b[ptr..], r)
      modifies this`op, this`requestId, this`others, this`unknown
      ensures ok == r.Some?
      ensures ok ==> ptr <= next <= |b| && r == Some(Parsed(With(rv).ToMessage(), next - ptr))
    {
      NameNodeRequestIsGood();
      ghost var f := With(rv);
      if tag == Tag(1, VARINT) {
        EnumCase(NAME_NODE_REQUEST, f.ToMessage(), tag, b[ptr..], r, 0);
        var v := ReadVarint64(b[ptr..]);
        if v.None? { return false, ptr; }
        var n := Signed(v.value.value % TWO_32, TWO_31);
        SetOp(f, n);
        op := n;
        return true, ptr + v.value.used;
      } else if tag == Tag(2, VARINT) {
        UInt64Case(NAME_NODE_REQUEST, f.ToMessage(), tag, b[ptr..], r, 1);
        var v := ReadVarint64(b[ptr..]);
        if v.None? { return false, ptr; }
        SetRequestId(f, v.value.value);
        requestId := v.value.value;
        return true, ptr + v.value.used;
      } else if 10 <= tag.num <= 16 && tag.kind == DELIMITED {
        ok, next := ParseOther(tag.num - 10, b, ptr, rv, r);
      } else {
        ok, next := HandleUnusual(tag, b, ptr, rv, r);
      }
    }

    /** A tag that no case of the switch takes. */
    method HandleUnusual(tag: Tag, b: bytes, ptr: nat, ghost rv: Option<Message>, ghost r: Option<Parsed<Message>>)
        returns (ok: bool, next: nat)
      requires ptr <= |b| && Unusual(NAME_NODE_REQUEST, tag)
      requires Yields(NAME_NODE_REQUEST, With(rv).ToMessage(), tag, b[ptr..], r)
      modifies this`unknown
      ensures ok == r.Some?
      ensures ok ==> ptr <= next <= |b| && r == Some(Parsed(With(rv).ToMessage(), next - ptr))
    {
      UnusualCase(NAME_NODE_REQUEST, With(rv).ToMessage(), tag, b[ptr..], r);
      if Stops(tag) { return false, ptr; }
      var u := ParseUnknown(tag, b[ptr..]);
      if u.None? { return false, ptr; }
      unknown := unknown + [u.value.value];
      return true, ptr + u.value.used;
    }

    /** The case of the submessage in place `k`. */
    method ParseOther(k: nat, b: bytes, ptr: nat, ghost rv: Option<Message>, ghost r: Option<Parsed<Message>>)
        returns (ok: bool, next: nat)
      requires k < 7 && ptr <= |b|
      requires Yields(NAME_NODE_REQUEST, With(rv).ToMessage(), Tag(k + 10, DELIMITED), b[ptr..], r)
      modifies this`others
      ensures ok == r.Some?
      ensures ok ==> ptr <= next <= |b| && r == Some(Parsed(With(rv).ToMessage(), next - ptr))
    {
      NameNodeRequestIsGood();
      ghost var f := With(rv);
      var s := OtherField(k).schema;
      var base := if others[k].Some? then others[k].value else Default(s);
      var c := ReadChunk(b[ptr..]);
      if c.None? {
        SubCase(NAME_NODE_REQUEST, f.ToMessage(), Tag(k + 10, DELIMITED), b[ptr..], r, k + 2, base, None);
        return false, ptr;
      }
      var x := ParseInto(s, base, c.value.payload);
      SubCase(NAME_NODE_REQUEST, f.ToMessage(), Tag(k + 10, DELIMITED), b[ptr..], r, k + 2, base, x);
      if x.None? { return false, ptr; }
      SetOther(f, k, x.value);
      others := others[k := x];
      return true, ptr + c.value.used;
    }

    /** The report is the one there was, or a new one if there was none. */
    twostate predicate SameReport()
      reads this
    {
      blockReport == old(blockReport) || (old(blockReport) == null && fresh(blockReport))
    }

    /** The case of the block report: parsed into the report there is, or into a new one. */
    method ParseReport(b: bytes, ptr: nat, ghost r: Option<Parsed<Message>>) returns (ok: bool, next: nat)
      requires ptr <= |b|
      requires Yields(NAME_NODE_REQUEST, With(ReportValue()).ToMessage(), Tag(18, DELIMITED), b[ptr..], r)
      modifies this`blockReport, Reports()`datanodeId, Reports()`blocks, Reports()`unknown
      ensures SameReport()
      ensures ok == r.Some?
      ensures ok ==> ptr <= next <= |b| && r == Some(Parsed(With(ReportValue()).ToMessage(), next - ptr))
    {
      NameNodeRequestIsGood();
      ghost var f := With(ReportValue());
      ghost var base := if f.report.Some? then f.report.value else Default(BLOCK_REPORT_REQUEST);
      var c := ReadChunk(b[ptr..]);
      if c.None? {
        SubCase(NAME_NODE_REQUEST, f.ToMessage(), Tag(18, DELIMITED), b[ptr..], r, 9, base, None);
        return false, ptr;
      }
      ghost var x := ParseOutcome(BLOCK_REPORT_REQUEST, base, c.value.payload);
      SubCase(NAME_NODE_REQUEST, f.ToMessage(), Tag(18, DELIMITED), b[ptr..], r, 9, base, x);
      ok := ParseIntoReport(c.value.payload, x);
      next := ptr + c.value.used;
      SetReport(f, if x.Some? then x.value else base);
    }

    /** ParseMessage on the report, allocated if there is none. */
    method ParseIntoReport(payload: bytes, ghost x: Option<Message>) returns (ok: bool)
      requires Parses(BLOCK_REPORT_REQUEST,
                      if ReportValue().Some? then ReportValue().value else Default(BLOCK_REPORT_REQUEST), payload, x)
      modifies this`blockReport, Reports()`datanodeId, Reports()`blocks, Reports()`unknown
      ensures SameReport()
      ensures ok == x.Some?
      ensures ok ==> ReportValue() == x
    {
      var report := MutableBlockReport();
      ok := report.InternalParse(payload, x);
    }

    /** The record after `tag`, which comes to `r`. */
    method ParseRecord(tag: Tag, b: bytes, ptr: nat, ghost r: Option<Parsed<Message>>) returns (ok: bool, next: nat)
      requires ptr <= |b|
      requires Yields(NAME_NODE_REQUEST, With(ReportValue()).ToMessage(), tag, b[ptr..], r)
      modifies this`op, this`requestId, this`others, this`unknown, this`blockReport
      modifies Reports()`datanodeId, Reports()`blocks, Reports()`unknown
      ensures SameReport()
      ensures ok == r.Some?
      ensures ok ==> ptr <= next <= |b| && r == Some(Parsed(With(ReportValue()).ToMessage(), next - ptr))
    {
      if tag == Tag(18, DELIMITED) {
        ok, next := ParseReport(b, ptr, r);
      } else {
        ok, next := ParseCase(tag, b, ptr, ReportValue(), r);
      }
    }

    /** One turn of the parse loop, from the tag at `ptr`. */
    method ParseTurn(b: bytes, ptr: nat, ghost r: Option<Message>) returns (ok: bool, next: nat)
      requires ptr < |b| && Parses(NAME_NODE_REQUEST, With(ReportValue()).ToMessage(), b[ptr..], r)
      modifies this`op, this`requestId, this`others, this`unknown, this`blockReport
      modifies Reports()`datanodeId, Reports()`blocks, Reports()`unknown
      ensures SameReport()
      ensures !ok ==> r == None
      ensures ok ==> ptr < next <= |b| && Parses(NAME_NODE_REQUEST, With(ReportValue()).ToMessage(), b[next..], r)
    {
      ghost var m := With(ReportValue()).ToMessage();
      var t := ReadTag(b[ptr..]);
      if t.None? {
        NoTagHere(NAME_NODE_REQUEST, m, b, ptr, r);
        return false, ptr;
      }
      var tag, start := t.value.tag, ptr + t.value.used;
      PastTag(NAME_NODE_REQUEST, m, b, ptr, t.value, start, r);
      ghost var q := Outcome(NAME_NODE_REQUEST, m, tag, b[start..]);
      ok, next := ParseRecord(tag, b, start, q);
      PastRecord(NAME_NODE_REQUEST, m, tag, b, start, r, q, With(ReportValue()).ToMessage(), next);
    }

    /** Read fields from `b`, which come to `r`, into this request. */
    method InternalParse(b: bytes, ghost r: Option<Message>) returns (ok: bool)
      requires Parses(NAME_NODE_REQUEST, Value(), b, r)
      modifies this`op, this`requestId, this`others, this`unknown, this`blockReport
      modifies Reports()`datanodeId, Reports()`blocks, Reports()`unknown
      ensures SameReport()
      ensures ok == r.Some?
      ensures ok ==> r == Some(Value())
    {
      var ptr := 0;
      assert b[0..] == b;
      while ptr < |b|
        invariant ptr <= |b| && SameReport()
        invariant Parses(NAME_NODE_REQUEST, With(ReportValue()).ToMessage(), b[ptr..], r)
      {
        var good, next := ParseTurn(b, ptr, r);
        if !good { return false; }
        ptr := next;
      }
      AtEnd(NAME_NODE_REQUEST, Value(), b, r);
      return true;
    }

    method Clear()
      modifies this`op, this`requestId, this`others, this`unknown, this`blockReport
      ensures With(None) == Fields(0, 0, NONE, None, []) && blockReport == null
    {
      others := NONE;
      blockReport := null;
      requestId, op := 0, 0;
      unknown := [];
    }

    /** What the constructor and Clear leave behind is the default message. */
    lemma Blank()
      requires With(None) == Fields(0, 0, NONE, None, []) && blockReport == null
      ensures Value() == Default(NAME_NODE_REQUEST)
    {
      BlankFields();
    }

    method ParseFromString(b: bytes) returns (ok: bool)
      modifies this`op, this`requestId, this`others, this`unknown, this`blockReport
      ensures ok == Parse(NAME_NODE_REQUEST, b).Some?
      ensures ok ==> Parse(NAME_NODE_REQUEST, b) == Some(Value())
    {
      Clear();
      Blank();
      ok := InternalParse(b, Parse(NAME_NODE_REQUEST, b));
    }

    /** All parts but that of the report; what the submessages held by value store is stored here. */
    method SizeBesideReport() returns (total: nat)
      modifies this`otherSizes
      ensures total == OthersSize(others, |others|) + ScalarsSize(op, requestId, unknown)
      ensures otherSizes == OtherCaches(others) && ReportValue() == old(ReportValue())
    {
      total := 0;
      for k := 0 to |others|
        invariant total == OthersSize(others, k)
        invariant forall j :: 0 <= j < k ==> otherSizes[j] == CacheField(OtherField(j), Msg(others[j]))
        invariant ReportValue() == old(ReportValue())
      {
        total := total + FieldSize(OtherField(k), Msg(others[k]));
        otherSizes := otherSizes[k := CacheField(OtherField(k), Msg(others[k]))];
      }
      if requestId != 0 {
        total := total + 1 + VarintSize(requestId);
      }
      if op != 0 {
        total := total + 1 + VarintSize(Bits64(op));
      }
      if unknown != [] {
        total := total + UnknownsSize(unknown);
      }
    }

    /** The part of the report: two octets of tag, and its length. */
    method SizeReport() returns (total: nat)
      modifies Reports()`cachedSize, Items()`cachedSize
      ensures total == ReportSize(ReportValue()) && ReportValue() == old(ReportValue())
      ensures ReportSized()
    {
      total := 0;
      if blockReport != null {
        var size := blockReport.ByteSizeLong();
        total := 2 + LengthDelimitedSize(size);
      }
    }

    /** The report stores the sizes that its size pass computes. */
    ghost predicate ReportSized()
      reads this`blockReport, Reports()`datanodeId, Reports()`blocks, Reports()`unknown, Reports()`cachedSize
      reads Items()`blockId, Items()`size, Items()`crc32, Items()`unknown, Items()`cachedSize
    {
      match ReportValue()
      case None => ReportCache() == None
      case Some(m) => ReportCache() == Some(SizePass(BLOCK_REPORT_REQUEST, m))
    }

    /** The sum of all parts. */
    method SizeFields() returns (total: nat)
      modifies this`otherSizes, Reports()`cachedSize, Items()`cachedSize
      ensures SizedAt(total) && ReportValue() == old(ReportValue())
    {
      total := SizeBesideReport();
      var report := SizeReport();
      total := total + report;
      Totals(total);
    }

    /** The size of this request on the wire; it and all sizes below it are stored. */
    method ByteSizeLong() returns (total: nat)
      modifies this`cachedSize, this`otherSizes, Reports()`cachedSize, Items()`cachedSize
      ensures ReportValue() == old(ReportValue())
      ensures total == cachedSize && SizedAt(total)
    {
      total := SizeFields();
      cachedSize := total;
    }

    /** The request has the size `n` on the wire; it, with this size, stores what its size pass computes. */
    ghost predicate SizedAt(n: nat)
      reads this`op, this`requestId, this`others, this`unknown, this`otherSizes
      reads this`blockReport, Reports()`datanodeId, Reports()`blocks, Reports()`unknown, Reports()`cachedSize
      reads Items()`blockId, Items()`size, Items()`crc32, Items()`unknown, Items()`cachedSize
    {
      && n == |Encode(NAME_NODE_REQUEST, Value())|
      && RequestSizes(n, otherSizes, ReportCache()) == SizePass(NAME_NODE_REQUEST, Value())
    }

    lemma Totals(n: nat)
      requires otherSizes == OtherCaches(others) && ReportSized()
      requires n
        == OthersSize(others, |others|) + ReportSize(ReportValue()) + ScalarsSize(op, requestId, unknown)
      ensures SizedAt(n)
    {
      RequestSize(With(ReportValue()));
      RequestSizePass(With(ReportValue()), ReportCache());
    }

    /** The report, behind its two-octet tag and the size it stores. */
    method SerializeReport(target: bytes) returns (out: bytes)
      ensures out == target + ReportOctets(old(ReportValue()), old(ReportCache()))
    {
      out := target;
      if blockReport != null {
        var header := TagOctets(Tag(18, DELIMITED)) + Varint(blockReport.cachedSize);
        Regroup(target, header, Write(BLOCK_REPORT_REQUEST, blockReport.Value(), blockReport.Sizes()));
        out := blockReport.InternalSerialize(out + header);
      } else {
        Regroup(target, [], []);
      }
    }

    /** The fields in front of the report, the submessages held by value with the sizes stored for them. */
    method SerializeHead(target: bytes, ghost f: Fields, ghost c: Cache) returns (out: bytes)
      requires f.op == op && f.requestId == requestId && f.others == others
      requires |c.fields| == 10 && forall k :: 0 <= k < 7 ==> c.fields[k + 2] == otherSizes[k]
      ensures out == target + HeadOctets(f, c)
    {
      NumbersWritten(f, c);
      out := target;
      if op != 0 {
        out := out + (TagOctets(Tag(1, VARINT)) + Varint(Bits64(op)));
      }
      assert out == target + NumberOctets(1, op) by { Regroup(target, [], []); }
      ghost var sofar := out;
      if requestId != 0 {
        out := out + (TagOctets(Tag(2, VARINT)) + Varint(requestId));
      }
      assert out == sofar + NumberOctets(2, requestId) by { Regroup(sofar, [], []); }
      Regroup(target, NumberOctets(1, op), NumberOctets(2, requestId));
      for k := 0 to |others|
        invariant out == target + FirstWritten(NAME_NODE_REQUEST, f.ToMessage(), c, k + 2)
      {
        OtherWritten(f, c, k);
        Regroup(target, FirstWritten(NAME_NODE_REQUEST, f.ToMessage(), c, k + 2),
                WriteField(OtherField(k), Msg(others[k]), otherSizes[k]));
        out := out + WriteField(OtherField(k), Msg(others[k]), otherSizes[k]);
      }
    }

    /** What is written for this request, with the sizes that are stored, be they right or stale. */
    ghost function Octets(): bytes
      reads this`op, this`requestId, this`others, this`unknown, this`cachedSize, this`otherSizes
      reads this`blockReport, Reports()`datanodeId, Reports()`blocks, Reports()`unknown, Reports()`cachedSize
      reads Items()`blockId, Items()`size, Items()`crc32, Items()`unknown, Items()`cachedSize
    {
      Write(NAME_NODE_REQUEST, Value(), Sizes())
    }

    ghost function HeadOctets(f: Fields, c: Cache): bytes
      requires |c.fields| == 10
    {
      FirstWritten(NAME_NODE_REQUEST, f.ToMessage(), c, |f.others| + 2)
    }

    lemma OctetsBehind(target: bytes, f: Fields, c: Cache)
      requires f == With(ReportValue()) && c == Sizes()
      ensures target + Octets()
           == target + HeadOctets(f, c) + ReportOctets(ReportValue(), ReportCache()) + EncodeUnknowns(unknown)
    {
      ReportWrittenBehind(target, f, c, ReportCache());
    }

    /** Append this request to the octets written so far. */
    method InternalSerialize(target: bytes) returns (out: bytes)
      ensures out == target + old(Octets())
    {
      ghost var f, c := With(ReportValue()), Sizes();
      OctetsBehind(target, f, c);
      out := SerializeHead(target, f, c);
      out := SerializeReport(out);
      ghost var sofar := out;
      if unknown != [] {
        out := out + EncodeUnknowns(unknown);
      }
      assert out == sofar + EncodeUnknowns(unknown) by { Regroup(sofar, [], []); }
    }

    lemma TwoPassesHere(m: Message)
      requires SizedAt(cachedSize) && m == Value()
      ensures [] + Octets() == Encode(NAME_NODE_REQUEST, m) && cachedSize == |Encode(NAME_NODE_REQUEST, m)|
    {
      RequestTwoPasses(With(ReportValue()));
    }

    /** The size pass, then the write pass. */
    method SerializeToString() returns (b: bytes)
      modifies this`cachedSize, this`otherSizes, Reports()`cachedSize, Items()`cachedSize
      ensures b == Encode(NAME_NODE_REQUEST, old(Value()))
      ensures |b| == cachedSize
    {
      ghost var m := Value();
      var n := ByteSizeLong();
      TwoPassesHere(m);
      b := InternalSerialize([]);
    }

    /** The report of `from`, if it has one, into that of this request, allocated if there is none. */
    method MergeReport(from: NameNodeRequest)
      requires from != this && (from.blockReport == null || from.blockReport != blockReport)
      modifies this`blockReport, Reports()`datanodeId, Reports()`blocks, Reports()`unknown
      ensures SameReport()
      ensures ReportValue() == MergedSub(BLOCK_REPORT_REQUEST, old(ReportValue()), old(from.ReportValue()))
    {
      if from.blockReport != null {
        var report := MutableBlockReport();
        report.MergeFrom(from.blockReport);
      }
    }

    /** The submessages of `from` that are held by value. */
    method MergeOthers(from: NameNodeRequest)
      requires from != this
      modifies this`others
      ensures others == MergedOthers(old(others), from.others)
      ensures ReportValue() == old(ReportValue()) && from.ReportValue() == old(from.ReportValue())
    {
      ghost var before := others;
      for k := 0 to |others|
        invariant forall j :: 0 <= j < k ==> others[j] == MergedSub(OtherField(j).schema, before[j], from.others[j])
        invariant forall j :: k <= j < 7 ==> others[j] == before[j]
      {
        if from.others[k].Some? {
          var s := OtherField(k).schema;
          var base := if others[k].Some? then others[k].value else Default(s);
          others := others[k := Some(Merge(s, base, from.others[k].value))];
        }
      }
      assert others == MergedOthers(before, from.others);
    }

    /** The scalars, and what was not recognized. */
    method MergeScalars(from: NameNodeRequest)
      requires from != this
      modifies this`op, this`requestId, this`unknown
      ensures op == if from.op != 0 then from.op else old(op)
      ensures requestId == if from.requestId != 0 then from.requestId else old(requestId)
      ensures unknown == old(unknown) + from.unknown && ReportValue() == old(ReportValue())
    {
      if from.requestId != 0 { requestId := from.requestId; }
      if from.op != 0 { op := from.op; }
      unknown := unknown + from.unknown;
    }

    /** MergeFrom; the two requests do not share their report. */
    method MergeFrom(from: NameNodeRequest)
      requires from != this && (from.blockReport == null || from.blockReport != blockReport)
      modifies this`op, this`requestId, this`others, this`unknown, this`blockReport
      modifies Reports()`datanodeId, Reports()`blocks, Reports()`unknown
      ensures SameReport()
      ensures Value() == Merge(NAME_NODE_REQUEST, old(Value()), old(from.Value()))
    {
      ghost var f, g := With(ReportValue()), from.With(from.ReportValue());
      MergeOthers(from);
      MergeReport(from);
      MergeScalars(from);
      assert With(ReportValue()) == Merged(f, g);
      IsMerged(f, g);
    }

    /** The fields of the report, if there is one. */
    ghost function ReportFields(): Option<BlockReportRequests.Fields>
      reads this`blockReport, Reports()`datanodeId, Reports()`blocks, Reports()`unknown
      reads Items()`blockId, Items()`size, Items()`crc32, Items()`unknown
    {
      if blockReport == null then None
      else Some(blockReport.With(BlockReportRequests.ItemValues(blockReport.blocks)))
    }

    /** CopyFrom; the submessages held by value are of their types, as any in the program are. */
    method CopyFrom(from: NameNodeRequest)
      requires OfTheirTypes(from.others)
      modifies this`op, this`requestId, this`others, this`unknown, this`blockReport
      ensures Value() == old(from.Value())
      ensures from != this ==> blockReport == null || fresh(blockReport)
    {
      if from == this { return; }
      MergeIntoBlank(from.With(from.ReportValue()), from.ReportFields());
      Clear();
      Blank();
      MergeFrom(from);
    }
  }

  /** What merging `b` into a submessage leaves there. */
  function MergedSub(s: Schema, a: Option<Message>, b: Option<Message>): Option<Message> {
    if b.None? then a else Some(Merge(s, if a.Some? then a.value else Default(s), b.value))
  }

  function MergedOthers(a: Seven, b: Seven): Seven {
    seq(7, k requires 0 <= k < 7 => MergedSub(OtherField(k).schema, a[k], b[k]))
  }

  function Merged(f: Fields, g: Fields): Fields {
    Fields(if g.op != 0 then g.op else f.op,
           if g.requestId != 0 then g.requestId else f.requestId,
           MergedOthers(f.others, g.others),
           MergedSub(BLOCK_REPORT_REQUEST, f.report, g.report),
           f.unknown + g.unknown)
  }

  lemma MergedInPlace(f: Fields, g: Fields, k: nat)
    requires k < 10
    ensures Merged(f, g).ToMessage().vals[k]
         == MergeValue(NAME_NODE_REQUEST.fields[k], f.ToMessage().vals[k], g.ToMessage().vals[k])
  {
    if 2 <= k < 9 {
      var j := k - 2;
      assert f.ToMessage().vals[k] == Msg(f.others[j]) && g.ToMessage().vals[k] == Msg(g.others[j]);
      assert Merged(f, g).ToMessage().vals[k] == Msg(MergedSub(OtherField(j).schema, f.others[j], g.others[j]));
    }
  }

  lemma IsMerged(f: Fields, g: Fields)
    ensures Merged(f, g).ToMessage() == Merge(NAME_NODE_REQUEST, f.ToMessage(), g.ToMessage())
  {
    forall k | 0 <= k < 10
      ensures Merged(f, g).ToMessage().vals[k]
           == MergeValue(NAME_NODE_REQUEST.fields[k], f.ToMessage().vals[k], g.ToMessage().vals[k])
    {
      MergedInPlace(f, g, k);
    }
    MergedByField(NAME_NODE_REQUEST, f.ToMessage(), g.ToMessage(), Merged(f, g).ToMessage());
  }

  lemma RequestTwoPasses(f: Fields)
    ensures var m := f.ToMessage();
      [] + Write(NAME_NODE_REQUEST, m, SizePass(NAME_NODE_REQUEST, m)) == Encode(NAME_NODE_REQUEST, m)
  {
    NameNodeRequestIsGood();
    TwoPasses(NAME_NODE_REQUEST, f.ToMessage());
  }

  function ScalarsSize(op: int32, requestId: uint64, unknown: seq<Unknown>): nat {
    NumberSize(requestId) + NumberSize(op) + UnknownsSize(unknown)
  }

  ghost predicate OfTheirTypes(others: Seven) {
    forall k :: 0 <= k < 7 && others[k].Some? ==> WellTyped(OtherField(k).schema, others[k].value)
  }

  lemma MergeIntoBlank(g: Fields, report: Option<BlockReportRequests.Fields>)
    requires OfTheirTypes(g.others)
    requires g.report == if report.None? then None else Some(report.value.ToMessage())
    ensures Merge(NAME_NODE_REQUEST, Default(NAME_NODE_REQUEST), g.ToMessage()) == g.ToMessage()
  {
    var f := Fields(0, 0, NONE, None, []);
    BlankFields();
    forall k | 0 <= k < 7 ensures g.others[k] == MergedSub(OtherField(k).schema, f.others[k], g.others[k]) {
      if g.others[k].Some? {
        CodecMerge.MergeIntoDefault(OtherField(k).schema, g.others[k].value);
      }
    }
    if report.Some? {
      BlockReportRequests.ReportCopied(report.value);
    }
    assert Merged(f, g).others == g.others;
    IsMerged(f, g);
  }
}
