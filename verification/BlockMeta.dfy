/** The `.meta` file of a block: one line of four integers, possibly cut short. */
module BlockMetas {
  import opened Bytes
  import opened Decimal

  datatype BlockMeta = BlockMeta(block_id: uint64, size: int64, crc32: uint32, create_time: int64)

  /** The line up to and including the blank before create_time. */
  function MetaHead(m: BlockMeta): bytes {
    Print(m.block_id) + [SPACE] + PrintInt(m.size) + [SPACE] + Print(m.crc32) + [SPACE]
  }

  /** What WriteMeta streams into the file. */
  function MetaLine(m: BlockMeta): bytes {
    MetaHead(m) + PrintInt(m.create_time) + [NEWLINE]
  }

  /** What ReadMeta makes of a file's contents: four extractions, any of which may fail the stream. */
  function ParseMeta(b: bytes): Option<BlockMeta> {
    var id := ExtractInt(b, 0, TWO_64 - 1);
    var size := ExtractInt(id.rest, -TWO_63, TWO_63 - 1);
    var crc := ExtractInt(size.rest, 0, TWO_32 - 1);
    var time := ExtractInt(crc.rest, -TWO_63, TWO_63 - 1);
    if id.value.Some? && size.value.Some? && crc.value.Some? && time.value.Some?
    then Some(BlockMeta(id.value.value, size.value.value, crc.value.value, time.value.value))
    else None
  }

  /** How many octets of create_time's text are among the first `k` octets of the line. */
  function TimeOctets(m: BlockMeta, k: nat): (j: nat)
    ensures j <= |PrintInt(m.create_time)|
  {
    var n := |PrintInt(m.create_time)|;
    if k <= |MetaHead(m)| then 0 else if k - |MetaHead(m)| <= n then k - |MetaHead(m)| else n
  }

  /** Whether at least one digit of create_time is among the first `k` octets of the line. */
  predicate Readable(m: BlockMeta, k: nat) {
    CutDigits(m.create_time, TimeOctets(m, k)) > 0
  }

  /** create_time as read from the first `k` octets of the line. */
  function TornTime(m: BlockMeta, k: nat): (t: int64) {
    var j := TimeOctets(m, k);
    CutWithinRange(m.create_time, j);
    CutValue(m.create_time, j)
  }

  lemma CutWithinRange(i: int64, j: nat)
    requires j <= |PrintInt(i)|
    ensures -TWO_63 <= CutValue(i, j) < TWO_63
  {
    CutBound(i, j);
  }

  // ---------------------------------------------------------------- how a cut falls on the four fields

  function Fields4(p1: bytes, p2: bytes, p3: bytes, p4: bytes): bytes {
    p1 + [SPACE] + p2 + [SPACE] + p3 + [SPACE] + p4 + [NEWLINE]
  }

  function Fields2(p3: bytes, p4: bytes): bytes {
    [SPACE] + p3 + [SPACE] + p4 + [NEWLINE]
  }

  lemma CutFields4(p1: bytes, p2: bytes, p3: bytes, p4: bytes, k: nat)
    ensures var b := Upto(Fields4(p1, p2, p3, p4), k);
            var n := |p1| + 1 + |p2|;
            && (k <= |p1| ==> b == [] + p1[..k])
            && (|p1| < k <= n ==> b == [] + p1 + ([SPACE] + p2[..k - |p1| - 1]))
            && (n < k ==> b == [] + p1 + ([SPACE] + p2 + Upto(Fields2(p3, p4), k - n)))
  {
    var n := |p1| + 1 + |p2|;
    assert Fields4(p1, p2, p3, p4) == p1 + ([SPACE] + p2 + Fields2(p3, p4));
  }

  lemma CutFields2(p3: bytes, p4: bytes, k: nat)
    requires k > 0
    ensures var b := Upto(Fields2(p3, p4), k);
            var n := |p3| + 2;
            && b != [] && b[0] == SPACE
            && (k < n ==> b == [SPACE] + p3[..k - 1])
            && (n <= k <= n + |p4| ==> b == [SPACE] + p3 + ([SPACE] + p4[..k - n]))
            && (n + |p4| < k ==> b == [SPACE] + p3 + ([SPACE] + p4 + [NEWLINE]))
  {
    assert Fields2(p3, p4) == [SPACE] + p3 + ([SPACE] + p4 + [NEWLINE]);
  }

  lemma LineFields(m: BlockMeta)
    ensures MetaLine(m) == Fields4(PrintInt(m.block_id), PrintInt(m.size), PrintInt(m.crc32), PrintInt(m.create_time))
    ensures |MetaHead(m)| == |PrintInt(m.block_id)| + |PrintInt(m.size)| + |PrintInt(m.crc32)| + 3
  {
    PrintIntNat(m.block_id);
    PrintIntNat(m.crc32);
  }

  lemma PrintIntNat(n: nat)
    ensures PrintInt(n) == Print(n)
  {}

  /** Cut inside block_id or size, the line does not parse. */
  lemma TornEarly(m: BlockMeta, k: nat)
    requires k <= |PrintInt(m.block_id)| + 1 + |PrintInt(m.size)|
    ensures ParseMeta(Upto(MetaLine(m), k)) == None
  {
    var p1, p2, p3, p4 := PrintInt(m.block_id), PrintInt(m.size), PrintInt(m.crc32), PrintInt(m.create_time);
    LineFields(m);
    CutFields4(p1, p2, p3, p4, k);
    if k <= |p1| {
      ExtractCut([], m.block_id, k, 0, TWO_64 - 1);
      ExtractNothing(-TWO_63, TWO_63 - 1);
    } else {
      ExtractPrinted([], m.block_id, [SPACE] + p2[..k - |p1| - 1], 0, TWO_64 - 1);
      ExtractCut([SPACE], m.size, k - |p1| - 1, -TWO_63, TWO_63 - 1);
      ExtractNothing(0, TWO_32 - 1);
    }
  }

  /** With block_id and size whole, they are read, and what is left is the tail of the line. */
  lemma TornLate(m: BlockMeta, k: nat)
    requires k > |PrintInt(m.block_id)| + 1 + |PrintInt(m.size)|
    ensures var id := ExtractInt(Upto(MetaLine(m), k), 0, TWO_64 - 1);
            var size := ExtractInt(id.rest, -TWO_63, TWO_63 - 1);
            && id.value == Some(m.block_id) && size.value == Some(m.size)
            && size.rest == Upto(Fields2(PrintInt(m.crc32), PrintInt(m.create_time)),
                                 k - (|PrintInt(m.block_id)| + 1 + |PrintInt(m.size)|))
  {
    var p1, p2, p3, p4 := PrintInt(m.block_id), PrintInt(m.size), PrintInt(m.crc32), PrintInt(m.create_time);
    LineFields(m);
    CutFields4(p1, p2, p3, p4, k);
    var n := |p1| + 1 + |p2|;
    var t3 := Upto(Fields2(p3, p4), k - n);
    CutFields2(p3, p4, k - n);
    TwoExtracted(m.block_id, m.size, t3);
  }

  lemma TwoExtracted(id: uint64, size: int64, tail: bytes)
    requires tail == [] || !IsDigit(tail[0])
    ensures var b := [] + PrintInt(id) + ([SPACE] + PrintInt(size) + tail);
            var e := ExtractInt(b, 0, TWO_64 - 1);
            e.value == Some(id) && ExtractInt(e.rest, -TWO_63, TWO_63 - 1) == Extraction(Some(size), tail)
  {
    ExtractPrinted([], id, [SPACE] + PrintInt(size) + tail, 0, TWO_64 - 1);
    ExtractPrinted([SPACE], size, tail, -TWO_63, TWO_63 - 1);
  }

  /** A meta file holding any prefix of the line either fails to parse or loses nothing but digits of
      create_time; it parses exactly when one digit of create_time is there. */
  lemma TornMeta(m: BlockMeta, k: nat)
    ensures ParseMeta(Upto(MetaLine(m), k)) ==
            if Readable(m, k) then Some(m.(create_time := TornTime(m, k))) else None
  {
    LineFields(m);
    var n := |PrintInt(m.block_id)| + 1 + |PrintInt(m.size)|;
    if k <= n {
      TornEarly(m, k);
    } else {
      TornLate(m, k);
      TornCrc(m.crc32, m.create_time, k - n);
    }
  }

  /** The text from the blank before crc32 on, cut after `k` octets. */
  lemma TornCrc(crc: uint32, time: int64, k: nat)
    requires k > 0
    ensures var n := |PrintInt(crc)| + 2;
            var c := ExtractInt(Upto(Fields2(PrintInt(crc), PrintInt(time)), k), 0, TWO_32 - 1);
            var t := ExtractInt(c.rest, -TWO_63, TWO_63 - 1);
            var j := if k <= n then 0 else if k - n <= |PrintInt(time)| then k - n else |PrintInt(time)|;
            if CutDigits(time, j) > 0 then c.value == Some(crc) && t.value == Some(CutValue(time, j))
            else t.value == None
  {
    var p3, p4 := PrintInt(crc), PrintInt(time);
    var n := |p3| + 2;
    CutFields2(p3, p4, k);
    if k < n {
      ExtractCut([SPACE], crc, k - 1, 0, TWO_32 - 1);
      ExtractNothing(-TWO_63, TWO_63 - 1);
    } else if k <= n + |p4| {
      ExtractPrinted([SPACE], crc, [SPACE] + p4[..k - n], 0, TWO_32 - 1);
      ExtractCut([SPACE], time, k - n, -TWO_63, TWO_63 - 1);
    } else {
      ExtractPrinted([SPACE], crc, [SPACE] + p4 + [NEWLINE], 0, TWO_32 - 1);
      ExtractPrinted([SPACE], time, [NEWLINE], -TWO_63, TWO_63 - 1);
      CutWhole(time);
    }
  }

  /** The whole line gives back all four fields. */
  lemma WholeMeta(m: BlockMeta)
    ensures ParseMeta(MetaLine(m)) == Some(m)
  {
    TornMeta(m, |MetaLine(m)|);
    CutWhole(m.create_time);
  }

  /** What can be read from any prefix of a line agrees with it in everything but create_time. */
  lemma PrefixOfLine(m: BlockMeta, b: bytes)
    requires b <= MetaLine(m) && ParseMeta(b).Some?
    ensures ParseMeta(b).value == m.(create_time := ParseMeta(b).value.create_time)
  {
    assert b == Upto(MetaLine(m), |b|);
    TornMeta(m, |b|);
  }
}
