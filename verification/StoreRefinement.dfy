/** Without failures and crashes the store is a map from block ids to data, and to the times they were written. */
module StoreRefinement {
  import opened Bytes
  import opened BlockMetas
  import opened Crc32
  import opened Paths
  import opened StoreSteps
  import opened StoreSystem
  import opened StoreReads
  import opened StoreIndex

  datatype Op = Put(id: uint64, data: bytes, time: int64) | Get(id: uint64, offset: int, length: int) | Del(id: uint64)

  datatype Block = Block(data: bytes, time: int64)

  predicate Valid(op: Op) {
    op.Put? ==> |op.data| < TWO_63
  }

  /** The request by which the store serves an operation. */
  function Start(op: Op): Request
    requires Valid(op)
  {
    match op
    case Put(id, data, time) => Writing(id, WriteOf(id, data, time), OpenTmp)
    case Get(id, offset, length) => ReadingMeta(id, offset, length)
    case Del(id) => Deleting(id, true, SeekData)
  }

  /** The same operation on a map: write updates, read slices, delete removes and always succeeds. */
  function Abstractly(m: map<uint64, Block>, op: Op): (Outcome, map<uint64, Block>) {
    match op
    case Put(id, data, time) => (Wrote(true), m[id := Block(data, time)])
    case Get(id, offset, length) =>
      (Read(if id in m then Slice(m[id].data, offset, length) else None), m)
    case Del(id) => (Deleted(true), m - {id})
  }

  ghost predicate RepresentsBlock(p: BlockFiles, files: Files, id: uint64, m: map<uint64, Block>) {
    && p.tmp !in files
    && (id in m ==> IntactSince(p, files, id, m[id].data, m[id].time))
    && (id !in m ==> p.dat !in files && p.meta !in files)
  }

  /** The files hold exactly the blocks of `m`, each intact. */
  ghost predicate Represents(l: Layout, files: Files, m: map<uint64, Block>) {
    && OwnFiles(l, files)
    && forall id: uint64 :: RepresentsBlock(l.Files(id), files, id, m)
  }

  /** A new store is the empty map. */
  lemma NewStoreIsEmpty(l: Layout)
    ensures Represents(l, map[], map[])
  {}

  // ---------------------------------------------------------------- one operation

  lemma RunWrite(p: BlockFiles, id: uint64, w: BlockWrite, files: Files)
    requires p.Distinct()
    ensures var e := Run(p, Writing(id, w, OpenTmp), files, []);
            e.outcome == Wrote(true) && e.files == files[p.meta := w.line][p.dat := w.data] - {p.tmp}
  {
    var r := Writing(id, w, OpenTmp);
    var f1 := files[p.tmp := []];
    var f2 := f1[p.tmp := w.data];
    var f3 := f2[p.meta := []];
    var f4 := f3[p.meta := w.line];
    var f5 := files[p.meta := w.line][p.dat := w.data] - {p.tmp};
    assert f4[p.dat := f4[p.tmp]] - {p.tmp} == f5;
    CallWorks(p, r, files, r.(wpc := FillTmp), f1);
    CallWorks(p, r.(wpc := FillTmp), f1, r.(wpc := OpenMeta), f2);
    CallWorks(p, r.(wpc := OpenMeta), f2, r.(wpc := FillMeta), f3);
    CallWorks(p, r.(wpc := FillMeta), f3, r.(wpc := RenameTmp), f4);
    CallWorks(p, r.(wpc := RenameTmp), f4, Done(id, Wrote(true)), f5);
    RunDone(p, id, Wrote(true), f5);
  }

  /** One call that works, and the rest of the run. */
  lemma CallWorks(p: BlockFiles, r: Request, files: Files, r': Request, files': Files)
    requires !r.Done? && Step(p, r, files, Go) == (r', files')
    ensures Run(p, r, files, []).outcome == Run(p, r', files', []).outcome
    ensures Run(p, r, files, []).files == Run(p, r', files', []).files
  {
    RunStep(p, r, files, []);
  }

  lemma RunDone(p: BlockFiles, id: uint64, o: Outcome, files: Files)
    ensures Run(p, Done(id, o), files, []).outcome == o && Run(p, Done(id, o), files, []).files == files
  {}

  lemma RunDeleteMeta(p: BlockFiles, id: uint64, ok: bool, files: Files)
    ensures var e := Run(p, Deleting(id, ok, SeekMeta), files, []);
            e.outcome == Deleted(ok) && e.files == files - {p.meta}
  {
    var r := Deleting(id, ok, SeekMeta);
    if p.meta in files {
      CallWorks(p, r, files, r.(dpc := DropMeta), files);
      CallWorks(p, r.(dpc := DropMeta), files, Done(id, Deleted(ok)), files - {p.meta});
    } else {
      assert files - {p.meta} == files;
      CallWorks(p, r, files, Done(id, Deleted(ok)), files);
    }
    RunDone(p, id, Deleted(ok), files - {p.meta});
  }

  lemma RunDelete(p: BlockFiles, id: uint64, files: Files)
    ensures var e := Run(p, Deleting(id, true, SeekData), files, []);
            e.outcome == Deleted(true) && e.files == files - {p.dat, p.meta}
  {
    var r := Deleting(id, true, SeekData);
    if p.dat in files {
      CallWorks(p, r, files, r.(dpc := DropData), files);
      CallWorks(p, r.(dpc := DropData), files, r.(dpc := SeekMeta), files - {p.dat});
    } else {
      assert files - {p.dat} == files;
      CallWorks(p, r, files, r.(dpc := SeekMeta), files);
    }
    RunDeleteMeta(p, id, true, files - {p.dat});
    assert files - {p.dat} - {p.meta} == files - {p.dat, p.meta};
  }

  lemma PutKeepsBlock(l: Layout, files: Files, m: map<uint64, Block>, op: Op, id: uint64)
    requires l.Good() && Valid(op) && op.Put? && Represents(l, files, m)
    ensures RepresentsBlock(l.Files(id), Run(l.Files(op.id), Start(op), files, []).files, id, Abstractly(m, op).1)
  {
    FilesDistinct(l, op.id, id);
    FilesDistinct(l, id, op.id);
    assert RepresentsBlock(l.Files(id), files, id, m);
    RunWrite(l.Files(op.id), op.id, WriteOf(op.id, op.data, op.time), files);
    WritePreserves(l.Files(op.id), l.Files(id), files, op.id, id, op.data, op.time, m);
  }

  lemma DelKeepsBlock(l: Layout, files: Files, m: map<uint64, Block>, op: Op, id: uint64)
    requires l.Good() && op.Del? && Represents(l, files, m)
    ensures RepresentsBlock(l.Files(id), Run(l.Files(op.id), Start(op), files, []).files, id, Abstractly(m, op).1)
  {
    FilesDistinct(l, op.id, id);
    FilesDistinct(l, id, op.id);
    assert RepresentsBlock(l.Files(id), files, id, m);
    RunDelete(l.Files(op.id), op.id, files);
    DeletePreserves(l.Files(op.id), l.Files(id), files, op.id, id, m);
  }

  lemma DeletePreserves(p: BlockFiles, q: BlockFiles, files: Files, id: uint64, other: uint64, m: map<uint64, Block>)
    requires RepresentsBlock(q, files, other, m)
    requires if other == id then q == p else {p.tmp, p.meta, p.dat} !! {q.tmp, q.meta, q.dat}
    ensures RepresentsBlock(q, files - {p.dat, p.meta}, other, m - {id})
  {
    if other != id && other in m {
      var files' := files - {p.dat, p.meta};
      assert files'[q.meta] == files[q.meta] && files'[q.dat] == files[q.dat];
      assert IntactSince(q, files', other, m[other].data, m[other].time);
    }
  }

  /** What an operation leaves in the files of a block. */
  lemma OpKeepsBlock(l: Layout, files: Files, m: map<uint64, Block>, op: Op, id: uint64)
    requires l.Good() && Valid(op) && Represents(l, files, m)
    ensures RepresentsBlock(l.Files(id), Run(l.Files(op.id), Start(op), files, []).files, id, Abstractly(m, op).1)
  {
    match op
    case Put(_, _, _) => PutKeepsBlock(l, files, m, op, id);
    case Get(_, offset, length) =>
      assert RepresentsBlock(l.Files(id), files, id, m);
      RunRead(l.Files(op.id), op.id, offset, length, files, []);
    case Del(_) => DelKeepsBlock(l, files, m, op, id);
  }

  lemma WritePreserves(p: BlockFiles, q: BlockFiles, files: Files, id: uint64, other: uint64, data: bytes,
                       time: int64, m: map<uint64, Block>)
    requires p.Distinct() && |data| < TWO_63 && RepresentsBlock(q, files, other, m)
    requires if other == id then q == p else {p.tmp, p.meta, p.dat} !! {q.tmp, q.meta, q.dat}
    ensures var w := WriteOf(id, data, time);
            RepresentsBlock(q, files[p.meta := w.line][p.dat := w.data] - {p.tmp}, other, m[id := Block(data, time)])
  {
    var w := WriteOf(id, data, time);
    var files' := files[p.meta := w.line][p.dat := w.data] - {p.tmp};
    if other == id {
      assert files'[p.meta] == WriteOf(id, data, time).line;
      assert IntactSince(p, files', id, data, time);
    } else if other in m {
      assert files'[q.meta] == files[q.meta] && files'[q.dat] == files[q.dat];
      assert IntactSince(q, files', other, m[other].data, m[other].time);
    }
  }

  lemma OpKeepsOwn(l: Layout, files: Files, op: Op)
    requires l.Good() && Valid(op) && OwnFiles(l, files)
    ensures OwnFiles(l, Run(l.Files(op.id), Start(op), files, []).files)
  {
    var p := l.Files(op.id);
    FilesDistinct(l, op.id, op.id);
    assert IsOwn(l, p.tmp) && IsOwn(l, p.meta) && IsOwn(l, p.dat);
    match op {
      case Put(id, data, time) => RunWrite(p, op.id, WriteOf(id, data, time), files);
      case Get(id, offset, length) => RunRead(p, id, offset, length, files, []);
      case Del(id) => RunDelete(p, id, files);
    }
  }

  /** One operation on the files answers, and changes them, as the same operation on the map. */
  lemma OpRefines(l: Layout, files: Files, m: map<uint64, Block>, op: Op)
    requires l.Good() && Valid(op) && Represents(l, files, m)
    ensures var e := Run(l.Files(op.id), Start(op), files, []);
            && e.outcome == Abstractly(m, op).0
            && Represents(l, e.files, Abstractly(m, op).1)
  {
    var p := l.Files(op.id);
    forall id: uint64
      ensures RepresentsBlock(l.Files(id), Run(p, Start(op), files, []).files, id, Abstractly(m, op).1)
    {
      OpKeepsBlock(l, files, m, op, id);
    }
    OpKeepsOwn(l, files, op);
    OpAnswers(l, files, m, op);
  }

  lemma OpAnswers(l: Layout, files: Files, m: map<uint64, Block>, op: Op)
    requires l.Good() && Valid(op) && Represents(l, files, m)
    ensures Run(l.Files(op.id), Start(op), files, []).outcome == Abstractly(m, op).0
  {
    var p := l.Files(op.id);
    FilesDistinct(l, op.id, op.id);
    assert RepresentsBlock(p, files, op.id, m);
    match op {
      case Put(id, data, time) => RunWrite(p, id, WriteOf(id, data, time), files);
      case Get(id, offset, length) => GetAnswers(p, files, m, id, offset, length);
      case Del(id) => RunDelete(p, id, files);
    }
  }

  lemma GetAnswers(p: BlockFiles, files: Files, m: map<uint64, Block>, id: uint64, offset: int, length: int)
    requires RepresentsBlock(p, files, id, m)
    ensures Run(p, ReadingMeta(id, offset, length), files, []).outcome == Abstractly(m, Get(id, offset, length)).0
  {
    if id in m {
      assert IntactSince(p, files, id, m[id].data, m[id].time);
      IntactRun(p, files, id, m[id].data, offset, length);
    } else {
      NoDataNoRead(p, id, offset, length, files, []);
    }
  }

  // ---------------------------------------------------------------- runs

  function RunOps(l: Layout, files: Files, ops: seq<Op>): (seq<Outcome>, Files)
    requires forall op :: op in ops ==> Valid(op)
    decreases |ops|
  {
    if ops == [] then ([], files)
    else
      var e := Run(l.Files(ops[0].id), Start(ops[0]), files, []);
      var (outs, files') := RunOps(l, e.files, ops[1..]);
      ([e.outcome] + outs, files')
  }

  function RunAbstractly(m: map<uint64, Block>, ops: seq<Op>): (seq<Outcome>, map<uint64, Block>)
    decreases |ops|
  {
    if ops == [] then ([], m)
    else
      var (out, m1) := Abstractly(m, ops[0]);
      var (outs, m') := RunAbstractly(m1, ops[1..]);
      ([out] + outs, m')
  }

  /** Any sequence of operations answers, one by one, what the map answers, and ends representing it. */
  lemma {:induction false} Refinement(l: Layout, files: Files, m: map<uint64, Block>, ops: seq<Op>)
    requires l.Good() && Represents(l, files, m) && forall op :: op in ops ==> Valid(op)
    ensures RunOps(l, files, ops).0 == RunAbstractly(m, ops).0
    ensures Represents(l, RunOps(l, files, ops).1, RunAbstractly(m, ops).1)
    decreases |ops|
  {
    if ops != [] {
      OpRefines(l, files, m, ops[0]);
      Refinement(l, Run(l.Files(ops[0].id), Start(ops[0]), files, []).files, Abstractly(m, ops[0]).1, ops[1..]);
    }
  }

  /** HasBlock is membership. */
  lemma HasBlockIsMembership(l: Layout, files: Files, m: map<uint64, Block>, id: uint64)
    requires Represents(l, files, m)
    ensures l.path(id, DataFile) in files <==> id in m
  {
    assert RepresentsBlock(l.Files(id), files, id, m);
  }

  /** What a fault-free write records, whatever was there before: the id, the size and the checksum of the data, and the
      time it was given; and the data can be read. */
  lemma WrittenRecord(p: BlockFiles, files: Files, id: uint64, data: bytes, time: int64)
    requires p.Distinct() && |data| < TWO_63
    ensures var e := Run(p, Writing(id, WriteOf(id, data, time), OpenTmp), files, []);
      && e.outcome == Wrote(true)
      && GetBlockMeta(p, e.files) == Some(BlockMeta(id, |data|, ComputeCRC32(data), time))
      && ReadBlock(p, e.files, 0, 0) == Some(data)
  {
    var w := WriteOf(id, data, time);
    var e := Run(p, Writing(id, w, OpenTmp), files, []);
    RunWrite(p, id, w, files);
    assert e.files[p.meta] == w.line && e.files[p.dat] == data;
    RecordAndData(p, e.files, id, data, time);
  }

  lemma RecordAndData(p: BlockFiles, files: Files, id: uint64, data: bytes, time: int64)
    requires IntactSince(p, files, id, data, time)
    ensures GetBlockMeta(p, files) == Some(BlockMeta(id, |data|, ComputeCRC32(data), time))
    ensures ReadBlock(p, files, 0, 0) == Some(data)
  {
    IntactRecord(p, files, id, data, time);
    IntactRead(p, files, id, data, 0, 0);
    assert data[0..|data|] == data;
  }

  /** The record of a block in the map. */
  function RecordOf(id: uint64, b: Block): BlockMeta
    requires |b.data| < TWO_63
  {
    BlockMeta(id, |b.data|, ComputeCRC32(b.data), b.time)
  }

  /** GetBlockMeta has the whole record of every block in the map, and none of any other. */
  lemma MetaOfRepresented(l: Layout, files: Files, m: map<uint64, Block>, id: uint64)
    requires Represents(l, files, m)
    ensures id in m ==> |m[id].data| < TWO_63 && GetBlockMeta(l.Files(id), files) == Some(RecordOf(id, m[id]))
    ensures id !in m ==> GetBlockMeta(l.Files(id), files) == None
  {
    assert RepresentsBlock(l.Files(id), files, id, m);
    if id in m {
      IntactRecord(l.Files(id), files, id, m[id].data, m[id].time);
    }
  }

  ghost predicate SmallBlocks(m: map<uint64, Block>) {
    forall id: uint64 :: id in m ==> |m[id].data| < TWO_63
  }

  lemma DomainOfIndex(r: seq<BlockMeta>, at: uint64 -> Option<BlockMeta>, m: map<uint64, Block>)
    requires forall id: uint64, b: BlockMeta :: b in r && b.block_id == id <==> at(id) == Some(b)
    requires SmallBlocks(m) && forall id: uint64 :: at(id) == if id in m then Some(RecordOf(id, m[id])) else None
    ensures forall b: BlockMeta :: b in r <==> b.block_id in m && b == RecordOf(b.block_id, m[b.block_id])
  {
    forall b: BlockMeta ensures b in r <==> b.block_id in m && b == RecordOf(b.block_id, m[b.block_id]) {
      assert b in r && b.block_id == b.block_id <==> at(b.block_id) == Some(b);
    }
  }

  /** ListAllBlocks is the map: the records of its blocks, id, size, checksum and time, each once, and no other. */
  lemma IndexIsDomain(d: bytes, files: Files, m: map<uint64, Block>, names: seq<bytes>)
    requires Represents(LayoutOf(d), files, m) && ListsBlocksDir(d, files, names)
    ensures var r := ListBlocks(LayoutOf(d), files, names);
            && SmallBlocks(m)
            && (forall b: BlockMeta :: b in r <==> b.block_id in m && b == RecordOf(b.block_id, m[b.block_id]))
            && OncePerId(r)
  {
    var l := LayoutOf(d);
    var at := (id: uint64) => GetBlockMeta(l.Files(id), files);
    forall id: uint64
      ensures id in m ==> |m[id].data| < TWO_63 && at(id) == Some(RecordOf(id, m[id]))
      ensures id !in m ==> at(id) == None
    {
      MetaOfRepresented(l, files, m, id);
    }
    forall id: uint64 | GetBlockMeta(l.Files(id), files).Some?
      ensures GetBlockMeta(l.Files(id), files).value.block_id == id
    {
      assert at(id).Some?;
    }
    IndexIsExact(d, files, names);
    DomainOfIndex(ListBlocks(l, files, names), at, m);
  }

  // ---------------------------------------------------------------- reading in chunks

  /** `outs` are the answers to successive reads, each starting where the previous one ended. */
  ghost predicate ChunkRun(read: nat -> Option<bytes>, offset: nat, outs: seq<bytes>)
    decreases |outs|
  {
    outs == [] || (
      && outs[0] != [] && read(offset) == Some(outs[0])
      && ChunkRun(read, offset + |outs[0]|, outs[1..]))
  }

  function Least(a: int, b: int): int {
    if a < b then a else b
  }

  lemma SlicesMeet(b: bytes, i: nat, j: nat, k: nat)
    requires i <= j <= k <= |b|
    ensures b[i..j] + b[j..k] == b[i..k]
  {}

  lemma {:induction false} ChunksOf(read: nat -> Option<bytes>, data: bytes, chunk: nat, offset: nat, outs: seq<bytes>)
    requires forall o: nat :: read(o) == Slice(data, o, chunk)
    requires chunk > 0 && offset <= |data| && ChunkRun(read, offset, outs)
    ensures var end := offset + |Concat(outs)|;
            && |outs| <= |data| - offset
            && end <= |data| && Concat(outs) == data[offset..end]
            && (read(end) == Some([]) <==> end == |data|)
            && (end < |data| ==> read(end).Some?)
    decreases |outs|
  {
    if outs == [] {
      assert data[offset..offset] == [];
    } else {
      var next := offset + |outs[0]|;
      assert outs[0] == data[offset..next];
      ChunksOf(read, data, chunk, next, outs[1..]);
      SlicesMeet(data, offset, next, next + |Concat(outs[1..])|);
    }
  }

  lemma {:induction false} ChunkLength(read: nat -> Option<bytes>, data: bytes, chunk: nat, offset: nat,
                                       outs: seq<bytes>, i: nat)
    requires forall o: nat :: read(o) == Slice(data, o, chunk)
    requires chunk > 0 && offset <= |data| && ChunkRun(read, offset, outs) && i < |outs|
    ensures |outs[i]| == Least(chunk, |data| - offset - |Concat(outs[..i])|)
    decreases i
  {
    var next := offset + |outs[0]|;
    assert outs[0] == data[offset..next];
    if i > 0 {
      ChunkLength(read, data, chunk, next, outs[1..], i - 1);
      assert outs[..i][1..] == outs[1..][..i - 1];
    }
  }

  /** `read` reads `chunk` octets of a block, from anywhere. */
  ghost predicate Reads(p: BlockFiles, files: Files, chunk: nat, read: nat -> Option<bytes>) {
    forall offset: nat :: ReadsAt(p, files, chunk, read, offset)
  }

  ghost predicate ReadsAt(p: BlockFiles, files: Files, chunk: nat, read: nat -> Option<bytes>, offset: nat) {
    read(offset) == ReadBlock(p, files, offset, chunk)
  }

  lemma ReadsSlices(p: BlockFiles, files: Files, id: uint64, data: bytes, chunk: nat, read: nat -> Option<bytes>)
    requires Intact(p, files, id, data) && Reads(p, files, chunk, read)
    ensures forall o: nat :: read(o) == Slice(data, o, chunk)
  {
    forall o: nat ensures read(o) == Slice(data, o, chunk) {
      assert ReadsAt(p, files, chunk, read, o);
      IntactRead(p, files, id, data, o, chunk);
    }
  }

  /** `outs` are the beginning of the data, in every piece as many octets as were asked for or are left; the next read
      succeeds, with nothing exactly when `outs` are everything. */
  ghost predicate InChunks(read: nat -> Option<bytes>, data: bytes, chunk: nat, outs: seq<bytes>) {
    var all := Concat(outs);
    && |outs| <= |data| && all <= data
    && (forall i :: 0 <= i < |outs| ==> |outs[i]| == Least(chunk, |data| - |Concat(outs[..i])|))
    && (read(|all|) == Some([]) <==> all == data)
    && read(|all|).Some?
  }

  /** Reading an intact block chunk by chunk yields its data in order, in every answer as many octets as were asked for
      or are left, and is over, with an empty answer, exactly when everything has been read. */
  lemma {:induction false} ChunkedRead(p: BlockFiles, files: Files, id: uint64, data: bytes, chunk: nat,
                                       read: nat -> Option<bytes>, outs: seq<bytes>)
    requires Intact(p, files, id, data) && chunk > 0 && Reads(p, files, chunk, read)
    requires ChunkRun(read, 0, outs)
    ensures InChunks(read, data, chunk, outs)
  {
    ReadsSlices(p, files, id, data, chunk, read);
    ChunksRead(read, data, chunk, outs);
  }

  lemma ChunkedReadEnds(p: BlockFiles, files: Files, id: uint64, data: bytes, chunk: nat, read: nat -> Option<bytes>)
    returns (outs: seq<bytes>)
    requires Intact(p, files, id, data) && chunk > 0 && Reads(p, files, chunk, read)
    ensures ChunkRun(read, 0, outs) && Concat(outs) == data
  {
    ReadsSlices(p, files, id, data, chunk, read);
    outs := ReadToTheEnd(read, data, chunk, 0);
  }

  /** And it does come to the end. */
  lemma {:induction false} ReadToTheEnd(read: nat -> Option<bytes>, data: bytes, chunk: nat, offset: nat)
    returns (outs: seq<bytes>)
    requires forall o: nat :: read(o) == Slice(data, o, chunk)
    requires chunk > 0 && offset <= |data|
    ensures ChunkRun(read, offset, outs) && Concat(outs) == data[offset..]
    decreases |data| - offset
  {
    outs := [];
    if offset < |data| {
      var next := EndOf(|data|, offset, chunk);
      var rest := ReadToTheEnd(read, data, chunk, next);
      outs := [data[offset..next]] + rest;
      assert outs[1..] == rest;
      assert data[offset..next] + data[next..] == data[offset..];
    }
  }

  lemma {:induction false} ChunksRead(read: nat -> Option<bytes>, data: bytes, chunk: nat, outs: seq<bytes>)
    requires forall o: nat :: read(o) == Slice(data, o, chunk)
    requires chunk > 0 && ChunkRun(read, 0, outs)
    ensures InChunks(read, data, chunk, outs)
  {
    ChunksOf(read, data, chunk, 0, outs);
    forall i | 0 <= i < |outs| ensures |outs[i]| == Least(chunk, |data| - |Concat(outs[..i])|) {
      ChunkLength(read, data, chunk, 0, outs, i);
    }
  }
}
