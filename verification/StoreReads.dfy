/** What reading a block returns: exactly, after crashes, and after damage to its data file. */
module StoreReads {
  import opened Bytes
  import opened BlockMetas
  import opened Crc32
  import opened Decimal
  import opened Paths
  import opened StoreSteps
  import opened StoreSystem

  /** GetBlockMeta: what the meta file of a block says, if it can be read. */
  function GetBlockMeta(p: BlockFiles, files: Files): Option<BlockMeta> {
    if p.meta in files then ParseMeta(files[p.meta]) else None
  }

  function Stored(p: BlockFiles, files: Files): Option<bytes> {
    if p.dat in files then Some(files[p.dat]) else None
  }

  /** The meaning of ReadBlock, given what the meta file says and what the data file holds. */
  function ReadOf(m: BlockMeta, content: Option<bytes>, offset: int, length: int): Option<bytes> {
    match content
    case None => None
    case Some(b) =>
      match Clamp(m.size, offset, length)
      case None => None
      case Some(l) => if l == 0 then Some([]) else Fetch(b, m, offset, l)
  }

  /** The meaning of ReadBlock when no system call fails. */
  function ReadBlock(p: BlockFiles, files: Files, offset: int, length: int): Option<bytes> {
    match GetBlockMeta(p, files)
    case None => None
    case Some(m) => ReadOf(m, Stored(p, files), offset, length)
  }

  /** What a read in progress is about to return. */
  function Meaning(p: BlockFiles, r: Request, files: Files): Option<bytes> {
    match r
    case ReadingMeta(_, offset, length) => ReadBlock(p, files, offset, length)
    case OpeningData(_, offset, length, m) => ReadOf(m, Stored(p, files), offset, length)
    case ReadingData(_, offset, length, m) => if p.dat in files then Fetch(files[p.dat], m, offset, length) else None
    case Done(_, Read(out)) => out
    case _ => None
  }

  predicate IsRead(r: Request) {
    r.ReadingMeta? || r.OpeningData? || r.ReadingData? || (r.Done? && r.outcome.Read?)
  }

  lemma ReadStepMeaning(p: BlockFiles, r: Request, files: Files, c: Choice)
    requires IsRead(r)
    ensures var r' := ReadStep(p, r, files, c);
            && IsRead(r')
            && (Meaning(p, r', files) == Meaning(p, r, files) || r' == Done(r.id, Read(None)))
            && (c == Go ==> Meaning(p, r', files) == Meaning(p, r, files))
  {}

  lemma {:induction false} RunMeaning(p: BlockFiles, r: Request, files: Files, env: seq<Choice>)
    requires IsRead(r)
    ensures var e := Run(p, r, files, env);
            && e.files == files
            && (e.outcome == Read(Meaning(p, r, files)) || e.outcome == Read(None))
            && (env == [] ==> e.outcome == Read(Meaning(p, r, files)))
    decreases Rank(r)
  {
    if !r.Done? {
      RunStep(p, r, files, env);
      StepProgress(p, r, files, Next(env));
      ReadStepMeaning(p, r, files, Next(env));
      RunMeaning(p, ReadStep(p, r, files, Next(env)), files, Rest(env));
    }
  }

  /** A read request ends with that meaning, or, when some call fails, with a failure; it changes no file. */
  lemma RunRead(p: BlockFiles, id: uint64, offset: int, length: int, files: Files, env: seq<Choice>)
    ensures var e := Run(p, ReadingMeta(id, offset, length), files, env);
            && e.files == files
            && (e.outcome == Read(ReadBlock(p, files, offset, length)) || e.outcome == Read(None))
            && (env == [] ==> e.outcome == Read(ReadBlock(p, files, offset, length)))
  {
    RunMeaning(p, ReadingMeta(id, offset, length), files, env);
  }

  // ---------------------------------------------------------------- full reads, exactly

  /** The request covers a block of `size` octets from end to end. */
  predicate CoversAll(size: int, length: int) {
    length <= 0 || length >= size
  }

  /** Which octets a request for the whole block comes down to. */
  lemma FullRange(m: BlockMeta, b: bytes, length: int)
    requires CoversAll(m.size, length)
    ensures ReadOf(m, Some(b), 0, length) ==
            if m.size < 0 then None else if m.size == 0 then Some([]) else Fetch(b, m, 0, m.size)
  {
    assert Clamp(m.size, 0, length) == if m.size < 0 then None else Some(m.size);
  }

  lemma FetchWhole(m: BlockMeta, b: bytes)
    requires m.size > 0
    ensures Fetch(b, m, 0, m.size) ==
            if m.size <= |b| && ComputeCRC32(b[..m.size]) == m.crc32 then Some(b[..m.size]) else None
  {
    if m.size <= |b| {
      assert b[0..m.size] == b[..m.size];
    }
  }

  lemma FetchPart(m: BlockMeta, b: bytes, offset: nat, l: nat)
    requires offset + l <= |b| && !(offset == 0 && l == m.size)
    ensures Fetch(b, m, offset, l) == Some(b[offset..offset + l])
  {}

  /** A full read succeeds with `out` exactly when the data file is at least as long as the meta file says
      and that many of its octets carry the recorded CRC; `out` is those octets.
      Octets of the data file beyond them are not looked at, and a block of size 0 is not checked at all. */
  lemma FullReadOf(m: BlockMeta, b: bytes, length: int, out: bytes)
    requires CoversAll(m.size, length)
    ensures ReadOf(m, Some(b), 0, length) == Some(out) <==>
            0 <= m.size <= |b| && out == b[..m.size] && (m.size == 0 || ComputeCRC32(out) == m.crc32)
  {
    FullRange(m, b, length);
    if m.size > 0 {
      FetchWhole(m, b);
    }
  }

  lemma FullReadExactly(p: BlockFiles, files: Files, length: int, m: BlockMeta, out: bytes)
    requires GetBlockMeta(p, files) == Some(m) && CoversAll(m.size, length)
    ensures ReadBlock(p, files, 0, length) == Some(out) <==>
            && p.dat in files && 0 <= m.size <= |files[p.dat]| && out == files[p.dat][..m.size]
            && (m.size == 0 || ComputeCRC32(out) == m.crc32)
  {
    if p.dat in files {
      FullReadOf(m, files[p.dat], length, out);
    }
  }

  /** Where a read that starts at `offset` ends, in a block of `size` octets: everything is asked for when no length is
      given, and nothing beyond the block is. */
  function EndOf(size: int, offset: int, length: int): int {
    if length <= 0 || offset + length > size then size else offset + length
  }

  /** The answer to every read there is, from what the meta file says and the data file holds.  Only a read of all that
      the meta file announces is checked. */
  lemma ReadExactly(m: BlockMeta, b: bytes, offset: int, length: int)
    ensures var end := EndOf(m.size, offset, length);
      ReadOf(m, Some(b), offset, length) ==
      if offset < 0 || offset > m.size then None
      else if offset == m.size then Some([])
      else if end > |b| then None
      else if offset == 0 && end == m.size && ComputeCRC32(b[..end]) != m.crc32 then None
      else Some(b[offset..end])
  {
    var end := EndOf(m.size, offset, length);
    if 0 <= offset < m.size && end <= |b| {
      if offset == 0 && end == m.size {
        FetchWhole(m, b);
        assert b[0..end] == b[..end];
      } else {
        FetchPart(m, b, offset, end - offset);
      }
    }
  }

  /** A read of a block that is not covered end to end returns the stored octets of that range, unchecked. */
  lemma PartialReadOf(m: BlockMeta, b: bytes, offset: int, length: int)
    requires 0 <= offset < m.size && (offset > 0 || EndOf(m.size, offset, length) < m.size)
    ensures var end := EndOf(m.size, offset, length);
      ReadOf(m, Some(b), offset, length) == if end <= |b| then Some(b[offset..end]) else None
  {
    ReadExactly(m, b, offset, length);
  }

  // ---------------------------------------------------------------- reads of reachable states

  /** If a reachable store can read the meta file of a block, it says what the latest write of that block
      that opened the file meant it to say, but for digits of create_time. */
  lemma MetaOfLatest(l: Layout, s: Sys, id: uint64, m: BlockMeta)
    requires l.Good() && Reachable(l, s) && GetBlockMeta(l.Files(id), s.files) == Some(m)
    ensures id in s.latest && |s.latest[id].data| < TWO_63
    ensures m.block_id == id && m.size == |s.latest[id].data| && m.crc32 == ComputeCRC32(s.latest[id].data)
    ensures IsCut(s.latest[id].time, m.create_time)
  {
    ReachableInv(l, s);
    ReachableWrites(l, s);
    assert BlockInv(l, s, id);
    assert IsWriteOf(id, s.latest[id]);
    PrefixOfWrite(id, s.latest[id], s.files[l.path(id, MetaFile)]);
  }

  /** `t` is what is left of the decimal text of `time` when it is cut short behind one of its digits, or not at all. */
  ghost predicate IsCut(time: int64, t: int64) {
    exists j: nat :: j <= |PrintInt(time)| && CutDigits(time, j) > 0 && t == CutValue(time, j)
  }

  lemma PrefixOfWrite(id: uint64, w: BlockWrite, b: bytes)
    requires IsWriteOf(id, w) && b <= w.line && ParseMeta(b).Some?
    ensures var m := ParseMeta(b).value;
            m.block_id == id && m.size == |w.data| && m.crc32 == ComputeCRC32(w.data) && IsCut(w.time, m.create_time)
  {
    var m := BlockMeta(id, |w.data|, ComputeCRC32(w.data), w.time);
    assert b == Upto(MetaLine(m), |b|);
    TornMeta(m, |b|);
    assert CutDigits(w.time, TimeOctets(m, |b|)) > 0;
  }

  lemma ReachableWrites(l: Layout, s: Sys)
    requires Reachable(l, s)
    ensures WritesInv(s)
  {
    var events :| Reaches(l, Initial, events, s);
    WritesReach(l, Initial, events, s);
  }

  lemma CrashSafeMeaning(l: Layout, s: Sys, id: uint64, length: int, out: bytes)
    requires l.Good() && Reachable(l, s) && ReadBlock(l.Files(id), s.files, 0, length) == Some(out)
    ensures id in s.latest && |out| <= |s.latest[id].data|
    ensures length <= 0 || length >= |s.latest[id].data| ==>
              |out| == |s.latest[id].data| && ComputeCRC32(out) == ComputeCRC32(s.latest[id].data)
  {
    var p := l.Files(id);
    var m := GetBlockMeta(p, s.files).value;
    MetaOfLatest(l, s, id, m);
    if CoversAll(m.size, length) {
      FullReadExactly(p, s.files, length, m, out);
    }
    if m.size == 0 {
      assert out == [] == s.latest[id].data;
    }
  }

  /** In a reachable state the empty block, which is not checked, would pass the check too: a full read succeeds exactly
      when as many octets as the meta file says are there and carry the recorded checksum. */
  lemma FullReadIsChecked(l: Layout, s: Sys, id: uint64, length: int, m: BlockMeta, out: bytes)
    requires l.Good() && Reachable(l, s) && GetBlockMeta(l.Files(id), s.files) == Some(m) && CoversAll(m.size, length)
    ensures var p := l.Files(id);
      ReadBlock(p, s.files, 0, length) == Some(out) <==>
      && p.dat in s.files && 0 <= m.size <= |s.files[p.dat]| && out == s.files[p.dat][..m.size]
      && ComputeCRC32(out) == m.crc32
  {
    MetaOfLatest(l, s, id, m);
    FullReadExactly(l.Files(id), s.files, length, m, out);
    if m.size == 0 {
      assert s.latest[id].data == [];
    }
  }

  /** Crash safety.  After any run of writes, deletes and reads of different blocks at a time and of the same block one
      after the other, with short writes, failed calls, crashes and restarts: whatever a read from offset 0 returns is
      no longer than the data of the latest write that opened the meta file; and when the request covers the block,
      its length and CRC-32 are those of that data. */
  lemma CrashSafeRead(l: Layout, s: Sys, id: uint64, length: int, env: seq<Choice>, out: bytes)
    requires l.Good() && Reachable(l, s)
    requires Run(l.Files(id), ReadingMeta(id, 0, length), s.files, env).outcome == Read(Some(out))
    ensures id in s.latest && |out| <= |s.latest[id].data|
    ensures length <= 0 || length >= |s.latest[id].data| ==>
              |out| == |s.latest[id].data| && ComputeCRC32(out) == ComputeCRC32(s.latest[id].data)
  {
    RunRead(l.Files(id), id, 0, length, s.files, env);
    CrashSafeMeaning(l, s, id, length, out);
  }

  /** A block deleted to the end is gone: without a data file nothing is read. */
  lemma NoDataNoRead(p: BlockFiles, id: uint64, offset: int, length: int, files: Files, env: seq<Choice>)
    requires p.dat !in files || p.meta !in files
    ensures Run(p, ReadingMeta(id, offset, length), files, env).outcome == Read(None)
  {
    RunRead(p, id, offset, length, files, env);
  }

  // ---------------------------------------------------------------- damage

  /** A store holds a block intact since `time`: `data`, and the whole line of the record that says so. */
  ghost predicate IntactSince(p: BlockFiles, files: Files, id: uint64, data: bytes, time: int64) {
    && p.meta in files && p.dat in files && files[p.dat] == data && |data| < TWO_63
    && files[p.meta] == MetaLine(BlockMeta(id, |data|, ComputeCRC32(data), time))
  }

  /** A store holds a block intact, since whenever. */
  ghost predicate Intact(p: BlockFiles, files: Files, id: uint64, data: bytes) {
    exists time: int64 :: IntactSince(p, files, id, data, time)
  }

  lemma IntactRecord(p: BlockFiles, files: Files, id: uint64, data: bytes, time: int64)
    requires IntactSince(p, files, id, data, time)
    ensures GetBlockMeta(p, files) == Some(BlockMeta(id, |data|, ComputeCRC32(data), time))
  {
    WholeMeta(BlockMeta(id, |data|, ComputeCRC32(data), time));
  }

  lemma IntactMeta(p: BlockFiles, files: Files, id: uint64, data: bytes)
    requires Intact(p, files, id, data)
    ensures p.meta in files && p.dat in files && files[p.dat] == data && |data| < TWO_63
    ensures var m := GetBlockMeta(p, files);
            m.Some? && m.value.block_id == id && m.value.size == |data| && m.value.crc32 == ComputeCRC32(data)
  {
    var time: int64 :| IntactSince(p, files, id, data, time);
    IntactRecord(p, files, id, data, time);
  }

  /** A block stays intact while its two files stay as they are. */
  lemma StaysIntact(p: BlockFiles, f: Files, g: Files, id: uint64, data: bytes)
    requires Intact(p, f, id, data) && SameAt(g, f, p.meta) && SameAt(g, f, p.dat)
    ensures Intact(p, g, id, data)
  {
    var time: int64 :| IntactSince(p, f, id, data, time);
    assert IntactSince(p, g, id, data, time);
  }

  /** The slice of `data` that a read request denotes. */
  function Slice(data: bytes, offset: int, length: int): Option<bytes> {
    if offset < 0 || offset > |data| then None else Some(data[offset..EndOf(|data|, offset, length)])
  }

  /** An intact block reads as the slice of its data the request denotes. */
  lemma IntactRead(p: BlockFiles, files: Files, id: uint64, data: bytes, offset: int, length: int)
    requires Intact(p, files, id, data)
    ensures ReadBlock(p, files, offset, length) == Slice(data, offset, length)
  {
    IntactMeta(p, files, id, data);
    GoodRead(GetBlockMeta(p, files).value, data, offset, length);
  }

  lemma IntactRun(p: BlockFiles, files: Files, id: uint64, data: bytes, offset: int, length: int)
    requires Intact(p, files, id, data)
    ensures Run(p, ReadingMeta(id, offset, length), files, []).outcome == Read(Slice(data, offset, length))
  {
    RunRead(p, id, offset, length, files, []);
    IntactRead(p, files, id, data, offset, length);
  }

  lemma GoodRead(m: BlockMeta, data: bytes, offset: int, length: int)
    requires m.size == |data| && m.crc32 == ComputeCRC32(data)
    ensures ReadOf(m, Some(data), offset, length) == Slice(data, offset, length)
  {
    ReadExactly(m, data, offset, length);
    if offset == |data| {
      assert data[offset..offset] == [];
    } else if offset == 0 {
      assert data[..|data|] == data;
    }
  }

  /** A full read of a data file that is as long as the meta file says. */
  lemma SameLengthRead(p: BlockFiles, files: Files, length: int, m: BlockMeta, b: bytes)
    requires GetBlockMeta(p, files) == Some(m) && p.dat in files && files[p.dat] == b
    requires m.size == |b| > 0 && CoversAll(m.size, length)
    ensures ReadBlock(p, files, 0, length) == if ComputeCRC32(b) == m.crc32 then Some(b) else None
  {
    FullRange(m, b, length);
    FetchWhole(m, b);
    assert b[..|b|] == b;
  }

  /** Corruption of an intact block's data that leaves the length and spans at most four consecutive octets is
      detected by every full read, if and only if it falls within what the checksum looks at. */
  lemma BurstIsDetected(p: BlockFiles, files: Files, id: uint64, data: bytes, bad: bytes, at: nat,
                        length: int, env: seq<Choice>)
    requires p.Distinct() && Intact(p, files, id, data) && Burst(data, bad, at)
    requires CoversAll(|data|, length)
    ensures var outcome := Run(p, ReadingMeta(id, 0, length), files[p.dat := bad], env).outcome;
      && (Checked(data) != Checked(bad) ==> outcome == Read(None))
      && (Checked(data) == Checked(bad) && env == [] ==> outcome == Read(Some(bad)))
  {
    var files' := files[p.dat := bad];
    IntactMeta(p, files, id, data);
    var m := GetBlockMeta(p, files').value;
    RunRead(p, id, 0, length, files', env);
    BurstDetected(data, bad, at);
    SameLengthRead(p, files', length, m, bad);
  }

  /** A data file that lost octets at its end is detected by every read that needs them. */
  lemma TruncationIsDetected(p: BlockFiles, files: Files, id: uint64, data: bytes, k: nat,
                             offset: int, length: int, env: seq<Choice>)
    requires p.Distinct() && Intact(p, files, id, data) && k < |data|
    requires 0 <= offset < |data| && EndOf(|data|, offset, length) > k
    ensures Run(p, ReadingMeta(id, offset, length), files[p.dat := data[..k]], env).outcome == Read(None)
  {
    var files' := files[p.dat := data[..k]];
    IntactMeta(p, files, id, data);
    RunRead(p, id, offset, length, files', env);
  }
}
