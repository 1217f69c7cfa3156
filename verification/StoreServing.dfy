/** Reads as the store serves them, call by call, while requests for other blocks go on. */
module StoreServing {
  import opened Bytes
  import opened Crc32
  import opened StoreSteps
  import opened StoreSystem
  import opened StoreReads

  /** What a read in progress has learnt still holds: the meta file says what it said, and the range is within it. */
  ghost predicate ReadOk(p: BlockFiles, r: Request, files: Files) {
    && (r.OpeningData? ==> GetBlockMeta(p, files) == Some(r.meta))
    && (r.ReadingData? ==> GetBlockMeta(p, files) == Some(r.meta)
                           && 0 <= r.offset && 0 < r.length && r.offset + r.length <= r.meta.size)
  }

  lemma MetaStepKeepsRead(p: BlockFiles, r: Request, files: Files, c: Choice)
    requires r.ReadingMeta?
    ensures ReadOk(p, ReadStep(p, r, files, c), files)
  {}

  lemma DataStepKeepsRead(p: BlockFiles, r: Request, files: Files, c: Choice)
    requires r.OpeningData? && ReadOk(p, r, files)
    ensures ReadOk(p, ReadStep(p, r, files, c), files)
  {}

  lemma WriteStepIsNoRead(p: BlockFiles, r: Request, files: Files, c: Choice)
    requires r.Writing?
    ensures var r' := WriteStep(p, r, files, c).0; r'.Writing? || r'.Done?
  {}

  lemma DeleteStepIsNoRead(p: BlockFiles, r: Request, files: Files, c: Choice)
    requires r.Deleting?
    ensures var r' := DeleteStep(p, r, files, c).0; r'.Deleting? || r'.Done?
  {}

  lemma StepKeepsRead(p: BlockFiles, r: Request, files: Files, c: Choice)
    requires ReadOk(p, r, files)
    ensures ReadOk(p, Step(p, r, files, c).0, Step(p, r, files, c).1)
  {
    if r.Writing? {
      WriteStepIsNoRead(p, r, files, c);
    } else if r.Deleting? {
      DeleteStepIsNoRead(p, r, files, c);
    } else if r.ReadingMeta? {
      MetaStepKeepsRead(p, r, files, c);
    } else if r.OpeningData? {
      DataStepKeepsRead(p, r, files, c);
    }
  }

  ghost predicate ReadsInv(l: Layout, s: Sys) {
    s.phase.Up? ==> forall id: uint64 :: id in s.phase.active ==> ReadOk(l.Files(id), s.phase.active[id], s.files)
  }

  lemma AgreeSameRead(p: BlockFiles, r: Request, f: Files, g: Files)
    requires Agree(p, f, g) && ReadOk(p, r, g)
    ensures ReadOk(p, r, f)
  {}

  lemma AdvanceKeepsReads(l: Layout, s: Sys, id: uint64, c: Choice)
    requires l.Good() && Inv(l, s) && ReadsInv(l, s) && s.phase.Up? && id in s.phase.active
    ensures ReadsInv(l, Advanced(l, s, id, c))
  {
    var s', r := Advanced(l, s, id, c), s.phase.active[id];
    StepKeepsRead(l.Files(id), r, s.files, c);
    if s'.phase.Up? {
      forall other: uint64 | other in s'.phase.active
        ensures ReadOk(l.Files(other), s'.phase.active[other], s'.files)
      {
        if other != id {
          OthersStay(l, s, id, c, other);
          AgreeSameRead(l.Files(other), s.phase.active[other], s'.files, s.files);
        }
      }
    }
  }

  lemma {:induction false} ReadsReach(l: Layout, s0: Sys, events: seq<Event>, s: Sys)
    requires l.Good() && Inv(l, s0) && ReadsInv(l, s0) && Reaches(l, s0, events, s)
    ensures ReadsInv(l, s)
    decreases |events|
  {
    if events != [] {
      var e := events[0];
      InvHappens(l, s0, e);
      if e.Advance? {
        AdvanceKeepsReads(l, s0, e.id, e.c);
      } else {
        assert e.Begin? ==> ReadOk(l.Files(e.r.id), e.r, s0.files);
      }
      ReadsReach(l, Happen(l, s0, e), events[1..], s);
    }
  }

  /** The answer a read is about to give is the meaning of the read at that moment, for the range it asks for. */
  lemma AnswerIsMeaning(p: BlockFiles, r: Request, files: Files, c: Choice, out: bytes)
    requires r.OpeningData? || r.ReadingData?
    requires ReadOk(p, r, files) && Step(p, r, files, c).0 == Done(r.id, Read(Some(out)))
    ensures ReadBlock(p, files, r.offset, r.length) == Some(out)
  {}

  /** Crash safety of the reads that are served.  After any run, other requests in progress or not: when a read of a
      block from offset 0 gives its answer, it is no longer than the data of the latest write that opened the meta
      file; and if the range still asked for covers that write, length and CRC-32 are those of its data. */
  lemma ServedRead(l: Layout, s: Sys, id: uint64, c: Choice, out: bytes)
    requires l.Good() && Reachable(l, s) && s.phase.Up? && id in s.phase.active
    requires var r := s.phase.active[id]; (r.OpeningData? || r.ReadingData?) && r.offset == 0
    requires Step(l.Files(id), s.phase.active[id], s.files, c).0 == Done(id, Read(Some(out)))
    ensures var length := s.phase.active[id].length;
      && id in s.latest && |out| <= |s.latest[id].data|
      && (length <= 0 || length >= |s.latest[id].data| ==>
            |out| == |s.latest[id].data| && ComputeCRC32(out) == ComputeCRC32(s.latest[id].data))
  {
    var r := s.phase.active[id];
    var events :| Reaches(l, Initial, events, s);
    ReadsReach(l, Initial, events, s);
    ReachableInv(l, s);
    assert ActiveOk(l, s, id, r);
    AnswerIsMeaning(l.Files(id), r, s.files, c, out);
    CrashSafeMeaning(l, s, id, r.length, out);
  }
}
