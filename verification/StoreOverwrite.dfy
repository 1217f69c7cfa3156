/** What a write leaves of a block that was there before, exactly: after a crash at any point of it, after calls that
    failed or fell short, and after it has returned. */
module StoreOverwrite {
  import opened Bytes
  import opened BlockMetas
  import opened Crc32
  import opened StoreSteps
  import opened StoreSystem
  import opened StoreReads

  /** The request and the files after the system calls that went like `cs`. */
  function After(p: BlockFiles, r: Request, files: Files, cs: seq<Choice>): (Request, Files)
    decreases |cs|
  {
    if cs == [] then (r, files)
    else var (r', files') := Step(p, r, files, cs[0]); After(p, r', files', cs[1..])
  }

  lemma {:induction false} AfterOneMore(p: BlockFiles, r: Request, files: Files, cs: seq<Choice>, c: Choice)
    ensures var (r', files') := After(p, r, files, cs); After(p, r, files, cs + [c]) == Step(p, r', files', c)
    decreases |cs|
  {
    if cs == [] {
      assert [c][1..] == [];
    } else {
      var (r', files') := Step(p, r, files, cs[0]);
      assert (cs + [c])[1..] == cs[1..] + [c];
      AfterOneMore(p, r', files', cs[1..], c);
    }
  }

  // ---------------------------------------------------------------- a write, call by call

  /** Whether the write got as far as opening the meta file. */
  predicate OpenedMeta(cs: seq<Choice>) {
    |cs| >= 3 && cs[0] != Fail && cs[2] != Fail
  }

  /** Whether the new data have replaced what was there. */
  predicate Renamed(cs: seq<Choice>) {
    |cs| >= 5 && cs[0] != Fail && cs[2] != Fail && cs[4] != Fail
  }

  /** How much of the meta line is there, in a meta file that was opened. */
  function MetaWritten(w: BlockWrite, cs: seq<Choice>): (b: bytes)
    ensures b <= w.line
  {
    if |cs| < 4 then [] else Written(w.line, cs[3])
  }

  /** How much of the data got into the temporary file. */
  function DataWritten(w: BlockWrite, cs: seq<Choice>): (b: bytes)
    ensures b <= w.data
  {
    if |cs| < 2 then [] else Written(w.data, cs[1])
  }

  /** Where the write is after calls that went like `cs`. */
  function WriterAfter(id: uint64, w: BlockWrite, cs: seq<Choice>): Request {
    if |cs| == 0 then Writing(id, w, OpenTmp)
    else if cs[0] == Fail then Done(id, Wrote(false))
    else if |cs| == 1 then Writing(id, w, FillTmp)
    else if |cs| == 2 then Writing(id, w, OpenMeta)
    else if cs[2] == Fail then Dropped(id, w, cs[3..])
    else if |cs| == 3 then Writing(id, w, FillMeta)
    else if |cs| == 4 then Writing(id, w, RenameTmp)
    else if cs[4] == Fail then Dropped(id, w, cs[5..])
    else Done(id, Wrote(true))
  }

  /** Giving up: the temporary file is removed. */
  function Dropped(id: uint64, w: BlockWrite, cs: seq<Choice>): Request {
    if cs == [] then Writing(id, w, DropTmp)
    else Done(id, if cs[0] == Fail then Threw else Wrote(false))
  }

  /** What is in the files of the block after calls that went like `cs`. */
  ghost predicate LeftBy(p: BlockFiles, was: Files, w: BlockWrite, cs: seq<Choice>, files: Files) {
    && (if OpenedMeta(cs) then p.meta in files && files[p.meta] == MetaWritten(w, cs)
        else SameAt(files, was, p.meta))
    && (if Renamed(cs) then p.dat in files && files[p.dat] == DataWritten(w, cs) else SameAt(files, was, p.dat))
    && SameBeside(p, files, was)
  }

  /** What is in the temporary file. */
  ghost predicate TmpLeftBy(p: BlockFiles, was: Files, id: uint64, w: BlockWrite, cs: seq<Choice>, files: Files) {
    match WriterAfter(id, w, cs)
    case Writing(_, _, pc) =>
      if pc == OpenTmp then SameAt(files, was, p.tmp) else p.tmp in files && files[p.tmp] == DataWritten(w, cs)
    case Done(_, Wrote(ok)) => (ok || cs[0] != Fail) ==> p.tmp !in files
    case _ => true
  }

  lemma NextWriter(p: BlockFiles, was: Files, id: uint64, w: BlockWrite, cs: seq<Choice>, files: Files, c: Choice)
    requires TmpLeftBy(p, was, id, w, cs, files)
    ensures Step(p, WriterAfter(id, w, cs), files, c).0 == WriterAfter(id, w, cs + [c])
  {
    var ds := cs + [c];
    assert |ds| == |cs| + 1 && ds[|cs|] == c && forall i :: 0 <= i < |cs| ==> ds[i] == cs[i];
    if |cs| > 2 && cs[2] == Fail {
      assert ds[3..] == cs[3..] + [c];
    }
    if |cs| > 4 && cs[4] == Fail {
      assert ds[5..] == cs[5..] + [c];
    }
  }

  lemma {:induction false} NextMeta(p: BlockFiles, was: Files, id: uint64, w: BlockWrite, cs: seq<Choice>,
                                    files: Files, c: Choice)
    requires p.Distinct() && LeftBy(p, was, w, cs, files) && TmpLeftBy(p, was, id, w, cs, files)
    ensures var files' := Step(p, WriterAfter(id, w, cs), files, c).1;
      if OpenedMeta(cs + [c]) then p.meta in files' && files'[p.meta] == MetaWritten(w, cs + [c])
      else SameAt(files', was, p.meta)
  {
    var ds := cs + [c];
    assert |ds| == |cs| + 1 && ds[|cs|] == c && forall i :: 0 <= i < |cs| ==> ds[i] == cs[i];
  }

  lemma {:induction false} NextData(p: BlockFiles, was: Files, id: uint64, w: BlockWrite, cs: seq<Choice>,
                                    files: Files, c: Choice)
    requires p.Distinct() && LeftBy(p, was, w, cs, files) && TmpLeftBy(p, was, id, w, cs, files)
    ensures var files' := Step(p, WriterAfter(id, w, cs), files, c).1;
      if Renamed(cs + [c]) then p.dat in files' && files'[p.dat] == DataWritten(w, cs + [c])
      else SameAt(files', was, p.dat)
  {
    var ds := cs + [c];
    assert |ds| == |cs| + 1 && ds[|cs|] == c && forall i :: 0 <= i < |cs| ==> ds[i] == cs[i];
  }

  lemma {:induction false} NextFiles(p: BlockFiles, was: Files, id: uint64, w: BlockWrite, cs: seq<Choice>,
                                     files: Files, c: Choice)
    requires p.Distinct() && LeftBy(p, was, w, cs, files) && TmpLeftBy(p, was, id, w, cs, files)
    ensures LeftBy(p, was, w, cs + [c], Step(p, WriterAfter(id, w, cs), files, c).1)
  {
    NextMeta(p, was, id, w, cs, files, c);
    NextData(p, was, id, w, cs, files, c);
    StepFrame(p, WriterAfter(id, w, cs), files, c);
  }

  lemma {:induction false} NextTmp(p: BlockFiles, was: Files, id: uint64, w: BlockWrite, cs: seq<Choice>, files: Files,
                                   c: Choice)
    requires p.Distinct() && LeftBy(p, was, w, cs, files) && TmpLeftBy(p, was, id, w, cs, files)
    ensures TmpLeftBy(p, was, id, w, cs + [c], Step(p, WriterAfter(id, w, cs), files, c).1)
  {
    var ds := cs + [c];
    assert |ds| == |cs| + 1 && ds[|cs|] == c && forall i :: 0 <= i < |cs| ==> ds[i] == cs[i];
    NextWriter(p, was, id, w, cs, files, c);
  }

  /** The files after any number of calls of a write, however they went. */
  lemma {:induction false} FilesDuringWrite(p: BlockFiles, was: Files, id: uint64, w: BlockWrite, cs: seq<Choice>)
    requires p.Distinct()
    ensures var (r, files) := After(p, Writing(id, w, OpenTmp), was, cs);
      && r == WriterAfter(id, w, cs)
      && LeftBy(p, was, w, cs, files) && TmpLeftBy(p, was, id, w, cs, files)
    decreases |cs|
  {
    if cs != [] {
      var before, c := cs[..|cs| - 1], cs[|cs| - 1];
      assert cs == before + [c];
      FilesDuringWrite(p, was, id, w, before);
      AfterOneMore(p, Writing(id, w, OpenTmp), was, before, c);
      var files := After(p, Writing(id, w, OpenTmp), was, before).1;
      NextWriter(p, was, id, w, before, files, c);
      NextFiles(p, was, id, w, before, files, c);
      NextTmp(p, was, id, w, before, files, c);
    }
  }

  // ---------------------------------------------------------------- what can be read then

  /** With the first `k` octets of the meta line of a write over any data file: the block reads as the beginning of that
      file if and only if a digit of create_time is there, the file is long enough, and so many octets of it have the
      checksum of the write. */
  lemma NewMetaOldDataRead(p: BlockFiles, files: Files, id: uint64, data: bytes, time: int64, k: nat, out: bytes)
    requires |data| < TWO_63 && p.meta in files && p.dat in files
    requires files[p.meta] == Upto(WriteOf(id, data, time).line, k)
    ensures ReadBlock(p, files, 0, 0) == Some(out) <==>
            && Readable(MetaOf(id, data, time), k)
            && |data| <= |files[p.dat]| && out == files[p.dat][..|data|]
            && (data == [] || ComputeCRC32(out) == ComputeCRC32(data))
  {
    var m := MetaOf(id, data, time);
    TornMeta(m, k);
    if Readable(m, k) {
      FullReadExactly(p, files, 0, m.(create_time := TornTime(m, k)), out);
    }
  }

  /** What a full read returns after a write of `data` over the intact data `old_` was broken off. */
  ghost predicate ReadsAfter(id: uint64, old_: bytes, data: bytes, time: int64, cs: seq<Choice>, out: bytes)
    requires |data| < TWO_63
  {
    var w := WriteOf(id, data, time);
    if !OpenedMeta(cs) then out == old_
    else
      && Readable(MetaOf(id, data, time), |MetaWritten(w, cs)|)
      && if Renamed(cs) then DataWritten(w, cs) == data && out == data
         else |data| <= |old_| && out == old_[..|data|] && (data == [] || ComputeCRC32(out) == ComputeCRC32(data))
  }

  lemma RenamedRead(p: BlockFiles, files: Files, id: uint64, data: bytes, time: int64, cs: seq<Choice>, out: bytes)
    requires |data| < TWO_63 && Renamed(cs) && LeftBy(p, files, WriteOf(id, data, time), cs, files)
    ensures ReadBlock(p, files, 0, 0) == Some(out) <==>
            && Readable(MetaOf(id, data, time), |MetaWritten(WriteOf(id, data, time), cs)|)
            && DataWritten(WriteOf(id, data, time), cs) == data && out == data
  {
    var w := WriteOf(id, data, time);
    PrefixIsUpto(MetaWritten(w, cs), w.line);
    NewMetaOldDataRead(p, files, id, data, time, |MetaWritten(w, cs)|, out);
    WholePrefix(DataWritten(w, cs), data);
  }

  lemma PrefixIsUpto(a: bytes, b: bytes)
    requires a <= b
    ensures a == Upto(b, |a|)
  {}

  lemma WholePrefix(a: bytes, b: bytes)
    requires a <= b
    ensures |b| <= |a| ==> a == b && a[..|b|] == b
  {}

  /** A crash, or a failure, after any number of calls of a write over an intact block, each of which went as it
      pleased: what a full read returns then, exactly. */
  lemma OverwriteCrash(p: BlockFiles, was: Files, id: uint64, old_: bytes, data: bytes, time: int64, cs: seq<Choice>,
                       out: bytes)
    requires p.Distinct() && Intact(p, was, id, old_) && |data| < TWO_63
    ensures var files := After(p, Writing(id, WriteOf(id, data, time), OpenTmp), was, cs).1;
            ReadBlock(p, files, 0, 0) == Some(out) <==> ReadsAfter(id, old_, data, time, cs, out)
  {
    var w := WriteOf(id, data, time);
    var files := After(p, Writing(id, w, OpenTmp), was, cs).1;
    FilesDuringWrite(p, was, id, w, cs);
    if !OpenedMeta(cs) {
      StaysIntact(p, was, files, id, old_);
      WholeRead(p, files, id, old_);
    } else if Renamed(cs) {
      RenamedRead(p, files, id, data, time, cs, out);
    } else {
      IntactMeta(p, was, id, old_);
      PrefixIsUpto(MetaWritten(w, cs), w.line);
      NewMetaOldDataRead(p, files, id, data, time, |MetaWritten(w, cs)|, out);
    }
  }

  /** Whether it is the old data that a full read returns: always before the meta file is opened;  after that only if a
      digit of create_time got out and, until the rename, the old data have the size and the checksum of the new. */
  ghost predicate OldSurvives(id: uint64, old_: bytes, data: bytes, time: int64, cs: seq<Choice>)
    requires |data| < TWO_63
  {
    var w := WriteOf(id, data, time);
    OpenedMeta(cs) ==>
      && Readable(MetaOf(id, data, time), |MetaWritten(w, cs)|)
      && if Renamed(cs) then DataWritten(w, cs) == data == old_
         else |old_| == |data| && ComputeCRC32(old_) == ComputeCRC32(data)
  }

  lemma OldBlockSurvives(p: BlockFiles, was: Files, id: uint64, old_: bytes, data: bytes, time: int64, cs: seq<Choice>)
    requires p.Distinct() && Intact(p, was, id, old_) && |data| < TWO_63
    ensures var files := After(p, Writing(id, WriteOf(id, data, time), OpenTmp), was, cs).1;
            ReadBlock(p, files, 0, 0) == Some(old_) <==> OldSurvives(id, old_, data, time, cs)
  {
    OverwriteCrash(p, was, id, old_, data, time, cs, old_);
    if |data| == |old_| {
      assert old_[..|data|] == old_;
    }
  }

  lemma WholeRead(p: BlockFiles, files: Files, id: uint64, data: bytes)
    requires Intact(p, files, id, data)
    ensures ReadBlock(p, files, 0, 0) == Some(data)
  {
    IntactMeta(p, files, id, data);
    FullReadExactly(p, files, 0, GetBlockMeta(p, files).value, data);
    assert data[..|data|] == data;
  }

  /** In particular the write protocol is not atomic: when the new data differ from the old within four octets, every
      crash and every failure from the opening of the meta file to the rename loses the block, old and new. */
  lemma OverwriteCanLoseBlock(p: BlockFiles, was: Files, id: uint64, old_: bytes, data: bytes, time: int64, at: nat,
                              cs: seq<Choice>)
    requires p.Distinct() && Intact(p, was, id, old_) && |data| < TWO_63
    requires Burst(data, old_, at) && Checked(data) != Checked(old_)
    requires OpenedMeta(cs) && !Renamed(cs)
    ensures ReadBlock(p, After(p, Writing(id, WriteOf(id, data, time), OpenTmp), was, cs).1, 0, 0) == None
  {
    BurstDetected(data, old_, at);
    assert old_[..|data|] == old_;
    var read := ReadBlock(p, After(p, Writing(id, WriteOf(id, data, time), OpenTmp), was, cs).1, 0, 0);
    if read.Some? {
      OverwriteCrash(p, was, id, old_, data, time, cs, read.value);
      assert false;
    }
  }

  // ---------------------------------------------------------------- writes that return

  function Pick(env: seq<Choice>, i: nat): Choice {
    if i < |env| then env[i] else Go
  }

  /** How the first `n` calls go. */
  function Calls(env: seq<Choice>, n: nat): (cs: seq<Choice>)
    ensures |cs| == n
  {
    seq(n, i requires 0 <= i < n => Pick(env, i))
  }

  lemma {:induction false} AfterDone(p: BlockFiles, r: Request, files: Files, cs: seq<Choice>)
    requires r.Done?
    ensures After(p, r, files, cs) == (r, files)
    decreases |cs|
  {
    if cs != [] {
      AfterDone(p, r, files, cs[1..]);
    }
  }

  lemma {:induction false} RunIsAfter(p: BlockFiles, r: Request, files: Files, env: seq<Choice>, n: nat)
    requires Rank(r) <= n
    ensures var e := Run(p, r, files, env); After(p, r, files, Calls(env, n)) == (Done(r.id, e.outcome), e.files)
    decreases n
  {
    if r.Done? {
      AfterDone(p, r, files, Calls(env, n));
    } else {
      var (r', files') := Step(p, r, files, Next(env));
      StepProgress(p, r, files, Next(env));
      RunStep(p, r, files, env);
      RunIsAfter(p, r', files', Rest(env), n - 1);
      assert Calls(env, n)[1..] == Calls(Rest(env), n - 1);
    }
  }

  /** WriteBlock returns true exactly when the two files could be opened and the rename worked;  what did not get out of
      the two writes it does not notice. */
  lemma WriteReturns(p: BlockFiles, was: Files, id: uint64, w: BlockWrite, env: seq<Choice>)
    requires p.Distinct()
    ensures var e := Run(p, Writing(id, w, OpenTmp), was, env);
      && (e.outcome == Wrote(true) <==> Pick(env, 0) != Fail && Pick(env, 2) != Fail && Pick(env, 4) != Fail)
      && LeftBy(p, was, w, Calls(env, 6), e.files)
      && Done(id, e.outcome) == WriterAfter(id, w, Calls(env, 6))
      && TmpLeftBy(p, was, id, w, Calls(env, 6), e.files)
  {
    RunIsAfter(p, Writing(id, w, OpenTmp), was, env, 6);
    FilesDuringWrite(p, was, id, w, Calls(env, 6));
  }

  /** A block that WriteBlock reported as written reads back, whatever was there before, if and only if all of the data
      and a digit of create_time got out. */
  lemma ReportedIsStored(p: BlockFiles, was: Files, id: uint64, data: bytes, time: int64, env: seq<Choice>, out: bytes)
    requires p.Distinct() && |data| < TWO_63
    requires Run(p, Writing(id, WriteOf(id, data, time), OpenTmp), was, env).outcome == Wrote(true)
    ensures var w := WriteOf(id, data, time);
      ReadBlock(p, Run(p, Writing(id, w, OpenTmp), was, env).files, 0, 0) == Some(out) <==>
      && out == data && Written(data, Pick(env, 1)) == data
      && Readable(MetaOf(id, data, time), |Written(w.line, Pick(env, 3))|)
  {
    var w, cs := WriteOf(id, data, time), Calls(env, 6);
    WriteReturns(p, was, id, w, env);
    RenamedRead(p, Run(p, Writing(id, w, OpenTmp), was, env).files, id, data, time, cs, out);
  }

  /** So true does not mean stored: with the write of the data failed there is no block, old or new. */
  lemma ReportedButLost(p: BlockFiles, was: Files, id: uint64, data: bytes, time: int64)
    requires p.Distinct() && 0 < |data| < TWO_63
    ensures var e := Run(p, Writing(id, WriteOf(id, data, time), OpenTmp), was, [Go, Fail]);
      e.outcome == Wrote(true) && ReadBlock(p, e.files, 0, 0) == None
  {
    var w := WriteOf(id, data, time);
    var e := Run(p, Writing(id, w, OpenTmp), was, [Go, Fail]);
    WriteReturns(p, was, id, w, [Go, Fail]);
    var read := ReadBlock(p, e.files, 0, 0);
    if read.Some? {
      ReportedIsStored(p, was, id, data, time, [Go, Fail], read.value);
      assert false;
    }
  }

  /** A write whose rename fails returns false, with its meta line, or what got out of it, in place of the old. */
  lemma FailedRename(p: BlockFiles, was: Files, id: uint64, w: BlockWrite, env: seq<Choice>)
    requires p.Distinct() && p.tmp !in was
    requires Pick(env, 0) != Fail && Pick(env, 2) != Fail && Pick(env, 4) == Fail && Pick(env, 5) != Fail
    ensures var e := Run(p, Writing(id, w, OpenTmp), was, env);
      e.outcome == Wrote(false) && e.files == was[p.meta := Written(w.line, Pick(env, 3))]
  {
    var e := Run(p, Writing(id, w, OpenTmp), was, env);
    WriteReturns(p, was, id, w, env);
    assert Calls(env, 6)[5..][0] == Pick(env, 5);
    assert e.files == was[p.meta := Written(w.line, Pick(env, 3))];
  }
}
