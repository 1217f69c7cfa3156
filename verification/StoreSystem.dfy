/** A store over its whole life: requests for different blocks in any number at a time, their system calls in any
    order, process crashes between any two calls (or in the middle of a write), exceptions that end the process, and
    restarts. */
module StoreSystem {
  import opened Bytes
  import opened Paths
  import opened StoreSteps

  /** What the process is doing; when it is up, the requests in progress, one for a block at most. */
  datatype Phase = Down | Cleaning(todo: seq<bytes>) | Up(active: map<uint64, Request>)

  /** The files, the process, and (for specification) the last WriteBlock of each id that opened its meta file. */
  datatype Sys = Sys(files: Files, phase: Phase, latest: map<uint64, BlockWrite>)

  datatype Event =
    | Boot(listing: seq<bytes>)
    | Clean(c: Choice)
    | Begin(r: Request)
    | Advance(id: uint64, c: Choice)
    | Crash

  const Initial: Sys := Sys(map[], Down, map[])

  /** `w` is what some call of WriteBlock for this id writes. */
  ghost predicate IsWriteOf(id: uint64, w: BlockWrite) {
    |w.data| < TWO_63 && w == WriteOf(id, w.data, w.time)
  }

  /** A request just received. */
  ghost predicate Fresh(r: Request) {
    && (r.Writing? ==> IsWriteOf(r.id, r.w))
    && match r
       case Writing(_, _, pc) => pc == OpenTmp
       case ReadingMeta(_, _, _) => true
       case Deleting(_, ok, pc) => ok && pc == SeekData
       case _ => false
  }

  /** `listing` is what iterating over the tmp directory can yield. */
  ghost predicate ListsTmp(l: Layout, files: Files, listing: seq<bytes>) {
    forall p :: p in listing <==> p in files && l.inTmp(p)
  }

  /** Whether the environment can make this event happen now. */
  ghost predicate Enabled(l: Layout, s: Sys, e: Event) {
    match e
    case Boot(listing) => s.phase.Down? && ListsTmp(l, s.files, listing)
    case Clean(_) => s.phase.Cleaning?
    case Begin(r) => s.phase.Up? && r.id !in s.phase.active && Fresh(r)
    case Advance(id, _) => s.phase.Up? && id in s.phase.active
    case Crash => true
  }

  /** A request has taken a step to `r`.  An exception nobody catches ends the process, and every request with it. */
  function AfterStep(active: map<uint64, Request>, id: uint64, r: Request): Phase {
    if !r.Done? then Up(active[id := r]) else if r.outcome.Threw? then Down else Up(active - {id})
  }

  function Latest(s: Sys, r: Request, c: Choice): map<uint64, BlockWrite> {
    if r.Writing? && r.wpc == OpenMeta && c != Fail then s.latest[r.id := r.w] else s.latest
  }

  function Cleaned(s: Sys, c: Choice): Sys
    requires s.phase.Cleaning?
  {
    var todo := s.phase.todo;
    if todo == [] then s.(phase := Up(map[]))
    else if c == Fail then s.(phase := Down)
    else s.(files := s.files - {todo[0]}, phase := Cleaning(todo[1..]))
  }

  function Advanced(l: Layout, s: Sys, id: uint64, c: Choice): Sys
    requires s.phase.Up? && id in s.phase.active
  {
    var r := s.phase.active[id];
    var (r', files') := Step(l.Files(id), r, s.files, c);
    Sys(files', AfterStep(s.phase.active, id, r'), Latest(s, r, c))
  }

  function Happen(l: Layout, s: Sys, e: Event): Sys
    requires e.Clean? ==> s.phase.Cleaning?
    requires e.Begin? || e.Advance? ==> s.phase.Up?
    requires e.Advance? ==> e.id in s.phase.active
  {
    match e
    case Boot(listing) => s.(phase := Cleaning(listing))
    case Clean(c) => Cleaned(s, c)
    case Begin(r) => s.(phase := Up(s.phase.active[r.id := r]))
    case Advance(id, c) => Advanced(l, s, id, c)
    case Crash => s.(phase := Down)
  }

  /** `s` is reached from `s0` by `events`, each of them possible when it happens. */
  ghost predicate Reaches(l: Layout, s0: Sys, events: seq<Event>, s: Sys)
    decreases |events|
  {
    if events == [] then s0 == s
    else
      && Enabled(l, s0, events[0])
      && Reaches(l, Happen(l, s0, events[0]), events[1..], s)
  }

  ghost predicate Reachable(l: Layout, s: Sys) {
    exists events :: Reaches(l, Initial, events, s)
  }

  // ---------------------------------------------------------------- the invariant, block by block

  /** The files of one block, given the latest write that opened its meta file:  the meta file holds some
      prefix of that write's line;  data implies meta;  a temporary file is there only if one may be. */
  ghost predicate BlockOk(p: BlockFiles, files: Files, latest: Option<BlockWrite>, tmpAllowed: bool) {
    && (p.meta in files ==> latest.Some? && files[p.meta] <= latest.value.line)
    && (p.dat in files ==> p.meta in files)
    && (p.tmp in files ==> tmpAllowed)
  }

  /** What a request in progress knows about the files of its block. */
  ghost predicate RequestOk(p: BlockFiles, r: Request, files: Files, latest: Option<BlockWrite>) {
    && (r.Writing? && r.wpc in {FillMeta, RenameTmp} ==> p.meta in files)
    && (r.Writing? && r.wpc == FillMeta ==> latest == Some(r.w))
    && (r.Deleting? && r.dpc in {SeekMeta, DropMeta} ==> p.dat !in files)
  }

  predicate HoldsTmp(r: Request) {
    r.Writing? && r.wpc != OpenTmp
  }

  function Find(m: map<uint64, BlockWrite>, id: uint64): Option<BlockWrite> {
    if id in m then Some(m[id]) else None
  }

  function LatestAfter(r: Request, c: Choice, latest: Option<BlockWrite>): Option<BlockWrite> {
    if r.Writing? && r.wpc == OpenMeta && c != Fail then Some(r.w) else latest
  }

  /** The invariant of a block holds after a step of its request has led to `r'` and `files'`. */
  ghost predicate StaysOk(p: BlockFiles, r': Request, files': Files, latest': Option<BlockWrite>) {
    && BlockOk(p, files', latest', HoldsTmp(r') || (r'.Done? && r'.outcome.Threw?))
    && RequestOk(p, r', files', latest')
  }

  lemma WriteStepLocal(p: BlockFiles, r: Request, files: Files, c: Choice, latest: Option<BlockWrite>)
    requires p.Distinct() && r.Writing?
    requires BlockOk(p, files, latest, HoldsTmp(r)) && RequestOk(p, r, files, latest)
    ensures StaysOk(p, WriteStep(p, r, files, c).0, WriteStep(p, r, files, c).1, LatestAfter(r, c, latest))
  {}

  lemma DeleteStepLocal(p: BlockFiles, r: Request, files: Files, c: Choice, latest: Option<BlockWrite>)
    requires p.Distinct() && r.Deleting?
    requires BlockOk(p, files, latest, HoldsTmp(r)) && RequestOk(p, r, files, latest)
    ensures StaysOk(p, DeleteStep(p, r, files, c).0, DeleteStep(p, r, files, c).1, latest)
  {}

  lemma ReadStepLocal(p: BlockFiles, r: Request, files: Files, c: Choice, latest: Option<BlockWrite>)
    requires !r.Writing? && !r.Deleting? && BlockOk(p, files, latest, false)
    ensures StaysOk(p, ReadStep(p, r, files, c), files, latest)
  {}

  /** A step of a request keeps the invariant of its own block. */
  lemma StepLocal(p: BlockFiles, r: Request, files: Files, c: Choice, latest: Option<BlockWrite>)
    requires p.Distinct()
    requires BlockOk(p, files, latest, HoldsTmp(r)) && RequestOk(p, r, files, latest)
    ensures StaysOk(p, Step(p, r, files, c).0, Step(p, r, files, c).1, LatestAfter(r, c, latest))
  {
    if r.Writing? {
      WriteStepLocal(p, r, files, c, latest);
    } else if r.Deleting? {
      DeleteStepLocal(p, r, files, c, latest);
    } else {
      ReadStepLocal(p, r, files, c, latest);
    }
  }

  /** Two file systems agree about one path. */
  ghost predicate SameAt(f: Files, g: Files, q: bytes) {
    (q in f <==> q in g) && (q in f ==> f[q] == g[q])
  }

  ghost predicate Agree(p: BlockFiles, f: Files, g: Files) {
    SameAt(f, g, p.tmp) && SameAt(f, g, p.meta) && SameAt(f, g, p.dat)
  }

  lemma SameEverywhere(f: Files, g: Files)
    requires forall q :: SameAt(f, g, q)
    ensures f == g
  {
    assert forall q :: q in f <==> q in g by {
      forall q ensures q in f <==> q in g {
        assert SameAt(f, g, q);
      }
    }
    forall q | q in f ensures f[q] == g[q] {
      assert SameAt(f, g, q);
    }
  }

  /** `f` and `g` differ at most in the files `p`. */
  ghost predicate SameBeside(p: BlockFiles, f: Files, g: Files) {
    forall q :: q != p.tmp && q != p.meta && q != p.dat ==> (q in f <==> q in g) && (q in f ==> f[q] == g[q])
  }

  lemma WriteStepFrame(p: BlockFiles, r: Request, files: Files, c: Choice)
    requires r.Writing?
    ensures SameBeside(p, WriteStep(p, r, files, c).1, files)
  {}

  lemma DeleteStepFrame(p: BlockFiles, r: Request, files: Files, c: Choice)
    requires r.Deleting?
    ensures SameBeside(p, DeleteStep(p, r, files, c).1, files)
  {}

  /** A step touches only the files of its own block. */
  lemma StepFrame(p: BlockFiles, r: Request, files: Files, c: Choice)
    ensures SameBeside(p, Step(p, r, files, c).1, files)
  {
    if r.Writing? {
      WriteStepFrame(p, r, files, c);
    } else if r.Deleting? {
      DeleteStepFrame(p, r, files, c);
    }
  }

  /** Whether block `id` may have a temporary file while the process is in this phase. */
  ghost predicate TmpAllowed(l: Layout, phase: Phase, id: uint64) {
    match phase
    case Down => true
    case Cleaning(todo) => l.path(id, TmpFile) in todo
    case Up(active) => id in active && HoldsTmp(active[id])
  }

  ghost predicate BlockInv(l: Layout, s: Sys, id: uint64) {
    BlockOk(l.Files(id), s.files, Find(s.latest, id), TmpAllowed(l, s.phase, id))
  }

  /** Nothing but the files of blocks. */
  ghost predicate OwnFiles(l: Layout, files: Files) {
    forall p :: p in files ==> IsOwn(l, p)
  }

  ghost predicate IsOwn(l: Layout, p: bytes) {
    exists id: uint64, k :: p == l.path(id, k)
  }

  ghost predicate PhaseInv(l: Layout, s: Sys) {
    match s.phase
    case Up(active) => forall id: uint64 :: id in active ==> ActiveOk(l, s, id, active[id])
    case Cleaning(todo) => forall p :: p in todo ==> l.inTmp(p)
    case Down => true
  }

  /** `r` is the request in progress for block `id`. */
  ghost predicate ActiveOk(l: Layout, s: Sys, id: uint64, r: Request) {
    r.id == id && !r.Done? && RequestOk(l.Files(id), r, s.files, Find(s.latest, id))
  }

  ghost predicate Inv(l: Layout, s: Sys) {
    && (forall id: uint64 :: BlockInv(l, s, id))
    && OwnFiles(l, s.files)
    && PhaseInv(l, s)
  }

  lemma FilesDistinct(l: Layout, id: uint64, id': uint64)
    requires l.Good()
    ensures l.Files(id).Distinct()
    ensures id != id' ==> {l.Files(id).tmp, l.Files(id).meta, l.Files(id).dat} !!
                          {l.Files(id').tmp, l.Files(id').meta, l.Files(id').dat}
  {}

  /** What the step of the request for a block leads to satisfies the invariant of the block. */
  lemma StepIsOk(l: Layout, s: Sys, id: uint64, c: Choice) returns (r': Request, files': Files)
    requires l.Good() && Inv(l, s) && s.phase.Up? && id in s.phase.active
    ensures (r', files') == Step(l.Files(id), s.phase.active[id], s.files, c) && r'.id == id
    ensures StaysOk(l.Files(id), r', files', Find(Latest(s, s.phase.active[id], c), id))
  {
    var r := s.phase.active[id];
    FilesDistinct(l, id, id);
    assert BlockInv(l, s, id) && ActiveOk(l, s, id, r);
    StepLocal(l.Files(id), r, s.files, c, Find(s.latest, id));
    StepProgress(l.Files(id), r, s.files, c);
    r', files' := Step(l.Files(id), r, s.files, c).0, Step(l.Files(id), r, s.files, c).1;
  }

  lemma StepKeepsItsBlock(l: Layout, s: Sys, id: uint64, c: Choice)
    requires l.Good() && Inv(l, s) && s.phase.Up? && id in s.phase.active
    ensures BlockInv(l, Advanced(l, s, id, c), id)
    ensures var s' := Advanced(l, s, id, c);
      s'.phase.Up? && id in s'.phase.active ==> ActiveOk(l, s', id, s'.phase.active[id])
  {
    var r', files' := StepIsOk(l, s, id, c);
    assert Advanced(l, s, id, c) == Sys(files', AfterStep(s.phase.active, id, r'), Latest(s, s.phase.active[id], c));
  }

  /** The step of one request leaves the files and the requests of the others as they were. */
  lemma OthersStay(l: Layout, s: Sys, id: uint64, c: Choice, other: uint64)
    requires l.Good() && Inv(l, s) && s.phase.Up? && id in s.phase.active && other != id
    ensures var s', p := Advanced(l, s, id, c), l.Files(other);
      && Agree(p, s'.files, s.files) && Find(s'.latest, other) == Find(s.latest, other)
      && (s'.phase.Up? ==> (other in s'.phase.active <==> other in s.phase.active))
      && (s'.phase.Up? && other in s.phase.active ==> s'.phase.active[other] == s.phase.active[other])
  {
    assert ActiveOk(l, s, id, s.phase.active[id]);
    FilesDistinct(l, other, id);
    StepFrame(l.Files(id), s.phase.active[id], s.files, c);
  }

  lemma AgreeSameInv(p: BlockFiles, f: Files, g: Files, r: Request, latest: Option<BlockWrite>, tmpAllowed: bool)
    requires Agree(p, f, g)
    ensures BlockOk(p, g, latest, tmpAllowed) ==> BlockOk(p, f, latest, tmpAllowed)
    ensures RequestOk(p, r, g, latest) ==> RequestOk(p, r, f, latest)
  {}

  lemma StepKeepsOtherBlock(l: Layout, s: Sys, id: uint64, c: Choice, other: uint64)
    requires l.Good() && Inv(l, s) && s.phase.Up? && id in s.phase.active && other != id
    ensures BlockInv(l, Advanced(l, s, id, c), other)
    ensures var s' := Advanced(l, s, id, c);
      s'.phase.Up? && other in s'.phase.active ==> ActiveOk(l, s', other, s'.phase.active[other])
  {
    var s', p := Advanced(l, s, id, c), l.Files(other);
    assert BlockInv(l, s, other);
    OthersStay(l, s, id, c, other);
    AgreeSameInv(p, s'.files, s.files, s.phase.active[id], Find(s.latest, other), TmpAllowed(l, s.phase, other));
    if other in s.phase.active {
      assert ActiveOk(l, s, other, s.phase.active[other]);
      AgreeSameInv(p, s'.files, s.files, s.phase.active[other], Find(s.latest, other), false);
    }
  }

  lemma StepKeepsOwn(l: Layout, s: Sys, id: uint64, c: Choice)
    requires Inv(l, s) && s.phase.Up? && id in s.phase.active
    ensures OwnFiles(l, Advanced(l, s, id, c).files)
  {
    var p := l.Files(id);
    StepFrame(p, s.phase.active[id], s.files, c);
    assert IsOwn(l, p.tmp) && IsOwn(l, p.meta) && IsOwn(l, p.dat);
  }

  lemma StepKeepsInv(l: Layout, s: Sys, id: uint64, c: Choice)
    requires l.Good() && Inv(l, s) && s.phase.Up? && id in s.phase.active
    ensures Inv(l, Advanced(l, s, id, c))
  {
    var s' := Advanced(l, s, id, c);
    forall other: uint64
      ensures BlockInv(l, s', other)
      ensures s'.phase.Up? && other in s'.phase.active ==> ActiveOk(l, s', other, s'.phase.active[other])
    {
      if other == id {
        StepKeepsItsBlock(l, s, id, c);
      } else {
        StepKeepsOtherBlock(l, s, id, c, other);
      }
    }
    StepKeepsOwn(l, s, id, c);
  }

  lemma CleaningKeepsBlock(l: Layout, s: Sys, c: Choice, id: uint64)
    requires l.Good() && Inv(l, s) && s.phase.Cleaning?
    ensures BlockInv(l, Cleaned(s, c), id)
  {
    assert BlockInv(l, s, id);
    var p := l.Files(id);
    var todo := s.phase.todo;
    assert !l.inTmp(p.meta) && !l.inTmp(p.dat);
    if todo != [] && p.tmp in todo {
      assert p.tmp == todo[0] || p.tmp in todo[1..];
    }
  }

  /** Every step, exception, crash and restart keeps the invariant. */
  lemma InvHappens(l: Layout, s: Sys, e: Event)
    requires l.Good() && Inv(l, s) && Enabled(l, s, e)
    ensures Inv(l, Happen(l, s, e))
  {
    match e
    case Advance(id, c) => StepKeepsInv(l, s, id, c);
    case Clean(c) =>
      forall id: uint64 ensures BlockInv(l, Cleaned(s, c), id) {
        CleaningKeepsBlock(l, s, c, id);
      }
    case Boot(listing) => BootKeepsInv(l, s, listing);
    case Begin(r) => BeginKeepsInv(l, s, r);
    case Crash =>
      forall id: uint64 ensures BlockInv(l, Happen(l, s, e), id) {
        assert BlockInv(l, s, id);
      }
  }

  lemma BootKeepsInv(l: Layout, s: Sys, listing: seq<bytes>)
    requires l.Good() && Inv(l, s) && Enabled(l, s, Boot(listing))
    ensures Inv(l, Happen(l, s, Boot(listing)))
  {
    forall id: uint64 ensures BlockInv(l, Happen(l, s, Boot(listing)), id) {
      assert BlockInv(l, s, id);
      assert l.inTmp(l.Files(id).tmp);
    }
  }

  lemma BeginKeepsInv(l: Layout, s: Sys, r: Request)
    requires l.Good() && Inv(l, s) && Enabled(l, s, Begin(r))
    ensures Inv(l, Happen(l, s, Begin(r)))
  {
    var s' := Happen(l, s, Begin(r));
    forall id: uint64
      ensures BlockInv(l, s', id)
      ensures id in s'.phase.active ==> ActiveOk(l, s', id, s'.phase.active[id])
    {
      assert BlockInv(l, s, id);
      if id in s.phase.active {
        assert ActiveOk(l, s, id, s.phase.active[id]);
      }
    }
  }

  lemma {:induction false} InvReaches(l: Layout, s0: Sys, events: seq<Event>, s: Sys)
    requires l.Good() && Inv(l, s0) && Reaches(l, s0, events, s)
    ensures Inv(l, s)
    decreases |events|
  {
    if events != [] {
      InvHappens(l, s0, events[0]);
      InvReaches(l, Happen(l, s0, events[0]), events[1..], s);
    }
  }

  lemma ReachableInv(l: Layout, s: Sys)
    requires l.Good() && Reachable(l, s)
    ensures Inv(l, s)
  {
    var events :| Reaches(l, Initial, events, s);
    InvReaches(l, Initial, events, s);
  }

  // ---------------------------------------------------------------- what the history variable holds

  /** Every write recorded, and those in progress, are the writes of some calls of WriteBlock. */
  ghost predicate WritesInv(s: Sys) {
    && (forall id: uint64 :: id in s.latest ==> IsWriteOf(id, s.latest[id]))
    && (s.phase.Up? ==> forall id: uint64 :: id in s.phase.active ==> ActiveWrites(id, s.phase.active[id]))
  }

  ghost predicate ActiveWrites(id: uint64, r: Request) {
    r.id == id && (r.Writing? ==> IsWriteOf(id, r.w))
  }

  lemma WriteStepKeepsWrite(p: BlockFiles, r: Request, files: Files, c: Choice)
    requires r.Writing?
    ensures var r' := WriteStep(p, r, files, c).0; r'.Writing? ==> r'.w == r.w && r'.id == r.id
  {}

  lemma ReadStepWritesNothing(p: BlockFiles, r: Request, files: Files, c: Choice)
    requires !r.Writing?
    ensures !ReadStep(p, r, files, c).Writing?
  {}

  lemma DeleteStepWritesNothing(p: BlockFiles, r: Request, files: Files, c: Choice)
    requires r.Deleting?
    ensures !DeleteStep(p, r, files, c).0.Writing?
  {}

  lemma StepKeepsWrite(p: BlockFiles, r: Request, files: Files, c: Choice)
    ensures var r' := Step(p, r, files, c).0; r'.Writing? ==> r.Writing? && r'.w == r.w && r'.id == r.id
  {
    if r.Writing? {
      WriteStepKeepsWrite(p, r, files, c);
    } else if r.Deleting? {
      DeleteStepWritesNothing(p, r, files, c);
    } else {
      ReadStepWritesNothing(p, r, files, c);
    }
  }

  lemma StepWrites(l: Layout, s: Sys, id: uint64, c: Choice) returns (r': Request)
    requires WritesInv(s) && s.phase.Up? && id in s.phase.active
    ensures r' == Step(l.Files(id), s.phase.active[id], s.files, c).0 && ActiveWrites(id, r')
  {
    var r := s.phase.active[id];
    assert ActiveWrites(id, r);
    StepKeepsWrite(l.Files(id), r, s.files, c);
    StepProgress(l.Files(id), r, s.files, c);
    r' := Step(l.Files(id), r, s.files, c).0;
  }

  lemma LatestWrites(s: Sys, r: Request, c: Choice)
    requires WritesInv(s) && ActiveWrites(r.id, r)
    ensures forall id: uint64 :: id in Latest(s, r, c) ==> IsWriteOf(id, Latest(s, r, c)[id])
  {}

  lemma StepKeepsWrites(l: Layout, s: Sys, id: uint64, c: Choice)
    requires WritesInv(s) && s.phase.Up? && id in s.phase.active
    ensures WritesInv(Advanced(l, s, id, c))
  {
    var s' := Advanced(l, s, id, c);
    assert ActiveWrites(id, s.phase.active[id]);
    var r' := StepWrites(l, s, id, c);
    LatestWrites(s, s.phase.active[id], c);
    assert s'.phase == AfterStep(s.phase.active, id, r');
    if s'.phase.Up? {
      forall other: uint64 | other in s'.phase.active ensures ActiveWrites(other, s'.phase.active[other]) {
        assert other == id || ActiveWrites(other, s.phase.active[other]);
      }
    }
  }

  lemma {:induction false} WritesReach(l: Layout, s0: Sys, events: seq<Event>, s: Sys)
    requires WritesInv(s0) && Reaches(l, s0, events, s)
    ensures WritesInv(s)
    decreases |events|
  {
    if events != [] {
      if events[0].Advance? {
        StepKeepsWrites(l, s0, events[0].id, events[0].c);
      }
      WritesReach(l, Happen(l, s0, events[0]), events[1..], s);
    }
  }

  // ---------------------------------------------------------------- main results on reachable states

  /** Data implies meta, at every moment. */
  lemma DataImpliesMeta(l: Layout, s: Sys, id: uint64)
    requires l.Good() && Reachable(l, s) && l.path(id, DataFile) in s.files
    ensures l.path(id, MetaFile) in s.files
  {
    ReachableInv(l, s);
    assert BlockInv(l, s, id);
  }

  /** While the store is up, the only temporary files are those of the writes in progress, whatever was interrupted or
      failed before. */
  lemma TmpIsEmpty(l: Layout, s: Sys, p: bytes)
    requires l.Good() && Reachable(l, s) && p in s.files && l.inTmp(p)
    ensures s.phase.Up? ==>
      exists id: uint64 :: id in s.phase.active && s.phase.active[id].Writing? && p == l.path(id, TmpFile)
  {
    ReachableInv(l, s);
    assert IsOwn(l, p);
    var id: uint64, k :| p == l.path(id, k);
    assert BlockInv(l, s, id);
  }

  /** A restart: the process comes up and cleans the tmp directory, without an exception or another crash. */
  ghost predicate IsRestart(events: seq<Event>) {
    && events != [] && events[0].Boot?
    && forall i :: 0 < i < |events| ==> events[i].Clean?
  }

  lemma NothingToClean(l: Layout, s0: Sys, events: seq<Event>, s: Sys)
    requires !s0.phase.Cleaning? && Reaches(l, s0, events, s)
    requires forall i :: 0 <= i < |events| ==> events[i].Clean?
    ensures s == s0
  {}

  lemma {:induction false} CleaningKeeps(l: Layout, s0: Sys, events: seq<Event>, s: Sys, p: bytes)
    requires s0.phase.Cleaning? && (forall q :: q in s0.phase.todo ==> l.inTmp(q))
    requires forall i :: 0 <= i < |events| ==> events[i].Clean?
    requires Reaches(l, s0, events, s) && !l.inTmp(p)
    ensures s.phase.Up? ==> s.phase.active == map[]
    ensures p in s.files <==> p in s0.files
    ensures p in s.files ==> s.files[p] == s0.files[p]
    decreases |events|
  {
    if events != [] {
      var s1 := Happen(l, s0, events[0]);
      if s1.phase.Cleaning? {
        CleaningKeeps(l, s1, events[1..], s, p);
      } else {
        NothingToClean(l, s1, events[1..], s);
      }
    }
  }

  /** After a restart no request is in progress, the tmp directory is empty and everything else is as it was. */
  lemma RestartCleans(l: Layout, s0: Sys, events: seq<Event>, s: Sys, p: bytes)
    requires l.Good() && Reachable(l, s0) && IsRestart(events) && Reaches(l, s0, events, s) && s.phase.Up?
    ensures s.phase.active == map[]
    ensures p in s.files <==> p in s0.files && !l.inTmp(p)
    ensures p in s.files ==> s.files[p] == s0.files[p]
  {
    var s1 := Happen(l, s0, events[0]);
    ReachableInv(l, s0);
    InvReaches(l, s0, events, s);
    CleaningKeeps(l, s1, events[1..], s, l.path(0, DataFile));
    if l.inTmp(p) {
      forall id: uint64 ensures l.path(id, TmpFile) !in s.files {
        assert BlockInv(l, s, id);
      }
    } else {
      CleaningKeeps(l, s1, events[1..], s, p);
    }
  }
}
