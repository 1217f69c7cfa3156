/** The requests of the block store as sequences of file-system steps.  Every open-truncate, write, rename,
    remove, existence test and read is one step, and the environment chooses how each step goes. */
module StoreSteps {
  import opened Bytes
  import opened BlockMetas
  import opened Crc32
  import opened Paths

  type Files = map<bytes, bytes>

  /** The three paths one block uses. */
  datatype BlockFiles = BlockFiles(tmp: bytes, meta: bytes, dat: bytes) {
    ghost predicate Distinct() {
      tmp != meta && tmp != dat && meta != dat
    }
  }

  /** Where a store keeps its files: the path of every file of every block, and which paths are in the
      tmp directory. */
  datatype Layout = Layout(path: (uint64, Kind) -> bytes, inTmp: bytes -> bool) {
    ghost predicate Good() {
      && (forall id: uint64, k, id': uint64, k' :: path(id, k) == path(id', k') ==> id == id' && k == k')
      && (forall id: uint64, k :: inTmp(path(id, k)) <==> k == TmpFile)
    }

    function Files(id: uint64): BlockFiles {
      BlockFiles(path(id, TmpFile), path(id, MetaFile), path(id, DataFile))
    }
  }

  /** The layout of the store with data directory `d`. */
  function LayoutOf(d: bytes): Layout {
    Layout((id: uint64, k: Kind) => PathOf(d, id, k), (p: bytes) => IsChild(TmpDir(d), p))
  }

  lemma LayoutIsGood(d: bytes)
    ensures LayoutOf(d).Good()
  {
    var l := LayoutOf(d);
    forall id: uint64, k, id': uint64, k' | l.path(id, k) == l.path(id', k') ensures id == id' && k == k' {
      PathInjective(d, id, k, id', k');
    }
    forall id: uint64, k ensures l.inTmp(l.path(id, k)) <==> k == TmpFile {
      PathDirectory(d, id, k);
    }
  }

  /** How one system call goes: it works, it fails, or (a write) only `n` octets get out. */
  datatype Choice = Go | Fail | Short(n: nat)

  /** How a request ends: with its return value, or by the exception of a throwing fs::remove or fs::exists. */
  datatype Outcome = Wrote(ok: bool) | Read(data: Option<bytes>) | Deleted(ok: bool) | Threw

  datatype WritePc = OpenTmp | FillTmp | OpenMeta | FillMeta | RenameTmp | DropTmp

  datatype DeletePc = SeekData | DropData | SeekMeta | DropMeta

  /** What a WriteBlock writes: the data, the time, and the text of the meta line it computes for them. */
  datatype BlockWrite = BlockWrite(data: bytes, time: int64, line: bytes)

  /** A request in progress: what its thread still knows between two system calls. */
  datatype Request =
    | Writing(id: uint64, w: BlockWrite, wpc: WritePc)
    | ReadingMeta(id: uint64, offset: int, length: int)
    | OpeningData(id: uint64, offset: int, length: int, meta: BlockMeta)
    | ReadingData(id: uint64, offset: int, length: int, meta: BlockMeta)
    | Deleting(id: uint64, ok: bool, dpc: DeletePc)
    | Done(id: uint64, outcome: Outcome)

  /** What a write of `content` leaves in a freshly truncated file. */
  function Written(content: bytes, c: Choice): (b: bytes)
    ensures b <= content
  {
    match c
    case Go => content
    case Fail => []
    case Short(n) => Upto(content, n)
  }

  /** The meta record WriteBlock computes. */
  function MetaOf(id: uint64, data: bytes, time: int64): BlockMeta
    requires |data| < TWO_63
  {
    BlockMeta(id, |data|, ComputeCRC32(data), time)
  }

  /** The range a read request denotes in a block of `size` octets, as a length from `offset`. */
  function Clamp(size: int, offset: int, length: int): (l: Option<nat>)
    ensures l.Some? ==> 0 <= offset <= size && 0 <= l.value <= size - offset
  {
    if offset < 0 || offset > size then None
    else if length <= 0 || offset + length > size then Some(size - offset)
    else Some(length)
  }

  /** What reading `length` octets at `offset` of an opened data file yields. */
  function Fetch(content: bytes, meta: BlockMeta, offset: int, length: int): Option<bytes> {
    if offset < 0 || length < 0 || offset + length > |content| then None
    else
      var out := content[offset..offset + length];
      if offset == 0 && length == meta.size && ComputeCRC32(out) != meta.crc32 then None else Some(out)
  }

  /** The write that `WriteBlock(id, data)` performs when the clock shows `time`. */
  function WriteOf(id: uint64, data: bytes, time: int64): BlockWrite
    requires |data| < TWO_63
  {
    BlockWrite(data, time, MetaLine(MetaOf(id, data, time)))
  }

  /** One system call of a request for the block with files `p`. */
  function Step(p: BlockFiles, r: Request, files: Files, c: Choice): (Request, Files)
  {
    match r
    case Writing(_, _, _) => WriteStep(p, r, files, c)
    case Deleting(_, _, _) => DeleteStep(p, r, files, c)
    case _ => (ReadStep(p, r, files, c), files)
  }

  function WriteStep(p: BlockFiles, r: Request, files: Files, c: Choice): (Request, Files)
    requires r.Writing?
  {
    match r.wpc
    case OpenTmp =>
      if c == Fail then (Done(r.id, Wrote(false)), files) else (r.(wpc := FillTmp), files[p.tmp := []])
    case FillTmp => (r.(wpc := OpenMeta), files[p.tmp := Written(r.w.data, c)])
    case OpenMeta =>
      if c == Fail then (r.(wpc := DropTmp), files) else (r.(wpc := FillMeta), files[p.meta := []])
    case FillMeta => (r.(wpc := RenameTmp), files[p.meta := Written(r.w.line, c)])
    case RenameTmp =>
      if c == Fail || p.tmp !in files then (r.(wpc := DropTmp), files)
      else (Done(r.id, Wrote(true)), files[p.dat := files[p.tmp]] - {p.tmp})
    case DropTmp =>
      if c == Fail then (Done(r.id, Threw), files) else (Done(r.id, Wrote(false)), files - {p.tmp})
  }

  function ReadStep(p: BlockFiles, r: Request, files: Files, c: Choice): Request {
    match r
    case ReadingMeta(id, offset, length) =>
      var m := if c == Go && p.meta in files then ParseMeta(files[p.meta]) else None;
      if m.Some? then OpeningData(id, offset, length, m.value) else Done(id, Read(None))
    case OpeningData(id, offset, length, meta) =>
      var l := if c == Go && p.dat in files then Clamp(meta.size, offset, length) else None;
      if l.None? then Done(id, Read(None))
      else if l.value == 0 then Done(id, Read(Some([])))
      else ReadingData(id, offset, l.value, meta)
    case ReadingData(id, offset, length, meta) =>
      Done(id, Read(if c == Go && p.dat in files then Fetch(files[p.dat], meta, offset, length) else None))
    case _ => r
  }

  function DeleteStep(p: BlockFiles, r: Request, files: Files, c: Choice): (Request, Files)
    requires r.Deleting?
  {
    if c == Fail then (Done(r.id, Threw), files)
    else
      match r.dpc
      case SeekData => (r.(dpc := if p.dat in files then DropData else SeekMeta), files)
      case DropData => (r.(dpc := SeekMeta, ok := r.ok && p.dat in files), files - {p.dat})
      case SeekMeta => (if p.meta in files then r.(dpc := DropMeta) else Done(r.id, Deleted(r.ok)), files)
      case DropMeta => (Done(r.id, Deleted(r.ok && p.meta in files)), files - {p.meta})
  }

  // ---------------------------------------------------------------- running a request to its end

  /** A bound on the system calls a request has left. */
  function Rank(r: Request): nat {
    match r
    case Writing(_, _, pc) =>
      (match pc case OpenTmp => 6 case FillTmp => 5 case OpenMeta => 4 case FillMeta => 3
                case RenameTmp => 2 case DropTmp => 1)
    case ReadingMeta(_, _, _) => 3
    case OpeningData(_, _, _, _) => 2
    case ReadingData(_, _, _, _) => 1
    case Deleting(_, _, pc) =>
      (match pc case SeekData => 4 case DropData => 3 case SeekMeta => 2 case DropMeta => 1)
    case Done(_, _) => 0
  }

  lemma WriteProgress(p: BlockFiles, r: Request, files: Files, c: Choice)
    requires r.Writing?
    ensures var r' := WriteStep(p, r, files, c).0; r'.id == r.id && Rank(r') < Rank(r)
  {}

  lemma StepProgress(p: BlockFiles, r: Request, files: Files, c: Choice)
    ensures Step(p, r, files, c).0.id == r.id
    ensures !r.Done? ==> Rank(Step(p, r, files, c).0) < Rank(r)
  {
    if r.Writing? {
      WriteProgress(p, r, files, c);
    }
  }

  /** The environment's next choice: what `env` says, and after its end that calls work. */
  function Next(env: seq<Choice>): Choice {
    if env == [] then Go else env[0]
  }

  function Rest(env: seq<Choice>): seq<Choice> {
    if env == [] then [] else env[1..]
  }

  /** The end of a request: its outcome, the files, the choices not consumed, and every state the file
      system went through, each of them a state a crash could have left. */
  datatype Ending = Ending(outcome: Outcome, files: Files, env: seq<Choice>, states: seq<Files>)

  function Run(p: BlockFiles, r: Request, files: Files, env: seq<Choice>): Ending
    decreases Rank(r)
  {
    if r.Done? then Ending(r.outcome, files, env, [])
    else
      var (r', files') := Step(p, r, files, Next(env));
      StepProgress(p, r, files, Next(env));
      var e := Run(p, r', files', Rest(env));
      e.(states := [files'] + e.states)
  }

  lemma RunStep(p: BlockFiles, r: Request, files: Files, env: seq<Choice>)
    requires !r.Done?
    ensures var s := Step(p, r, files, Next(env));
            Run(p, r, files, env) ==
            Run(p, s.0, s.1, Rest(env)).(states := [s.1] + Run(p, s.0, s.1, Rest(env)).states)
  {
    StepProgress(p, r, files, Next(env));
  }
}
