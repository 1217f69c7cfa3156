/** Threads serving requests for different blocks: any interleaving of their system calls ends like some
    (like every) sequential order. */
module StoreInterleaving {
  import opened Bytes
  import opened StoreSteps
  import opened StoreSystem

  /** A thread: its request, and how its system calls will go. */
  datatype Task = Task(r: Request, env: seq<Choice>)

  datatype Config = Config(files: Files, tasks: seq<Task>)

  function StepTask(l: Layout, t: Task, files: Files): (Task, Files) {
    if t.r.Done? then (t, files)
    else
      var (r', files') := Step(l.Files(t.r.id), t.r, files, Next(t.env));
      (Task(r', Rest(t.env)), files')
  }

  predicate InRange(schedule: seq<nat>, n: nat) {
    forall k :: 0 <= k < |schedule| ==> schedule[k] < n
  }

  /** Run the system calls of the threads in the order given by `schedule`. */
  function Exec(l: Layout, c: Config, schedule: seq<nat>): Config
    requires InRange(schedule, |c.tasks|)
    decreases |schedule|
  {
    if schedule == [] then c
    else
      var i := schedule[0];
      var (t, files') := StepTask(l, c.tasks[i], c.files);
      Exec(l, Config(files', c.tasks[i := t]), schedule[1..])
  }

  /** The first `n` system calls of one thread by itself. */
  function Alone(l: Layout, t: Task, files: Files, n: nat): (Task, Files)
    decreases n
  {
    if n == 0 then (t, files)
    else var (t', files') := StepTask(l, t, files); Alone(l, t', files', n - 1)
  }

  function Count(schedule: seq<nat>, i: nat): nat
    decreases |schedule|
  {
    if schedule == [] then 0 else (if schedule[0] == i then 1 else 0) + Count(schedule[1..], i)
  }

  ghost predicate DistinctIds(tasks: seq<Task>) {
    forall i, j :: 0 <= i < j < |tasks| ==> tasks[i].r.id != tasks[j].r.id
  }

  ghost predicate Owns(p: BlockFiles, q: bytes) {
    q == p.tmp || q == p.meta || q == p.dat
  }

  // ---------------------------------------------------------------- steps depend on, and change, their own files only

  lemma WriteLocality(p: BlockFiles, r: Request, f: Files, g: Files, c: Choice)
    requires Agree(p, f, g) && r.Writing?
    ensures WriteStep(p, r, f, c).0 == WriteStep(p, r, g, c).0
    ensures Agree(p, WriteStep(p, r, f, c).1, WriteStep(p, r, g, c).1)
  {}

  lemma DeleteLocality(p: BlockFiles, r: Request, f: Files, g: Files, c: Choice)
    requires Agree(p, f, g) && r.Deleting?
    ensures DeleteStep(p, r, f, c).0 == DeleteStep(p, r, g, c).0
    ensures Agree(p, DeleteStep(p, r, f, c).1, DeleteStep(p, r, g, c).1)
  {}

  lemma StepLocality(p: BlockFiles, r: Request, f: Files, g: Files, c: Choice)
    requires Agree(p, f, g)
    ensures Step(p, r, f, c).0 == Step(p, r, g, c).0
    ensures Agree(p, Step(p, r, f, c).1, Step(p, r, g, c).1)
  {
    if r.Writing? {
      WriteLocality(p, r, f, g, c);
    } else if r.Deleting? {
      DeleteLocality(p, r, f, g, c);
    }
  }

  lemma TaskLocality(l: Layout, t: Task, f: Files, g: Files)
    requires Agree(l.Files(t.r.id), f, g)
    ensures StepTask(l, t, f).0 == StepTask(l, t, g).0 && StepTask(l, t, f).0.r.id == t.r.id
    ensures Agree(l.Files(t.r.id), StepTask(l, t, f).1, StepTask(l, t, g).1)
    ensures forall q :: !Owns(l.Files(t.r.id), q) ==> SameAt(StepTask(l, t, f).1, f, q)
  {
    if !t.r.Done? {
      StepLocality(l.Files(t.r.id), t.r, f, g, Next(t.env));
      StepFrame(l.Files(t.r.id), t.r, f, Next(t.env));
      StepProgress(l.Files(t.r.id), t.r, f, Next(t.env));
    }
  }

  /** The first call of a thread, on two file systems that agree about its files. */
  lemma FirstCall(l: Layout, t: Task, f: Files, g: Files, n: nat) returns (t': Task, f': Files, g': Files)
    requires Agree(l.Files(t.r.id), f, g) && n > 0
    ensures t'.r.id == t.r.id && Agree(l.Files(t.r.id), f', g')
    ensures Alone(l, t, f, n) == Alone(l, t', f', n - 1) && Alone(l, t, g, n) == Alone(l, t', g', n - 1)
  {
    TaskLocality(l, t, f, g);
    t', f', g' := StepTask(l, t, f).0, StepTask(l, t, f).1, StepTask(l, t, g).1;
  }

  lemma {:induction false} AloneLocality(l: Layout, t: Task, f: Files, g: Files, n: nat)
    requires Agree(l.Files(t.r.id), f, g)
    ensures Alone(l, t, f, n).0 == Alone(l, t, g, n).0
    ensures Agree(l.Files(t.r.id), Alone(l, t, f, n).1, Alone(l, t, g, n).1)
    decreases n
  {
    if n > 0 {
      var t', f', g' := FirstCall(l, t, f, g, n);
      AloneLocality(l, t', f', g', n - 1);
    }
  }

  lemma OthersAgree(l: Layout, id: uint64, id': uint64, f: Files, g: Files)
    requires l.Good() && id != id'
    requires forall q :: !Owns(l.Files(id), q) ==> SameAt(f, g, q)
    ensures Agree(l.Files(id'), f, g)
  {
    FilesDistinct(l, id, id');
  }

  // ---------------------------------------------------------------- every thread goes its own way

  lemma {:induction false} Projection(l: Layout, c: Config, schedule: seq<nat>, j: nat)
    requires l.Good() && DistinctIds(c.tasks) && j < |c.tasks|
    requires InRange(schedule, |c.tasks|)
    ensures var c' := Exec(l, c, schedule);
            var a := Alone(l, c.tasks[j], c.files, Count(schedule, j));
            && |c'.tasks| == |c.tasks|
            && c'.tasks[j] == a.0
            && Agree(l.Files(c.tasks[j].r.id), c'.files, a.1)
    decreases |schedule|
  {
    if schedule != [] {
      var i := schedule[0];
      var (t, files') := StepTask(l, c.tasks[i], c.files);
      var c1 := Config(files', c.tasks[i := t]);
      TaskLocality(l, c.tasks[i], c.files, c.files);
      Projection(l, c1, schedule[1..], j);
      if i != j {
        OthersAgree(l, c.tasks[i].r.id, c.tasks[j].r.id, files', c.files);
        AloneLocality(l, c.tasks[j], files', c.files, Count(schedule[1..], j));
        AgreeTransitive(l.Files(c.tasks[j].r.id), Exec(l, c, schedule).files,
                        Alone(l, c.tasks[j], files', Count(schedule[1..], j)).1,
                        Alone(l, c.tasks[j], c.files, Count(schedule[1..], j)).1);
      }
    }
  }

  lemma AgreeTransitive(p: BlockFiles, f: Files, g: Files, h: Files)
    requires Agree(p, f, g) && Agree(p, g, h)
    ensures Agree(p, f, h)
  {}

  /** A path is owned by no thread. */
  ghost predicate Untouched(l: Layout, tasks: seq<Task>, q: bytes) {
    forall i :: 0 <= i < |tasks| ==> !Owns(l.Files(tasks[i].r.id), q)
  }

  lemma {:induction false} OutsideUnchanged(l: Layout, c: Config, schedule: seq<nat>, q: bytes)
    requires Untouched(l, c.tasks, q) && InRange(schedule, |c.tasks|)
    ensures SameAt(Exec(l, c, schedule).files, c.files, q)
    decreases |schedule|
  {
    if schedule != [] {
      var i := schedule[0];
      var (t, files') := StepTask(l, c.tasks[i], c.files);
      TaskLocality(l, c.tasks[i], c.files, c.files);
      assert SameAt(files', c.files, q);
      OutsideUnchanged(l, Config(files', c.tasks[i := t]), schedule[1..], q);
    }
  }

  lemma {:induction false} AloneDone(l: Layout, t: Task, files: Files, n: nat)
    requires Alone(l, t, files, n).0.r.Done?
    ensures var a := Alone(l, t, files, n);
            var e := Run(l.Files(t.r.id), t.r, files, t.env);
            a.0.r == Done(t.r.id, e.outcome) && a.1 == e.files
    decreases n
  {
    if t.r.Done? {
      AloneStays(l, t, files, n);
    } else {
      RunStep(l.Files(t.r.id), t.r, files, t.env);
      StepProgress(l.Files(t.r.id), t.r, files, Next(t.env));
      var (t', files') := StepTask(l, t, files);
      AloneDone(l, t', files', n - 1);
    }
  }

  lemma {:induction false} AloneStays(l: Layout, t: Task, files: Files, n: nat)
    requires t.r.Done?
    ensures Alone(l, t, files, n) == (t, files)
    decreases n
  {
    if n > 0 {
      AloneStays(l, t, files, n - 1);
    }
  }

  // ---------------------------------------------------------------- sequential execution

  /** Serve the requests one after the other, each to its end. */
  function Sequentially(l: Layout, tasks: seq<Task>, files: Files): (seq<Outcome>, Files)
    decreases |tasks|
  {
    if tasks == [] then ([], files)
    else
      var e := Run(l.Files(tasks[0].r.id), tasks[0].r, files, tasks[0].env);
      var (outs, files') := Sequentially(l, tasks[1..], e.files);
      ([e.outcome] + outs, files')
  }

  lemma {:induction false} RunFrame(p: BlockFiles, r: Request, files: Files, env: seq<Choice>)
    ensures forall q :: !Owns(p, q) ==> SameAt(Run(p, r, files, env).files, files, q)
    decreases Rank(r)
  {
    if !r.Done? {
      StepProgress(p, r, files, Next(env));
      StepFrame(p, r, files, Next(env));
      var s := Step(p, r, files, Next(env));
      RunFrame(p, s.0, s.1, Rest(env));
      RunStep(p, r, files, env);
    }
  }

  lemma {:induction false} RunLocality(p: BlockFiles, r: Request, f: Files, g: Files, env: seq<Choice>)
    requires Agree(p, f, g)
    ensures Run(p, r, f, env).outcome == Run(p, r, g, env).outcome
    ensures Agree(p, Run(p, r, f, env).files, Run(p, r, g, env).files)
    decreases Rank(r)
  {
    if !r.Done? {
      StepProgress(p, r, f, Next(env));
      StepLocality(p, r, f, g, Next(env));
      var s, t := Step(p, r, f, Next(env)), Step(p, r, g, Next(env));
      RunLocality(p, s.0, s.1, t.1, Rest(env));
      RunStep(p, r, f, env);
      RunStep(p, r, g, env);
    }
  }

  /** In sequence, each request still ends as it would alone on the initial files. */
  lemma {:induction false} SequentialProjection(l: Layout, tasks: seq<Task>, files: Files, j: nat)
    requires l.Good() && DistinctIds(tasks) && j < |tasks|
    ensures var (outs, files') := Sequentially(l, tasks, files);
            var p := l.Files(tasks[j].r.id);
            var e := Run(p, tasks[j].r, files, tasks[j].env);
            |outs| == |tasks| && outs[j] == e.outcome && Agree(p, files', e.files)
    decreases |tasks|
  {
    var t := tasks[0];
    var p0 := l.Files(t.r.id);
    var e0 := Run(p0, t.r, files, t.env);
    if j == 0 {
      OthersLeaveAlone(l, tasks, e0.files);
    } else {
      RunFrame(p0, t.r, files, t.env);
      var p := l.Files(tasks[j].r.id);
      SequentialProjection(l, tasks[1..], e0.files, j - 1);
      OthersAgree(l, t.r.id, tasks[j].r.id, e0.files, files);
      RunLocality(p, tasks[j].r, e0.files, files, tasks[j].env);
    }
  }

  /** The requests after the first do not touch its files. */
  lemma OthersLeaveAlone(l: Layout, tasks: seq<Task>, files: Files)
    requires l.Good() && DistinctIds(tasks) && tasks != []
    ensures var p := l.Files(tasks[0].r.id);
            && |Sequentially(l, tasks[1..], files).0| == |tasks| - 1
            && Agree(p, Sequentially(l, tasks[1..], files).1, files)
  {
    var p := l.Files(tasks[0].r.id);
    NotTheirs(l, tasks, p.tmp);
    NotTheirs(l, tasks, p.meta);
    NotTheirs(l, tasks, p.dat);
    SequentialOutside(l, tasks[1..], files, p.tmp);
    SequentialOutside(l, tasks[1..], files, p.meta);
    SequentialOutside(l, tasks[1..], files, p.dat);
  }

  lemma NotTheirs(l: Layout, tasks: seq<Task>, q: bytes)
    requires l.Good() && DistinctIds(tasks) && tasks != [] && Owns(l.Files(tasks[0].r.id), q)
    ensures Untouched(l, tasks[1..], q)
  {
    forall i | 0 <= i < |tasks[1..]| ensures !Owns(l.Files(tasks[1..][i].r.id), q) {
      FilesDistinct(l, tasks[0].r.id, tasks[i + 1].r.id);
    }
  }

  lemma {:induction false} SequentialOutside(l: Layout, tasks: seq<Task>, files: Files, q: bytes)
    ensures |Sequentially(l, tasks, files).0| == |tasks|
    ensures Untouched(l, tasks, q) ==> SameAt(Sequentially(l, tasks, files).1, files, q)
    decreases |tasks|
  {
    if tasks != [] {
      var p := l.Files(tasks[0].r.id);
      RunFrame(p, tasks[0].r, files, tasks[0].env);
      var e := Run(p, tasks[0].r, files, tasks[0].env);
      SequentialOutside(l, tasks[1..], e.files, q);
    }
  }

  // ---------------------------------------------------------------- the main result

  /** Requests for pairwise distinct blocks, interleaved call by call in any order until all have ended, with
      any calls failing or falling short, leave the files and give the answers that serving them one after
      the other gives. */
  lemma InterleavingIsSequential(l: Layout, c: Config, schedule: seq<nat>)
    requires l.Good() && DistinctIds(c.tasks)
    requires InRange(schedule, |c.tasks|)
    requires forall t :: t in Exec(l, c, schedule).tasks ==> t.r.Done?
    ensures var c' := Exec(l, c, schedule);
            var (outs, files') := Sequentially(l, c.tasks, c.files);
            && |c'.tasks| == |outs| == |c.tasks|
            && (forall j :: 0 <= j < |outs| ==> c'.tasks[j].r == Done(c.tasks[j].r.id, outs[j]))
            && c'.files == files'
  {
    var c' := Exec(l, c, schedule);
    var (outs, files') := Sequentially(l, c.tasks, c.files);
    SequentialOutside(l, c.tasks, c.files, []);
    ExecKeepsCount(l, c, schedule);
    forall j | 0 <= j < |outs|
      ensures c'.tasks[j].r == Done(c.tasks[j].r.id, outs[j])
      ensures Agree(l.Files(c.tasks[j].r.id), c'.files, files')
    {
      Projection(l, c, schedule, j);
      AloneDone(l, c.tasks[j], c.files, Count(schedule, j));
      SequentialProjection(l, c.tasks, c.files, j);
    }
    forall q ensures SameAt(c'.files, files', q) {
      if Untouched(l, c.tasks, q) {
        OutsideUnchanged(l, c, schedule, q);
        SequentialOutside(l, c.tasks, c.files, q);
      }
    }
    SameEverywhere(c'.files, files');
  }

  /** A request that gets as many calls as it has left, ends. */
  lemma {:induction false} EndsInTime(l: Layout, t: Task, files: Files, n: nat)
    requires Rank(t.r) <= n
    ensures Alone(l, t, files, n).0.r.Done?
    decreases n
  {
    if t.r.Done? {
      AloneStays(l, t, files, n);
    } else {
      StepProgress(l.Files(t.r.id), t.r, files, Next(t.env));
      var (t', files') := StepTask(l, t, files);
      EndsInTime(l, t', files', n - 1);
    }
  }

  /** So in every order that gives each request six calls all of them end, and end as in sequence. */
  lemma FairInterleaving(l: Layout, c: Config, schedule: seq<nat>)
    requires l.Good() && DistinctIds(c.tasks)
    requires InRange(schedule, |c.tasks|) && forall i :: 0 <= i < |c.tasks| ==> Count(schedule, i) >= 6
    ensures var c' := Exec(l, c, schedule);
            var (outs, files') := Sequentially(l, c.tasks, c.files);
            && |c'.tasks| == |outs| == |c.tasks|
            && (forall j :: 0 <= j < |outs| ==> c'.tasks[j].r == Done(c.tasks[j].r.id, outs[j]))
            && c'.files == files'
  {
    var c' := Exec(l, c, schedule);
    ExecKeepsCount(l, c, schedule);
    forall j | 0 <= j < |c'.tasks| ensures c'.tasks[j].r.Done? {
      Projection(l, c, schedule, j);
      EndsInTime(l, c.tasks[j], c.files, Count(schedule, j));
    }
    InterleavingIsSequential(l, c, schedule);
  }

  lemma {:induction false} ExecKeepsCount(l: Layout, c: Config, schedule: seq<nat>)
    requires InRange(schedule, |c.tasks|)
    ensures |Exec(l, c, schedule).tasks| == |c.tasks|
    decreases |schedule|
  {
    if schedule != [] {
      var i := schedule[0];
      var (t, files') := StepTask(l, c.tasks[i], c.files);
      ExecKeepsCount(l, Config(files', c.tasks[i := t]), schedule[1..]);
    }
  }
}
