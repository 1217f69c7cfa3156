/** The states a request takes the files through are states of the system: a crash at any moment of a call of the block
    store leaves the files of some reachable state, so everything proved of reachable states holds there. */
module StoreRuns {
  import opened Bytes
  import opened Paths
  import opened StoreSteps
  import opened StoreSystem

  lemma {:induction false} ReachesOneMore(l: Layout, s0: Sys, events: seq<Event>, s: Sys, e: Event)
    requires Reaches(l, s0, events, s) && Enabled(l, s, e)
    ensures Reaches(l, s0, events + [e], Happen(l, s, e))
    decreases |events|
  {
    if events == [] {
      assert [e][1..] == [];
    } else {
      ReachesOneMore(l, Happen(l, s0, events[0]), events[1..], s, e);
      assert (events + [e])[1..] == events[1..] + [e];
    }
  }

  lemma ReachableStep(l: Layout, s: Sys, e: Event)
    requires Reachable(l, s) && Enabled(l, s, e)
    ensures Reachable(l, Happen(l, s, e))
  {
    var events :| Reaches(l, Initial, events, s);
    ReachesOneMore(l, Initial, events, s, e);
  }

  /** Some reachable state has these files. */
  ghost predicate FilesReachable(l: Layout, files: Files) {
    exists s :: Reachable(l, s) && s.files == files
  }

  /** Some reachable state has these files, with the process where a request that ended so leaves it: down, or up with
      the other requests `others`. */
  ghost predicate EndReachable(l: Layout, files: Files, o: Outcome, others: map<uint64, Request>) {
    exists s :: Reachable(l, s) && s.files == files && s.phase == (if o.Threw? then Down else Up(others))
  }

  lemma {:induction false} RunIsReachable(l: Layout, s: Sys, id: uint64, env: seq<Choice>)
    requires Reachable(l, s) && s.phase.Up? && id in s.phase.active && !s.phase.active[id].Done?
    ensures var e := Run(l.Files(id), s.phase.active[id], s.files, env);
      && (forall i :: 0 <= i < |e.states| ==> FilesReachable(l, e.states[i]))
      && EndReachable(l, e.files, e.outcome, s.phase.active - {id})
    decreases Rank(s.phase.active[id])
  {
    var r := s.phase.active[id];
    var p, c := l.Files(id), Next(env);
    var s' := Happen(l, s, Advance(id, c));
    var (r', files') := Step(p, r, s.files, c);
    ReachableStep(l, s, Advance(id, c));
    StepProgress(p, r, s.files, c);
    RunStep(p, r, s.files, env);
    assert FilesReachable(l, files');
    if !r'.Done? {
      RunIsReachable(l, s', id, Rest(env));
      assert s.phase.active[id := r'] - {id} == s.phase.active - {id};
    }
  }

  /** A request that starts in a reachable state, whatever other requests are in progress then. */
  lemma RequestIsReachable(l: Layout, s: Sys, r: Request, env: seq<Choice>)
    requires Reachable(l, s) && Enabled(l, s, Begin(r))
    ensures var e := Run(l.Files(r.id), r, s.files, env);
      && (forall i :: 0 <= i < |e.states| ==> FilesReachable(l, e.states[i]))
      && EndReachable(l, e.files, e.outcome, s.phase.active)
  {
    ReachableStep(l, s, Begin(r));
    RunIsReachable(l, Happen(l, s, Begin(r)), r.id, env);
    assert s.phase.active[r.id := r] - {r.id} == s.phase.active;
  }

  /** Data implies meta at every moment of a call, however the calls below it go. */
  lemma DataImpliesMetaThroughout(l: Layout, s: Sys, r: Request, env: seq<Choice>, i: nat, id: uint64)
    requires l.Good() && Reachable(l, s) && Enabled(l, s, Begin(r))
    requires i < |Run(l.Files(r.id), r, s.files, env).states|
    requires l.path(id, DataFile) in Run(l.Files(r.id), r, s.files, env).states[i]
    ensures l.path(id, MetaFile) in Run(l.Files(r.id), r, s.files, env).states[i]
  {
    RequestIsReachable(l, s, r, env);
    var files := Run(l.Files(r.id), r, s.files, env).states[i];
    assert FilesReachable(l, files);
    var s' :| Reachable(l, s') && s'.files == files;
    DataImpliesMeta(l, s', id);
  }

  // ---------------------------------------------------------------- the process can come up

  /** A store that was never used comes up, with no file and ready for any request. */
  lemma ComesUp(l: Layout)
    ensures Reachable(l, Sys(map[], Up(map[]), map[]))
  {
    var s1 := Happen(l, Initial, Boot([]));
    assert Reaches(l, Initial, [], Initial);
    ReachableStep(l, Initial, Boot([]));
    ReachableStep(l, s1, Clean(Go));
    assert Happen(l, s1, Clean(Go)) == Sys(map[], Up(map[]), map[]);
  }

  /** A store that is up can begin any write, read or delete of a block that no other request is for. */
  lemma AnyRequestBegins(l: Layout, s: Sys, id: uint64, data: bytes, time: int64, offset: int, length: int)
    requires s.phase.Up? && id !in s.phase.active && |data| < 0x8000_0000_0000_0000
    ensures Enabled(l, s, Begin(Writing(id, WriteOf(id, data, time), OpenTmp)))
    ensures Enabled(l, s, Begin(ReadingMeta(id, offset, length)))
    ensures Enabled(l, s, Begin(Deleting(id, true, SeekData)))
  {}

  lemma ListingOf(s: set<bytes>) returns (listing: seq<bytes>)
    ensures forall p :: p in listing <==> p in s
    decreases s
  {
    listing := [];
    if s != {} {
      var p :| p in s;
      var rest := ListingOf(s - {p});
      listing := [p] + rest;
    }
  }

  /** A removal that throws at start-up ends the process, with every file where it was. */
  lemma FailedCleaning(l: Layout, s: Sys)
    requires s.phase.Cleaning? && s.phase.todo != []
    ensures Enabled(l, s, Clean(Fail)) && Happen(l, s, Clean(Fail)) == s.(phase := Down)
  {}

  lemma {:induction false} CleansUp(l: Layout, s: Sys) returns (s': Sys, events: seq<Event>)
    requires s.phase.Cleaning?
    ensures Reaches(l, s, events, s') && (forall i :: 0 <= i < |events| ==> events[i].Clean?)
    ensures s'.phase == Up(map[]) && s'.latest == s.latest
    decreases |s.phase.todo|
  {
    var s1 := Happen(l, s, Clean(Go));
    if s.phase.todo == [] {
      s', events := s1, [Clean(Go)];
      assert events[1..] == [] && Reaches(l, s1, [], s1);
    } else {
      var rest;
      s', rest := CleansUp(l, s1);
      events := [Clean(Go)] + rest;
      assert events[1..] == rest;
    }
  }

  /** Whatever has happened, and whatever is going on: the process can crash and come up again, with the tmp directory
      empty and every other file as it was. */
  lemma CrashAndRestart(l: Layout, s: Sys) returns (s': Sys)
    requires l.Good() && Reachable(l, s)
    ensures Reachable(l, s') && s'.phase == Up(map[]) && s'.latest == s.latest
    ensures forall p :: p in s'.files <==> p in s.files && !l.inTmp(p)
    ensures forall p :: p in s'.files ==> s'.files[p] == s.files[p]
  {
    var down := Happen(l, s, Crash);
    ReachableStep(l, s, Crash);
    var listing := ListingOf(set p | p in down.files && l.inTmp(p));
    var cleaning := Happen(l, down, Boot(listing));
    ReachableStep(l, down, Boot(listing));
    var events;
    s', events := CleansUp(l, cleaning);
    ReachableOn(l, cleaning, events, s');
    assert ([Boot(listing)] + events)[1..] == events;
    forall p
      ensures p in s'.files <==> p in s.files && !l.inTmp(p)
      ensures p in s'.files ==> s'.files[p] == s.files[p]
    {
      RestartCleans(l, down, [Boot(listing)] + events, s', p);
    }
  }

  lemma {:induction false} ReachableOn(l: Layout, s: Sys, events: seq<Event>, s': Sys)
    requires Reachable(l, s) && Reaches(l, s, events, s')
    ensures Reachable(l, s')
    decreases |events|
  {
    if events != [] {
      ReachableStep(l, s, events[0]);
      ReachableOn(l, Happen(l, s, events[0]), events[1..], s');
    }
  }
}
