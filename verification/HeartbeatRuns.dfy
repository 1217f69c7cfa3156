/** The life of the client: what Start, Stop and the heartbeat thread send, for every interleaving of the two threads.
    Start is called at most once, and Stop not before Start has returned, as the server does. */
module HeartbeatRuns {

  /** What is handed to SendToNameNode. */
  datatype Attempt = Register | Report | Heartbeat

  /** Where the thread that calls Start and Stop is. */
  datatype Caller = Unstarted | Registering | Listing | Reporting | Running | Failed | Joining | Stopped

  /** Where the heartbeat thread is: before the outer test, before the inner test with counter `i`, in the sleep of
      100 milliseconds, before the test after the inner loop, or in SendHeartbeat. */
  datatype Beater = Absent | AtOuter | AtInner(i: nat) | Asleep(i: nat) | AtCheck | Sending | Exited

  /** `slept` counts the sleeps the heartbeat thread has finished. */
  datatype State = State(caller: Caller, beater: Beater, stop: bool, trace: seq<Attempt>, slept: nat)

  const Initial := State(Unstarted, Absent, false, [], 0)

  const SLEEPS: nat := 30

  datatype Event =
    | StartThrows
    | StartRegisters
    | Answer(registered: bool)
    | ListingThrows
    | ReportBuilt
    | ReportReturns
    | StopCalled
    | Join
    | Beat

  predicate Enabled(s: State, e: Event) {
    match e
    case StartThrows => s.caller.Unstarted?
    case StartRegisters => s.caller.Unstarted?
    case Answer(_) => s.caller.Registering?
    case ListingThrows => s.caller.Listing?
    case ReportBuilt => s.caller.Listing?
    case ReportReturns => s.caller.Reporting?
    case StopCalled => s.caller in {Unstarted, Running, Failed, Stopped}
    case Join => s.caller.Joining? && (s.beater.Absent? || s.beater.Exited?)
    case Beat => !s.beater.Absent? && !s.beater.Exited?
  }

  /** One step of HeartbeatLoop. */
  function BeaterStep(s: State): State
    requires !s.beater.Absent? && !s.beater.Exited?
  {
    match s.beater
    case AtOuter => s.(beater := if s.stop then Exited else AtInner(0))
    case AtInner(i) => s.(beater := if i < SLEEPS && !s.stop then Asleep(i) else AtCheck)
    case Asleep(i) => s.(beater := AtInner(i + 1), slept := s.slept + 1)
    case AtCheck => s.(beater := if s.stop then Exited else Sending)
    case Sending => s.(beater := AtOuter, trace := s.trace + [Heartbeat])
  }

  function Happen(s: State, e: Event): State
    requires Enabled(s, e)
  {
    match e
    case StartThrows => s.(caller := Failed)
    case StartRegisters => s.(caller := Registering, trace := s.trace + [Register])
    case Answer(registered) => s.(caller := if registered then Listing else Failed)
    case ListingThrows => s.(caller := Failed)
    case ReportBuilt => s.(caller := Reporting, trace := s.trace + [Report])
    case ReportReturns => s.(caller := Running, beater := AtOuter)
    case StopCalled => s.(caller := Joining, stop := true)
    case Join => s.(caller := Stopped)
    case Beat => BeaterStep(s)
  }

  predicate Possible(s: State, es: seq<Event>)
    decreases |es|
  {
    es == [] || (Enabled(s, es[0]) && Possible(Happen(s, es[0]), es[1..]))
  }

  function After(s: State, es: seq<Event>): State
    requires Possible(s, es)
    decreases |es|
  {
    if es == [] then s else After(Happen(s, es[0]), es[1..])
  }

  // ---------------------------------------------------------------- the invariant

  function Heartbeats(t: seq<Attempt>): nat {
    if t == [] then 0 else Heartbeats(t[..|t| - 1]) + if t[|t| - 1] == Heartbeat then 1 else 0
  }

  ghost predicate OnlyHeartbeatsFrom(t: seq<Attempt>, k: nat) {
    forall i :: k <= i < |t| ==> t[i] == Heartbeat
  }

  /** A registration, a report if it succeeds, and from then on heartbeats. */
  ghost predicate WellOrdered(t: seq<Attempt>) {
    && (|t| > 0 ==> t[0] == Register)
    && (|t| > 1 ==> t[1] == Report)
    && OnlyHeartbeatsFrom(t, 2)
  }

  /** The pace is one heartbeat every 30 sleeps: exactly, until the stop flag ends the sleeping early; never more. */
  ghost predicate OnPace(s: State) {
    var h := 30 * Heartbeats(s.trace);
    match s.beater
    case AtInner(i) => s.slept >= h + i && (!s.stop ==> s.slept == h + i)
    case Asleep(i) => i < 30 && s.slept >= h + i && (!s.stop ==> s.slept == h + i)
    case AtCheck => s.slept >= h && (!s.stop ==> s.slept == h + 30)
    case Sending => s.slept >= h + 30 && (!s.stop ==> s.slept == h + 30)
    case _ => s.slept >= h && (!s.stop ==> s.slept == h)
  }

  ghost predicate Inv(s: State) {
    && WellOrdered(s.trace)
    && OnPace(s)
    && (s.beater.AtInner? ==> s.beater.i <= 30)
    && (s.caller.Unstarted? ==> s.trace == [])
    && (s.caller.Registering? || s.caller.Listing? ==> s.trace == [Register])
    && (s.caller.Reporting? ==> s.trace == [Register, Report])
    && (s.caller in {Unstarted, Registering, Listing, Reporting, Failed} ==> s.beater.Absent?)
    && (s.caller.Running? ==> !s.beater.Absent?)
    && (!s.beater.Absent? ==> |s.trace| >= 2)
    && (s.beater.Absent? ==> |s.trace| <= 2 && Heartbeats(s.trace) == 0)
    && (s.caller.Joining? || s.caller.Stopped? ==> s.stop)
    && (s.caller.Stopped? ==> s.beater.Absent? || s.beater.Exited?)
    && (s.beater.Exited? ==> s.stop)
  }

  lemma HeartbeatsMore(t: seq<Attempt>, a: Attempt)
    ensures Heartbeats(t + [a]) == Heartbeats(t) + if a == Heartbeat then 1 else 0
  {
    assert (t + [a])[..|t|] == t;
  }

  lemma InvBeat(s: State)
    requires Inv(s) && Enabled(s, Beat)
    ensures Inv(BeaterStep(s))
  {
    if s.beater.Sending? {
      HeartbeatsMore(s.trace, Heartbeat);
    }
  }

  lemma InvHappens(s: State, e: Event)
    requires Inv(s) && Enabled(s, e)
    ensures Inv(Happen(s, e))
  {
    match e
    case StartRegisters => HeartbeatsMore(s.trace, Register);
    case ReportBuilt => HeartbeatsMore(s.trace, Report);
    case Beat => InvBeat(s);
    case _ =>
  }

  lemma {:induction false} InvAfter(s: State, es: seq<Event>)
    requires Inv(s) && Possible(s, es)
    ensures Inv(After(s, es))
    decreases |es|
  {
    if es != [] {
      InvHappens(s, es[0]);
      InvAfter(Happen(s, es[0]), es[1..]);
    }
  }

  // ---------------------------------------------------------------- main results

  /** Every run: registration first, the block report next and only after an accepted registration, then nothing but
      heartbeats, at most one for every 30 sleeps; and until the stop flag is set at least one for every 30, but for the
      sleeps since the last. */
  lemma EveryRun(es: seq<Event>)
    requires Possible(Initial, es)
    ensures var s := After(Initial, es);
      && WellOrdered(s.trace)
      && 30 * Heartbeats(s.trace) <= s.slept
      && (!s.stop ==> s.slept <= 30 * (Heartbeats(s.trace) + 1))
      && (s.caller.Failed? ==> |s.trace| <= 1)
  {
    InvAfter(Initial, es);
    if After(Initial, es).caller.Failed? {
      FailedIsShort(Initial, es);
    }
  }

  lemma {:induction false} FailedIsShort(s: State, es: seq<Event>)
    requires Inv(s) && Possible(s, es) && (s.caller.Failed? ==> |s.trace| <= 1)
    ensures After(s, es).caller.Failed? ==> |After(s, es).trace| <= 1
    decreases |es|
  {
    if es != [] {
      InvHappens(s, es[0]);
      FailedIsShort(Happen(s, es[0]), es[1..]);
    }
  }

  // ---------------------------------------------------------------- the thread goes on

  /** How many steps the heartbeat thread is from having sent its next heartbeat, while nobody stops it. */
  function StepsToHeartbeat(b: Beater): nat {
    match b
    case AtOuter => 64
    case AtInner(i) => if i <= 30 then 2 * (30 - i) + 3 else 3
    case Asleep(i) => if i < 30 then 2 * (30 - i) + 2 else 4
    case AtCheck => 2
    case Sending => 1
    case _ => 0
  }

  /** As long as nobody stops it the thread sends: after at most 64 of its own steps, among them at most 30 sleeps,
      there is one heartbeat more, and nothing else has been sent. */
  lemma {:induction false} NextHeartbeat(s: State) returns (es: seq<Event>)
    requires Inv(s) && !s.stop && !s.beater.Absent?
    ensures |es| == StepsToHeartbeat(s.beater) <= 64 && Possible(s, es) && forall i :: 0 <= i < |es| ==> es[i] == Beat
    ensures After(s, es).trace == s.trace + [Heartbeat] && After(s, es).slept <= s.slept + 30
    ensures After(s, es).slept == 30 * (Heartbeats(s.trace) + 1)
    decreases StepsToHeartbeat(s.beater)
  {
    InvHappens(s, Beat);
    var s' := Happen(s, Beat);
    if s.beater.Sending? {
      es := [Beat];
      assert es[1..] == [];
    } else {
      var rest := NextHeartbeat(s');
      es := [Beat] + rest;
      assert es[1..] == rest;
    }
  }

  // ---------------------------------------------------------------- the answer to the registration

  lemma {:induction false} OneMore(s: State, es: seq<Event>, e: Event)
    requires Possible(s, es + [e])
    ensures Possible(s, es) && Enabled(After(s, es), e) && After(s, es + [e]) == Happen(After(s, es), e)
    decreases |es|
  {
    if es == [] {
      assert ([] + [e])[1..] == [];
    } else {
      assert (es + [e])[1..] == es[1..] + [e];
      OneMore(Happen(s, es[0]), es[1..], e);
    }
  }

  /** The client reports, and starts its thread, only when the registration was accepted; when it was refused, nothing
      is sent any more and there is no thread. */
  lemma {:induction false} AnswerDecides(es: seq<Event>)
    requires Possible(Initial, es)
    ensures var s := After(Initial, es);
      && (s.caller.Listing? || s.caller.Reporting? || s.caller.Running? ==> Answer(true) in es)
      && (Report in s.trace || Heartbeat in s.trace || !s.beater.Absent? ==> Answer(true) in es)
      && (Answer(false) in es ==>
            s.caller in {Failed, Joining, Stopped} && s.beater.Absent? && s.trace == [Register] && Answer(true) !in es)
      && (s.caller.Unstarted? || s.caller.Registering? ==> Answer(true) !in es && Answer(false) !in es)
    decreases |es|
  {
    if es != [] {
      var before, e := es[..|es| - 1], es[|es| - 1];
      assert es == before + [e];
      OneMore(Initial, before, e);
      AnswerDecides(before);
      InvAfter(Initial, before);
    }
  }

  /** Start begins with the registration, unless it throws. */
  lemma StartBegins()
    ensures Possible(Initial, [StartRegisters])
    ensures After(Initial, [StartRegisters]) == State(Registering, Absent, false, [Register], 0)
  {
    assert [StartRegisters][1..] == [] && Initial.trace + [Register] == [Register];
  }

  /** An accepted registration is followed by the report, and the report by the thread. */
  lemma AcceptedGoesOn(s: State)
    requires Inv(s) && s.caller.Registering?
    ensures Possible(s, [Answer(true), ReportBuilt, ReportReturns])
    ensures After(s, [Answer(true), ReportBuilt, ReportReturns])
         == s.(caller := Running, beater := AtOuter, trace := [Register, Report])
    ensures Possible(s, [Answer(false)]) && After(s, [Answer(false)]) == s.(caller := Failed)
  {
    var es := [Answer(true), ReportBuilt, ReportReturns];
    assert es[1..] == [ReportBuilt, ReportReturns] && es[1..][1..] == [ReportReturns] && es[1..][1..][1..] == [];
    assert [Answer(false)][1..] == [];
  }

  /** The heartbeat thread may be past its last look at the stop flag. */
  predicate Committed(s: State) {
    s.beater.Sending?
  }

  /** Once the stop flag is set at most one more heartbeat is sent, and only if the thread had already decided to. */
  lemma {:induction false} OneMoreAtMost(s: State, es: seq<Event>)
    requires s.stop && Possible(s, es) && s.caller !in {Unstarted, Registering, Listing, Reporting}
    ensures var t := After(s, es).trace;
      t == s.trace || (Committed(s) && t == s.trace + [Heartbeat])
    decreases |es|
  {
    if es != [] {
      OneMoreAtMost(Happen(s, es[0]), es[1..]);
    }
  }

  /** After Stop has returned nothing is sent any more. */
  lemma SilentAfterStop(es: seq<Event>, more: seq<Event>)
    requires Possible(Initial, es) && After(Initial, es).caller.Stopped?
    requires Possible(After(Initial, es), more)
    ensures After(After(Initial, es), more).trace == After(Initial, es).trace
  {
    InvAfter(Initial, es);
    OneMoreAtMost(After(Initial, es), more);
  }

  /** How many steps the heartbeat thread has left once the stop flag is set. */
  function StepsToExit(b: Beater): nat {
    match b
    case Asleep(_) => 3
    case AtInner(_) => 2
    case Sending => 2
    case AtOuter => 1
    case AtCheck => 1
    case _ => 0
  }

  /** Stop returns: with the flag set, the heartbeat thread comes to its end within three of its own steps, and then
      the join can happen. */
  lemma {:induction false} StopReturns(s: State) returns (es: seq<Event>)
    requires Inv(s) && s.caller.Joining?
    ensures |es| == StepsToExit(s.beater) <= 3 && Possible(s, es) && forall i :: 0 <= i < |es| ==> es[i] == Beat
    ensures Enabled(After(s, es), Join)
    decreases StepsToExit(s.beater)
  {
    if s.beater.Absent? || s.beater.Exited? {
      es := [];
    } else {
      InvHappens(s, Beat);
      var rest := StopReturns(Happen(s, Beat));
      es := [Beat] + rest;
      assert es[1..] == rest;
    }
  }

  /** A running client can be stopped, and is then stopped within three steps of its thread and the join. */
  lemma StopsInTime(s: State) returns (es: seq<Event>)
    requires Inv(s) && s.caller.Running?
    ensures |es| <= 5 && es != [] && es[0] == StopCalled && Possible(s, es) && After(s, es).caller.Stopped?
    ensures forall i :: 0 < i < |es| - 1 ==> es[i] == Beat
  {
    InvHappens(s, StopCalled);
    var s1 := Happen(s, StopCalled);
    var beats := StopReturns(s1);
    InvAfter(s1, beats);
    ThenJoin(s1, beats);
    es := [StopCalled] + (beats + [Join]);
    assert es[1..] == beats + [Join];
  }

  lemma {:induction false} ThenJoin(s: State, es: seq<Event>)
    requires Possible(s, es) && Enabled(After(s, es), Join)
    ensures Possible(s, es + [Join]) && After(s, es + [Join]) == Happen(After(s, es), Join)
    decreases |es|
  {
    if es == [] {
      assert ([] + [Join])[1..] == [];
    } else {
      assert (es + [Join])[1..] == es[1..] + [Join];
      ThenJoin(Happen(s, es[0]), es[1..]);
    }
  }
}
