/**
 The handshake of the SSH bridge under its watchdog: the main thread waits for the marker,
 the watchdog kills the child when time runs out, and only the main thread reaps it.
 */
module Watchdog {

  /** The main thread: `ok` tells whether the handshake arrived, `timedOut` what disarming reported. */
  datatype Main =
    | Reading
    | Dropping(ok: bool)
    | Joining(ok: bool)
    | Disarmed(ok: bool, timedOut: bool)
    | Reaping(timedOut: bool)
    | Finished(ok: bool, timedOut: bool)

  datatype Dog = Armed | Flagged | Exited

  datatype Child = Running | Dead | Reaped

  datatype State = State(main: Main, dog: Dog, child: Child, outputOpen: bool, cancelled: bool, flag: bool,
    killed: bool)

  const START := State(Reading, Armed, Running, true, false, false, false)

  datatype Event =
    | ReadReturns(ok: bool) | DropCancel | JoinDog | StopChild | ReapChild | Succeed   // main thread
    | DogTimesOut | DogKills | DogSeesCancel                                          // watchdog thread
    | ChildExits                                                                      // the child on its own

  /** A kill reaches a child that has not been reaped; a dead child's output is closed. */
  function Kill(s: State): State {
    if s.child == Running then s.(child := Dead, outputOpen := false) else s
  }

  predicate Enabled(s: State, e: Event) {
    match e
    case ReadReturns(ok) => s.main.Reading?
    case DropCancel => s.main.Dropping?
    case JoinDog => s.main.Joining? && s.dog.Exited?
    case StopChild => s.main.Disarmed? && !s.main.ok
    case ReapChild => s.main.Reaping? && s.child == Dead
    case Succeed => s.main.Disarmed? && s.main.ok
    case DogTimesOut => s.dog.Armed?
    case DogKills => s.dog.Flagged?
    case DogSeesCancel => s.dog.Armed? && s.cancelled
    case ChildExits => s.child == Running
  }

  function Next(s: State, e: Event): State
    requires Enabled(s, e)
  {
    match e
    case ReadReturns(ok) => s.(main := Dropping(ok))
    case DropCancel => s.(main := Joining(s.main.ok), cancelled := true)
    case JoinDog => s.(main := Disarmed(s.main.ok, s.flag))
    case StopChild => Kill(s).(main := Reaping(s.main.timedOut))
    case ReapChild => s.(main := Finished(false, s.main.timedOut), child := Reaped)
    case Succeed => s.(main := Finished(true, s.main.timedOut))
    case DogTimesOut => s.(dog := Flagged, flag := true)
    case DogKills => Kill(s).(dog := Exited, killed := true)
    case DogSeesCancel => s.(dog := Exited)
    case ChildExits => s.(child := Dead, outputOpen := false)
  }

  // ----- Runs

  ghost predicate Run(s: State, events: seq<Event>, t: State)
    decreases |events|
  {
    if events == [] then s == t else Enabled(s, events[0]) && Run(Next(s, events[0]), events[1..], t)
  }

  /** What every reachable state satisfies. */
  ghost predicate Inv(s: State) {
    && (s.child != Running <==> !s.outputOpen)
    && (s.flag <==> s.dog.Flagged? || s.killed)
    && (s.killed ==> s.dog.Exited? && s.child != Running)
    && (s.main.Disarmed? || s.main.Reaping? || s.main.Finished? ==> s.dog.Exited? && (s.main.timedOut <==> s.killed))
    && (s.main.Reading? || s.main.Dropping? <==> !s.cancelled)
    && (s.dog.Exited? ==> s.killed || s.cancelled)
    && (s.main.Reaping? ==> s.child == Dead)
    && (s.child == Reaped <==> s.main.Finished? && !s.main.ok)
  }

  lemma StepKeepsInv(s: State, e: Event)
    requires Inv(s) && Enabled(s, e)
    ensures Inv(Next(s, e))
  {
  }

  lemma {:induction false} RunKeepsInv(s: State, events: seq<Event>, t: State)
    requires Inv(s) && Run(s, events, t)
    ensures Inv(t)
    decreases |events|
  {
    if events != [] {
      StepKeepsInv(s, events[0]);
      RunKeepsInv(Next(s, events[0]), events[1..], t);
    }
  }

  /** In every interleaving, a kill is only ever sent while the child has not been reaped. */
  lemma KillsOnlyUnreaped(events: seq<Event>, t: State, e: Event)
    requires Run(START, events, t) && Enabled(t, e) && (e.DogKills? || e.StopChild?)
    ensures t.child != Reaped
  {
    RunKeepsInv(START, events, t);
  }

  /** Disarming reports a timeout exactly if the watchdog sent its kill. */
  lemma DisarmTellsTheTruth(events: seq<Event>, t: State)
    requires Run(START, events, t) && (t.main.Disarmed? || t.main.Reaping? || t.main.Finished?)
    ensures t.main.timedOut <==> t.killed
    ensures t.dog.Exited?
  {
    RunKeepsInv(START, events, t);
  }

  // ----- The wait always ends

  /** Events that happen sooner or later once they are possible; reading from a silent child is not one. */
  predicate Certain(s: State, e: Event) {
    Enabled(s, e) && !e.ChildExits? && (e.ReadReturns? ==> !s.outputOpen)
  }

  function MainLeft(m: Main): nat {
    match m
    case Reading => 5
    case Dropping(_) => 4
    case Joining(_) => 3
    case Disarmed(_, _) => 2
    case Reaping(_) => 1
    case Finished(_, _) => 0
  }

  function Left(s: State): nat {
    MainLeft(s.main) +
    (match s.dog case Armed => 2 case Flagged => 1 case Exited => 0) +
    (match s.child case Running => 2 case Dead => 1 case Reaped => 0)
  }

  /** Nothing can happen forever: every event uses up some of what is left. */
  lemma EveryEventProgresses(s: State, e: Event)
    requires Inv(s) && Enabled(s, e)
    ensures Left(Next(s, e)) < Left(s)
  {
  }

  /** Until the main thread has finished, something certain can happen. */
  lemma NeverStuck(s: State) returns (e: Event)
    requires Inv(s) && !s.main.Finished?
    ensures Certain(s, e)
  {
    e := match s.main
      case Reading => if s.dog.Armed? then DogTimesOut else if s.dog.Flagged? then DogKills else ReadReturns(false)
      case Dropping(_) => DropCancel
      case Joining(_) => if s.dog.Armed? then DogSeesCancel else if s.dog.Flagged? then DogKills else JoinDog
      case Disarmed(ok, _) => if ok then Succeed else StopChild
      case Reaping(_) => ReapChild
      case Finished(_, _) => Succeed;
  }

  lemma {:induction false} RunIsShort(s: State, events: seq<Event>, t: State)
    requires Inv(s) && Run(s, events, t)
    ensures |events| + Left(t) <= Left(s)
    decreases |events|
  {
    if events != [] {
      StepKeepsInv(s, events[0]);
      EveryEventProgresses(s, events[0]);
      RunIsShort(Next(s, events[0]), events[1..], t);
    }
  }

  /**
   The handshake always ends: no run is longer than nine events, and a run after which nothing
   certain can happen any more has finished, with the failed child reaped.
   */
  lemma HandshakeEnds(events: seq<Event>, t: State)
    requires Run(START, events, t)
    ensures |events| <= 9
    ensures (forall e :: !Certain(t, e)) ==> t.main.Finished? && (!t.main.ok ==> t.child == Reaped)
  {
    RunKeepsInv(START, events, t);
    RunIsShort(START, events, t);
    if !t.main.Finished? {
      var e := NeverStuck(t);
    }
  }

  /** Over any stretch of a run, the child goes on running exactly if it neither exits nor is killed. */
  lemma {:induction false} RunningExactlyWhen(s: State, events: seq<Event>, t: State)
    requires Run(s, events, t)
    ensures t.child == Running <==>
            s.child == Running && ChildExits !in events && DogKills !in events && StopChild !in events
    decreases |events|
  {
    if events != [] {
      RunningExactlyWhen(Next(s, events[0]), events[1..], t);
      assert events == [events[0]] + events[1..];
    }
  }

  /** A watchdog that has exited killed exactly if it timed out, on the way from being armed. */
  lemma {:induction false} KillsIfTimedOut(s: State, events: seq<Event>, t: State)
    requires Run(s, events, t) && t.dog.Exited?
    ensures s.dog.Armed? ==> (DogKills in events <==> DogTimesOut in events)
    ensures s.dog.Flagged? ==> DogKills in events
    ensures s.dog.Exited? ==> DogKills !in events && DogTimesOut !in events
    decreases |events|
  {
    if events != [] {
      KillsIfTimedOut(Next(s, events[0]), events[1..], t);
      assert events == [events[0]] + events[1..];
    }
  }

  /** A run that ends in success never stopped the child itself. */
  lemma {:induction false} SuccessNeverStops(s: State, events: seq<Event>, t: State)
    requires Run(s, events, t) && t.main.Finished? && t.main.ok
    ensures StopChild !in events && !s.main.Reaping? && (s.main.Finished? ==> s.main.ok)
    decreases |events|
  {
    if events != [] {
      SuccessNeverStops(Next(s, events[0]), events[1..], t);
      assert events == [events[0]] + events[1..];
    }
  }

  /** Whether a thread that has stopped reading will report success. */
  predicate WillSucceed(m: Main) {
    match m
    case Reading => false
    case Reaping(_) => false
    case _ => m.ok
  }

  /** The handshake succeeds exactly if the marker was read. */
  lemma {:induction false} SucceedsExactlyWhen(s: State, events: seq<Event>, t: State)
    requires Run(s, events, t) && t.main.Finished?
    ensures t.main.ok <==> WillSucceed(s.main) || ReadReturns(true) in events
    ensures !s.main.Reading? ==> ReadReturns(true) !in events
    decreases |events|
  {
    if events != [] {
      SucceedsExactlyWhen(Next(s, events[0]), events[1..], t);
      assert events == [events[0]] + events[1..];
    }
  }

  /** A success leaves a running child exactly if neither the watchdog's time ran out nor the child exited. */
  lemma SuccessRunsExactlyWhen(events: seq<Event>, t: State)
    requires Run(START, events, t) && t.main.Finished? && t.main.ok
    ensures t.child == Running <==> DogTimesOut !in events && ChildExits !in events
  {
    RunKeepsInv(START, events, t);
    RunningExactlyWhen(START, events, t);
    KillsIfTimedOut(START, events, t);
    SuccessNeverStops(START, events, t);
  }

  /** The watchdog strikes between the marker and the disarming: success is reported for a child that is dead. */
  lemma SuccessMayBeDead()
    ensures var events := [DogTimesOut, ReadReturns(true), DogKills, DropCancel, JoinDog, Succeed];
            exists t :: Run(START, events, t) && t.main == Finished(true, true) && t.child == Dead && t.killed
  {
    var t := State(Finished(true, true), Exited, Dead, false, true, true, true);
    var s1 := Next(START, DogTimesOut);
    var s2 := Next(s1, ReadReturns(true));
    var s3 := Next(s2, DogKills);
    var s4 := Next(s3, DropCancel);
    var s5 := Next(s4, JoinDog);
    var events := [DogTimesOut, ReadReturns(true), DogKills, DropCancel, JoinDog, Succeed];
    assert events[1..] == [ReadReturns(true), DogKills, DropCancel, JoinDog, Succeed];
    assert events[1..][1..] == [DogKills, DropCancel, JoinDog, Succeed];
    assert Run(s5, [Succeed], t) by {
      assert [Succeed][1..] == [];
    }
    assert Run(s4, [JoinDog, Succeed], t) by {
      assert [JoinDog, Succeed][1..] == [Succeed];
    }
    assert Run(s3, [DropCancel, JoinDog, Succeed], t) by {
      assert [DropCancel, JoinDog, Succeed][1..] == [JoinDog, Succeed];
    }
    assert Run(s2, [DogKills, DropCancel, JoinDog, Succeed], t) by {
      assert [DogKills, DropCancel, JoinDog, Succeed][1..] == [DropCancel, JoinDog, Succeed];
    }
    assert Run(s1, events[1..], t);
  }
}
