/** What the resize loop guarantees over every run. */
module ResizeLaws {
  import opened Bytes
  import opened Resize

  // ----- Reading a log

  function Init<T>(s: seq<T>): seq<T>
    requires s != []
  {
    s[..|s| - 1]
  }

  function Last<T>(s: seq<T>): T
    requires s != []
  {
    s[|s| - 1]
  }

  /** The sizes seen, and the sizes reported, in order. */
  function Seen(log: seq<Entry>): seq<Size> {
    if log == [] then []
    else Seen(Init(log)) + if Last(log).Saw? then [Last(log).size] else []
  }

  function Reported(log: seq<Entry>): seq<Size> {
    if log == [] then []
    else Reported(Init(log)) + if Last(log).Report? then [Last(log).size] else []
  }

  /** When the oldest size not covered by a later report was seen, and when the latest was. */
  function OldestUnreported(log: seq<Entry>): Option<Time> {
    if log == [] then None
    else match Last(log)
      case Saw(_, at) => if OldestUnreported(Init(log)).Some? then OldestUnreported(Init(log)) else Some(at)
      case Report(_, _, _) => None
      case Forward(_) => OldestUnreported(Init(log))
  }

  function LatestSeen(log: seq<Entry>): Time {
    if log == [] then 0 else if Last(log).Saw? then Last(log).at else LatestSeen(Init(log))
  }

  predicate Subsequence(a: seq<Size>, b: seq<Size>)
    decreases |b|
  {
    || a == []
    || (b != [] && Last(a) == Last(b) && Subsequence(Init(a), Init(b)))
    || (b != [] && Subsequence(a, Init(b)))
  }

  /** Nothing seen is waiting: the last report carries the last size seen. */
  ghost predicate UpToDate(log: seq<Entry>) {
    Seen(log) != [] ==> Reported(log) != [] && Last(Reported(log)) == Last(Seen(log))
  }

  lemma Append(log: seq<Entry>, e: Entry)
    ensures Init(log + [e]) == log && Last(log + [e]) == e
  {
  }

  lemma SubsequenceMore(a: seq<Size>, b: seq<Size>, x: Size)
    requires Subsequence(a, b)
    ensures Subsequence(a, b + [x]) && Subsequence(a + [x], b + [x])
  {
    assert Init(b + [x]) == b && Init(a + [x]) == a;
  }

  // ----- What every event keeps

  /** Reports repeat seen sizes in order, and what is pending is the last size seen. */
  ghost predicate Tracks(s: Loop) {
    match s.pending
    case None => Subsequence(Reported(s.log), Seen(s.log)) && UpToDate(s.log)
    case Some(p) =>
      Seen(s.log) != [] && Last(Seen(s.log)) == p.size && Subsequence(Reported(s.log), Init(Seen(s.log)))
  }

  ghost predicate Remembers(s: Loop) {
    match s.pending
    case None => OldestUnreported(s.log) == None
    case Some(p) => OldestUnreported(s.log) == Some(p.first) && LatestSeen(s.log) == p.last
  }

  ghost predicate Timely(s: Loop) {
    && (forall k :: 0 <= k < |s.log| ==> s.log[k].at <= s.now)
    && (s.pending.Some? ==> s.pending.value.first <= s.pending.value.last <= s.now)
    && (s.pending.Some? ==> forall k :: 0 <= k < |s.log| && s.log[k].Report? ==> s.log[k].at <= s.pending.value.first)
  }

  /** A timed report comes at least SETTLE after every earlier report. */
  ghost predicate Spaced(log: seq<Entry>) {
    forall j, k :: 0 <= j < k < |log| && log[j].Report? && log[k].Report? && log[k].timed ==>
      log[j].at + SETTLE <= log[k].at
  }

  /** When keys are forwarded, every size seen before them has been reported. */
  ghost predicate NotOvertaken(log: seq<Entry>) {
    forall k :: 0 <= k < |log| && log[k].Forward? ==> UpToDate(log[..k])
  }

  /** No report is later than its deadline by more than `slack`. */
  ghost predicate Prompt(log: seq<Entry>, slack: nat) {
    forall k :: 0 <= k < |log| && log[k].Report? ==> PromptAt(log, k, slack)
  }

  ghost predicate PromptAt(log: seq<Entry>, k: nat, slack: nat)
    requires k < |log|
  {
    && OldestUnreported(log[..k]).Some?
    && log[k].at <= OldestUnreported(log[..k]).value + MAX_HOLD + slack
    && log[k].at <= LatestSeen(log[..k]) + SETTLE + slack
  }

  /** A timed report waits for quiet, or until the oldest size has waited long enough. */
  ghost predicate Settled(log: seq<Entry>) {
    forall k :: 0 <= k < |log| && log[k].Report? && log[k].timed ==> SettledAt(log, k)
  }

  ghost predicate SettledAt(log: seq<Entry>, k: nat)
    requires k < |log|
  {
    && OldestUnreported(log[..k]).Some?
    && (|| log[k].at >= LatestSeen(log[..k]) + SETTLE
        || log[k].at >= OldestUnreported(log[..k]).value + MAX_HOLD)
  }

  ghost predicate Good(s: Loop, slack: nat) {
    && Tracks(s) && Remembers(s) && Timely(s) && Settled(s.log)
    && Spaced(s.log) && NotOvertaken(s.log) && Prompt(s.log, slack)
  }

  // ----- Appending one entry

  lemma SawTracks(s: Loop, size: Size, at: Time)
    requires Tracks(s)
    ensures Tracks(Loop(Noted(s.pending, size, at), s.log + [Saw(size, at)], at))
  {
    Append(s.log, Saw(size, at));
    var seen := Seen(s.log);
    assert Init(seen + [size]) == seen && Last(seen + [size]) == size;
    assert Reported(s.log) + [] == Reported(s.log);
    if s.pending.Some? {
      SubsequenceMore(Reported(s.log), Init(seen), Last(seen));
      assert Init(seen) + [Last(seen)] == seen;
    }
  }

  lemma ReportTracks(s: Loop, at: Time, timed: bool)
    requires Tracks(s) && s.pending.Some?
    ensures Tracks(Loop(None, s.log + [Report(s.pending.value.size, at, timed)], at))
  {
    var size := s.pending.value.size;
    Append(s.log, Report(size, at, timed));
    var seen := Seen(s.log);
    assert seen + [] == seen && Init(seen) + [size] == seen;
    SubsequenceMore(Reported(s.log), Init(seen), size);
  }

  lemma ForwardTracks(s: Loop, at: Time)
    requires Tracks(s) && s.pending.None?
    ensures Tracks(Loop(None, s.log + [Forward(at)], at))
  {
    Append(s.log, Forward(at));
    assert Seen(s.log) + [] == Seen(s.log) && Reported(s.log) + [] == Reported(s.log);
  }

  /** Properties of single entries survive appending, because an entry sees only what precedes it. */
  lemma AppendKeeps(log: seq<Entry>, e: Entry, slack: nat)
    requires NotOvertaken(log) && Prompt(log, slack) && Spaced(log) && Settled(log)
    requires e.Report? && e.timed ==> SettledAt(log + [e], |log|)
    requires e.Forward? ==> UpToDate(log)
    requires e.Report? ==> PromptAt(log + [e], |log|, slack)
    requires e.Report? && e.timed ==> forall j :: 0 <= j < |log| && log[j].Report? ==> log[j].at + SETTLE <= e.at
    ensures NotOvertaken(log + [e]) && Prompt(log + [e], slack) && Spaced(log + [e]) && Settled(log + [e])
  {
    var l := log + [e];
    forall k | 0 <= k < |l| && l[k].Report? && l[k].timed ensures SettledAt(l, k) {
      if k < |log| {
        assert l[..k] == log[..k];
        assert SettledAt(log, k);
      }
    }
    forall k | 0 <= k < |l| && l[k].Forward? ensures UpToDate(l[..k]) {
      assert l[..k] == log[..k];
      assert k == |log| ==> log[..k] == log;
    }
    forall k | 0 <= k < |l| && l[k].Report? ensures PromptAt(l, k, slack) {
      if k < |log| {
        assert l[..k] == log[..k];
        assert PromptAt(log, k, slack);
      }
    }
  }

  lemma SawKeeps(s: Loop, size: Size, at: Time, slack: nat)
    requires Good(s, slack) && s.now <= at
    ensures Good(Handle(s, Winch(size, at)), slack)
  {
    SawTracks(s, size, at);
    Append(s.log, Saw(size, at));
    AppendKeeps(s.log, Saw(size, at), slack);
  }

  lemma ReportIsPrompt(s: Loop, e: Entry, slack: nat)
    requires Remembers(s) && s.pending.Some? && e.at <= Deadline(s.pending).value + slack
    ensures PromptAt(s.log + [e], |s.log|, slack)
  {
    assert (s.log + [e])[..|s.log|] == s.log;
  }

  lemma ReportIsSettled(s: Loop, e: Entry)
    requires Remembers(s) && Due(s.pending, e.at)
    ensures SettledAt(s.log + [e], |s.log|)
  {
    assert (s.log + [e])[..|s.log|] == s.log;
  }

  lemma ReportRemembers(s: Loop, e: Entry, at: Time)
    requires e.Report?
    ensures Remembers(Loop(None, s.log + [e], at))
  {
    Append(s.log, e);
  }

  lemma ReportIsTimely(s: Loop, e: Entry)
    requires Timely(s) && s.now <= e.at
    ensures Timely(Loop(None, s.log + [e], e.at))
  {
  }

  lemma ReportKeeps(s: Loop, at: Time, timed: bool, slack: nat)
    requires Good(s, slack) && s.now <= at && s.pending.Some?
    requires timed ==> Due(s.pending, at)
    requires at <= Deadline(s.pending).value + slack
    ensures Good(Loop(None, s.log + [Report(s.pending.value.size, at, timed)], at), slack)
  {
    var e := Report(s.pending.value.size, at, timed);
    ReportTracks(s, at, timed);
    ReportIsPrompt(s, e, slack);
    ReportRemembers(s, e, at);
    ReportIsTimely(s, e);
    if timed {
      ReportIsSettled(s, e);
    }
    AppendKeeps(s.log, e, slack);
  }

  lemma ForwardKeeps(s: Loop, at: Time, slack: nat)
    requires Good(s, slack) && s.now <= at && s.pending.None?
    ensures Good(Loop(None, s.log + [Forward(at)], at), slack)
  {
    ForwardTracks(s, at);
    Append(s.log, Forward(at));
    AppendKeeps(s.log, Forward(at), slack);
  }

  // ----- Whole turns and whole runs

  /** Until `flush`, whatever is pending stays within `slack` of its deadline. */
  ghost predicate InTime(s: Loop, wake: Time, flush: Time, slack: nat) {
    && wake <= s.now && flush <= wake + slack
    && (s.pending.Some? ==> flush <= Deadline(s.pending).value + slack)
  }

  lemma StdinKeeps(s: Loop, at: Time, slack: nat)
    requires Good(s, slack) && s.now <= at
    requires s.pending.Some? ==> at <= Deadline(s.pending).value + slack
    ensures Good(Handle(s, Stdin(at)), slack)
  {
    if s.pending.Some? {
      var reported := Loop(None, s.log + [Report(s.pending.value.size, at, false)], at);
      ReportKeeps(s, at, false, slack);
      ForwardKeeps(reported, at, slack);
    } else {
      assert s.log + [] == s.log;
      ForwardKeeps(s, at, slack);
    }
  }

  lemma {:induction false} EventsKeep(s: Loop, events: seq<Event>, wake: Time, flush: Time, slack: nat)
    requires Good(s, slack) && InTime(s, wake, flush, slack) && Ordered(s.now, events, flush)
    ensures Good(HandleAll(s, events), slack) && InTime(HandleAll(s, events), wake, flush, slack)
    ensures HandleAll(s, events).now <= flush
    decreases |events|
  {
    if events != [] {
      EventKeeps(s, events, wake, flush, slack);
      EventsKeep(Handle(s, events[0]), events[1..], wake, flush, slack);
    }
  }

  lemma EventKeeps(s: Loop, events: seq<Event>, wake: Time, flush: Time, slack: nat)
    requires events != [] && Good(s, slack) && InTime(s, wake, flush, slack) && Ordered(s.now, events, flush)
    ensures Good(Handle(s, events[0]), slack) && InTime(Handle(s, events[0]), wake, flush, slack)
  {
    OrderedEnds(s.now, events, flush);
    match events[0] {
      case Winch(size, at) => SawKeeps(s, size, at, slack);
      case Stdin(at) => StdinKeeps(s, at, slack);
    }
  }

  lemma {:induction false} OrderedEnds(from: Time, events: seq<Event>, to: Time)
    requires Ordered(from, events, to)
    ensures from <= to && forall i :: 0 <= i < |events| ==> events[i].at <= to
    decreases |events|
  {
    if events != [] {
      OrderedEnds(events[0].at, events[1..], to);
    }
  }

  lemma LaterIsGood(s: Loop, now: Time, slack: nat)
    requires Good(s, slack) && s.now <= now
    ensures Good(s.(now := now), slack)
  {
  }

  lemma FlushKeeps(s: Loop, flush: Time, slack: nat)
    requires Good(s, slack) && s.now <= flush
    requires s.pending.Some? ==> flush <= Deadline(s.pending).value + slack
    ensures Good(Flush(s, flush), slack)
  {
    if Due(s.pending, flush) {
      ReportKeeps(s, flush, true, slack);
    } else {
      LaterIsGood(s, flush, slack);
    }
  }

  /** Between turns, nothing that is due is still pending. */
  ghost predicate Waiting(s: Loop) { !Due(s.pending, s.now) }

  lemma HandleIgnoresClock(s: Loop, events: seq<Event>, now: Time)
    ensures HandleAll(s.(now := now), events).pending == HandleAll(s, events).pending
    ensures HandleAll(s.(now := now), events).log == HandleAll(s, events).log
  {
    if events != [] {
      assert Handle(s.(now := now), events[0]) == Handle(s, events[0]);
    }
  }

  lemma TurnKeeps(s: Loop, t: Turn, slack: nat)
    requires Good(s, slack) && Waiting(s) && Punctual(s, t, slack)
    ensures Good(DoTurn(s, t), slack) && Waiting(DoTurn(s, t)) && DoTurn(s, t).now == t.flush
  {
    var woken := s.(now := t.wake);
    LaterIsGood(s, t.wake, slack);
    EventsKeep(woken, t.events, t.wake, t.flush, slack);
    HandleIgnoresClock(s, t.events, t.wake);
    FlushKeeps(HandleAll(woken, t.events), t.flush, slack);
  }

  lemma {:induction false} RunKeeps(s: Loop, turns: seq<Turn>, slack: nat)
    requires Good(s, slack) && Waiting(s) && AllPunctual(s, turns, slack)
    ensures Good(Run(s, turns), slack) && Waiting(Run(s, turns))
    decreases |turns|
  {
    if turns != [] {
      TurnKeeps(s, turns[0], slack);
      RunKeeps(DoTurn(s, turns[0]), turns[1..], slack);
    }
  }

  /**
   Over every run of turns that poll no longer than the reported timeout and spend at most
   `slack` outside the poll: reports are a subsequence of the sizes seen; each report comes
   within MAX_HOLD of the oldest size it covers and within SETTLE of the latest (plus slack);
   a timed report comes only once SETTLE has passed since the latest size, or MAX_HOLD since the oldest, and
   at least SETTLE after every earlier report; keys never overtake a size.
   */
  lemma EveryRun(turns: seq<Turn>, slack: nat)
    requires AllPunctual(IDLE, turns, slack)
    ensures var log := Run(IDLE, turns).log;
            && Subsequence(Reported(log), Seen(log))
            && Prompt(log, slack) && Settled(log) && Spaced(log) && NotOvertaken(log)
  {
    RunKeeps(IDLE, turns, slack);
    var s := Run(IDLE, turns);
    if s.pending.Some? {
      var seen := Seen(s.log);
      SubsequenceMore(Reported(s.log), Init(seen), Last(seen));
      assert Init(seen) + [Last(seen)] == seen;
    }
  }

  /**
   The last size is reported: once a turn ends SETTLE after the latest size was seen, or MAX_HOLD
   after the oldest unreported one, the last report carries the last size seen.
   */
  lemma LastSizeIsReported(turns: seq<Turn>, slack: nat)
    requires AllPunctual(IDLE, turns, slack)
    ensures var s := Run(IDLE, turns);
            && (s.now >= LatestSeen(s.log) + SETTLE ==> UpToDate(s.log))
            && (OldestUnreported(s.log).None? || s.now >= OldestUnreported(s.log).value + MAX_HOLD ==> UpToDate(s.log))
            && (OldestUnreported(s.log).Some? ==> Timeout(s.pending, s.now).Some?)
  {
    RunKeeps(IDLE, turns, slack);
  }

  // ----- The two limits at work

  /** Two sizes ten milliseconds apart are reported together, 16 milliseconds after the second. */
  lemma DragPauses(a: Size, b: Size)
    ensures var pending := Noted(Noted(None, a, 0), b, 10);
            !Due(pending, 25) && Due(pending, 26) && Timeout(pending, 10) == Some(16)
  {
  }

  /** A drag that never pauses is reported after a tenth of a second. */
  lemma DragGoesOn(a: Size, b: Size)
    ensures var pending := Noted(Noted(None, a, 0), b, 95);
            !Due(pending, 99) && Due(pending, 100)
  {
  }
}
