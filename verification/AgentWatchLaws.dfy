/** What an agent watch guarantees over every log. */
module AgentWatchLaws {
  import opened Bytes
  import opened AgentWatch
  import Selection

  // ----- Reconnecting by cursor

  ghost predicate Increasing(log: seq<Entry>) {
    forall i, j :: 0 <= i < j < |log| ==> log[i].sequence < log[j].sequence
  }

  /** The lines already seen when the connection was lost at cursor `c`. */
  function UpTo(lines: seq<Line>, c: nat): seq<Line> {
    if lines == [] then []
    else (if lines[0].sequence <= c then [lines[0]] else []) + UpTo(lines[1..], c)
  }

  function LogUpTo(log: seq<Entry>, c: nat): seq<Entry> {
    if log == [] || log[0].sequence > c then [] else [log[0]] + LogUpTo(log[1..], c)
  }

  function LogAfter(log: seq<Entry>, c: nat): seq<Entry> {
    if log == [] || log[0].sequence > c then log else LogAfter(log[1..], c)
  }

  ghost predicate ClosedBy(pane: nat, log: seq<Entry>, c: nat) {
    exists i :: 0 <= i < |log| && log[i].sequence <= c && log[i].event == PaneClosed(Some(pane))
  }

  lemma IncreasingTail(log: seq<Entry>)
    requires Increasing(log) && log != []
    ensures Increasing(log[1..])
    ensures forall i :: 0 <= i < |log[1..]| ==> log[1..][i].sequence > log[0].sequence
  {
  }

  /** Beyond the cursor, resuming and never having stopped print the same. */
  lemma {:induction false} SameBeyond(pane: nat, s: State, c: nat, d: nat, log: seq<Entry>)
    requires Increasing(log) && (log != [] ==> log[0].sequence > c && log[0].sequence > d)
    ensures Watch(pane, s, c, None, log) == Watch(pane, s, d, None, log)
    decreases |log|
  {
    if log != [] {
      IncreasingTail(log);
      SameBeyond(pane, Apply(pane, s, log[0].event, log[0].at).0, c, d, log[1..]);
    }
  }

  lemma {:induction false} LinesBeyond(pane: nat, s: State, c: nat, log: seq<Entry>)
    requires Increasing(log) && (log != [] ==> log[0].sequence > c)
    ensures UpTo(Watch(pane, s, c, None, log).lines, c) == []
    decreases |log|
  {
    if log != [] {
      IncreasingTail(log);
      var (next, kind) := Apply(pane, s, log[0].event, log[0].at);
      LinesBeyond(pane, next, c, log[1..]);
      if kind.Some? {
        var line := Line(log[0].sequence, log[0].at, kind.value, next);
        var rest := Watch(pane, next, c, None, log[1..]).lines;
        assert ([line] + rest)[1..] == rest && [line][1..] == [];
      }
    }
  }

  lemma OnlyCloseCloses(pane: nat, s: State, e: Event, at: nat)
    ensures Apply(pane, s, e, at).1 == Some(Closed) <==> e == PaneClosed(Some(pane))
  {
  }

  /**
   Reconnecting with the cursor of the last line seen loses nothing and repeats nothing: the lines
   up to the cursor, followed by the lines of a resumed watch, are those of one uninterrupted watch.
   */
  lemma {:induction false} ReplayIsLossless(pane: nat, s: State, d: nat, c: nat, log: seq<Entry>)
    requires d <= c && Increasing(log) && !ClosedBy(pane, log, c)
    ensures var whole, resumed := Watch(pane, s, d, None, log), Watch(pane, s, c, None, log);
            whole.lines == UpTo(whole.lines, c) + resumed.lines && whole.end == resumed.end
    decreases |log|
  {
    if log != [] {
      IncreasingTail(log);
      var (next, kind) := Apply(pane, s, log[0].event, log[0].at);
      if log[0].sequence > c {
        SameBeyond(pane, s, c, d, log);
        LinesBeyond(pane, s, c, log);
      } else {
        OnlyCloseCloses(pane, s, log[0].event, log[0].at);
        ReplayIsLossless(pane, next, d, c, log[1..]);
        if kind.Some? && log[0].sequence > d {
          var line := Line(log[0].sequence, log[0].at, kind.value, next);
          var rest := Watch(pane, next, d, None, log[1..]).lines;
          assert ([line] + rest)[1..] == rest;
        }
      }
    }
  }

  /** A watch that starts from a snapshot agrees with a resumed one if the snapshot is the fold of the log. */
  lemma {:induction false} SnapshotAgrees(pane: nat, s: State, c: nat, log: seq<Entry>)
    requires Increasing(log)
    ensures Watch(pane, Fold(pane, s, LogUpTo(log, c)), c, None, LogAfter(log, c)) == Watch(pane, s, c, None, log)
    decreases |log|
  {
    if log != [] && log[0].sequence <= c {
      IncreasingTail(log);
      var next := Apply(pane, s, log[0].event, log[0].at).0;
      SnapshotAgrees(pane, next, c, log[1..]);
      assert LogUpTo(log, c)[1..] == LogUpTo(log[1..], c);
    }
  }

  /** Once the Pane was closed at or before the cursor, the uninterrupted watch has nothing left to print. */
  lemma {:induction false} CloseEndsWatch(pane: nat, s: State, d: nat, c: nat, log: seq<Entry>)
    requires d <= c && Increasing(log) && ClosedBy(pane, log, c) && !ClosedBy(pane, log, d)
    ensures UpTo(Watch(pane, s, d, None, log).lines, c) == Watch(pane, s, d, None, log).lines
    decreases |log|
  {
    IncreasingTail(log);
    var (next, kind) := Apply(pane, s, log[0].event, log[0].at);
    OnlyCloseCloses(pane, s, log[0].event, log[0].at);
    var i :| 0 <= i < |log| && log[i].sequence <= c && log[i].event == PaneClosed(Some(pane));
    assert log[0].sequence <= log[i].sequence;
    if kind.Some? && log[0].sequence > d {
      var line := Line(log[0].sequence, log[0].at, kind.value, next);
      var rest := Watch(pane, next, d, None, log[1..]).lines;
      assert ([line] + rest)[1..] == rest && [line][1..] == [];
    }
    if i > 0 {
      assert log[1..][i - 1] == log[i];
      CloseEndsWatch(pane, next, d, c, log[1..]);
    }
  }

  /** The lines a connection prints, apart from a snapshot; a refused one prints none. */
  function LinesOf(c: Connection): seq<Line> { if c.Connected? then c.watched.lines else [] }

  /** The Pane's first closing in a log, if any. */
  lemma {:induction false} FirstClose(pane: nat, log: seq<Entry>) returns (i: nat)
    requires !Listed(pane, log)
    ensures i < |log| && log[i].event == PaneClosed(Some(pane)) && Listed(pane, log[..i])
  {
    if log[0].event == PaneClosed(Some(pane)) {
      i := 0;
    } else {
      var k :| 0 <= k < |log| && log[k].event == PaneClosed(Some(pane));
      assert log[1..][k - 1] == log[k];
      var j := FirstClose(pane, log[1..]);
      i := j + 1;
      forall h | 0 <= h < i ensures log[..i][h].event != PaneClosed(Some(pane)) {
        if h > 0 {
          assert log[h] == log[1..][..j][h - 1];
        }
      }
    }
  }

  ghost predicate Reports(lines: seq<Line>, sequence: nat) {
    exists k :: 0 <= k < |lines| && lines[k].sequence == sequence
  }

  /** An uninterrupted watch prints the closing of its Pane, if that comes after its cursor. */
  lemma {:induction false} CloseIsPrinted(pane: nat, s: State, d: nat, log: seq<Entry>, i: nat)
    requires Increasing(log) && i < |log| && log[i].event == PaneClosed(Some(pane)) && Listed(pane, log[..i])
    requires log[i].sequence > d
    ensures Reports(Watch(pane, s, d, None, log).lines, log[i].sequence)
    decreases |log|
  {
    var (next, kind) := Apply(pane, s, log[0].event, log[0].at);
    OnlyCloseCloses(pane, s, log[0].event, log[0].at);
    var lines := Watch(pane, s, d, None, log).lines;
    if i == 0 {
      assert lines[0].sequence == log[0].sequence;
    } else {
      IncreasingTail(log);
      assert log[0] == log[..i][0] && log[1..][i - 1] == log[i];
      var init := log[1..][..i - 1];
      forall h | 0 <= h < |init| ensures init[h].event != PaneClosed(Some(pane)) {
        assert init[h] == log[..i][h + 1];
      }
      CloseIsPrinted(pane, next, d, log[1..], i - 1);
      var rest := Watch(pane, next, d, None, log[1..]).lines;
      var k :| 0 <= k < |rest| && rest[k].sequence == log[i].sequence;
      var at := k + |lines| - |rest|;
      assert lines[at] == rest[k];
    }
  }

  lemma {:induction false} UpToKeeps(lines: seq<Line>, c: nat, k: nat)
    requires UpTo(lines, c) == lines && k < |lines|
    ensures lines[k].sequence <= c
  {
    UpToShorter(lines[1..], c);
    if lines[0].sequence <= c && k > 0 {
      assert UpTo(lines[1..], c) == lines[1..] by {
        assert UpTo(lines, c)[1..] == UpTo(lines[1..], c);
      }
      UpToKeeps(lines[1..], c, k - 1);
    }
  }

  lemma {:induction false} UpToShorter(lines: seq<Line>, c: nat)
    ensures |UpTo(lines, c)| <= |lines|
  {
    if lines != [] {
      UpToShorter(lines[1..], c);
    }
  }

  /**
   A Pane that is not listed was closed; a watch that printed everything up to `c` has that line exactly if it
   was by then.
   */
  lemma LostExactlyIfUnseen(pane: nat, d: nat, c: nat, log: seq<Entry>, past: seq<Entry>)
    requires d <= c && Increasing(log) && past <= log && !Listed(pane, past)
    requires !ClosedBy(pane, log, d)
    requires Watch(pane, BLANK, d, None, log).lines == UpTo(Watch(pane, BLANK, d, None, log).lines, c)
    ensures ClosedBy(pane, log, c)
  {
    var i := FirstClose(pane, past);
    assert log[i] == past[i] && log[..i] == past[..i];
    CloseIsPrinted(pane, BLANK, d, log, i);
    var lines := Watch(pane, BLANK, d, None, log).lines;
    var k :| 0 <= k < |lines| && lines[k].sequence == log[i].sequence;
    UpToKeeps(lines, c, k);
  }

  /** A log as the Workspace numbers it. */
  ghost predicate Numbered(log: seq<Entry>) { Increasing(log) && (log != [] ==> log[0].sequence > 0) }

  /** A Pane that is listed had not been closed by then. */
  lemma StillOpen(pane: nat, c: nat, log: seq<Entry>, past: seq<Entry>)
    requires Numbered(log) && past <= log && c <= Cursor(past) && Listed(pane, past)
    ensures !ClosedBy(pane, log, c)
  {
    forall i | 0 <= i < |log| && log[i].sequence <= c ensures log[i].event != PaneClosed(Some(pane)) {
      if past != [] {
        assert past[|past| - 1] == log[|past| - 1];
        assert i < |past| && past[i] == log[i];
      }
    }
  }

  /** The lines of a replay from `c`, behind those up to `c` of a replay from `d`. */
  lemma ReconnectLines(pane: nat, d: nat, c: nat, log: seq<Entry>, past: seq<Entry>)
    requires Numbered(log) && past <= log && d <= c <= Cursor(past) && !ClosedBy(pane, log, d)
    ensures var whole, resumed := Watch(pane, BLANK, d, None, log), Watch(pane, BLANK, c, None, log);
            && (Listed(pane, past) ==> whole.lines == UpTo(whole.lines, c) + resumed.lines && whole.end == resumed.end)
            && (!Listed(pane, past) ==> (whole.lines == UpTo(whole.lines, c) <==> ClosedBy(pane, log, c)))
  {
    if Listed(pane, past) {
      StillOpen(pane, c, log, past);
      ReplayIsLossless(pane, BLANK, d, c, log);
    } else if ClosedBy(pane, log, c) {
      CloseEndsWatch(pane, BLANK, d, c, log);
    } else if Watch(pane, BLANK, d, None, log).lines == UpTo(Watch(pane, BLANK, d, None, log).lines, c) {
      LostExactlyIfUnseen(pane, d, c, log, past);
    }
  }

  /**
   Reconnecting: one watch connects with cursor `d` while the log is `first`, another with cursor `c` later,
   when the log is `second`. The lines of the first up to `c`, followed by those of the second, are all the
   lines of the first, had it gone on, exactly if the Pane is still listed at the reconnection or its closing
   had been seen: otherwise the reconnection is refused, and what came after `c` is never printed.
   */
  lemma ReconnectExactlyWhen(
    pane: nat, live: State, d: nat, c: nat, log: seq<Entry>, first: seq<Entry>, second: seq<Entry>
  )
    requires Numbered(log) && first <= second <= log && d <= Cursor(first) && d <= c <= Cursor(second)
    requires Listed(pane, first)
    ensures var whole := Connect(pane, Some(d), None, live, first, log[|first|..]);
            var resumed := Connect(pane, Some(c), None, live, second, log[|second|..]);
            && whole.Connected? && (resumed.Connected? <==> Listed(pane, second)) && !resumed.CursorTooFar?
            && (LinesOf(whole) == UpTo(LinesOf(whole), c) + LinesOf(resumed) <==>
                Listed(pane, second) || ClosedBy(pane, log, c))
            && (resumed.Connected? ==> whole.watched.end == resumed.watched.end)
  {
    assert first + log[|first|..] == log && second + log[|second|..] == log;
    StillOpen(pane, d, log, first);
    ReconnectLines(pane, d, c, log, second);
    var seen := UpTo(Watch(pane, BLANK, d, None, log).lines, c);
    assert seen + [] == seen;
  }

  /**
   Bound, a status, closed; the watcher saw the first line and reconnects after the last: two lines are never
   printed.
   */
  lemma ReconnectLosesClose(pane: nat, live: State, agent: string)
    ensures var log := [Entry(1, 0, AgentBound(Some(pane), Some(agent), None)),
                        Entry(2, 0, StatusChanged(Some(pane), Some(Working))),
                        Entry(3, 0, PaneClosed(Some(pane)))];
            && |LinesOf(Connect(pane, Some(0), None, live, [], log))| == 3
            && Connect(pane, Some(1), None, live, log, []) == NoPane
  {
    var log := [Entry(1, 0, AgentBound(Some(pane), Some(agent), None)),
                Entry(2, 0, StatusChanged(Some(pane), Some(Working))),
                Entry(3, 0, PaneClosed(Some(pane)))];
    assert log[2].event == PaneClosed(Some(pane));
    assert [] + log == log && log[1..][0] == log[1] && log[1..][1..] == [log[2]];
    var bound := Apply(pane, BLANK, log[0].event, 0).0;
    var working := Apply(pane, bound, log[1].event, 0).0;
    assert |Watch(pane, working, 0, None, [log[2]]).lines| == 1;
    assert |Watch(pane, bound, 0, None, log[1..]).lines| == 2;
  }

  /** A watch that starts from the live state agrees with a replay, if the live state is the fold of the log. */
  lemma SnapshotConnects(pane: nat, live: State, past: seq<Entry>, future: seq<Entry>)
    requires Numbered(past + future) && live == Fold(pane, BLANK, past) && Listed(pane, past)
    ensures var now := Connect(pane, None, None, live, past, future);
            var replay := Connect(pane, Some(Cursor(past)), None, live, past, future);
            now.Connected? && replay.Connected? && now.snapshot == Some(live) && now.watched == replay.watched
  {
    CursorSplits(past, future);
    SplitAtCursor(past, future, Cursor(past));
    SnapshotAgrees(pane, BLANK, Cursor(past), past + future);
  }

  lemma CursorSplits(past: seq<Entry>, future: seq<Entry>)
    requires Numbered(past + future)
    ensures forall i :: 0 <= i < |past| ==> past[i].sequence <= Cursor(past)
    ensures future != [] ==> future[0].sequence > Cursor(past)
  {
    var log := past + future;
    forall i | 0 <= i < |past| ensures past[i].sequence <= Cursor(past) {
      assert log[i] == past[i] && log[|past| - 1] == past[|past| - 1];
    }
    if future != [] {
      assert log[|past|] == future[0];
      assert past != [] ==> log[|past| - 1] == past[|past| - 1];
    }
  }

  lemma {:induction false} SplitAtCursor(past: seq<Entry>, future: seq<Entry>, c: nat)
    requires (forall i :: 0 <= i < |past| ==> past[i].sequence <= c) && (future != [] ==> future[0].sequence > c)
    ensures LogUpTo(past + future, c) == past && LogAfter(past + future, c) == future
    decreases |past|
  {
    if past == [] {
      assert past + future == future;
    } else {
      assert (past + future)[0] == past[0] && (past + future)[1..] == past[1..] + future;
      SplitAtCursor(past[1..], future, c);
    }
  }

  // ----- Waiting for one event

  function FirstMatch(lines: seq<Line>, wanted: Wanted): seq<Line> {
    if lines == [] then []
    else if Matches(lines[0].state, wanted, lines[0].kind) then [lines[0]]
    else FirstMatch(lines[1..], wanted)
  }

  /** Waiting for an event is watching until the first matching line; the Pane may close first. */
  lemma {:induction false} WaitIsFirstMatch(pane: nat, s: State, c: nat, wanted: Wanted, log: seq<Entry>)
    ensures var all, wait := Watch(pane, s, c, None, log), Watch(pane, s, c, Some(wanted), log);
            && wait.lines == FirstMatch(all.lines, wanted)
            && wait.end == if wait.lines != [] then Finished else if all.end == Finished then ClosedFirst else Open
    decreases |log|
  {
    if log != [] {
      var (next, kind) := Apply(pane, s, log[0].event, log[0].at);
      WaitIsFirstMatch(pane, next, c, wanted, log[1..]);
      if kind.Some? && log[0].sequence > c {
        var line := Line(log[0].sequence, log[0].at, kind.value, next);
        var rest := Watch(pane, next, c, None, log[1..]).lines;
        assert ([line] + rest)[1..] == rest && [line][1..] == [];
      }
    }
  }

  // ----- The invocation fence

  /** The state before event `n`, starting from a blank watch. */
  ghost function Before(pane: nat, log: seq<Entry>, n: nat): State
    requires n <= |log|
  {
    Fold(pane, BLANK, log[..n])
  }

  lemma {:induction false} FoldSnoc(pane: nat, s: State, log: seq<Entry>, n: nat)
    requires n < |log|
    ensures Fold(pane, s, log[..n + 1]) == Apply(pane, Fold(pane, s, log[..n]), log[n].event, log[n].at).0
    decreases n
  {
    if n == 0 {
      assert log[..1][1..] == [];
    } else {
      FoldSnoc(pane, Apply(pane, s, log[0].event, log[0].at).0, log[1..], n - 1);
      assert log[..n + 1][1..] == log[1..][..n] && log[..n][1..] == log[1..][..n - 1];
    }
  }

  /** Event `n` is a detail of the Pane that the watch accepts. */
  ghost predicate Accepted(pane: nat, log: seq<Entry>, n: nat)
    requires n < |log|
  {
    log[n].event.DetailObserved? && log[n].event.About(pane) && !Refused(Before(pane, log, n), log[n].event.invocation)
  }

  ghost predicate NoRebind(pane: nat, log: seq<Entry>, i: nat, j: nat)
    requires j <= |log|
  {
    forall k :: i <= k < j ==> !log[k].event.Rebinds(pane)
  }

  lemma {:induction false} InvocationStays(pane: nat, log: seq<Entry>, i: nat, j: nat, v: int)
    requires i <= j <= |log| && NoRebind(pane, log, i, j)
    requires Before(pane, log, i).details.invocation == Some(v)
    ensures Before(pane, log, j).details.invocation == Some(v)
    decreases j
  {
    if i < j {
      InvocationStays(pane, log, i, j - 1, v);
      FoldSnoc(pane, BLANK, log, j - 1);
    }
  }

  /** Between two rebinds, an accepted detail that names an invocation fixes it for every later one. */
  lemma FenceHolds(pane: nat, log: seq<Entry>, i: nat, j: nat)
    requires i < j < |log| && NoRebind(pane, log, i, j)
    requires Accepted(pane, log, i) && Accepted(pane, log, j)
    ensures log[i].event.invocation == log[j].event.invocation || log[i].event.invocation == None
  {
    FoldSnoc(pane, BLANK, log, i);
    if log[i].event.invocation.Some? {
      InvocationStays(pane, log, i + 1, j, log[i].event.invocation.value);
    }
  }

  /** A bind that names its invocation admits no detail of another one until the next rebind. */
  lemma BindFences(pane: nat, log: seq<Entry>, i: nat, j: nat)
    requires i < j < |log| && NoRebind(pane, log, i + 1, j) && Accepted(pane, log, j)
    requires log[i].event.AgentBound? && log[i].event.About(pane) && log[i].event.invocation.Some?
    ensures log[j].event.invocation == log[i].event.invocation
  {
    FoldSnoc(pane, BLANK, log, i);
    InvocationStays(pane, log, i + 1, j, log[i].event.invocation.value);
  }

  // ----- The reported waiting item and permission prompt are current

  /** Event `i` created waiting item `w`, and nothing since has replaced, resolved or retired it. */
  ghost predicate StillWaiting(pane: nat, log: seq<Entry>, i: nat, n: nat, w: nat) {
    && i < n <= |log| && log[i].event == WaitingCreated(Some(pane), Some(w))
    && forall k :: i < k < n ==>
         && !log[k].event.Rebinds(pane)
         && !(log[k].event.WaitingCreated? && log[k].event.About(pane))
         && log[k].event != WaitingResolved(Some(w))
         && !(log[k].event.SessionObserved? && log[k].event.About(pane)
              && Before(pane, log, k).details.Replaces(log[k].event.session))
  }

  lemma {:induction false} WaitingIsCurrent(pane: nat, log: seq<Entry>, n: nat) returns (i: nat)
    requires n <= |log| && Before(pane, log, n).waiting.Some?
    ensures StillWaiting(pane, log, i, n, Before(pane, log, n).waiting.value)
  {
    assert log[..0] == [];
    FoldSnoc(pane, BLANK, log, n - 1);
    var e, w := log[n - 1].event, Before(pane, log, n).waiting.value;
    if e.WaitingCreated? && e.About(pane) {
      i := n - 1;
    } else {
      i := WaitingIsCurrent(pane, log, n - 1);
    }
  }

  /** Conversely, a waiting item is reported until it is replaced, resolved or retired. */
  lemma {:induction false} WaitingUntilRetired(pane: nat, log: seq<Entry>, i: nat, n: nat, w: nat)
    requires StillWaiting(pane, log, i, n, w)
    ensures Before(pane, log, n).waiting == Some(w)
    decreases n
  {
    FoldSnoc(pane, BLANK, log, n - 1);
    if i < n - 1 {
      WaitingUntilRetired(pane, log, i, n - 1, w);
    }
  }

  /** Event `i` set status `st`, and neither a rebind nor another readable status came since. */
  ghost predicate StillInStatus(pane: nat, log: seq<Entry>, i: nat, n: nat, st: Status) {
    && i < n <= |log| && log[i].event == StatusChanged(Some(pane), Some(st))
    && forall k :: i < k < n ==>
         && !log[k].event.Rebinds(pane)
         && !(log[k].event.StatusChanged? && log[k].event.About(pane) && log[k].event.status.Some? &&
            log[k].event.status.value != st)
  }

  lemma {:induction false} StatusIsCurrent(pane: nat, log: seq<Entry>, n: nat) returns (i: nat)
    requires n <= |log| && Before(pane, log, n).status.Some?
    ensures StillInStatus(pane, log, i, n, Before(pane, log, n).status.value)
  {
    assert log[..0] == [];
    FoldSnoc(pane, BLANK, log, n - 1);
    var e := log[n - 1].event;
    if e.StatusChanged? && e.About(pane) && e.status.Some? {
      i := n - 1;
    } else {
      i := StatusIsCurrent(pane, log, n - 1);
    }
  }

  /** Conversely, a status is reported until another one or a rebind. */
  lemma {:induction false} StatusUntilChanged(pane: nat, log: seq<Entry>, i: nat, n: nat, st: Status)
    requires StillInStatus(pane, log, i, n, st)
    ensures Before(pane, log, n).status == Some(st)
    decreases n
  {
    FoldSnoc(pane, BLANK, log, n - 1);
    if i < n - 1 {
      StatusUntilChanged(pane, log, i, n - 1, st);
    }
  }

  /** Event `n` is an accepted permission prompt. */
  ghost predicate Asks(pane: nat, log: seq<Entry>, n: nat)
    requires n < |log|
  {
    Accepted(pane, log, n) && log[n].event.detail.Some? && log[n].event.detail.value.PermissionAsked?
  }

  /** Event `k` ends a pending prompt: a new agent, a new session or a change to another status. */
  ghost predicate EndsPrompt(pane: nat, log: seq<Entry>, k: nat)
    requires k < |log|
  {
    var e, s := log[k].event, Before(pane, log, k);
    || e.Rebinds(pane)
    || (e.SessionObserved? && e.About(pane) && s.details.Replaces(e.session))
    || (e.StatusChanged? && e.About(pane) && e.status.Some? && e.status.value != Permission && e.status != s.status)
  }

  /** Event `i` asked the pending permission: no later event asked another or ended it. */
  ghost predicate StillAsked(pane: nat, log: seq<Entry>, i: nat, n: nat) {
    && i < n <= |log| && Asks(pane, log, i)
    && forall k :: i < k < n ==> !Asks(pane, log, k) && !EndsPrompt(pane, log, k)
  }

  /** The prompt as it is recorded. */
  ghost function Prompt(pane: nat, log: seq<Entry>, i: nat): Asked
    requires i < |log| && Asks(pane, log, i)
  {
    var detail := log[i].event.detail.value;
    Asked(BoundedText(detail.tool, TEXT_LIMIT), BoundedText(detail.preview, TEXT_LIMIT), log[i].at)
  }

  lemma {:induction false} PermissionIsCurrent(pane: nat, log: seq<Entry>, n: nat) returns (i: nat)
    requires n <= |log| && Before(pane, log, n).details.permission.Some?
    ensures StillAsked(pane, log, i, n) && Before(pane, log, n).details.permission == Some(Prompt(pane, log, i))
  {
    assert log[..0] == [];
    FoldSnoc(pane, BLANK, log, n - 1);
    if Asks(pane, log, n - 1) {
      i := n - 1;
    } else {
      i := PermissionIsCurrent(pane, log, n - 1);
    }
  }

  /** Conversely, a prompt stays reported until it is replaced or ended. */
  lemma {:induction false} PromptUntilEnded(pane: nat, log: seq<Entry>, i: nat, n: nat)
    requires StillAsked(pane, log, i, n)
    ensures Before(pane, log, n).details.permission == Some(Prompt(pane, log, i))
    decreases n
  {
    FoldSnoc(pane, BLANK, log, n - 1);
    if i < n - 1 {
      PromptUntilEnded(pane, log, i, n - 1);
      assert !Asks(pane, log, n - 1) && !EndsPrompt(pane, log, n - 1);
    }
  }

  /** Some event after `i` and before `n` made the status Permission. */
  ghost predicate TurnsPermission(pane: nat, log: seq<Entry>, i: nat, n: nat) {
    exists k :: i < k < n <= |log| && log[k].event == StatusChanged(Some(pane), Some(Permission))
  }

  /**
   A pending prompt is shown while the status is Permission exactly if it was asked in that status or the
   status changed to it afterwards; a detail that arrives in another status is recorded all the same.
   */
  lemma {:induction false} PromptStatusExactlyWhen(pane: nat, log: seq<Entry>, i: nat, n: nat)
    requires StillAsked(pane, log, i, n)
    ensures Before(pane, log, n).status == Some(Permission) <==>
            Before(pane, log, i).status == Some(Permission) || TurnsPermission(pane, log, i, n)
    decreases n
  {
    FoldSnoc(pane, BLANK, log, n - 1);
    var e := log[n - 1].event;
    if i < n - 1 {
      PromptStatusExactlyWhen(pane, log, i, n - 1);
      assert !Asks(pane, log, n - 1) && !EndsPrompt(pane, log, n - 1);
      if e == StatusChanged(Some(pane), Some(Permission)) {
        assert TurnsPermission(pane, log, i, n);
      } else if TurnsPermission(pane, log, i, n) {
        var k :| i < k < n <= |log| && log[k].event == StatusChanged(Some(pane), Some(Permission));
        assert k < n - 1;
      }
    }
  }

  /** Working, and then a prompt: it is recorded although the status is not Permission. */
  lemma PromptWithoutPermission(pane: nat, tool: string)
    ensures var log := [Entry(1, 0, StatusChanged(Some(pane), Some(Working))),
                        Entry(2, 0, DetailObserved(Some(pane), None, Some(PermissionAsked(tool, []))))];
            var s := Fold(pane, BLANK, log);
            s.status == Some(Working) && s.details.permission.Some?
  {
    var log := [Entry(1, 0, StatusChanged(Some(pane), Some(Working))),
                Entry(2, 0, DetailObserved(Some(pane), None, Some(PermissionAsked(tool, []))))];
    assert log[1..] == [log[1]] && [log[1]][1..] == [];
    var s := Apply(pane, BLANK, log[0].event, 0).0;
    assert Fold(pane, s, [log[1]]) == Apply(pane, s, log[1].event, 0).0;
  }

  // ----- Which event of the log ends a wait

  /** Event `n` is an accepted detail that decodes. */
  ghost predicate Tells(pane: nat, log: seq<Entry>, n: nat)
    requires n < |log|
  {
    Accepted(pane, log, n) && log[n].event.detail.Some?
  }

  /** Event `n` is what a wait is for. */
  ghost predicate Answers(pane: nat, log: seq<Entry>, n: nat, wanted: Wanted)
    requires n < |log|
  {
    match wanted
    case WantNotification => Tells(pane, log, n) && log[n].event.detail.value.Notification?
    case WantLoopStopped =>
      && Tells(pane, log, n) && log[n].event.detail.value.LoopChange? && log[n].event.detail.value.state == Stopped
    case WantPermission =>
      && (Asks(pane, log, n) || (log[n].event.WaitingCreated? && log[n].event.About(pane)))
      && InStatus(pane, log, n + 1, Permission) && HasWaiting(pane, log, n + 1)
  }

  /** Before event `n`, some event has set the status, or created a waiting item, and it still stands. */
  ghost predicate InStatus(pane: nat, log: seq<Entry>, n: nat, st: Status) {
    exists i :: StillInStatus(pane, log, i, n, st)
  }

  ghost predicate HasWaiting(pane: nat, log: seq<Entry>, n: nat) {
    exists i, w :: StillWaiting(pane, log, i, n, w)
  }

  /** The first event after the cursor that answers the wait or closes the Pane. */
  ghost predicate Decides(pane: nat, log: seq<Entry>, from: nat, n: nat, c: nat, wanted: Wanted) {
    && from <= n < |log| && log[n].sequence > c
    && (Answers(pane, log, n, wanted) || log[n].event == PaneClosed(Some(pane)))
    && forall k :: from <= k < n && log[k].sequence > c ==>
         !Answers(pane, log, k, wanted) && log[k].event != PaneClosed(Some(pane))
  }

  ghost predicate Decided(pane: nat, log: seq<Entry>, from: nat, c: nat, wanted: Wanted) {
    exists n: nat :: Decides(pane, log, from, n, c, wanted)
  }

  lemma StatusExactly(pane: nat, log: seq<Entry>, n: nat, st: Status)
    requires n <= |log|
    ensures Before(pane, log, n).status == Some(st) <==> InStatus(pane, log, n, st)
  {
    if Before(pane, log, n).status == Some(st) {
      var i := StatusIsCurrent(pane, log, n);
    }
    if i: nat :| StillInStatus(pane, log, i, n, st) {
      StatusUntilChanged(pane, log, i, n, st);
    }
  }

  lemma WaitingExactly(pane: nat, log: seq<Entry>, n: nat)
    requires n <= |log|
    ensures Before(pane, log, n).waiting.Some? <==> HasWaiting(pane, log, n)
  {
    if Before(pane, log, n).waiting.Some? {
      var i := WaitingIsCurrent(pane, log, n);
    }
    if i: nat, w: nat :| StillWaiting(pane, log, i, n, w) {
      WaitingUntilRetired(pane, log, i, n, w);
    }
  }

  /** The watcher's test on its own state is that condition on the log. */
  lemma MatchesExactly(pane: nat, log: seq<Entry>, n: nat, wanted: Wanted)
    requires n < |log|
    ensures var (next, kind) := Apply(pane, Before(pane, log, n), log[n].event, log[n].at);
            kind.Some? && Matches(next, wanted, kind.value) <==> Answers(pane, log, n, wanted)
  {
    FoldSnoc(pane, BLANK, log, n);
    StatusExactly(pane, log, n + 1, Permission);
    WaitingExactly(pane, log, n + 1);
  }

  /** An event that decides nothing may be left out. */
  lemma Undecided(pane: nat, log: seq<Entry>, from: nat, c: nat, wanted: Wanted)
    requires from < |log|
    requires log[from].sequence > c ==>
               !Answers(pane, log, from, wanted) && log[from].event != PaneClosed(Some(pane))
    ensures forall n: nat ::
              Decides(pane, log, from, n, c, wanted) <==> Decides(pane, log, from + 1, n, c, wanted)
    ensures Decided(pane, log, from, c, wanted) <==> Decided(pane, log, from + 1, c, wanted)
  {
    forall n: nat ensures Decides(pane, log, from, n, c, wanted) <==> Decides(pane, log, from + 1, n, c, wanted) {
    }
    if n: nat :| Decides(pane, log, from, n, c, wanted) {
      assert Decides(pane, log, from + 1, n, c, wanted);
    }
    var next := from + 1;
    if n: nat :| Decides(pane, log, next, n, c, wanted) {
      assert Decides(pane, log, from, n, c, wanted);
    }
  }

  /**
   What a wait is told, over every log: it ends with the first event after the cursor that answers it, with that
   event's line; it fails if the Pane is closed before one; and it goes on if there is neither.
   */
  lemma {:induction false} WaitEndsExactly(pane: nat, log: seq<Entry>, from: nat, c: nat, wanted: Wanted)
    requires from <= |log|
    ensures var wait := Watch(pane, Before(pane, log, from), c, Some(wanted), log[from..]);
            && (wait.end == Open <==> !Decided(pane, log, from, c, wanted))
            && (forall n: nat :: Decides(pane, log, from, n, c, wanted) ==>
                  if Answers(pane, log, n, wanted)
                  then wait.end == Finished && |wait.lines| == 1 && wait.lines[0].sequence == log[n].sequence
                  else wait == Watched([], ClosedFirst))
            && (wait.end == Open ==> wait.lines == [])
    decreases |log| - from
  {
    if from < |log| {
      var e := log[from];
      MatchesExactly(pane, log, from, wanted);
      OnlyCloseCloses(pane, Before(pane, log, from), e.event, e.at);
      FoldSnoc(pane, BLANK, log, from);
      assert log[from..][1..] == log[from + 1..] && log[from..][0] == e;
      if e.sequence > c && (Answers(pane, log, from, wanted) || e.event == PaneClosed(Some(pane))) {
        assert Decides(pane, log, from, from, c, wanted);
      } else {
        Undecided(pane, log, from, c, wanted);
        WaitEndsExactly(pane, log, from + 1, c, wanted);
      }
    }
  }

  // ----- Every field, by the last event that touched it

  /** What an event does to one field of the state. */
  datatype Touch<V> = Leaves | Sets(value: Option<V>)

  /** The value of the last event before `n` that touched a field; nothing is known at the beginning. */
  ghost function Latest<V>(touch: nat -> Touch<V>, n: nat): Option<V> {
    if n == 0 then None
    else match touch(n - 1)
      case Sets(value) => value
      case Leaves => Latest(touch, n - 1)
  }

  /** Event `k` replaces the agent's session by another one. */
  ghost predicate NewSession(pane: nat, log: seq<Entry>, k: nat)
    requires k < |log|
  {
    var e := log[k].event;
    e.SessionObserved? && e.About(pane) && Before(pane, log, k).details.Replaces(e.session)
  }

  function Shortened(s: Option<string>): Option<string> {
    match s
    case None => None
    case Some(text) => Some(BoundedText(text, 1024))
  }

  ghost function AgentTouch(pane: nat, log: seq<Entry>): nat -> Touch<string> {
    (k: nat) =>
      if k < |log| && log[k].event.Rebinds(pane)
      then Sets(if log[k].event.AgentBound? then log[k].event.agent else None) else Leaves
  }

  ghost function SessionTouch(pane: nat, log: seq<Entry>): nat -> Touch<string> {
    (k: nat) =>
      if k >= |log| then Leaves
      else if log[k].event.Rebinds(pane) then Sets(None)
      else if log[k].event.SessionObserved? && log[k].event.About(pane) && log[k].event.session.Some?
      then Sets(Some(BoundedText(log[k].event.session.value, 1024))) else Leaves
  }

  ghost function TranscriptTouch(pane: nat, log: seq<Entry>): nat -> Touch<string> {
    (k: nat) =>
      if k >= |log| then Leaves
      else if log[k].event.Rebinds(pane) then Sets(None)
      else if NewSession(pane, log, k)
           || (log[k].event.SessionObserved? && log[k].event.About(pane) && log[k].event.transcript.Some?)
      then Sets(Shortened(log[k].event.transcript)) else Leaves
  }

  ghost function NoticeTouch(pane: nat, log: seq<Entry>): nat -> Touch<Noted> {
    (k: nat) =>
      if k >= |log| then Leaves
      else if log[k].event.Rebinds(pane) || NewSession(pane, log, k) then Sets(None)
      else if Tells(pane, log, k) && log[k].event.detail.value.Notification?
      then
        var d := log[k].event.detail.value;
        Sets(Some(Noted(BoundedText(d.kind, 512), BoundedText(d.message, 512), log[k].at)))
      else Leaves
  }

  ghost function LoopTouch(pane: nat, log: seq<Entry>): nat -> Touch<Looped> {
    (k: nat) =>
      if k >= |log| then Leaves
      else if log[k].event.Rebinds(pane) || NewSession(pane, log, k) then Sets(None)
      else if Tells(pane, log, k) && log[k].event.detail.value.LoopChange?
      then var d := log[k].event.detail.value; Sets(Some(Looped(d.state, d.delay, log[k].at)))
      else Leaves
  }

  function Touched<V>(before: Option<V>, touch: Touch<V>): Option<V> {
    match touch
    case Leaves => before
    case Sets(value) => value
  }

  lemma AgentTouched(pane: nat, log: seq<Entry>, k: nat)
    requires k < |log|
    ensures Before(pane, log, k + 1).agent == Touched(Before(pane, log, k).agent, AgentTouch(pane, log)(k))
  {
    FoldSnoc(pane, BLANK, log, k);
  }

  lemma SessionTouched(pane: nat, log: seq<Entry>, k: nat)
    requires k < |log|
    ensures var s, next := Before(pane, log, k).details, Before(pane, log, k + 1).details;
            && next.session == Touched(s.session, SessionTouch(pane, log)(k))
            && next.transcript == Touched(s.transcript, TranscriptTouch(pane, log)(k))
  {
    FoldSnoc(pane, BLANK, log, k);
  }

  lemma NoticeTouched(pane: nat, log: seq<Entry>, k: nat)
    requires k < |log|
    ensures Before(pane, log, k + 1).details.notification ==
            Touched(Before(pane, log, k).details.notification, NoticeTouch(pane, log)(k))
  {
    FoldSnoc(pane, BLANK, log, k);
  }

  lemma LoopTouched(pane: nat, log: seq<Entry>, k: nat)
    requires k < |log|
    ensures Before(pane, log, k + 1).details.loop ==
            Touched(Before(pane, log, k).details.loop, LoopTouch(pane, log)(k))
  {
    FoldSnoc(pane, BLANK, log, k);
  }

  /**
   Over every log the agent, its session and transcript, the notification and the loop that are reported are
   those of the last event that concerned them: nothing of an earlier agent or an earlier session is left.
   */
  lemma {:induction false} FieldsAreLatest(pane: nat, log: seq<Entry>, n: nat)
    requires n <= |log|
    ensures var s := Before(pane, log, n);
            && s.agent == Latest(AgentTouch(pane, log), n)
            && s.details.session == Latest(SessionTouch(pane, log), n)
            && s.details.transcript == Latest(TranscriptTouch(pane, log), n)
            && s.details.notification == Latest(NoticeTouch(pane, log), n)
            && s.details.loop == Latest(LoopTouch(pane, log), n)
    decreases n
  {
    if n == 0 {
      assert log[..0] == [];
    } else {
      FieldsAreLatest(pane, log, n - 1);
      AgentTouched(pane, log, n - 1);
      SessionTouched(pane, log, n - 1);
      NoticeTouched(pane, log, n - 1);
      LoopTouched(pane, log, n - 1);
    }
  }

  // ----- Which events are printed, and as what

  /** The line an event is printed as. */
  ghost predicate PrintsAs(pane: nat, s: State, e: Event, kind: Kind) {
    match kind
    case Bound => e.AgentBound? && e.About(pane)
    case Unbound => e.AgentUnbound? && e.About(pane)
    case Status => e.StatusChanged? && e.About(pane) && e.status.Some? && e.status != s.status
    case Session => e.SessionObserved? && e.About(pane)
    case Notice => e.DetailObserved? && e.About(pane) && !Refused(s, e.invocation) && IsDetail(e, Notice)
    case Ask => e.DetailObserved? && e.About(pane) && !Refused(s, e.invocation) && IsDetail(e, Ask)
    case Loop => e.DetailObserved? && e.About(pane) && !Refused(s, e.invocation) && IsDetail(e, Loop)
    case Waiting => e.WaitingCreated? && e.About(pane)
    case Resolved => e.WaitingResolved? && e.id.Some? && e.id == s.waiting
    case Closed => e == PaneClosed(Some(pane))
  }

  ghost predicate IsDetail(e: Event, kind: Kind)
    requires e.DetailObserved?
  {
    match e.detail
    case Some(Notification(_, _)) => kind == Notice
    case Some(PermissionAsked(_, _)) => kind == Ask
    case Some(LoopChange(_, _)) => kind == Loop
    case None => false
  }

  /** An event is printed as exactly one kind of line, or not at all and then changes nothing that is reported. */
  lemma PrintedExactly(pane: nat, s: State, e: Event, at: nat, kind: Kind)
    ensures Apply(pane, s, e, at).1 == Some(kind) <==> PrintsAs(pane, s, e, kind)
    ensures var (next, printed) := Apply(pane, s, e, at);
            printed == None ==> next == s.(details := s.details.(invocation := next.details.invocation))
  {
  }

  // ----- What is kept of a text

  function Spaced(s: string): (t: string)
    ensures |t| == |s| && forall i :: 0 <= i < |s| ==> t[i] == if s[i] == '\n' || s[i] == '\t' then ' ' else s[i]
  {
    seq(|s|, i requires 0 <= i < |s| => if s[i] == '\n' || s[i] == '\t' then ' ' else s[i])
  }

  function Printable(): char -> bool { (c: char) => !IsControl(c) }

  /** Line breaks and tabs become spaces, other control characters are dropped, and the beginning is kept. */
  lemma {:induction false} BoundedTextExactly(s: string, limit: nat)
    ensures var all := Selection.Filter(Printable(), Spaced(s));
            BoundedText(s, limit) == if |all| <= limit then all else all[..limit]
    decreases |s|
  {
    if s != [] {
      assert Spaced(s)[1..] == Spaced(s[1..]);
      if limit > 0 {
        BoundedTextExactly(s[1..], limit);
        BoundedTextExactly(s[1..], limit - 1);
      }
    }
  }
}
