/** Watching one agent over the durable event log: a fold with an invocation fence, resumable by cursor. */
module AgentWatch {
  import opened Bytes

  datatype Status = Unknown | Starting | Working | Tool | Permission | Question | Idle | Error | Exited

  datatype LoopState = Scheduled | Stopped

  datatype Detail =
    | Notification(kind: string, message: string)
    | PermissionAsked(tool: string, preview: string)
    | LoopChange(state: LoopState, delay: Option<nat>)

  datatype Noted = Noted(kind: string, message: string, at: nat)
  datatype Asked = Asked(tool: string, preview: string, at: nat)
  datatype Looped = Looped(state: LoopState, delay: Option<nat>, at: nat)

  const TEXT_LIMIT: nat := 512
  const ID_LIMIT: nat := 1024

  predicate IsControl(c: char) { c < ' ' || 0x7f <= c as int <= 0x9f }

  /** Free text without control characters, cut to `limit` characters. */
  function BoundedText(s: string, limit: nat): (t: string)
    ensures |t| <= limit
    ensures forall i :: 0 <= i < |t| ==> !IsControl(t[i])
    decreases |s|
  {
    if s == [] || limit == 0 then []
    else
      var c := if s[0] == '\n' || s[0] == '\t' then ' ' else s[0];
      if IsControl(c) then BoundedText(s[1..], limit) else [c] + BoundedText(s[1..], limit - 1)
  }

  function BoundedId(s: Option<string>): Option<string> {
    if s.Some? then Some(BoundedText(s.value, ID_LIMIT)) else None
  }

  datatype Details = Details(
    invocation: Option<int>, session: Option<string>, transcript: Option<string>,
    notification: Option<Noted>, permission: Option<Asked>, loop: Option<Looped>)
  {
    /** Whether a session id arrives that differs from the one recorded. */
    predicate Replaces(id: Option<string>) {
      session.Some? && BoundedId(id).Some? && session != BoundedId(id)
    }

    /** A replacement session starts from an empty record of the same invocation. */
    function ObserveSession(id: Option<string>, path: Option<string>): Details {
      if Replaces(id) then Details(invocation, BoundedId(id), BoundedId(path), None, None, None)
      else this.(session := if id.Some? then BoundedId(id) else session,
                 transcript := if path.Some? then BoundedId(path) else transcript)
    }

    function Record(detail: Detail, at: nat): Details {
      match detail
      case Notification(kind, message) =>
        this.(notification := Some(Noted(BoundedText(kind, TEXT_LIMIT), BoundedText(message, TEXT_LIMIT), at)))
      case PermissionAsked(tool, preview) =>
        this.(permission := Some(Asked(BoundedText(tool, TEXT_LIMIT), BoundedText(preview, TEXT_LIMIT), at)))
      case LoopChange(state, delay) => this.(loop := Some(Looped(state, delay, at)))
    }

    function ObserveStatus(status: Status): Details {
      if status != Permission then this.(permission := None) else this
    }
  }

  function NewDetails(invocation: Option<int>): Details {
    Details(invocation, None, None, None, None, None)
  }

  datatype State = State(agent: Option<string>, status: Option<Status>, details: Details, waiting: Option<nat>)

  const BLANK := State(None, None, NewDetails(None), None)

  /** A log event as decoded; a field that does not decode is None. */
  datatype Event =
    | WaitingResolved(id: Option<nat>)
    | AgentBound(pane: Option<nat>, agent: Option<string>, invocation: Option<int>)
    | StatusChanged(pane: Option<nat>, status: Option<Status>)
    | SessionObserved(pane: Option<nat>, session: Option<string>, transcript: Option<string>)
    | DetailObserved(pane: Option<nat>, invocation: Option<int>, detail: Option<Detail>)
    | WaitingCreated(pane: Option<nat>, id: Option<nat>)
    | AgentUnbound(pane: Option<nat>)
    | PaneClosed(pane: Option<nat>)
    | Unrelated
  {
    predicate About(p: nat) { !WaitingResolved? && !Unrelated? && pane == Some(p) }

    /** The events that start a new agent, or end one. */
    predicate Rebinds(p: nat) { (AgentBound? || AgentUnbound?) && pane == Some(p) }
  }

  datatype Kind = Bound | Status | Session | Notice | Ask | Loop | Waiting | Resolved | Unbound | Closed

  function KindOf(detail: Detail): Kind {
    match detail
    case Notification(_, _) => Notice
    case PermissionAsked(_, _) => Ask
    case LoopChange(_, _) => Loop
  }

  /** A detail of another invocation than the known one is refused. */
  predicate Refused(s: State, invocation: Option<int>) {
    s.details.invocation.Some? && invocation != s.details.invocation
  }

  function ApplyDetail(s: State, invocation: Option<int>, detail: Option<Detail>, at: nat): (State, Option<Kind>) {
    if Refused(s, invocation) then (s, None)
    else
      // The invocation is learned even when the detail itself does not decode.
      var learned := if s.details.invocation.None? then invocation else s.details.invocation;
      var known := s.(details := s.details.(invocation := learned));
      if detail.None? then (known, None)
      else (known.(details := known.details.Record(detail.value, at)), Some(KindOf(detail.value)))
  }

  function Apply(pane: nat, s: State, e: Event, at: nat): (State, Option<Kind>) {
    if e.WaitingResolved? then
      if e.id == s.waiting && s.waiting.Some? then (s.(waiting := None), Some(Resolved)) else (s, None)
    else if !e.About(pane) then (s, None)
    else match e
      case AgentBound(_, agent, invocation) => (State(agent, None, NewDetails(invocation), None), Some(Bound))
      case StatusChanged(_, status) =>
        if status.None? || s.status == status then (s, None)
        else (s.(status := status, details := s.details.ObserveStatus(status.value)), Some(Status))
      case SessionObserved(_, id, path) =>
        (s.(details := s.details.ObserveSession(id, path),
            waiting := if s.details.Replaces(id) then None else s.waiting),
         Some(Session))
      case DetailObserved(_, invocation, detail) => ApplyDetail(s, invocation, detail, at)
      case WaitingCreated(_, id) => (s.(waiting := id), Some(Waiting))
      case AgentUnbound(_) => (BLANK, Some(Unbound))
      case PaneClosed(_) => (s, Some(Closed))
      case _ => (s, None)
  }

  datatype Entry = Entry(sequence: nat, at: nat, event: Event)

  /** A printed line: which event, and the state right after it. */
  datatype Line = Line(sequence: nat, at: nat, kind: Kind, state: State)

  datatype Wanted = WantNotification | WantPermission | WantLoopStopped

  predicate Matches(s: State, wanted: Wanted, kind: Kind) {
    match wanted
    case WantNotification => kind == Notice
    case WantPermission => (kind == Ask || kind == Waiting) && s.status == Some(Permission) && s.waiting.Some?
    case WantLoopStopped => kind == Loop && s.details.loop.Some? && s.details.loop.value.state == Stopped
  }

  /** How a watch ends: the stream may go on, it may be finished, or the Pane closed too early. */
  datatype End = Open | Finished | ClosedFirst

  datatype Watched = Watched(lines: seq<Line>, end: End) {
    function After(line: seq<Line>): Watched { Watched(line + lines, end) }
  }

  /** The lines printed for a stream of events, when only sequences beyond `cutoff` are reported. */
  function Watch(pane: nat, s: State, cutoff: nat, wanted: Option<Wanted>, log: seq<Entry>): Watched
    decreases |log|
  {
    if log == [] then Watched([], Open)
    else
      var e := log[0];
      var (next, kind) := Apply(pane, s, e.event, e.at);
      if kind.None? || e.sequence <= cutoff then Watch(pane, next, cutoff, wanted, log[1..])
      else
        var line := if wanted.None? || Matches(next, wanted.value, kind.value)
                    then [Line(e.sequence, e.at, kind.value, next)] else [];
        if wanted.Some? && line != [] then Watched(line, Finished)
        else if kind.value == Closed then Watched(line, if wanted.Some? then ClosedFirst else Finished)
        else Watch(pane, next, cutoff, wanted, log[1..]).After(line)
  }

  /** The state after a log. */
  function Fold(pane: nat, s: State, log: seq<Entry>): State
    decreases |log|
  {
    if log == [] then s else Fold(pane, Apply(pane, s, log[0].event, log[0].at).0, log[1..])
  }

  /** What one entry makes of the state, the line it prints if any, and whether it ends the watch. */
  function Printed(
    pane: nat, s: State, cutoff: nat, wanted: Option<Wanted>, e: Entry
  ): (State, seq<Line>, Option<End>) {
    var (next, kind) := Apply(pane, s, e.event, e.at);
    if kind.None? || e.sequence <= cutoff then (next, [], None)
    else
      var shown := wanted.None? || Matches(next, wanted.value, kind.value);
      (next,
       if shown then [Line(e.sequence, e.at, kind.value, next)] else [],
       if wanted.Some? && shown then Some(Finished)
       else if kind.value == Closed then Some(if wanted.Some? then ClosedFirst else Finished)
       else None)
  }

  /** What the first entry of a log adds to the lines printed before it. */
  lemma WatchFirst(pane: nat, s: State, cutoff: nat, wanted: Option<Wanted>, log: seq<Entry>, before: seq<Line>)
    requires log != []
    ensures var (next, line, end) := Printed(pane, s, cutoff, wanted, log[0]);
            Watch(pane, s, cutoff, wanted, log).After(before) ==
            if end.Some? then Watched(before + line, end.value)
            else Watch(pane, next, cutoff, wanted, log[1..]).After(before + line)
  {
    var (next, line, end) := Printed(pane, s, cutoff, wanted, log[0]);
    var rest := Watch(pane, next, cutoff, wanted, log[1..]).lines;
    assert before + (line + rest) == (before + line) + rest;
    assert [] + rest == rest && before + [] == before;
  }

  // ----- Connecting

  /** Pane ids are never used twice, so a Pane that was created is listed until it is closed. */
  predicate Listed(pane: nat, log: seq<Entry>) {
    forall i :: 0 <= i < |log| ==> log[i].event != PaneClosed(Some(pane))
  }

  /** The Workspace's cursor: the last sequence it has assigned. */
  function Cursor(log: seq<Entry>): nat { if log == [] then 0 else log[|log| - 1].sequence }

  datatype Connection = CursorTooFar | NoPane | Connected(snapshot: Option<State>, watched: Watched)

  /**
   A watch that connects when the log is `past` and then receives `future`: without a cursor it starts from
   the live state, with one it replays the log from its beginning. A Pane that is not listed is refused.
   */
  function Connect(
    pane: nat, after: Option<nat>, wanted: Option<Wanted>, live: State, past: seq<Entry>, future: seq<Entry>
  ): Connection {
    if after.Some? && after.value > Cursor(past) then CursorTooFar
    else if !Listed(pane, past) then NoPane
    else match after
      case Some(cursor) => Connected(None, Watch(pane, BLANK, cursor, wanted, past + future))
      case None => Connected(if wanted.None? then Some(live) else None, Watch(pane, live, Cursor(past), wanted, future))
  }

  // ----- The watcher's state and loop

  class Watcher {
    const pane: nat
    var agent: Option<string>
    var status: Option<Status>
    var details: Details
    var waiting: Option<nat>

    ghost function Value(): State
      reads this
    {
      State(agent, status, details, waiting)
    }

    constructor (pane: nat, s: State)
      ensures this.pane == pane && Value() == s
    {
      this.pane := pane;
      agent, status, details, waiting := s.agent, s.status, s.details, s.waiting;
    }

    method ApplyEvent(e: Event, at: nat) returns (kind: Option<Kind>)
      modifies this
      ensures (Value(), kind) == Apply(pane, old(Value()), e, at)
    {
      kind := None;
      if e.WaitingResolved? {
        if e.id == waiting && waiting.Some? {
          waiting, kind := None, Some(Resolved);
        }
        return;
      }
      if !e.About(pane) {
        return;
      }
      match e
      case AgentBound(_, name, invocation) =>
        agent, status, details, waiting := name, None, NewDetails(invocation), None;
        kind := Some(Bound);
      case StatusChanged(_, new_status) =>
        if new_status.Some? && status != new_status {
          status, details := new_status, details.ObserveStatus(new_status.value);
          kind := Some(Status);
        }
      case SessionObserved(_, id, path) =>
        if details.Replaces(id) {
          waiting := None;
        }
        details := details.ObserveSession(id, path);
        kind := Some(Session);
      case DetailObserved(_, invocation, detail) =>
        if details.invocation.Some? && invocation != details.invocation {
          return;
        }
        if details.invocation.None? {
          details := details.(invocation := invocation);
        }
        if detail.Some? {
          details := details.Record(detail.value, at);
          kind := Some(KindOf(detail.value));
        }
      case WaitingCreated(_, id) =>
        waiting, kind := id, Some(Waiting);
      case AgentUnbound(_) =>
        agent, status, details, waiting := None, None, NewDetails(None), None;
        kind := Some(Unbound);
      case PaneClosed(_) =>
        kind := Some(Closed);
    }

    method PrintEvent(cutoff: nat, wanted: Option<Wanted>, e: Entry) returns (line: seq<Line>, end: Option<End>)
      modifies this
      ensures (Value(), line, end) == Printed(pane, old(Value()), cutoff, wanted, e)
    {
      line, end := [], None;
      var kind := ApplyEvent(e.event, e.at);
      if kind.Some? {
        if e.sequence <= cutoff {
          return;
        }
        var state := State(agent, status, details, waiting);
        if wanted.None? || Matches(state, wanted.value, kind.value) {
          line := [Line(e.sequence, e.at, kind.value, state)];
          if wanted.Some? {
            return line, Some(Finished);
          }
        }
        if kind.value == Closed {
          end := Some(if wanted.Some? then ClosedFirst else Finished);
        }
      }
    }

    method Follow(cutoff: nat, wanted: Option<Wanted>, log: seq<Entry>) returns (lines: seq<Line>, end: End)
      modifies this
      ensures Watched(lines, end) == Watch(pane, old(Value()), cutoff, wanted, log)
    {
      lines, end := [], Open;
      var rest := log;
      ghost var whole := Watch(pane, Value(), cutoff, wanted, log);
      assert whole.After([]) == whole;
      while rest != []
        invariant whole == Watch(pane, Value(), cutoff, wanted, rest).After(lines)
        decreases |rest|
      {
        WatchFirst(pane, Value(), cutoff, wanted, rest, lines);
        var line, over := PrintEvent(cutoff, wanted, rest[0]);
        lines, rest := lines + line, rest[1..];
        if over.Some? {
          return lines, over.value;
        }
      }
    }
  }

  /** The whole command: the cursor check, the lookup of the Pane, and the loop over the stream. */
  method WatchPane(
    pane: nat, after: Option<nat>, wanted: Option<Wanted>, live: State, past: seq<Entry>, future: seq<Entry>
  ) returns (c: Connection)
    ensures c == Connect(pane, after, wanted, live, past, future)
  {
    if after.Some? && after.value > Cursor(past) {
      return CursorTooFar;
    }
    var listed := LookUp(pane, past);
    if !listed {
      return NoPane;
    }
    var watcher := new Watcher(pane, if after.Some? then BLANK else live);
    var cutoff := if after.Some? then after.value else Cursor(past);
    var lines, end := watcher.Follow(cutoff, wanted, if after.Some? then past + future else future);
    c := Connected(if after.None? && wanted.None? then Some(live) else None, Watched(lines, end));
  }

  method LookUp(pane: nat, log: seq<Entry>) returns (listed: bool)
    ensures listed == Listed(pane, log)
  {
    for i := 0 to |log|
      invariant forall k :: 0 <= k < i ==> log[k].event != PaneClosed(Some(pane))
    {
      if log[i].event == PaneClosed(Some(pane)) {
        return false;
      }
    }
    listed := true;
  }
}
