/**
 Coalescing of terminal resize reports, and the event loop that drives it: sizes are noted
 when they change, reported once they settle, and never overtaken by keyboard input.
 */
module Resize {
  import opened Bytes

  datatype Size = Size(cols: nat, rows: nat)

  /** Milliseconds on a clock that never runs backwards. */
  type Time = nat

  const SETTLE: nat := 16
  const MAX_HOLD: nat := 100

  datatype Pending = Pending(size: Size, first: Time, last: Time)

  function Min(a: nat, b: nat): nat { if a < b then a else b }

  function Noted(p: Option<Pending>, size: Size, now: Time): Option<Pending> {
    match p
    case Some(q) => Some(q.(size := size, last := now))
    case None => Some(Pending(size, now, now))
  }

  function Deadline(p: Option<Pending>): Option<Time> {
    match p
    case None => None
    case Some(q) => Some(Min(q.last + SETTLE, q.first + MAX_HOLD))
  }

  function Timeout(p: Option<Pending>, now: Time): Option<nat> {
    match Deadline(p)
    case None => None
    case Some(d) => Some(if d > now then d - now else 0)
  }

  predicate Due(p: Option<Pending>, now: Time) {
    p.Some? && Deadline(p).value <= now
  }

  class ResizeCoalescer {
    var pending: Option<Pending>

    constructor ()
      ensures pending == None
    {
      pending := None;
    }

    method Note(size: Size, now: Time)
      modifies this
      ensures pending == Noted(old(pending), size, now)
    {
      if pending.Some? {
        pending := Some(Pending(size, pending.value.first, now));
      } else {
        pending := Some(Pending(size, now, now));
      }
    }

    method TakePending() returns (size: Option<Size>)
      modifies this
      ensures pending == None
      ensures size == if old(pending).Some? then Some(old(pending).value.size) else None
    {
      size := if pending.Some? then Some(pending.value.size) else None;
      pending := None;
    }

    method TakeDue(now: Time) returns (size: Option<Size>)
      modifies this
      ensures if Due(old(pending), now) then size == Some(old(pending).value.size) && pending == None
              else size == None && pending == old(pending)
    {
      size := None;
      if Due(pending, now) {
        size := TakePending();
      }
    }
  }

  // ----- The event loop

  /** What a wakeup handles: a changed terminal size, or keyboard bytes to forward. */
  datatype Event = Winch(size: Size, at: Time) | Stdin(at: Time)

  /** One turn of the loop: poll from `start`, woken at `wake`, its events, then the due check. */
  datatype Turn = Turn(start: Time, wake: Time, events: seq<Event>, flush: Time)

  /** What happened, in order. A report is `timed` when its deadline sent it. */
  datatype Entry = Saw(size: Size, at: Time) | Report(size: Size, at: Time, timed: bool) | Forward(at: Time)

  datatype Loop = Loop(pending: Option<Pending>, log: seq<Entry>, now: Time)

  function Handle(s: Loop, e: Event): Loop {
    match e
    case Winch(size, at) => Loop(Noted(s.pending, size, at), s.log + [Saw(size, at)], at)
    case Stdin(at) =>
      Loop(None, s.log + (if s.pending.Some? then [Report(s.pending.value.size, at, false)] else []) + [Forward(at)],
        at)
  }

  function HandleAll(s: Loop, events: seq<Event>): Loop
    decreases |events|
  {
    if events == [] then s else HandleAll(Handle(s, events[0]), events[1..])
  }

  function Flush(s: Loop, now: Time): Loop {
    if Due(s.pending, now) then Loop(None, s.log + [Report(s.pending.value.size, now, true)], now)
    else s.(now := now)
  }

  function DoTurn(s: Loop, t: Turn): Loop { Flush(HandleAll(s, t.events), t.flush) }

  function Run(s: Loop, turns: seq<Turn>): Loop
    decreases |turns|
  {
    if turns == [] then s else Run(DoTurn(s, turns[0]), turns[1..])
  }

  const IDLE := Loop(None, [], 0)

  /** The clock never runs backwards. */
  predicate Ordered(from: Time, events: seq<Event>, to: Time)
    decreases |events|
  {
    if events == [] then from <= to else from <= events[0].at && Ordered(events[0].at, events[1..], to)
  }

  /**
   A turn the loop can take: it polls no longer than the reported timeout (other timeouts only
   wake it earlier), and spends at most `slack` outside the poll.
   */
  predicate Punctual(s: Loop, t: Turn, slack: nat) {
    && s.now <= t.start <= t.wake
    && Ordered(t.wake, t.events, t.flush)
    && (Timeout(s.pending, t.start).Some? ==> t.wake - t.start <= Timeout(s.pending, t.start).value)
    && (t.start - s.now) + (t.flush - t.wake) <= slack
  }

  ghost predicate AllPunctual(s: Loop, turns: seq<Turn>, slack: nat)
    decreases |turns|
  {
    turns != [] ==> Punctual(s, turns[0], slack) && AllPunctual(DoTurn(s, turns[0]), turns[1..], slack)
  }
}
