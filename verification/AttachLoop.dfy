/**
 The attach loop's rounds: the picker opens, a shortcut leaves it again, an armed key goes alone
 and its tail comes back in the next round. Together the rounds are one run of the prefix automaton.
 */
module AttachLoop {
  import opened Bytes
  import opened KeyBindings
  import opened PrefixKeys
  import opened PrefixLaws
  import opened QuickActions

  /** Who gets the next key: the prefix automaton, a picker that has no key yet, or a picker that searches. */
  datatype Mode = Typing | Picking | Searching

  /** What rounds did, and where they left the keyboard. */
  datatype Rounds<P> = Rounds(out: Outcome<P>, mode: Mode) {
    function After(sent: seq<Atom>, read: nat): Rounds<P> { Rounds(out.After(sent, read), mode) }

    /** An action or a search has taken the keyboard. */
    predicate Over() { out.action.Some? || mode.Searching? }

    /** An open picker stands for an armed prefix. */
    function Meaning(): Outcome<P> { out.(state := Standing(out.state, !mode.Typing?)) }
  }

  function Armed<P>(state: State<P>): State<P> {
    if state.nested then state.(outer := true) else state.(pending := true)
  }

  /** The automaton's state for a client whose picker may be open. */
  function Standing<P>(state: State<P>, picking: bool): State<P> { if picking then Armed(state) else state }

  /** The state in which a shortcut leaves the picker. */
  function Rearmed<P>(state: State<P>): State<P> { state.(pending := true, outer := state.nested) }

  /** Which keys a fresh picker keeps for itself; the others are shortcuts. */
  type Keeps = seq<Byte> -> bool

  /** The picker is open and `query` follows: nothing yet, a search, or a shortcut and its tail. */
  function FromPicker<P>(
    observe: Observer<P>, effects: Effects, prefix: Byte, keeps: Keeps,
    open: State<P>, sent: seq<Atom>, query: seq<Byte>, read: nat
  ): (Rounds<P>, seq<Byte>) {
    if query == [] then (Rounds(Outcome(open, sent, None, read), Picking), [])
    else if query[0] != prefix && keeps(query) then (Rounds(Outcome(open, sent, None, read), Searching), [])
    else (Rounds(Run(observe, effects, prefix, Rearmed(open), query[..1]).After(sent, read), Typing), query[1..])
  }

  /** One round: what it does, and the tail the loop puts in front of the keys to come. */
  function Round<P>(
    observe: Observer<P>, effects: Effects, prefix: Byte, keeps: Keeps, state: State<P>, picking: bool, chunk: seq<Byte>
  ): (r: (Rounds<P>, seq<Byte>))
    ensures chunk != [] ==> |r.1| < |chunk|
  {
    if picking then FromPicker(observe, effects, prefix, keeps, state, [], chunk, 0)
    else
      match BeginQuickActions(observe, prefix, state, chunk)
      case Closed =>
        var (batch, tail) := Trim(state, chunk);
        (Rounds(Run(observe, effects, prefix, state, batch), Typing), tail)
      case Opened(open, forwarded, query) =>
        FromPicker(observe, effects, prefix, keeps, open, Keys(forwarded), query, |chunk| - |query|)
  }

  /** Rounds over one stretch of input, until it is used up or something else takes the keyboard. */
  function Attach<P>(
    observe: Observer<P>, effects: Effects, prefix: Byte, keeps: Keeps, state: State<P>, picking: bool, chunk: seq<Byte>
  ): Rounds<P>
    decreases |chunk|
  {
    if chunk == [] then Rounds(Outcome(state, [], None, 0), if picking then Picking else Typing)
    else
      var (first, tail) := Round(observe, effects, prefix, keeps, state, picking, chunk);
      if tail == [] || first.Over() then first
      else
        Attach(observe, effects, prefix, keeps, first.out.state, false, tail)
        .After(first.out.sent, |chunk| - |tail|)
  }

  // ----- One round

  /** Between rounds no armed state is left over, and an open picker holds no prefix. */
  predicate Ready<P>(state: State<P>, picking: bool) { !state.outer && (picking ==> !state.pending) }

  /** What one round must amount to: a run over the bytes it used, which end where its tail begins. */
  ghost predicate IsRun<P>(
    observe: Observer<P>, effects: Effects, prefix: Byte, start: State<P>, chunk: seq<Byte>, r: Rounds<P>,
    tail: seq<Byte>
  ) {
    && r.out.used <= |chunk|
    && Run(observe, effects, prefix, start, chunk[..r.out.used]) == r.Meaning()
    && |tail| <= |chunk| && tail == chunk[|chunk| - |tail|..]
    && (!r.mode.Searching? ==> r.out.used == |chunk| - |tail|)
    && (!r.mode.Typing? ==> r.out.action.None? && tail == [])
    && Ready(r.out.state, !r.mode.Typing?)
    && r.out.state.nested == start.nested
  }

  lemma OneByte<P>(observe: Observer<P>, effects: Effects, prefix: Byte, state: State<P>, b: Byte)
    requires state.nested ==> !observe(state.paste, b).1 && !(!state.outer && state.pending && b == prefix)
    requires !state.nested ==> !state.outer
    ensures var run := Run(observe, effects, prefix, state, [b]);
            run.used == 1 && run.state.nested == state.nested && !run.state.outer
  {
    RunOne(observe, effects, prefix, state, b);
  }

  /** The keys before the picker's prefix are typed, and the automaton is then armed. */
  lemma PickerArms<P>(observe: Observer<P>, effects: Effects, prefix: Byte, state: State<P>, chunk: seq<Byte>)
    requires !state.outer && BeginQuickActions(observe, prefix, state, chunk).Opened?
    requires state.nested ==>
               var open := BeginQuickActions(observe, prefix, state, chunk);
               |open.query| <= |chunk| && HeldApart(observe, prefix, state, chunk[..|chunk| - |open.query|])
    ensures var open := BeginQuickActions(observe, prefix, state, chunk);
            var read := |chunk| - |open.query|;
            && 0 < read && open.query == chunk[read..]
            && open.state == State(false, false, state.nested, ObserveAll(observe, state.paste, chunk[..read]))
            && Run(observe, effects, prefix, state, chunk[..read]) ==
               Outcome(Armed(open.state), Keys(open.forwarded), None, read)
  {
    if state.nested {
      NestedPickerArms(observe, effects, prefix, state, chunk);
    } else {
      PlainPickerArms(observe, effects, prefix, state, chunk);
    }
  }

  /** A shortcut out of the picker acts as the key after the prefix. */
  lemma ShortcutActs<P>(
    observe: Observer<P>, effects: Effects, prefix: Byte,
    start: State<P>, u: seq<Byte>, open: State<P>, sent: seq<Atom>, b: Byte
  )
    requires !open.pending && !open.outer && (open.nested ==> !observe(open.paste, b).1)
    requires Run(observe, effects, prefix, start, u) == Outcome(Armed(open), sent, None, |u|)
    ensures Run(observe, effects, prefix, start, u + [b]) ==
            Run(observe, effects, prefix, Rearmed(open), [b]).After(sent, |u|)
  {
    SplitIndependence(observe, effects, prefix, start, u, [b]);
    SameWhenArmed(observe, effects, prefix, Armed(open), Rearmed(open), [b]);
  }

  lemma SplitQuery(u: seq<Byte>, query: seq<Byte>)
    requires query != []
    ensures query[..1] == [query[0]] && (u + query)[..|u| + 1] == u + [query[0]]
    ensures (u + query)[..|u|] == u && (u + query)[|u| + 1..] == query[1..]
  {
  }

  lemma FromPickerIsRun<P>(
    observe: Observer<P>, effects: Effects, prefix: Byte, keeps: Keeps,
    start: State<P>, u: seq<Byte>, open: State<P>, sent: seq<Atom>, query: seq<Byte>
  )
    requires !open.pending && !open.outer && start.nested == open.nested
    requires Run(observe, effects, prefix, start, u) == Outcome(Armed(open), sent, None, |u|)
    requires open.nested && query != [] && !(query[0] != prefix && keeps(query)) ==> !observe(open.paste, query[0]).1
    ensures var (r, tail) := FromPicker(observe, effects, prefix, keeps, open, sent, query, |u|);
            IsRun(observe, effects, prefix, start, u + query, r, tail)
  {
    if query == [] {
      assert u + query == u && u[..|u|] == u;
    } else {
      SplitQuery(u, query);
      if query[0] == prefix || !keeps(query) {
        ShortcutActs(observe, effects, prefix, start, u, open, sent, query[0]);
        OneByte(observe, effects, prefix, Rearmed(open), query[0]);
      }
    }
  }

  /** The round in which the picker stays closed. */
  lemma ClosedIsRun<P>(observe: Observer<P>, effects: Effects, prefix: Byte, state: State<P>, chunk: seq<Byte>)
    requires !state.outer && chunk != [] && BeginQuickActions(observe, prefix, state, chunk).Closed?
    requires state.nested ==> HeldApart(observe, prefix, state, Trim(state, chunk).0)
    ensures var (batch, tail) := Trim(state, chunk);
            IsRun(observe, effects, prefix, state, chunk, Rounds(Run(observe, effects, prefix, state, batch), Typing),
              tail)
  {
    ApartDropsNothing(observe, effects, prefix, state, chunk);
    var (batch, tail) := Trim(state, chunk);
    assert chunk[..|batch|] == batch && chunk[|chunk| - |tail|..] == tail;
    if state.pending {
      assert batch == [chunk[0]];
      OneByte(observe, effects, prefix, state, chunk[0]);
    } else {
      ClosedStaysReady(observe, effects, prefix, state, chunk);
    }
  }

  lemma ClosedStaysReady<P>(observe: Observer<P>, effects: Effects, prefix: Byte, state: State<P>, chunk: seq<Byte>)
    requires !state.outer && !state.pending && BeginQuickActions(observe, prefix, state, chunk).Closed?
    requires state.nested ==> HeldApart(observe, prefix, state, chunk)
    ensures var run := Run(observe, effects, prefix, state, chunk);
            !run.state.outer && run.state.nested == state.nested
  {
    assert chunk[..|chunk|] == chunk;
    if state.nested {
      NestedUntilDouble(observe, effects, prefix, state, chunk);
    } else {
      PlainUntilPrefix(observe, effects, prefix, state, chunk);
    }
  }

  /** The bytes of a round that are meant for the automaton: neither its tail nor a search. */
  function Used<P>(
    observe: Observer<P>, effects: Effects, prefix: Byte, keeps: Keeps, state: State<P>, picking: bool, chunk: seq<Byte>
  ): seq<Byte> {
    var (r, tail) := Round(observe, effects, prefix, keeps, state, picking, chunk);
    var n := if r.mode.Searching? then r.out.used else |chunk| - |tail|;
    if 0 <= n <= |chunk| then chunk[..n] else chunk
  }

  /** The prefixes of a nested client stay apart from claimed bytes in what a round uses. */
  ghost predicate Apart<P>(
    observe: Observer<P>, effects: Effects, prefix: Byte, keeps: Keeps, state: State<P>, picking: bool, chunk: seq<Byte>
  ) {
    state.nested ==>
      HeldApart(observe, prefix, Standing(state, picking), Used(observe, effects, prefix, keeps, state, picking, chunk))
  }

  /**
   One round is one run over the bytes it used, for any observer in a plain client, and in a nested
   one if its prefixes stay apart from claimed bytes.
   */
  lemma RoundIsRun<P>(
    observe: Observer<P>, effects: Effects, prefix: Byte, keeps: Keeps, state: State<P>, picking: bool, chunk: seq<Byte>
  )
    requires Ready(state, picking) && chunk != [] && Apart(observe, effects, prefix, keeps, state, picking, chunk)
    ensures var (r, tail) := Round(observe, effects, prefix, keeps, state, picking, chunk);
            IsRun(observe, effects, prefix, Standing(state, picking), chunk, r, tail)
  {
    if picking {
      PickingIsRun(observe, effects, prefix, keeps, state, chunk);
    } else if BeginQuickActions(observe, prefix, state, chunk).Closed? {
      assert chunk[..|chunk| - |Trim(state, chunk).1|] == Trim(state, chunk).0;
      ClosedIsRun(observe, effects, prefix, state, chunk);
    } else {
      OpenedIsRun(observe, effects, prefix, keeps, state, chunk);
    }
  }

  lemma PickingIsRun<P>(
    observe: Observer<P>, effects: Effects, prefix: Byte, keeps: Keeps, state: State<P>, chunk: seq<Byte>
  )
    requires Ready(state, true) && chunk != [] && Apart(observe, effects, prefix, keeps, state, true, chunk)
    ensures var (r, tail) := FromPicker(observe, effects, prefix, keeps, state, [], chunk, 0);
            IsRun(observe, effects, prefix, Armed(state), chunk, r, tail)
  {
    assert [] + chunk == chunk;
    if chunk[0] == prefix || !keeps(chunk) {
      assert Used(observe, effects, prefix, keeps, state, true, chunk) == [chunk[0]];
    }
    FromPickerIsRun(observe, effects, prefix, keeps, Armed(state), [], state, [], chunk);
  }

  lemma OpenedIsRun<P>(
    observe: Observer<P>, effects: Effects, prefix: Byte, keeps: Keeps, state: State<P>, chunk: seq<Byte>
  )
    requires Ready(state, false) && chunk != [] && BeginQuickActions(observe, prefix, state, chunk).Opened?
    requires Apart(observe, effects, prefix, keeps, state, false, chunk)
    ensures var (r, tail) := Round(observe, effects, prefix, keeps, state, false, chunk);
            IsRun(observe, effects, prefix, state, chunk, r, tail)
  {
    var open := BeginQuickActions(observe, prefix, state, chunk);
    var read := |chunk| - |open.query|;
    OpenedUses(observe, effects, prefix, keeps, state, chunk);
    PickerArms(observe, effects, prefix, state, chunk);
    assert chunk[..read] + open.query == chunk;
    FromPickerIsRun(observe, effects, prefix, keeps, state, chunk[..read], open.state, Keys(open.forwarded),
      open.query);
  }

  /** In a nested client: what comes before the query stays apart, and a shortcut is not claimed. */
  lemma OpenedUses<P>(
    observe: Observer<P>, effects: Effects, prefix: Byte, keeps: Keeps, state: State<P>, chunk: seq<Byte>
  )
    requires Ready(state, false) && BeginQuickActions(observe, prefix, state, chunk).Opened?
    requires Apart(observe, effects, prefix, keeps, state, false, chunk)
    ensures var open := BeginQuickActions(observe, prefix, state, chunk);
            var read := |chunk| - |open.query|;
            && 0 < read && open.query == chunk[read..]
            && (state.nested ==> HeldApart(observe, prefix, state, chunk[..read]))
            && (state.nested && open.query != [] && !(open.query[0] != prefix && keeps(open.query)) ==>
                  !observe(open.state.paste, open.query[0]).1)
  {
    var open := BeginQuickActions(observe, prefix, state, chunk);
    var read := |chunk| - |open.query|;
    if state.nested && open.query != [] && !(open.query[0] != prefix && keeps(open.query)) {
      assert Used(observe, effects, prefix, keeps, state, false, chunk) == chunk[..read + 1];
      assert chunk[..read + 1] == chunk[..read] + [open.query[0]];
      HeldApartSplit(observe, effects, prefix, state, chunk[..read], [open.query[0]]);
      PickerArms(observe, effects, prefix, state, chunk);
    } else if state.nested {
      assert Used(observe, effects, prefix, keeps, state, false, chunk) == chunk[..read];
    }
  }

  // ----- All rounds over one stretch

  /** In every round of a stretch the prefixes of a nested client stay apart from claimed bytes. */
  ghost predicate AllApart<P>(
    observe: Observer<P>, effects: Effects, prefix: Byte, keeps: Keeps, state: State<P>, picking: bool, chunk: seq<Byte>
  )
    decreases |chunk|
  {
    chunk != [] ==>
      && Apart(observe, effects, prefix, keeps, state, picking, chunk)
      && var (first, tail) := Round(observe, effects, prefix, keeps, state, picking, chunk);
         tail == [] || first.Over() || AllApart(observe, effects, prefix, keeps, first.out.state, false, tail)
  }

  /** What the rounds must amount to: one run over the bytes they used, up to something that takes the keyboard. */
  ghost predicate IsOneRun<P>(
    observe: Observer<P>, effects: Effects, prefix: Byte, start: State<P>, chunk: seq<Byte>, r: Rounds<P>
  ) {
    && r.out.used <= |chunk|
    && Run(observe, effects, prefix, start, chunk[..r.out.used]) == r.Meaning()
    && (r.Over() || r.out.used == |chunk|)
  }

  /** A first stretch without an action, then rounds over the rest. */
  lemma Continue<P>(
    observe: Observer<P>, effects: Effects, prefix: Byte, start: State<P>, u: seq<Byte>, v: seq<Byte>,
    first: Outcome<P>, next: Rounds<P>
  )
    requires Run(observe, effects, prefix, start, u) == first && first.action.None? && first.used == |u|
    requires IsOneRun(observe, effects, prefix, first.state, v, next)
    ensures IsOneRun(observe, effects, prefix, start, u + v, next.After(first.sent, |u|))
  {
    var n := next.out.used;
    SplitIndependence(observe, effects, prefix, start, u, v[..n]);
    assert (u + v)[..|u| + n] == u + v[..n];
  }

  lemma RoundThenRounds<P>(
    observe: Observer<P>, effects: Effects, prefix: Byte, start: State<P>, chunk: seq<Byte>,
    first: Rounds<P>, tail: seq<Byte>, next: Rounds<P>
  )
    requires IsRun(observe, effects, prefix, start, chunk, first, tail) && !first.Over() && tail != []
    requires IsOneRun(observe, effects, prefix, first.out.state, tail, next)
    ensures IsOneRun(observe, effects, prefix, start, chunk, next.After(first.out.sent, |chunk| - |tail|))
  {
    var u := chunk[..|chunk| - |tail|];
    Continue(observe, effects, prefix, start, u, tail, first.out, next);
    assert u + tail == chunk;
  }

  /**
   However the rounds fall, with the picker opening and closing again and armed keys going alone,
   they amount to one run of the automaton over the bytes they used, and they stop only when the
   input is used up or an action or a search takes the keyboard.
   */
  lemma {:induction false} RoundsAreOneRun<P>(
    observe: Observer<P>, effects: Effects, prefix: Byte, keeps: Keeps, state: State<P>, picking: bool, chunk: seq<Byte>
  )
    requires Ready(state, picking) && AllApart(observe, effects, prefix, keeps, state, picking, chunk)
    ensures IsOneRun(observe, effects, prefix, Standing(state, picking), chunk,
                     Attach(observe, effects, prefix, keeps, state, picking, chunk))
    decreases |chunk|
  {
    if chunk == [] {
      assert chunk[..0] == [];
    } else {
      RoundIsRun(observe, effects, prefix, keeps, state, picking, chunk);
      var (first, tail) := Round(observe, effects, prefix, keeps, state, picking, chunk);
      if tail != [] && !first.Over() {
        RoundsAreOneRun(observe, effects, prefix, keeps, first.out.state, false, tail);
        RoundThenRounds(observe, effects, prefix, Standing(state, picking), chunk, first, tail,
                        Attach(observe, effects, prefix, keeps, first.out.state, false, tail));
      }
    }
  }

  /** A plain client needs no condition: any observer, any bytes. */
  lemma {:induction false} PlainIsApart<P>(
    observe: Observer<P>, effects: Effects, prefix: Byte, keeps: Keeps, state: State<P>, picking: bool, chunk: seq<Byte>
  )
    requires !state.nested && Ready(state, picking)
    ensures AllApart(observe, effects, prefix, keeps, state, picking, chunk)
    decreases |chunk|
  {
    if chunk != [] {
      RoundIsRun(observe, effects, prefix, keeps, state, picking, chunk);
      var (first, tail) := Round(observe, effects, prefix, keeps, state, picking, chunk);
      if tail != [] && !first.Over() {
        PlainIsApart(observe, effects, prefix, keeps, first.out.state, false, tail);
      }
    }
  }

  lemma ApartNextRound<P>(
    observe: Observer<P>, effects: Effects, prefix: Byte, keeps: Keeps, state: State<P>, picking: bool, chunk: seq<Byte>
  )
    requires Ready(state, picking) && HeldApart(observe, prefix, Standing(state, picking), chunk) && chunk != []
    ensures Apart(observe, effects, prefix, keeps, state, picking, chunk)
    ensures var (first, tail) := Round(observe, effects, prefix, keeps, state, picking, chunk);
            tail != [] && !first.Over() ==>
              Ready(first.out.state, false) && HeldApart(observe, prefix, first.out.state, tail)
  {
    var used := Used(observe, effects, prefix, keeps, state, picking, chunk);
    assert used + chunk[|used|..] == chunk;
    HeldApartSplit(observe, effects, prefix, Standing(state, picking), used, chunk[|used|..]);
    RoundIsRun(observe, effects, prefix, keeps, state, picking, chunk);
    var (first, tail) := Round(observe, effects, prefix, keeps, state, picking, chunk);
    UsedByRun(observe, effects, prefix, Standing(state, picking), chunk, first, tail);
  }

  lemma UsedByRun<P>(
    observe: Observer<P>, effects: Effects, prefix: Byte, start: State<P>, chunk: seq<Byte>, r: Rounds<P>,
    tail: seq<Byte>
  )
    requires IsRun(observe, effects, prefix, start, chunk, r, tail)
    ensures tail != [] && !r.Over() ==>
              var used := chunk[..|chunk| - |tail|];
              && chunk[|used|..] == tail && r.mode.Typing?
              && Run(observe, effects, prefix, start, used) == r.out && r.out.action.None?
  {
  }

  /** A nested client needs none beyond its prefixes staying apart in the input as a whole. */
  lemma {:induction false} ApartThroughout<P>(
    observe: Observer<P>, effects: Effects, prefix: Byte, keeps: Keeps, state: State<P>, picking: bool, chunk: seq<Byte>
  )
    requires Ready(state, picking) && HeldApart(observe, prefix, Standing(state, picking), chunk)
    ensures AllApart(observe, effects, prefix, keeps, state, picking, chunk)
    decreases |chunk|
  {
    if chunk != [] {
      ApartNextRound(observe, effects, prefix, keeps, state, picking, chunk);
      var (first, tail) := Round(observe, effects, prefix, keeps, state, picking, chunk);
      if tail != [] && !first.Over() {
        ApartThroughout(observe, effects, prefix, keeps, first.out.state, false, tail);
      }
    }
  }

  /**
   If nothing takes the keyboard, or an action does, the rounds did exactly what one run over the whole input
   does.
   */
  lemma RoundsEndAsOneRun<P>(
    observe: Observer<P>, effects: Effects, prefix: Byte, keeps: Keeps, state: State<P>, picking: bool, chunk: seq<Byte>
  )
    requires Ready(state, picking) && AllApart(observe, effects, prefix, keeps, state, picking, chunk)
    requires !Attach(observe, effects, prefix, keeps, state, picking, chunk).mode.Searching?
    ensures Attach(observe, effects, prefix, keeps, state, picking, chunk).Meaning() ==
            Run(observe, effects, prefix, Standing(state, picking), chunk)
  {
    RoundsAreOneRun(observe, effects, prefix, keeps, state, picking, chunk);
    WholeRun(observe, effects, prefix, Standing(state, picking), chunk,
             Attach(observe, effects, prefix, keeps, state, picking, chunk));
  }

  lemma WholeRun<P>(
    observe: Observer<P>, effects: Effects, prefix: Byte, start: State<P>, chunk: seq<Byte>, r: Rounds<P>
  )
    requires IsOneRun(observe, effects, prefix, start, chunk, r) && !r.mode.Searching?
    ensures r.Meaning() == Run(observe, effects, prefix, start, chunk)
  {
    var n := r.out.used;
    if n == |chunk| {
      assert chunk[..n] == chunk;
    } else {
      SplitIndependence(observe, effects, prefix, start, chunk[..n], chunk[n..]);
      assert chunk[..n] + chunk[n..] == chunk;
    }
  }

  // ----- One round as the client runs it

  /** Keys for a picker that has none yet. */
  method DoPick<P>(
    s: PrefixState<P>, observe: Observer<P>, effects: Effects, prefix: Byte, keeps: Keeps, query: seq<Byte>,
    out: seq<Frame>
  ) returns (action: Option<Action>, mode: Mode, tail: seq<Byte>, frames: seq<Frame>)
    requires NoEmptyInput(out)
    modifies s
    ensures var (r, rest) := FromPicker(observe, effects, prefix, keeps, old(s.Value()), [], query, 0);
            && s.Value() == r.out.state && action == r.out.action && mode == r.mode && tail == rest
            && Sent(out, frames, [], r.out.sent)
  {
    if query == [] || (query[0] != prefix && keeps(query)) {
      assert Flatten(out) + Keys([]) == Flatten(out) + [];
      return None, if query == [] then Picking else Searching, [], out;
    }
    s.pending, s.outerPending := true, s.nested;
    ghost var armed := s.Value();
    action, frames := s.ProcessInput(observe, effects, prefix, query[..1], out);
    assert [] + Run(observe, effects, prefix, armed, query[..1]).sent ==
      Run(observe, effects, prefix, armed, query[..1]).sent;
    return action, Typing, query[1..], frames;
  }

  lemma FromPickerAfter<P>(
    observe: Observer<P>, effects: Effects, prefix: Byte, keeps: Keeps,
    open: State<P>, sent: seq<Atom>, query: seq<Byte>, read: nat
  )
    ensures var (r, tail) := FromPicker(observe, effects, prefix, keeps, open, [], query, 0);
            FromPicker(observe, effects, prefix, keeps, open, sent, query, read) == (r.After(sent, read), tail)
  {
    assert sent + [] == sent;
    if query != [] {
      var run := Run(observe, effects, prefix, Rearmed(open), query[..1]);
      assert [] + run.sent == run.sent;
    }
  }

  /** One round in place: the tail is returned for the caller to queue. */
  method DoRound<P>(
    s: PrefixState<P>, observe: Observer<P>, effects: Effects, prefix: Byte, keeps: Keeps,
    picking: bool, chunk: seq<Byte>, out: seq<Frame>
  ) returns (action: Option<Action>, mode: Mode, tail: seq<Byte>, frames: seq<Frame>)
    requires NoEmptyInput(out)
    modifies s
    ensures var (r, rest) := Round(observe, effects, prefix, keeps, old(s.Value()), picking, chunk);
            && s.Value() == r.out.state && action == r.out.action && mode == r.mode && tail == rest
            && Sent(out, frames, [], r.out.sent)
  {
    if picking {
      action, mode, tail, frames := DoPick(s, observe, effects, prefix, keeps, chunk, out);
      return;
    }
    ghost var begin := BeginQuickActions(observe, prefix, s.Value(), chunk);
    var query;
    query, frames := OpenPicker(s, observe, prefix, chunk, out);
    if query.None? {
      var batch, rest := chunk, [];
      if (s.pending || s.outerPending) && chunk != [] {
        batch, rest := chunk[..1], chunk[1..];
      }
      action, frames := s.ProcessInput(observe, effects, prefix, batch, out);
      return action, Typing, rest, frames;
    }
    ghost var mid := frames;
    FromPickerAfter(observe, effects, prefix, keeps, s.Value(), Keys(begin.forwarded), query.value,
      |chunk| - |query.value|);
    ghost var picked := FromPicker(observe, effects, prefix, keeps, s.Value(), [], query.value, 0).0.out.sent;
    action, mode, tail, frames := DoPick(s, observe, effects, prefix, keeps, query.value, frames);
    SentTwice(out, mid, frames, Keys(begin.forwarded), picked);
  }
}
