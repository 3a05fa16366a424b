/** The attach loop as a whole: the decoder, the client that takes what it decodes, and the tails in the key buffer. */
module AttachQueue {
  import opened Bytes
  import opened KeyBindings
  import opened PrefixKeys
  import opened PrefixLaws
  import opened QuickActions
  import opened AttachLoop
  import opened AttachClient
  import opened SgrMouse
  import opened StdinScan
  import opened StdinUnits
  import opened StdinFragments
  import opened StdinTokens
  import opened TailQueue
  import opened QueueRuns
  import opened Overtaking
  import opened OvertakenRuns
  import opened QueueTokens

  /** The client takes the clicks of a read and then one round of its keys; the tail of the round comes back. */
  function Takes<P>(w: Setting<P>): Taker<Client<P>> {
    (c: Client<P>, events: seq<MouseEvent>, keys: seq<Byte>) => Keyed(w, Clicks(w, c, events), keys)
  }

  // ----- Every run of the client

  /** At every moment the client has played what it was handed: after the clicks of each read, and after its keys. */
  ghost predicate Steady<P>(
    w: Setting<P>, machine: Machine, start: State<P>, s: Loop<Client<P>>, steps: seq<Step>
  )
    decreases |steps|
  {
    steps != [] ==>
      && StepSteady(w, machine, start, s, steps[0])
      && Steady(w, machine, start, TailQueue.Do(machine, Takes(w), s, steps[0]), steps[1..])
  }

  ghost predicate StepSteady<P>(w: Setting<P>, machine: Machine, start: State<P>, s: Loop<Client<P>>, step: Step) {
    step != Chunk([]) ==>
      && Follows(w, start, s.delivered.keys, Clicks(w, s.taker, machine(s.carry, step).0.events))
      && var t := TailQueue.Do(machine, Takes(w), s, step);
         Follows(w, start, t.delivered.keys, t.taker)
  }

  /** No click arrives while a fresh picker is open. */
  ghost predicate NeverClicked<P>(w: Setting<P>, machine: Machine, s: Loop<Client<P>>, steps: seq<Step>)
    decreases |steps|
  {
    steps != [] ==>
      && (steps[0] != Chunk([]) ==> !ClickedAway(s.taker, machine(s.carry, steps[0]).0.events))
      && NeverClicked(w, machine, TailQueue.Do(machine, Takes(w), s, steps[0]), steps[1..])
  }

  /** What a read hands to the client, and what comes back. */
  lemma HandsOver<P>(w: Setting<P>, s: Loop<Client<P>>, out: Out, carry: Carry)
    ensures var t := Hand(Takes(w), s, out, carry);
            var c := Clicks(w, s.taker, out.events);
            t.taker == Keyed(w, c, out.keys).0 && t.delivered.keys == s.delivered.keys + KeysKept(w, c, out.keys)
  {
  }

  lemma {:induction false} DeliveredGrows<S>(machine: Machine, take: Taker<S>, s: Loop<S>, steps: seq<Step>)
    ensures s.delivered.keys <= RunLoop(machine, take, s, steps).delivered.keys
    decreases |steps|
  {
    if steps != [] {
      DeliveredGrows(machine, take, TailQueue.Do(machine, take, s, steps[0]), steps[1..]);
    }
  }

  lemma PrefixApart<P>(w: Setting<P>, start: State<P>, keys: seq<Byte>, all: seq<Byte>)
    requires keys <= all && HeldApart(w.observe, w.prefix, start, all)
    ensures HeldApart(w.observe, w.prefix, start, keys)
  {
    assert keys + all[|keys|..] == all;
    ApartSplits(w, start, keys, all[|keys|..]);
  }

  /** One read of a client that follows: it follows on if and only if no click takes its picker away. */
  lemma StepFollows<P>(
    w: Setting<P>, machine: Machine, start: State<P>, s: Loop<Client<P>>, step: Step, all: seq<Byte>
  )
    requires Follows(w, start, s.delivered.keys, s.taker) && step != Chunk([])
    requires TailQueue.Do(machine, Takes(w), s, step).delivered.keys <= all
    requires start.nested ==> HeldApart(w.observe, w.prefix, start, all)
    ensures StepSteady(w, machine, start, s, step) <==> !ClickedAway(s.taker, machine(s.carry, step).0.events)
  {
    var (out, carry) := machine(s.carry, step);
    var c := Clicks(w, s.taker, out.events);
    ClickDeparts(w, start, s.delivered.keys, s.taker, out.events);
    if !ClickedAway(s.taker, out.events) {
      HandsOver(w, s, out, carry);
      if start.nested {
        PrefixApart(w, start, s.delivered.keys + KeysKept(w, c, out.keys), all);
      }
      KeysFollow(w, start, s.delivered.keys, c, out.keys);
    }
  }

  /**
   Whatever is read, and whatever overtakes what: the client plays the keys it is handed, at every moment, if and
   only if no click arrives while a fresh picker is open. Only a nested client needs the prefixes among
   these keys to stay apart from claimed bytes.
   */
  lemma {:induction false} RunFollows<P>(
    w: Setting<P>, machine: Machine, start: State<P>, s: Loop<Client<P>>, steps: seq<Step>
  )
    requires Follows(w, start, s.delivered.keys, s.taker)
    requires start.nested ==>
               HeldApart(w.observe, w.prefix, start, RunLoop(machine, Takes(w), s, steps).delivered.keys)
    ensures Steady(w, machine, start, s, steps) <==> NeverClicked(w, machine, s, steps)
    ensures var end := RunLoop(machine, Takes(w), s, steps);
            NeverClicked(w, machine, s, steps) ==> Follows(w, start, end.delivered.keys, end.taker)
    decreases |steps|
  {
    if steps != [] {
      var t := TailQueue.Do(machine, Takes(w), s, steps[0]);
      DeliveredGrows(machine, Takes(w), t, steps[1..]);
      if steps[0] != Chunk([]) {
        StepFollows(w, machine, start, s, steps[0], RunLoop(machine, Takes(w), s, steps).delivered.keys);
      }
      if StepSteady(w, machine, start, s, steps[0]) {
        RunFollows(w, machine, start, t, steps[1..]);
      }
    }
  }

  /**
   The whole loop, with any paste observer: if no read overtakes queued keys and no dry read tears a report,
   events, focus and keys are those of the tokens, in order, whatever is still queued behind them. The client
   does what one automaton over the keys it is handed does, at every moment, if and only if no click arrives
   while a fresh picker is open. Only a nested client needs the prefixes it types to stay apart from claimed
   bytes.
   */
  lemma AttachRoundTrip<P(!new)>(ts: seq<Token>, w: Setting<P>, start: State<P>, steps: seq<Step>)
    requires AllWellFormed(ts) && StdinUnits.Input(steps) == Print(ts) && !start.outer
    requires start.nested ==> HeldApart(w.observe, w.prefix, start, Meaning(ts).keys)
    requires NothingOvertaken(Takes(w), Fresh(start), steps)
    requires !TearsReport(ts, 0, EscapesIn(Takes(w), Fresh(start), steps))
    ensures var first, machine := Loop(NOTHING, EMPTY, Fresh(start)), Decoding(ParseSgrMouse);
            var end := Reading(Takes(w), Fresh(start), steps);
            && Through(end, ts)
            && (Steady(w, machine, start, first, steps) <==> NeverClicked(w, machine, first, steps))
            && (NeverClicked(w, machine, first, steps) ==>
                  && Follows(w, start, end.delivered.keys, end.taker)
                  && (!end.taker.Over() && end.carry.key == [] ==>
                        end.taker.Meaning() == Play(w, Start(start), Meaning(ts).keys)))
  {
    var end := Reading(Takes(w), Fresh(start), steps);
    QueueRoundTrip(ts, Takes(w), Fresh(start), steps);
    FreshFollows(w, start);
    if start.nested {
      PrefixApart(w, start, end.delivered.keys, Meaning(ts).keys);
    }
    RunFollows(w, Decoding(ParseSgrMouse), start, Loop(NOTHING, EMPTY, Fresh(start)), steps);
    if end.carry.key == [] {
      AllHanded(end, ts);
    }
  }

  lemma AllHanded<P>(end: Loop<Client<P>>, ts: seq<Token>)
    requires Through(end, ts) && end.carry.key == []
    ensures end.delivered.keys == Meaning(ts).keys && end.delivered.keys[..|end.delivered.keys|] == end.delivered.keys
  {
    ThenNothing(end.delivered);
  }

  // ----- Over every run, what is destructive is asked for first

  /** No guarded command was sent, and nothing else was asked about. */
  ghost predicate Asked(cfg: Config, deeds: seq<Deed>) {
    && (forall command :: Guarded(cfg, command) ==> Sends(Do(command)) !in deeds)
    && (forall command :: Acts(Confirm(command)) in deeds ==> Guarded(cfg, command))
  }

  lemma AddAsks<P>(holds: Action -> bool, cfg: Config, t: Trace<P>, o: PrefixKeys.Outcome<P>)
    requires Asked(cfg, t.deeds) && AsksFirst(cfg, o.sent, o.action)
    ensures Asked(cfg, t.Add(holds, o).deeds)
  {
  }

  lemma RoundAsks<P>(w: Setting<P>, cfg: Config, state: State<P>, picking: bool, keys: seq<Byte>)
    requires w.effects == Table(cfg) && w.prefix == cfg.prefix
    ensures var r := Round(w.observe, w.effects, w.prefix, w.keeps, state, picking, keys).0;
            AsksFirst(cfg, r.out.sent, r.out.action)
  {
    if picking {
      PickerAsks(w, cfg, state, [], keys, 0);
    } else {
      match BeginQuickActions(w.observe, w.prefix, state, keys)
      case Closed => NeverClosesUnasked(w.observe, cfg, state, Trim(state, keys).0);
      case Opened(open, forwarded, query) => PickerAsks(w, cfg, open, forwarded, query, |keys| - |query|);
    }
  }

  lemma PickerAsks<P>(
    w: Setting<P>, cfg: Config, open: State<P>, forwarded: seq<Byte>, query: seq<Byte>, read: nat
  )
    requires w.effects == Table(cfg) && w.prefix == cfg.prefix
    ensures var r := FromPicker(w.observe, w.effects, w.prefix, w.keeps, open, Keys(forwarded), query, read).0;
            AsksFirst(cfg, r.out.sent, r.out.action)
  {
    if query != [] {
      NeverClosesUnasked(w.observe, cfg, Rearmed(open), query[..1]);
    }
  }

  lemma {:induction false} ClicksAsk<P>(w: Setting<P>, cfg: Config, c: Client<P>, events: seq<MouseEvent>)
    requires Asked(cfg, c.did.deeds)
    ensures Asked(cfg, Clicks(w, c, events).did.deeds)
    decreases |events|
  {
    if events != [] {
      ClicksAsk(w, cfg, Clicked(w, c, events[0]), events[1..]);
    }
  }

  /**
   Whatever is read, clicked, cut or overtaken: no key of the client ever sends a command whose confirmation
   is switched on, and it asks about nothing else.
   */
  lemma {:induction false} RunAsksFirst<P>(
    w: Setting<P>, cfg: Config, machine: Machine, s: Loop<Client<P>>, steps: seq<Step>
  )
    requires w.effects == Table(cfg) && w.prefix == cfg.prefix && Asked(cfg, s.taker.did.deeds)
    ensures Asked(cfg, RunLoop(machine, Takes(w), s, steps).taker.did.deeds)
    decreases |steps|
  {
    if steps != [] {
      if steps[0] != Chunk([]) {
        var (out, carry) := machine(s.carry, steps[0]);
        var c := Clicks(w, s.taker, out.events);
        ClicksAsk(w, cfg, s.taker, out.events);
        HandsOver(w, s, out, carry);
        RoundAsks(w, cfg, c.did.state, c.mode.Picking?, out.keys);
        var r := Round(w.observe, w.effects, w.prefix, w.keeps, c.did.state, c.mode.Picking?, out.keys).0;
        AddAsks(w.holds, cfg, c.did, r.out);
      }
      RunAsksFirst(w, cfg, machine, TailQueue.Do(machine, Takes(w), s, steps[0]), steps[1..]);
    }
  }

  // ----- Which entries were picked

  function PickedBy(deeds: seq<Deed>): seq<MouseEvent> {
    if deeds == [] then [] else (if deeds[0].Picks? then [deeds[0].at] else []) + PickedBy(deeds[1..])
  }

  lemma {:induction false} PickedConcat(a: seq<Deed>, b: seq<Deed>)
    ensures PickedBy(a + b) == PickedBy(a) + PickedBy(b)
  {
    if a == [] {
      assert a + b == b;
    } else {
      assert (a + b)[0] == a[0] && (a + b)[1..] == a[1..] + b;
      PickedConcat(a[1..], b);
    }
  }

  lemma {:induction false} KeysPickNothing(deeds: seq<Deed>)
    requires forall i :: 0 <= i < |deeds| ==> !deeds[i].Picks?
    ensures PickedBy(deeds) == []
  {
    if deeds != [] {
      KeysPickNothing(deeds[1..]);
    }
  }

  /** What a step adds to a run's record, and a run's record as the sum of its steps. */
  type Gain<!S> = (Loop<S>, Step) -> seq<MouseEvent>

  ghost function Along<S>(
    machine: Machine, take: Taker<S>, gain: Gain<S>, s: Loop<S>, steps: seq<Step>
  ): seq<MouseEvent>
    decreases |steps|
  {
    if steps == [] then []
    else gain(s, steps[0]) + Along(machine, take, gain, TailQueue.Do(machine, take, s, steps[0]), steps[1..])
  }

  lemma {:induction false} RunGains<S(!new)>(
    machine: Machine, take: Taker<S>, record: S -> seq<MouseEvent>, gain: Gain<S>, s: Loop<S>, steps: seq<Step>
  )
    requires forall s, step :: record(TailQueue.Do(machine, take, s, step).taker) == record(s.taker) + gain(s, step)
    ensures record(RunLoop(machine, take, s, steps).taker) == record(s.taker) + Along(machine, take, gain, s, steps)
    decreases |steps|
  {
    if steps == [] {
      assert record(s.taker) + [] == record(s.taker);
    } else {
      var t := TailQueue.Do(machine, take, s, steps[0]);
      RunGains(machine, take, record, gain, t, steps[1..]);
      var rest := Along(machine, take, gain, t, steps[1..]);
      assert record(s.taker) + gain(s, steps[0]) + rest == record(s.taker) + (gain(s, steps[0]) + rest);
    }
  }

  /** The entry that a click of a step hits. */
  ghost function Hitting<P>(w: Setting<P>, machine: Machine): Gain<Client<P>> {
    (s: Loop<Client<P>>, step: Step) =>
      if step == Chunk([]) then [] else EntryHit(Hits(w, s.taker, machine(s.carry, step).0.events))
  }

  function Picked<P>(): Client<P> -> seq<MouseEvent> { (c: Client<P>) => PickedBy(c.did.deeds) }

  function EntryHit(hit: Option<(MouseEvent, Hit)>): seq<MouseEvent> {
    match hit
    case Some((e, Entry(_))) => [e]
    case _ => []
  }

  lemma StepPicks<P>(w: Setting<P>, s: Loop<Client<P>>, out: Out, carry: Carry)
    ensures PickedBy(Hand(Takes(w), s, out, carry).taker.did.deeds) ==
            PickedBy(s.taker.did.deeds) + EntryHit(Hits(w, s.taker, out.events))
  {
    var c := Clicks(w, s.taker, out.events);
    ClicksExactly(w, s.taker, out.events);
    HandsOver(w, s, out, carry);
    KeyedPicksNothing(w, c, out.keys);
    var hit := Hits(w, s.taker, out.events);
    var more := if hit.Some? && hit.value.1.Entry? then [Picks(hit.value.0)] else [];
    assert c.did.deeds == s.taker.did.deeds + more;
    PickedConcat(s.taker.did.deeds, more);
    assert more != [] ==> more[1..] == [] && PickedBy(more) == [more[0].at];
  }

  lemma KeyedPicksNothing<P>(w: Setting<P>, c: Client<P>, keys: seq<Byte>)
    ensures PickedBy(Keyed(w, c, keys).0.did.deeds) == PickedBy(c.did.deeds)
  {
    if !c.Over() && keys != [] {
      var r := Round(w.observe, w.effects, w.prefix, w.keeps, c.did.state, c.mode.Picking?, keys).0;
      var more := DeedsOf(r.out.sent, r.out.action);
      PickedConcat(c.did.deeds, more);
      KeysPickNothing(more);
      assert PickedBy(c.did.deeds) + [] == PickedBy(c.did.deeds);
    }
  }

  /** Over every run, the entries that were run are exactly those that a click hit while the picker was fresh. */
  lemma RunPicks<P(!new)>(w: Setting<P>, machine: Machine, s: Loop<Client<P>>, steps: seq<Step>)
    ensures PickedBy(RunLoop(machine, Takes(w), s, steps).taker.did.deeds) ==
            PickedBy(s.taker.did.deeds) + Along(machine, Takes(w), Hitting(w, machine), s, steps)
  {
    forall s: Loop<Client<P>>, step
      ensures Picked<P>()(TailQueue.Do(machine, Takes(w), s, step).taker) ==
              Picked<P>()(s.taker) + Hitting(w, machine)(s, step)
    {
      DoPicks(w, machine, s, step);
    }
    RunGains(machine, Takes(w), Picked<P>(), Hitting(w, machine), s, steps);
  }

  lemma DoPicks<P>(w: Setting<P>, machine: Machine, s: Loop<Client<P>>, step: Step)
    ensures PickedBy(TailQueue.Do(machine, Takes(w), s, step).taker.did.deeds) ==
            PickedBy(s.taker.did.deeds) +
            if step == Chunk([]) then [] else EntryHit(Hits(w, s.taker, machine(s.carry, step).0.events))
  {
    if step == Chunk([]) {
      assert PickedBy(s.taker.did.deeds) + [] == PickedBy(s.taker.did.deeds);
    } else {
      var (out, carry) := machine(s.carry, step);
      StepPicks(w, s, out, carry);
    }
  }

  // ----- A click on the open picker

  const CLICK: seq<Byte> := HELD + REST

  lemma ReadsText(parse: Reader, text: seq<Byte>)
    requires ESC !in text
    ensures Read(parse, EMPTY, text) == (Literal(text), EMPTY)
  {
    SettleText(parse, text);
    ReadIs(parse, EMPTY, text);
    NothingThen(Literal(text));
    assert [] + [] + text == text;
  }

  lemma ClickBytes()
    ensures var g := HELD + [SEMICOLON, 0x37];
            CLICK == g + [PRESS] + [] && Open(g) && g[3..] == [0x30, SEMICOLON, 0x35, SEMICOLON, 0x37]
  {
  }

  lemma ReadsClick()
    ensures Read(ParseSgrMouse, EMPTY, CLICK) == (Out([MouseEvent(5, 7, Click)], [], None), EMPTY)
  {
    var g := HELD + [SEMICOLON, 0x37];
    ClickBytes();
    ClickParses();
    ClickThenText(ParseSgrMouse, g, [], MouseEvent(5, 7, Click));
    ReadIs(ParseSgrMouse, EMPTY, CLICK);
    NothingThen(Out([MouseEvent(5, 7, Click)], [], None));
    assert [] + [] + CLICK == CLICK;
  }

  /** A read that leaves both buffers empty. */
  lemma CleanRead<P>(w: Setting<P>, s: Loop<Client<P>>, chunk: seq<Byte>, out: Out)
    requires s.carry == EMPTY && chunk != [] && Read(ParseSgrMouse, EMPTY, chunk) == (out, EMPTY)
    requires Keyed(w, Clicks(w, s.taker, out.events), out.keys).1 == 0
    ensures var t := TailQueue.Do(Decoding(ParseSgrMouse), Takes(w), s, Chunk(chunk));
            && t.carry == EMPTY && t.taker == Keyed(w, Clicks(w, s.taker, out.events), out.keys).0
            && t.delivered.keys == s.delivered.keys + out.keys
  {
    if out.keys != [] {
      assert out.keys[..|out.keys|] == out.keys && out.keys[|out.keys|..] + [] == [];
    }
  }

  lemma CleanKeys<P>(w: Setting<P>, s: Loop<Client<P>>, text: seq<Byte>)
    requires s.carry == EMPTY && text != [] && ESC !in text && Keyed(w, s.taker, text).1 == 0
    ensures var t := TailQueue.Do(Decoding(ParseSgrMouse), Takes(w), s, Chunk(text));
            t.carry == EMPTY && t.taker == Keyed(w, s.taker, text).0 && t.delivered.keys == s.delivered.keys + text
  {
    ReadsText(ParseSgrMouse, text);
    CleanRead(w, s, text, Literal(text));
  }

  lemma CleanClick<P>(w: Setting<P>, s: Loop<Client<P>>)
    requires s.carry == EMPTY
    ensures var t := TailQueue.Do(Decoding(ParseSgrMouse), Takes(w), s, Chunk(CLICK));
            && t.carry == EMPTY && t.taker == Clicked(w, s.taker, MouseEvent(5, 7, Click))
            && t.delivered.keys == s.delivered.keys
  {
    var e := MouseEvent(5, 7, Click);
    ReadsClick();
    assert [e][1..] == [] && Clicks(w, s.taker, [e]) == Clicks(w, Clicked(w, s.taker, e), []);
    CleanRead(w, s, CLICK, Out([e], [], None));
  }

  /** The prefix alone opens the picker. */
  lemma OpensPicker<P>(w: Setting<P>, start: State<P>)
    requires !start.outer && !start.nested && !start.pending && !w.observe(start.paste, w.prefix).1
    ensures Keyed(w, Fresh(start), [w.prefix]) ==
            (Client(Trace(start.(paste := w.observe(start.paste, w.prefix).0), [], false, 1), Picking, []), 0)
  {
    var chunk: seq<Byte> := [w.prefix];
    assert FirstPrefix(w.observe, w.prefix, false, start.paste, chunk) == Some(0);
    PickerArms(w.observe, w.effects, w.prefix, start, chunk);
    var open := BeginQuickActions(w.observe, w.prefix, start, chunk);
    assert open.query == [] && open.forwarded == [];
    assert chunk[..1] == chunk && chunk[1..] == [];
  }

  /**
   Three reads: the prefix, a click beside the picker, and a key. Nothing is overtaken or torn, yet the key is
   typed, where the automaton over the same keys obeys it.
   */
  lemma ClickThenKey<P>(w: Setting<P>, start: State<P>, k: Byte)
    requires !start.outer && !start.nested && !start.pending && !w.observe(start.paste, w.prefix).1
    requires w.prefix != ESC && k != ESC && k != w.prefix
    requires !w.observe(w.observe(start.paste, w.prefix).0, k).1 && w.hit([MouseEvent(5, 7, Click)]) == Outside
    ensures var end := Reading(Takes(w), Fresh(start), [Chunk([w.prefix]), Chunk(CLICK), Chunk([k])]);
            var o := Obey(start, w.effects(k));
            && end.delivered.keys == [w.prefix, k] && end.carry == EMPTY
            && end.taker.did.deeds == [Sends(Key(k))]
            && Play(w, Start(start), [w.prefix, k]).deeds == DeedsOf(o.sent, o.action)
  {
    OpensPicker(w, start);
    var open := Keyed(w, Fresh(start), [w.prefix]).0;
    var closed := Clicked(w, open, MouseEvent(5, 7, Click));
    assert [] + [MouseEvent(5, 7, Click)] == [MouseEvent(5, 7, Click)];
    TypesOne(w, closed.did.state, k);
    ThreeReads(w, Fresh(start), w.prefix, k, open, closed, Keyed(w, closed, [k]).0);
    PickerFollows(w, start);
    TypedInstead(w, start, [w.prefix], open, MouseEvent(5, 7, Click), k);
    SameDeeds(w.effects(k), start, open.did.state);
    assert [w.prefix] + [k] == [w.prefix, k];
  }

  lemma ThreeReads<P>(
    w: Setting<P>, c: Client<P>, a: Byte, b: Byte, open: Client<P>, closed: Client<P>, typed: Client<P>
  )
    requires a != ESC && b != ESC && Keyed(w, c, [a]) == (open, 0) && Keyed(w, closed, [b]) == (typed, 0)
    requires closed == Clicked(w, open, MouseEvent(5, 7, Click))
    ensures var end := Reading(Takes(w), c, [Chunk([a]), Chunk(CLICK), Chunk([b])]);
            end.delivered.keys == [a] + [b] && end.carry == EMPTY && end.taker == typed
  {
    var machine, first := Decoding(ParseSgrMouse), Loop(NOTHING, EMPTY, c);
    CleanKeys(w, first, [a]);
    var s1 := TailQueue.Do(machine, Takes(w), first, Chunk([a]));
    CleanClick(w, s1);
    var s2 := TailQueue.Do(machine, Takes(w), s1, Chunk(CLICK));
    CleanKeys(w, s2, [b]);
    RunThree(machine, Takes(w), first, Chunk([a]), Chunk(CLICK), Chunk([b]));
  }

  lemma SameDeeds<P>(effect: Effect, s: State<P>, t: State<P>)
    ensures Obey(s, effect).sent == Obey(t, effect).sent && Obey(s, effect).action == Obey(t, effect).action
  {
  }

  lemma PickerFollows<P>(w: Setting<P>, start: State<P>)
    requires !start.outer && !start.nested && !start.pending && !w.observe(start.paste, w.prefix).1
    ensures Follows(w, start, [w.prefix], Keyed(w, Fresh(start), [w.prefix]).0)
  {
    FreshFollows(w, start);
    OpensPicker(w, start);
    assert [] + KeysKept(w, Fresh(start), [w.prefix]) == [w.prefix];
    KeysFollow(w, start, [], Fresh(start), [w.prefix]);
  }

  lemma RunThree<S>(machine: Machine, take: Taker<S>, s: Loop<S>, a: Step, b: Step, c: Step)
    ensures RunLoop(machine, take, s, [a, b, c]) ==
            TailQueue.Do(machine, take, TailQueue.Do(machine, take, TailQueue.Do(machine, take, s, a), b), c)
  {
    assert [a, b, c][1..] == [b, c];
    RunTwo(machine, take, TailQueue.Do(machine, take, s, a), b, c);
  }

  // ----- The smallest failure, and a coincidence

  /** Ctrl-A, n, then `keys`, then the beginning of a click at column 5; and the rest of the click. */
  function FirstRead(keys: seq<Byte>): seq<Byte> { [1, 0x6e] + keys + [ESC, OPEN, LESS, 0x30, SEMICOLON, 0x35] }

  const REST: seq<Byte> := [SEMICOLON, 0x37, PRESS]
  const HELD: seq<Byte> := [ESC, OPEN, LESS, 0x30, SEMICOLON, 0x35]

  /** The shortcut n leaves the picker, and the keys behind it are given back. */
  lemma ShortcutGivesBack<P>(w: Setting<P>, start: State<P>, keys: seq<Byte>)
    requires !start.outer && !start.nested && !start.pending && w.prefix == 1 &&
            !w.observe(start.paste, 1).1 && !w.keeps([0x6e] + keys)
    ensures Takes(w)(Fresh(start), [], [1, 0x6e] + keys).1 == |keys|
  {
    var chunk: seq<Byte> := [1, 0x6e] + keys;
    var query: seq<Byte> := [0x6e] + keys;
    assert FirstPrefix(w.observe, 1, false, start.paste, chunk) == Some(0);
    assert chunk[1..] == query && query[1..] == keys && query[0] == 0x6e;
    var open := BeginQuickActions(w.observe, 1, start, chunk);
    assert open.Opened? && open.query == query;
    assert Round(w.observe, w.effects, 1, w.keeps, start, false, chunk).1 == keys;
    assert Clicks(w, Fresh(start), []) == Fresh(start);
  }

  lemma FirstDecodes(parse: Reader, keys: seq<Byte>)
    requires ESC !in keys
    ensures Read(parse, EMPTY, FirstRead(keys)) == (Literal([1, 0x6e] + keys), Carry(HELD, []))
  {
    var typed: seq<Byte> := [1, 0x6e] + keys;
    QueueableText(parse, typed);
    ReadBehind(parse, typed, HELD);
    SettleMouseStart(parse, HELD);
    NothingThen(NOTHING);
    ThenNothing(Literal(typed));
    ReadIs(parse, EMPTY, FirstRead(keys));
    assert [] + [] + FirstRead(keys) == typed + HELD;
  }

  lemma HandsTwo<S>(take: Taker<S>, taker: S, keys: seq<Byte>)
    requires take(taker, [], [1, 0x6e] + keys).1 == |keys|
    ensures var t := Hand(take, Loop(NOTHING, EMPTY, taker), Literal([1, 0x6e] + keys), Carry(HELD, []));
            t.delivered == Literal([1, 0x6e]) && t.carry == Carry(HELD, keys)
  {
    var typed: seq<Byte> := [1, 0x6e] + keys;
    assert Handed(take, taker, [], typed) == 2;
    assert typed[..2] == [1, 0x6e] && typed[2..] == keys && keys + [] == keys;
    NothingThen(Literal([1, 0x6e]));
  }

  lemma RunTwo<S>(machine: Machine, take: Taker<S>, s: Loop<S>, a: Step, b: Step)
    ensures RunLoop(machine, take, s, [a]) == TailQueue.Do(machine, take, s, a)
    ensures RunLoop(machine, take, s, [a, b]) == TailQueue.Do(machine, take, TailQueue.Do(machine, take, s, a), b)
  {
    assert [a][1..] == [] && [a, b][1..] == [b] && [b][1..] == [];
    var t := TailQueue.Do(machine, take, s, a);
    assert RunLoop(machine, take, t, [b]) == RunLoop(machine, take, TailQueue.Do(machine, take, t, b), [b][1..]);
  }

  /** After the first read: two keys handed over, the rest queued, the click's beginning held. */
  lemma AfterFirst<S>(take: Taker<S>, taker: S, keys: seq<Byte>)
    requires take(taker, [], [1, 0x6e] + keys).1 == |keys| && ESC !in keys
    ensures var s := Reading(take, taker, [Chunk(FirstRead(keys))]);
            s.delivered == Literal([1, 0x6e]) && s.carry == Carry(HELD, keys)
  {
    FirstDecodes(ParseSgrMouse, keys);
    HandsTwo(take, taker, keys);
    RunTwo(Decoding(ParseSgrMouse), take, Loop(NOTHING, EMPTY, taker), Chunk(FirstRead(keys)), Idle);
  }

  /** A key typed behind the shortcut: the next read swallows it, and with it the click. */
  lemma SecondSwallows(y: Byte)
    requires y != ESC && !IsTerminator(y) && y != SEMICOLON && !IsDigit(y)
    ensures Read(ParseSgrMouse, Carry(HELD, [y]), REST) == (NOTHING, EMPTY)
  {
    var g := HELD + [y] + [SEMICOLON, 0x37];
    assert HELD + [y] + REST == g + [PRESS] + [];
    ScanOpen(ParseSgrMouse, g, PRESS, []);
    NoSuchCell(y);
    assert g[3..] == [0x30, SEMICOLON, 0x35, y, SEMICOLON, 0x37];
    SettleAfterReport([], Scan(ParseSgrMouse, []));
    SettleNothing(ParseSgrMouse);
    NothingThen(NOTHING);
  }

  lemma NotANumber(s: seq<Byte>)
    requires |s| == 2 && s[0] != 0x2b && !IsDigit(s[1])
    ensures ParseUnsigned(s, U16_MAX) == None
  {
    assert ParseDigits(s, U16_MAX) == None;
  }

  lemma SecondField(body: seq<Byte>, term: Byte)
    requires |Fields(body)| > 1 && ParseUnsigned(Fields(body)[1], U16_MAX) == None
    ensures ParseSgrMouse(body, term) == None
  {
  }

  lemma NoSuchCell(y: Byte)
    requires y != SEMICOLON && !IsDigit(y)
    ensures ParseSgrMouse([0x30, SEMICOLON, 0x35, y, SEMICOLON, 0x37], PRESS) == None
  {
    var column: seq<Byte> := [0x35, y];
    ReportFields([0x30], column, [0x37]);
    var body := [0x30] + [SEMICOLON] + (column + [SEMICOLON] + [0x37]);
    var report: seq<Byte> := [0x30, SEMICOLON, 0x35, y, SEMICOLON, 0x37];
    assert body == report;
    assert Fields(report) == [[0x30], column, [0x37]];
    NotANumber(column);
    SecondField(report, PRESS);
  }

  /**
   Ctrl-A, n, y and a click, read in two pieces: the shortcut n acts, but neither the key y nor the
   click ever arrives, and nothing is left that could still bring them.
   */
  lemma KeyAndClickLost<P>(w: Setting<P>, start: State<P>, y: Byte)
    requires !start.outer && !start.nested && !start.pending && w.prefix == 1 &&
            !w.observe(start.paste, 1).1 && !w.keeps([0x6e, y])
    requires y != ESC && !IsTerminator(y) && y != SEMICOLON && !IsDigit(y)
    ensures var end := Reading(Takes(w), Fresh(start), [Chunk(FirstRead([y])), Chunk(REST)]);
            end.delivered == Literal([1, 0x6e]) && end.carry == EMPTY
  {
    var take := Takes(w);
    assert [0x6e] + [y] == [0x6e, y];
    ShortcutGivesBack(w, start, [y]);
    AfterFirst(take, Fresh(start), [y]);
    SecondSwallows(y);
    var first := Loop(NOTHING, EMPTY, Fresh(start));
    RunTwo(Decoding(ParseSgrMouse), take, first, Chunk(FirstRead([y])), Chunk(REST));
    ThenNothing(Literal([1, 0x6e]));
  }

  lemma ClickParses()
    ensures ParseSgrMouse([0x30, SEMICOLON, 0x35, SEMICOLON, 0x37], PRESS) == Some(MouseEvent(5, 7, Click))
  {
    OneDigit(0);
    OneDigit(5);
    OneDigit(7);
    assert ReportBody(0, 5, 7) == [0x30, SEMICOLON, 0x35, SEMICOLON, 0x37];
    EventReadsBack(MouseEvent(5, 7, Click), 0);
  }

  lemma OneDigit(n: nat)
    requires n < 10
    ensures Numeral(n) == [0x30 + n]
  {
  }

  lemma SecondCompletes()
    ensures Read(ParseSgrMouse, Carry(HELD, REST), REST) == (Out([MouseEvent(5, 7, Click)], REST, None), EMPTY)
  {
    var g := HELD + [SEMICOLON, 0x37];
    CopyBytes();
    ClickParses();
    ClickThenText(ParseSgrMouse, g, REST, MouseEvent(5, 7, Click));
    ReadIs(ParseSgrMouse, Carry(HELD, REST), REST);
    NothingThen(Out([MouseEvent(5, 7, Click)], REST, None));
  }

  lemma ClickThenText(parse: Reader, g: seq<Byte>, text: seq<Byte>, click: MouseEvent)
    requires Open(g) && parse(g[3..], PRESS) == Some(click) && ESC !in text
    ensures ReadOnto(parse)(NOTHING, g + [PRESS] + text) == (Out([click], text, None), EMPTY)
  {
    SettleOpen(parse, g, PRESS, text);
    SettleText(parse, text);
    NothingThen(Out([click], text, None));
    assert Out([click], [], None).Then(Literal(text)) == Out([click], text, None);
  }

  lemma CopyBytes()
    ensures var g := HELD + [SEMICOLON, 0x37];
            HELD + REST + REST == g + [PRESS] + REST && Open(g) && g[3..] == [0x30, SEMICOLON, 0x35, SEMICOLON, 0x37]
  {
  }

  lemma SettleText(parse: Reader, text: seq<Byte>)
    requires ESC !in text
    ensures Settle(Scan(parse, text)) == (Literal(text), EMPTY)
  {
    TextsAreUnits(parse, text);
    TextsEncode(text);
    ReadBetween(parse, NOTHING, Texts(text), 0, {});
    TextsDeliver(NOTHING, text, 0, {});
    NothingThen(Literal(text));
    NothingThen(Settle(Scan(parse, text)).0);
  }

  /** The same with the keys ";7M", which happen to be what completes the click: nothing is lost. */
  lemma CopyIsHarmless<P>(w: Setting<P>, start: State<P>)
    requires !start.outer && !start.nested && !start.pending && w.prefix == 1 &&
            !w.observe(start.paste, 1).1 && !w.keeps([0x6e] + REST)
    ensures var take := Takes(w);
            && Overtakes(Reading(take, Fresh(start), [Chunk(FirstRead(REST))]), Chunk(REST))
            && var end := Reading(take, Fresh(start), [Chunk(FirstRead(REST)), Chunk(REST)]);
               end.carry.mouse == [] && InAll(end) == Out([MouseEvent(5, 7, Click)], [1, 0x6e] + REST, None)
  {
    var take := Takes(w);
    ShortcutGivesBack(w, start, REST);
    AfterFirst(take, Fresh(start), REST);
    SecondCompletes();
    var s := Reading(take, Fresh(start), [Chunk(FirstRead(REST))]);
    var first := Loop(NOTHING, EMPTY, Fresh(start));
    RunTwo(Decoding(ParseSgrMouse), take, first, Chunk(FirstRead(REST)), Chunk(REST));
    var out := Out([MouseEvent(5, 7, Click)], REST, None);
    var queue := HandSplits(take, s, out, EMPTY);
    assert queue + [] == queue;
  }

  // ----- The loop as the client runs it

  lemma TailIsEnd<P>(w: Setting<P>, state: State<P>, picking: bool, keys: seq<Byte>)
    requires keys != []
    ensures var tail := Round(w.observe, w.effects, w.prefix, w.keeps, state, picking, keys).1;
            |tail| < |keys| && tail == keys[|keys| - |tail|..]
  {
    if !picking && BeginQuickActions(w.observe, w.prefix, state, keys).Opened? {
      var query := BeginQuickActions(w.observe, w.prefix, state, keys).query;
      assert query == keys[|keys| - |query|..];
    }
  }

  /** Handing over the keys of one round queues its tail. */
  lemma HandsRound<P>(w: Setting<P>, s: Loop<Client<P>>, out: Out, carry: Carry, c: Client<P>)
    requires c == Clicks(w, s.taker, out.events) && out.keys != [] && !c.Over()
    ensures var t := Hand(Takes(w), s, out, carry);
            var (r, tail) := Round(w.observe, w.effects, w.prefix, w.keeps, c.did.state, c.mode.Picking?, out.keys);
            && t.carry == Carry(carry.mouse, tail + carry.key)
            && t.taker == Client(c.did.Add(w.holds, r.out), r.mode, c.seen)
  {
    TailIsEnd(w, c.did.state, c.mode.Picking?, out.keys);
  }

  lemma HandsElsewhere<P>(w: Setting<P>, s: Loop<Client<P>>, out: Out, carry: Carry, c: Client<P>)
    requires c == Clicks(w, s.taker, out.events) && (out.keys == [] || c.Over())
    ensures var t := Hand(Takes(w), s, out, carry);
            t.carry == carry && t.taker == c
  {
    if out.keys != [] {
      assert out.keys[|out.keys|..] + carry.key == carry.key;
    }
  }

  /** What was sent, and what else was done. */
  function AtomsOf(deeds: seq<Deed>): seq<Atom> {
    if deeds == [] then []
    else (if deeds[0].Sends? then [deeds[0].atom] else []) + AtomsOf(deeds[1..])
  }

  function OthersOf(deeds: seq<Deed>): seq<Deed> {
    if deeds == [] then []
    else (if deeds[0].Sends? then [] else [deeds[0]]) + OthersOf(deeds[1..])
  }

  lemma {:induction false} AtomsConcat(a: seq<Deed>, b: seq<Deed>)
    ensures AtomsOf(a + b) == AtomsOf(a) + AtomsOf(b)
  {
    if a == [] {
      assert a + b == b;
    } else {
      assert (a + b)[0] == a[0] && (a + b)[1..] == a[1..] + b;
      AtomsConcat(a[1..], b);
    }
  }

  lemma {:induction false} OthersConcat(a: seq<Deed>, b: seq<Deed>)
    ensures OthersOf(a + b) == OthersOf(a) + OthersOf(b)
  {
    if a == [] {
      assert a + b == b;
    } else {
      assert (a + b)[0] == a[0] && (a + b)[1..] == a[1..] + b;
      OthersConcat(a[1..], b);
    }
  }

  lemma DeedsConcat(a: seq<Deed>, b: seq<Deed>)
    ensures AtomsOf(a + b) == AtomsOf(a) + AtomsOf(b) && OthersOf(a + b) == OthersOf(a) + OthersOf(b)
  {
    AtomsConcat(a, b);
    OthersConcat(a, b);
  }

  lemma {:induction false} SendAllSends(sent: seq<Atom>)
    ensures AtomsOf(SendAll(sent)) == sent && OthersOf(SendAll(sent)) == []
    decreases |sent|
  {
    if sent != [] {
      assert SendAll(sent)[1..] == SendAll(sent[1..]);
      SendAllSends(sent[1..]);
      assert [sent[0]] + sent[1..] == sent;
    }
  }

  lemma OneDone(deed: Deed)
    requires !deed.Sends?
    ensures AtomsOf([deed]) == [] && OthersOf([deed]) == [deed]
  {
    assert [deed][1..] == [];
  }

  lemma DeedsAdd(deeds: seq<Deed>, sent: seq<Atom>, action: Option<Action>)
    ensures AtomsOf(deeds + DeedsOf(sent, action)) == AtomsOf(deeds) + sent
    ensures OthersOf(deeds + DeedsOf(sent, action)) ==
            OthersOf(deeds) + (match action case None => [] case Some(a) => [Acts(a)])
  {
    var acts := match action case None => [] case Some(a) => [Acts(a)];
    DeedsConcat(deeds, DeedsOf(sent, action));
    DeedsConcat(SendAll(sent), acts);
    SendAllSends(sent);
    if action.Some? {
      OneDone(Acts(action.value));
    }
    assert sent + [] == sent && [] + acts == acts;
  }

  lemma PickAdds(deeds: seq<Deed>, e: MouseEvent)
    ensures AtomsOf(deeds + [Picks(e)]) == AtomsOf(deeds)
    ensures OthersOf(deeds + [Picks(e)]) == OthersOf(deeds) + [Picks(e)]
  {
    DeedsConcat(deeds, [Picks(e)]);
    OneDone(Picks(e));
  }

  /** The decoder's buffers, the key state, what was done and the frames to the server, updated in place. */
  class Terminal<P(!new)> {
    const decoder: StdinDecoder
    const keys: PrefixState<P>
    const w: Setting<P>
    var mode: Mode
    var over: bool
    var seen: seq<MouseEvent>
    var done: seq<Deed>
    var frames: seq<Frame>
    ghost var loop: Loop<Client<P>>

    ghost predicate IsClient(c: Client<P>)
      reads this, keys
    {
      && c.did.state == keys.Value() && c.mode == mode && c.did.over == over && c.seen == seen
      && Sent([], frames, [], AtomsOf(c.did.deeds)) && done == OthersOf(c.did.deeds)
    }

    ghost predicate Valid()
      reads this, decoder, keys
    {
      loop.carry == decoder.State() && IsClient(loop.taker)
    }

    constructor (parse: Reader, w: Setting<P>, nested: bool, paste: P)
      ensures Valid() && fresh(decoder) && fresh(keys) && decoder.parse == parse && this.w == w
      ensures loop == Loop(NOTHING, EMPTY, Fresh(State(false, false, nested, paste)))
    {
      decoder := new StdinDecoder(parse);
      keys := new PrefixState<P>(nested, paste);
      this.w := w;
      mode, over, seen, done, frames := Typing, false, [], [], [];
      loop := Loop(NOTHING, EMPTY, Fresh(State(false, false, nested, paste)));
    }

    /** The mouse events of a read: a click on a fresh picker closes it or runs an entry. */
    method TakeEvents(events: seq<MouseEvent>, ghost c: Client<P>)
      requires IsClient(c)
      modifies this`mode, this`over, this`seen, this`done
      ensures IsClient(Clicks(w, c, events))
    {
      var rest := events;
      ghost var d := c;
      while rest != []
        invariant IsClient(d) && Clicks(w, c, events) == Clicks(w, d, rest)
        decreases |rest|
      {
        TakeEvent(rest[0], d);
        d, rest := Clicked(w, d, rest[0]), rest[1..];
      }
    }

    method TakeEvent(e: MouseEvent, ghost c: Client<P>)
      requires IsClient(c)
      modifies this`mode, this`over, this`seen, this`done
      ensures IsClient(Clicked(w, c, e))
    {
      seen := seen + [e];
      if e.kind == Click && mode.Picking? && !over {
        mode := Typing;
        var hit := w.hit(seen);
        if hit.Entry? {
          PickAdds(c.did.deeds, e);
          done := done + [Picks(e)];
          over := hit.holds;
        }
      }
    }

    /** The keys of a read that nothing else takes: one round. */
    method TakeKeys(chunk: seq<Byte>, ghost c: Client<P>) returns (tail: seq<Byte>)
      requires IsClient(c) && !c.Over() && chunk != []
      modifies this`mode, this`over, this`done, this`frames, keys
      ensures var (r, rest) := Round(w.observe, w.effects, w.prefix, w.keeps, c.did.state, c.mode.Picking?, chunk);
              tail == rest && IsClient(Client(c.did.Add(w.holds, r.out), r.mode, c.seen))
    {
      ghost var r := Round(w.observe, w.effects, w.prefix, w.keeps, c.did.state, c.mode.Picking?, chunk).0;
      ghost var earlier := frames;
      var action;
      action, mode, tail, frames :=
        DoRound(keys, w.observe, w.effects, w.prefix, w.keeps, mode.Picking?, chunk, frames);
      SentTwice([], earlier, frames, AtomsOf(c.did.deeds), r.out.sent);
      DeedsAdd(c.did.deeds, r.out.sent, r.out.action);
      if action.Some? {
        done := done + [Acts(action.value)];
        over := w.holds(action.value);
      }
    }

    /** One read or dry read: its events, then one round of its keys, whose tail goes to the key buffer. */
    method Turn(step: Step) returns (out: Out)
      requires Valid()
      modifies this, decoder, keys
      ensures Valid()
      ensures loop == TailQueue.Do(Decoding(decoder.parse), Takes(w), old(loop), step)
      ensures step != Chunk([]) ==> out == Apply(decoder.parse, old(loop).carry, step).0
    {
      if step == Chunk([]) {
        return NOTHING;
      }
      ghost var before := loop;
      if step.Idle? {
        out := decoder.ReadDry();
      } else {
        out := decoder.ReadChunk(step.chunk);
      }
      ghost var carry, c := decoder.State(), Clicks(w, before.taker, out.events);
      TakeEvents(out.events, before.taker);
      loop := Hand(Takes(w), before, out, carry);
      if out.keys == [] || over || mode.Searching? {
        HandsElsewhere(w, before, out, carry, c);
      } else {
        HandsRound(w, before, out, carry, c);
        var tail := TakeKeys(out.keys, c);
        decoder.keyPending := tail + decoder.keyPending;
      }
    }
  }
}
