/**
 The client as the taker of decoded reads: clicks act on an open picker before the keys of the same read
 do, and keys go on through the automaton after every action that does not take the keyboard at once.
 */
module AttachClient {
  import opened Bytes
  import opened KeyBindings
  import opened PrefixKeys
  import opened PrefixLaws
  import opened QuickActions
  import opened AttachLoop
  import opened SgrMouse

  /** What a click does to an open picker: it closes it, or runs an entry that may take the keyboard. */
  datatype Hit = Outside | Entry(holds: bool)

  /**
   What a client is set up with. `holds` says which actions take the keyboard at once; the others only send
   a request. What is hit by a click may depend on all the mouse events there were.
   */
  datatype Setting<!P> = Setting(
    observe: Observer<P>, effects: Effects, prefix: Byte, keeps: Keeps, holds: Action -> bool,
    hit: seq<MouseEvent> -> Hit)

  /** What a client does, in order. */
  datatype Deed = Sends(atom: Atom) | Acts(action: Action) | Picks(at: MouseEvent)

  /** All of it, where it left the automaton, and how many keys it used; `over` if something took the keyboard. */
  datatype Trace<P> = Trace(state: State<P>, deeds: seq<Deed>, over: bool, used: nat) {
    function Add(holds: Action -> bool, o: Outcome<P>): Trace<P> {
      Trace(o.state, deeds + DeedsOf(o.sent, o.action), o.action.Some? && holds(o.action.value), used + o.used)
    }
  }

  function DeedsOf(sent: seq<Atom>, action: Option<Action>): seq<Deed> {
    SendAll(sent) + (match action case None => [] case Some(a) => [Acts(a)])
  }

  function SendAll(sent: seq<Atom>): (deeds: seq<Deed>)
    ensures |deeds| == |sent| && forall i :: 0 <= i < |sent| ==> deeds[i] == Sends(sent[i])
  {
    seq(|sent|, i requires 0 <= i < |sent| => Sends(sent[i]))
  }

  function Start<P>(start: State<P>): Trace<P> { Trace(start, [], false, 0) }

  // ----- One automaton, key by key

  /** The automaton over a stream of keys, until something takes the keyboard. */
  function Play<P>(w: Setting<P>, t: Trace<P>, keys: seq<Byte>): Trace<P>
    decreases |keys|
  {
    if keys == [] || t.over then t
    else Play(w, t.Add(w.holds, Step(w.observe, w.effects, w.prefix, t.state, keys[0])), keys[1..])
  }

  /** It does not matter where the stream is cut. */
  lemma {:induction false} PlaySplit<P>(w: Setting<P>, t: Trace<P>, u: seq<Byte>, v: seq<Byte>)
    ensures Play(w, t, u + v) == Play(w, Play(w, t, u), v)
    decreases |u|
  {
    if u == [] {
      assert u + v == v;
    } else if !t.over {
      assert (u + v)[0] == u[0] && (u + v)[1..] == u[1..] + v;
      PlaySplit(w, t.Add(w.holds, Step(w.observe, w.effects, w.prefix, t.state, u[0])), u[1..], v);
    }
  }

  lemma AddAdd<P>(holds: Action -> bool, t: Trace<P>, first: Outcome<P>, rest: Outcome<P>)
    requires first.action.None?
    ensures t.Add(holds, first).Add(holds, rest) == t.Add(holds, rest.After(first.sent, first.used))
  {
    assert SendAll(first.sent + rest.sent) == SendAll(first.sent) + SendAll(rest.sent);
    assert SendAll(first.sent) + [] == SendAll(first.sent);
    var acts := match rest.action case None => [] case Some(a) => [Acts(a)];
    assert t.deeds + SendAll(first.sent) + (SendAll(rest.sent) + acts)
      == t.deeds + (SendAll(first.sent) + SendAll(rest.sent) + acts);
  }

  lemma AddNothing<P>(holds: Action -> bool, t: Trace<P>)
    requires !t.over
    ensures t.Add(holds, Outcome(t.state, [], None, 0)) == t
  {
    assert DeedsOf([], None) == [];
  }

  /** A batch that drops nothing is played. */
  lemma {:induction false} PlayRun<P>(w: Setting<P>, t: Trace<P>, keys: seq<Byte>)
    requires !t.over && Run(w.observe, w.effects, w.prefix, t.state, keys).used == |keys|
    ensures Play(w, t, keys) == t.Add(w.holds, Run(w.observe, w.effects, w.prefix, t.state, keys))
    decreases |keys|
  {
    if keys == [] {
      AddNothing(w.holds, t);
    } else {
      var first := Step(w.observe, w.effects, w.prefix, t.state, keys[0]);
      if first.action.None? {
        PlayRun(w, t.Add(w.holds, first), keys[1..]);
        AddAdd(w.holds, t, first, Run(w.observe, w.effects, w.prefix, first.state, keys[1..]));
      }
    }
  }

  function OnwardAll<P>(w: Setting<P>, state: State<P>, keys: seq<Byte>): State<P>
    decreases |keys|
  {
    if keys == [] then state else OnwardAll(w, Onward(w.observe, w.prefix, state, keys[0]), keys[1..])
  }

  lemma {:induction false} PlayUses<P>(w: Setting<P>, t: Trace<P>, keys: seq<Byte>)
    ensures Play(w, t, keys).used <= t.used + |keys|
    ensures Play(w, t, keys).used == t.used + |keys| ==> Play(w, t, keys).state == OnwardAll(w, t.state, keys)
    decreases |keys|
  {
    if keys != [] && !t.over {
      OnwardIsStep(w.observe, w.effects, w.prefix, t.state, keys[0]);
      PlayUses(w, t.Add(w.holds, Step(w.observe, w.effects, w.prefix, t.state, keys[0])), keys[1..]);
    }
  }

  /** Prefixes that stay apart in a stream stay apart in its parts. */
  lemma {:induction false} ApartSplits<P>(w: Setting<P>, state: State<P>, u: seq<Byte>, v: seq<Byte>)
    requires HeldApart(w.observe, w.prefix, state, u + v)
    ensures HeldApart(w.observe, w.prefix, state, u) && HeldApart(w.observe, w.prefix, OnwardAll(w, state, u), v)
    decreases |u|
  {
    if u == [] {
      assert u + v == v;
    } else {
      assert (u + v)[0] == u[0] && (u + v)[1..] == u[1..] + v;
      ApartSplits(w, Onward(w.observe, w.prefix, state, u[0]), u[1..], v);
    }
  }

  // ----- The client

  /** What the client did, who gets its next key, and the mouse events it has seen. */
  datatype Client<P> = Client(did: Trace<P>, mode: Mode, seen: seq<MouseEvent>) {
    /** Something that took the keyboard, or a search, gets the keys. */
    predicate Over() { did.over || mode.Searching? }

    /** A fresh picker is open. */
    predicate Picks() { !did.over && mode.Picking? }

    /** An open picker stands for an armed prefix. */
    function Meaning(): Trace<P> { did.(state := Standing(did.state, !mode.Typing?)) }
  }

  function Fresh<P>(start: State<P>): Client<P> { Client(Start(start), Typing, []) }

  /** One mouse event: only a click on a fresh picker changes who gets the next key. */
  function Clicked<P>(w: Setting<P>, c: Client<P>, e: MouseEvent): Client<P> {
    var seen := c.seen + [e];
    if !c.Picks() || e.kind != Click then c.(seen := seen)
    else match w.hit(seen)
      case Outside => Client(c.did, Typing, seen)
      case Entry(holds) => Client(c.did.(deeds := c.did.deeds + [Picks(e)], over := holds), Typing, seen)
  }

  function Clicks<P>(w: Setting<P>, c: Client<P>, events: seq<MouseEvent>): Client<P>
    decreases |events|
  {
    if events == [] then c else Clicks(w, Clicked(w, c, events[0]), events[1..])
  }

  /** One round over the keys of a read, and how many of the last keys come back. */
  function Keyed<P>(w: Setting<P>, c: Client<P>, keys: seq<Byte>): (Client<P>, nat) {
    if c.Over() || keys == [] then (c, 0)
    else
      var (r, tail) := Round(w.observe, w.effects, w.prefix, w.keeps, c.did.state, c.mode.Picking?, keys);
      (Client(c.did.Add(w.holds, r.out), r.mode, c.seen), |tail|)
  }

  /** A click arrives while a fresh picker is open. */
  predicate ClickedAway<P>(c: Client<P>, events: seq<MouseEvent>) {
    c.Picks() && HasClick(events)
  }

  predicate HasClick(events: seq<MouseEvent>) { exists i :: 0 <= i < |events| && events[i].kind == Click }

  lemma ClickAmong(events: seq<MouseEvent>)
    requires events != []
    ensures HasClick(events) <==> events[0].kind == Click || HasClick(events[1..])
  {
    assert forall i :: 0 < i < |events| ==> events[1..][i - 1] == events[i];
  }

  /** Other events only are seen; a click always leaves the picker, unarmed. */
  lemma {:induction false} ClicksLeave<P>(w: Setting<P>, c: Client<P>, events: seq<MouseEvent>)
    ensures var d := Clicks(w, c, events);
            if ClickedAway(c, events) then d.mode.Typing? && d.did.state == c.did.state && d.did.used == c.did.used
            else d.did == c.did && d.mode == c.mode
    decreases |events|
  {
    if events != [] {
      ClickAmong(events);
      ClicksLeave(w, Clicked(w, c, events[0]), events[1..]);
    }
  }

  function FirstClick(events: seq<MouseEvent>): (i: nat)
    requires HasClick(events)
    ensures i < |events| && events[i].kind == Click && forall k :: 0 <= k < i ==> events[k].kind != Click
  {
    ClickAmong(events);
    if events[0].kind == Click then 0
    else
      var i := FirstClick(events[1..]);
      assert forall k :: 0 < k < i + 1 ==> events[k] == events[1..][k - 1];
      i + 1
  }

  /** What the mouse events of a read do to a picker: the first click decides, and only if the picker is fresh. */
  function Hits<P>(w: Setting<P>, c: Client<P>, events: seq<MouseEvent>): Option<(MouseEvent, Hit)> {
    if !ClickedAway(c, events) then None
    else Some((events[FirstClick(events)], w.hit(c.seen + events[..FirstClick(events) + 1])))
  }

  /**
   A read's events are all seen; the first click on a fresh picker runs exactly the entry it hits, once, or
   none if it hits none.
   */
  lemma {:induction false} ClicksExactly<P>(w: Setting<P>, c: Client<P>, events: seq<MouseEvent>)
    ensures Clicks(w, c, events) ==
            match Hits(w, c, events)
            case None => c.(seen := c.seen + events)
            case Some((e, Outside)) => Client(c.did, Typing, c.seen + events)
            case Some((e, Entry(holds))) =>
              Client(c.did.(deeds := c.did.deeds + [Picks(e)], over := holds), Typing, c.seen + events)
    decreases |events|
  {
    if events == [] {
      assert c.seen + [] == c.seen;
    } else {
      ClickAmong(events);
      var d := Clicked(w, c, events[0]);
      ClicksExactly(w, d, events[1..]);
      assert c.seen + [events[0]] + events[1..] == c.seen + events;
      if ClickedAway(c, events) {
        var i := FirstClick(events);
        assert events[0].kind == Click ==> i == 0 && events[..1] == [events[0]];
        if events[0].kind != Click {
          SameFirstClick(events);
          assert c.seen + [events[0]] + events[1..][..i] == c.seen + events[..i + 1];
        }
      }
    }
  }

  lemma SameFirstClick(events: seq<MouseEvent>)
    requires HasClick(events) && events[0].kind != Click
    ensures HasClick(events[1..]) && FirstClick(events) == FirstClick(events[1..]) + 1
  {
    ClickAmong(events);
  }

  // ----- Following the automaton

  /** The client has played the keys it was handed, up to whatever took the keyboard. */
  ghost predicate Follows<P>(w: Setting<P>, start: State<P>, handed: seq<Byte>, c: Client<P>) {
    && c.did.used <= |handed|
    && Play(w, Start(start), handed[..c.did.used]) == c.Meaning()
    && (!c.Over() ==> c.did.used == |handed| && Ready(c.did.state, c.mode.Picking?))
    && c.did.state.nested == start.nested
    && (c.did.over ==> c.mode.Typing?)
  }

  lemma FreshFollows<P>(w: Setting<P>, start: State<P>)
    requires !start.outer
    ensures Follows(w, start, [], Fresh(start))
  {
  }

  /** A click on a fresh picker is where the client stops following the automaton. */
  lemma ClickDeparts<P>(w: Setting<P>, start: State<P>, handed: seq<Byte>, c: Client<P>, events: seq<MouseEvent>)
    requires Follows(w, start, handed, c)
    ensures Follows(w, start, handed, Clicks(w, c, events)) <==> !ClickedAway(c, events)
  {
    ClicksLeave(w, c, events);
    if ClickedAway(c, events) {
      assert Armed(c.did.state) != c.did.state;
    }
  }

  /** Keys for something else leave the client as it is. */
  lemma OverFollows<P>(w: Setting<P>, start: State<P>, handed: seq<Byte>, c: Client<P>, more: seq<Byte>)
    requires Follows(w, start, handed, c) && c.Over()
    ensures Follows(w, start, handed + more, c)
  {
    assert (handed + more)[..c.did.used] == handed[..c.did.used];
  }

  /** One round follows the keys it uses. */
  lemma RoundFollows<P>(
    w: Setting<P>, start: State<P>, handed: seq<Byte>, c: Client<P>, keys: seq<Byte>, r: Rounds<P>, tail: seq<Byte>
  )
    requires Follows(w, start, handed, c) && !c.Over()
    requires IsRun(w.observe, w.effects, w.prefix, Standing(c.did.state, c.mode.Picking?), keys, r, tail)
    ensures Follows(w, start, handed + keys[..|keys| - |tail|], Client(c.did.Add(w.holds, r.out), r.mode, c.seen))
  {
    var n := r.out.used;
    assert handed[..|handed|] == handed;
    UsedPart(handed, keys, |keys| - |tail|, n);
    PlaySplit(w, Start(start), handed, keys[..n]);
    PlayRun(w, c.Meaning(), keys[..n]);
  }

  lemma UsedPart(handed: seq<Byte>, keys: seq<Byte>, k: nat, n: nat)
    requires n <= k <= |keys|
    ensures (handed + keys[..k])[..|handed| + n] == handed + keys[..n]
  {
  }

  /** Where the client stands, the prefixes of what it is handed next stay apart. */
  lemma ApartNext<P>(w: Setting<P>, start: State<P>, handed: seq<Byte>, c: Client<P>, more: seq<Byte>)
    requires Follows(w, start, handed, c) && !c.Over() && HeldApart(w.observe, w.prefix, start, handed + more)
    ensures HeldApart(w.observe, w.prefix, Standing(c.did.state, c.mode.Picking?), more)
  {
    assert handed[..|handed|] == handed;
    ApartSplits(w, start, handed, more);
    PlayUses(w, Start(start), handed);
  }

  /** The part of the keys that is handed over for good. */
  function KeysKept<P>(w: Setting<P>, c: Client<P>, keys: seq<Byte>): seq<Byte> {
    var back := Keyed(w, c, keys).1;
    if back <= |keys| then keys[..|keys| - back] else keys
  }

  lemma UsedIsKept<P>(w: Setting<P>, c: Client<P>, keys: seq<Byte>)
    requires !c.Over() && keys != []
    ensures Used(w.observe, w.effects, w.prefix, w.keeps, c.did.state, c.mode.Picking?, keys) <= KeysKept(w, c, keys)
  {
  }

  lemma RoundApart<P>(w: Setting<P>, start: State<P>, handed: seq<Byte>, c: Client<P>, keys: seq<Byte>)
    requires Follows(w, start, handed, c) && !c.Over() && keys != []
    requires start.nested ==> HeldApart(w.observe, w.prefix, start, handed + KeysKept(w, c, keys))
    ensures Apart(w.observe, w.effects, w.prefix, w.keeps, c.did.state, c.mode.Picking?, keys)
  {
    if start.nested {
      var kept := KeysKept(w, c, keys);
      var used := Used(w.observe, w.effects, w.prefix, w.keeps, c.did.state, c.mode.Picking?, keys);
      ApartNext(w, start, handed, c, kept);
      UsedIsKept(w, c, keys);
      assert used + kept[|used|..] == kept;
      ApartSplits(w, Standing(c.did.state, c.mode.Picking?), used, kept[|used|..]);
    }
  }

  lemma OneRoundFollows<P>(w: Setting<P>, start: State<P>, handed: seq<Byte>, c: Client<P>, keys: seq<Byte>)
    requires Follows(w, start, handed, c) && !c.Over() && keys != []
    requires Apart(w.observe, w.effects, w.prefix, w.keeps, c.did.state, c.mode.Picking?, keys)
    ensures Follows(w, start, handed + KeysKept(w, c, keys), Keyed(w, c, keys).0)
  {
    var r, tail := RoundOf(w, c, keys);
    RoundFollows(w, start, handed, c, keys, r, tail);
  }

  lemma RoundOf<P>(w: Setting<P>, c: Client<P>, keys: seq<Byte>) returns (r: Rounds<P>, tail: seq<Byte>)
    requires !c.Over() && keys != [] && Ready(c.did.state, c.mode.Picking?)
    requires Apart(w.observe, w.effects, w.prefix, w.keeps, c.did.state, c.mode.Picking?, keys)
    ensures IsRun(w.observe, w.effects, w.prefix, Standing(c.did.state, c.mode.Picking?), keys, r, tail)
    ensures KeysKept(w, c, keys) == keys[..|keys| - |tail|]
    ensures Keyed(w, c, keys).0 == Client(c.did.Add(w.holds, r.out), r.mode, c.seen)
  {
    RoundIsRun(w.observe, w.effects, w.prefix, w.keeps, c.did.state, c.mode.Picking?, keys);
    KeyedIsRound(w, c, keys);
    var (first, rest) := Round(w.observe, w.effects, w.prefix, w.keeps, c.did.state, c.mode.Picking?, keys);
    r, tail := first, rest;
  }

  lemma KeyedIsRound<P>(w: Setting<P>, c: Client<P>, keys: seq<Byte>)
    requires !c.Over() && keys != []
    ensures var (r, tail) := Round(w.observe, w.effects, w.prefix, w.keeps, c.did.state, c.mode.Picking?, keys);
            && Keyed(w, c, keys) == (Client(c.did.Add(w.holds, r.out), r.mode, c.seen), |tail|)
            && |tail| < |keys| && KeysKept(w, c, keys) == keys[..|keys| - |tail|]
  {
  }

  lemma ElsewhereFollows<P>(w: Setting<P>, start: State<P>, handed: seq<Byte>, c: Client<P>, keys: seq<Byte>)
    requires Follows(w, start, handed, c) && (c.Over() || keys == [])
    ensures Follows(w, start, handed + KeysKept(w, c, keys), Keyed(w, c, keys).0)
  {
    assert KeysKept(w, c, keys) == keys;
    if c.Over() {
      OverFollows(w, start, handed, c, keys);
    } else {
      assert handed + [] == handed;
    }
  }

  /** Keys of a read: the client goes on following, in a nested client if their prefixes stay apart. */
  lemma KeysFollow<P>(w: Setting<P>, start: State<P>, handed: seq<Byte>, c: Client<P>, keys: seq<Byte>)
    requires Follows(w, start, handed, c)
    requires start.nested ==> HeldApart(w.observe, w.prefix, start, handed + KeysKept(w, c, keys))
    ensures Follows(w, start, handed + KeysKept(w, c, keys), Keyed(w, c, keys).0)
  {
    if c.Over() || keys == [] {
      ElsewhereFollows(w, start, handed, c, keys);
    } else {
      RoundApart(w, start, handed, c, keys);
      OneRoundFollows(w, start, handed, c, keys);
    }
  }

  // ----- What a click outside changes

  /**
   The client typed a key where the automaton would have obeyed it; the two agree on that key exactly if the
   key's effect is to type itself.
   */
  lemma TypedInstead<P>(w: Setting<P>, start: State<P>, handed: seq<Byte>, c: Client<P>, e: MouseEvent, k: Byte)
    requires Follows(w, start, handed, c) && c.Picks() && e.kind == Click && w.hit(c.seen + [e]) == Outside
    requires !start.nested && k != w.prefix && !w.observe(c.did.state.paste, k).1
    ensures var d := Keyed(w, Clicked(w, c, e), [k]).0;
            var p := Play(w, Start(start), handed + [k]);
            var o := Obey(c.did.state, w.effects(k));
            && d.mode.Typing? && d.did.deeds == c.did.deeds + [Sends(Key(k))]
            && p.deeds == c.did.deeds + DeedsOf(o.sent, o.action)
            && (p.deeds == d.did.deeds <==> w.effects(k) == Type([k]))
  {
    var d := Clicked(w, c, e);
    assert handed[..|handed|] == handed;
    PlaySplit(w, Start(start), handed, [k]);
    assert [k][1..] == [];
    var step := Step(w.observe, w.effects, w.prefix, c.Meaning().state, k);
    assert Play(w, c.Meaning(), [k]) == c.Meaning().Add(w.holds, step);
    TypesOne(w, d.did.state, k);
    OneDeed(w.effects(k), c.did.state, k);
    SameFront(c.did.deeds, DeedsOf(step.sent, step.action), [Sends(Key(k))]);
  }

  lemma SameFront(front: seq<Deed>, a: seq<Deed>, b: seq<Deed>)
    ensures front + a == front + b <==> a == b
  {
    assert (front + a)[|front|..] == a && (front + b)[|front|..] == b;
  }

  lemma TypesOne<P>(w: Setting<P>, state: State<P>, k: Byte)
    requires !state.nested && !state.pending && !state.outer && k != w.prefix && !w.observe(state.paste, k).1
    ensures var (r, tail) := Round(w.observe, w.effects, w.prefix, w.keeps, state, false, [k]);
            r.mode.Typing? && tail == [] && DeedsOf(r.out.sent, r.out.action) == [Sends(Key(k))]
  {
    assert FirstPrefix(w.observe, w.prefix, false, state.paste, [k]) == None;
    assert BeginQuickActions(w.observe, w.prefix, state, [k]).Closed?;
    RunOne(w.observe, w.effects, w.prefix, state, k);
    assert DeedsOf([Key(k)], None) == [Sends(Key(k))];
  }

  lemma OneDeed<P>(effect: Effect, state: State<P>, k: Byte)
    ensures var o := Obey(state, effect); DeedsOf(o.sent, o.action) == [Sends(Key(k))] <==> effect == Type([k])
  {
    var o := Obey(state, effect);
    var deeds := DeedsOf(o.sent, o.action);
    if effect.Type? {
      assert deeds == SendAll(Keys(effect.bytes));
      assert |deeds| == 1 ==> deeds[0] == Sends(Key(effect.bytes[0])) && effect.bytes == [effect.bytes[0]];
    } else {
      assert deeds != [] ==> deeds[0] != Sends(Key(k));
    }
  }
}
