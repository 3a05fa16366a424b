/** What the prefix automaton guarantees over whole key streams. */
module PrefixLaws {
  import opened Bytes
  import opened KeyBindings
  import opened PrefixKeys

  // ----- Reads may be cut anywhere

  /** One run followed by another: the second happens only if the first ended without an action. */
  function Resume<P>(
    observe: Observer<P>, effects: Effects, prefix: Byte, first: Outcome<P>, v: seq<Byte>
  ): Outcome<P> {
    if first.action.Some? then first
    else Run(observe, effects, prefix, first.state, v).After(first.sent, first.used)
  }

  lemma AfterAfter<P>(o: Outcome<P>, s1: seq<Atom>, u1: nat, s2: seq<Atom>, u2: nat)
    ensures o.After(s2, u2).After(s1, u1) == o.After(s1 + s2, u1 + u2)
  {
    assert s1 + (s2 + o.sent) == (s1 + s2) + o.sent;
  }

  /** Processing `u + v` is processing `u` and, unless it ended in an action, going on with `v`. */
  lemma {:induction false} SplitIndependence<P>(
    observe: Observer<P>, effects: Effects, prefix: Byte, state: State<P>, u: seq<Byte>, v: seq<Byte>
  )
    ensures Run(observe, effects, prefix, state, u + v) ==
            Resume(observe, effects, prefix, Run(observe, effects, prefix, state, u), v)
    decreases |u|
  {
    if u == [] {
      assert u + v == v;
      assert Run(observe, effects, prefix, state, v).After([], 0) == Run(observe, effects, prefix, state, v);
    } else {
      var first := Step(observe, effects, prefix, state, u[0]);
      assert (u + v)[0] == u[0] && (u + v)[1..] == u[1..] + v;
      if first.action.None? {
        SplitIndependence(observe, effects, prefix, first.state, u[1..], v);
        var rest := Run(observe, effects, prefix, first.state, u[1..]);
        AfterAfter(Run(observe, effects, prefix, rest.state, v), first.sent, 1, rest.sent, rest.used);
      }
    }
  }

  // ----- Frames carry the same stream exactly when they agree after merging adjacent Input frames

  function Merge(frames: seq<Frame>): seq<Frame> {
    if frames == [] then []
    else
      var tail := Merge(frames[1..]);
      if frames[0].Input? && tail != [] && tail[0].Input? then [Input(frames[0].bytes + tail[0].bytes)] + tail[1..]
      else [frames[0]] + tail
  }

  /** The coarsest framing of a stream. */
  function Group(atoms: seq<Atom>): seq<Frame> {
    if atoms == [] then []
    else match atoms[0]
      case Do(command) => [Order(command)] + Group(atoms[1..])
      case Key(b) => Prepend([b], Group(atoms[1..]))
  }

  function Prepend(bytes: seq<Byte>, frames: seq<Frame>): seq<Frame> {
    if frames != [] && frames[0].Input? then [Input(bytes + frames[0].bytes)] + frames[1..]
    else [Input(bytes)] + frames
  }

  lemma PrependPrepend(b: Byte, bytes: seq<Byte>, frames: seq<Frame>)
    ensures Prepend([b], Prepend(bytes, frames)) == Prepend([b] + bytes, frames)
  {
    if frames != [] && frames[0].Input? {
      assert [b] + (bytes + frames[0].bytes) == ([b] + bytes) + frames[0].bytes;
    }
  }

  lemma {:induction false} GroupKeys(bytes: seq<Byte>, rest: seq<Atom>)
    requires bytes != []
    ensures Group(Keys(bytes) + rest) == Prepend(bytes, Group(rest))
  {
    var w := Keys(bytes) + rest;
    assert w[0] == Key(bytes[0]);
    assert w[1..] == Keys(bytes[1..]) + rest;
    assert [bytes[0]] + bytes[1..] == bytes;
    if |bytes| == 1 {
      assert w[1..] == rest && bytes == [bytes[0]];
    } else {
      GroupKeys(bytes[1..], rest);
      PrependPrepend(bytes[0], bytes[1..], Group(rest));
    }
  }

  lemma {:induction false} MergeIsGroup(frames: seq<Frame>)
    requires NoEmptyInput(frames)
    ensures Merge(frames) == Group(Flatten(frames))
  {
    if frames != [] {
      MergeIsGroup(frames[1..]);
      match frames[0]
      case Input(bytes) => GroupKeys(bytes, Flatten(frames[1..]));
      case Order(command) =>
        assert ([Do(command)] + Flatten(frames[1..]))[1..] == Flatten(frames[1..]);
    }
  }

  lemma FlattenPrepend(bytes: seq<Byte>, frames: seq<Frame>)
    ensures Flatten(Prepend(bytes, frames)) == Keys(bytes) + Flatten(frames)
  {
    if frames != [] && frames[0].Input? {
      KeysConcat(bytes, frames[0].bytes);
      FlattenCons(Input(bytes + frames[0].bytes), frames[1..]);
      assert (Keys(bytes) + Keys(frames[0].bytes)) + Flatten(frames[1..]) ==
        Keys(bytes) + (Keys(frames[0].bytes) + Flatten(frames[1..]));
    } else {
      FlattenCons(Input(bytes), frames);
    }
  }

  lemma FlattenCons(frame: Frame, frames: seq<Frame>)
    requires frame.Input?
    ensures Flatten([frame] + frames) == Keys(frame.bytes) + Flatten(frames)
  {
    assert ([frame] + frames)[1..] == frames;
  }

  lemma {:induction false} FlattenMerge(frames: seq<Frame>)
    ensures Flatten(Merge(frames)) == Flatten(frames)
  {
    if frames != [] {
      FlattenMerge(frames[1..]);
      match frames[0]
      case Input(bytes) => FlattenPrepend(bytes, Merge(frames[1..]));
      case Order(command) => assert Merge(frames)[1..] == Merge(frames[1..]);
    }
  }

  lemma SameStreamIffSameMerged(a: seq<Frame>, b: seq<Frame>)
    requires NoEmptyInput(a) && NoEmptyInput(b)
    ensures Flatten(a) == Flatten(b) <==> Merge(a) == Merge(b)
  {
    MergeIsGroup(a);
    MergeIsGroup(b);
    FlattenMerge(a);
    FlattenMerge(b);
  }

  lemma {:induction false} SentTwice(out: seq<Frame>, mid: seq<Frame>, frames: seq<Frame>, a: seq<Atom>, b: seq<Atom>)
    requires Sent(out, mid, [], a) && Sent(mid, frames, [], b)
    ensures Sent(out, frames, [], a + b)
  {
    assert Keys([]) == [] && Flatten(mid) + [] == Flatten(mid) && Flatten(frames) + [] == Flatten(frames);
    assert (Flatten(out) + a) + b == Flatten(out) + (a + b);
  }

  /**
   At the level of frames: the frames of processing `u + v` and those of processing `u` and, unless it
   ended in an action, `v` are equal up to merging adjacent Input frames.
   */
  lemma SplitFramesMerge<P>(
    observe: Observer<P>, effects: Effects, prefix: Byte, state: State<P>, u: seq<Byte>, v: seq<Byte>,
    out: seq<Frame>, whole: seq<Frame>, first: seq<Frame>, both: seq<Frame>
  )
    requires Sent(out, whole, [], Run(observe, effects, prefix, state, u + v).sent)
    requires Sent(out, first, [], Run(observe, effects, prefix, state, u).sent)
    requires var run := Run(observe, effects, prefix, state, u);
             if run.action.Some? then both == first
             else Sent(first, both, [], Run(observe, effects, prefix, run.state, v).sent)
    ensures Merge(whole) == Merge(both)
  {
    var run := Run(observe, effects, prefix, state, u);
    SplitIndependence(observe, effects, prefix, state, u, v);
    if run.action.None? {
      SentTwice(out, first, both, run.sent, Run(observe, effects, prefix, run.state, v).sent);
    }
    assert Keys([]) == [] && Flatten(whole) + [] == Flatten(whole) && Flatten(both) + [] == Flatten(both);
    SameStreamIffSameMerged(whole, both);
  }

  // ----- Doubling the prefix

  function Double(prefix: Byte, bytes: seq<Byte>): seq<Byte> {
    if bytes == [] then []
    else (if bytes[0] == prefix then [prefix, prefix] else [bytes[0]]) + Double(prefix, bytes[1..])
  }

  /** No prefix byte of a stream is claimed by the observer; other bytes may be. */
  ghost predicate PrefixesTyped<P>(observe: Observer<P>, prefix: Byte, paste: P, bytes: seq<Byte>)
    decreases |bytes|
  {
    bytes != [] ==>
      && (bytes[0] == prefix ==> !observe(paste, prefix).1)
      && PrefixesTyped(observe, prefix, observe(paste, bytes[0]).0, bytes[1..])
  }

  lemma TypedFirst<P>(observe: Observer<P>, prefix: Byte, paste: P, b: Byte, rest: seq<Byte>)
    requires PrefixesTyped(observe, prefix, paste, [b] + rest)
    ensures b == prefix ==> !observe(paste, prefix).1
    ensures PrefixesTyped(observe, prefix, observe(paste, b).0, rest)
  {
    assert ([b] + rest)[1..] == rest;
  }

  /** What an armed prefix byte sends when it does not end the batch. */
  function SentBy(effect: Effect): seq<Atom> {
    match effect
    case Send(command) => [Do(command)]
    case Type(bytes) => Keys(bytes)
    case _ => []
  }

  /** The stream with every prefix byte replaced by what it sends when armed. */
  function Replace(prefix: Byte, subst: seq<Atom>, bytes: seq<Byte>): seq<Atom> {
    if bytes == [] then []
    else (if bytes[0] == prefix then subst else [Key(bytes[0])]) + Replace(prefix, subst, bytes[1..])
  }

  lemma RunPlain<P>(
    observe: Observer<P>, effects: Effects, prefix: Byte, state: State<P>, b: Byte, rest: seq<Byte>
  )
    requires !state.nested && !state.pending && b != prefix
    ensures Run(observe, effects, prefix, state, [b] + rest) ==
            Run(observe, effects, prefix, state.(paste := observe(state.paste, b).0), rest).After([Key(b)], 1)
  {
    assert ([b] + rest)[1..] == rest;
  }

  lemma RunPrefix<P>(observe: Observer<P>, effects: Effects, prefix: Byte, state: State<P>, rest: seq<Byte>)
    requires !state.nested && !state.pending && !observe(state.paste, prefix).1
    ensures Run(observe, effects, prefix, state, [prefix] + rest) ==
            Run(observe, effects, prefix, state.(pending := true, paste := observe(state.paste, prefix).0),
              rest).After([], 1)
  {
    assert ([prefix] + rest)[1..] == rest;
  }

  lemma RunArmed<P>(
    observe: Observer<P>, effects: Effects, prefix: Byte, state: State<P>, b: Byte, rest: seq<Byte>
  )
    requires !state.nested && state.pending && !observe(state.paste, b).1
    ensures var s := state.(pending := false, paste := observe(state.paste, b).0);
            Run(observe, effects, prefix, state, [b] + rest) ==
            (if effects(b).Act? then Outcome(s, [], Some(effects(b).action), 1)
             else Run(observe, effects, prefix, s, rest).After(SentBy(effects(b)), 1))
  {
    assert ([b] + rest)[1..] == rest;
  }

  lemma RunDoubledPrefix<P>(
    observe: Observer<P>, effects: Effects, prefix: Byte, state: State<P>, rest: seq<Byte>
  )
    requires !state.nested && !state.pending && !effects(prefix).Act?
    requires !observe(state.paste, prefix).1 && !observe(observe(state.paste, prefix).0, prefix).1
    ensures var p := observe(observe(state.paste, prefix).0, prefix).0;
            Run(observe, effects, prefix, state, [prefix, prefix] + rest) ==
            Run(observe, effects, prefix, state.(paste := p), rest).After(SentBy(effects(prefix)), 2)
  {
    var armed := state.(pending := true, paste := observe(state.paste, prefix).0);
    assert [prefix, prefix] + rest == [prefix] + ([prefix] + rest);
    RunPrefix(observe, effects, prefix, state, [prefix] + rest);
    RunArmed(observe, effects, prefix, armed, prefix, rest);
    var s := armed.(pending := false, paste := observe(armed.paste, prefix).0);
    AfterAfter(Run(observe, effects, prefix, s, rest), [], 1, SentBy(effects(prefix)), 1);
    assert [] + SentBy(effects(prefix)) == SentBy(effects(prefix));
  }

  lemma PairTyped<P>(observe: Observer<P>, prefix: Byte, paste: P, rest: seq<Byte>)
    requires PrefixesTyped(observe, prefix, paste, [prefix, prefix] + rest)
    ensures !observe(paste, prefix).1 && !observe(observe(paste, prefix).0, prefix).1
    ensures PrefixesTyped(observe, prefix, observe(observe(paste, prefix).0, prefix).0, rest)
  {
    assert [prefix, prefix] + rest == [prefix] + ([prefix] + rest);
    TypedFirst(observe, prefix, paste, prefix, [prefix] + rest);
    TypedFirst(observe, prefix, observe(paste, prefix).0, prefix, rest);
  }

  lemma {:induction false} RunDoubled<P>(
    observe: Observer<P>, effects: Effects, prefix: Byte, state: State<P>, bytes: seq<Byte>
  )
    requires !state.nested && !state.pending && PrefixesTyped(observe, prefix, state.paste, Double(prefix, bytes))
    requires prefix in bytes ==> !effects(prefix).Act?
    ensures var run := Run(observe, effects, prefix, state, Double(prefix, bytes));
            run.action.None? && run.sent == Replace(prefix, SentBy(effects(prefix)), bytes) && !run.state.pending
    decreases |bytes|
  {
    if bytes != [] {
      var rest := Double(prefix, bytes[1..]);
      if bytes[0] == prefix {
        var p := observe(observe(state.paste, prefix).0, prefix).0;
        PairTyped(observe, prefix, state.paste, rest);
        RunDoubledPrefix(observe, effects, prefix, state, rest);
        RunDoubled(observe, effects, prefix, state.(paste := p), bytes[1..]);
      } else {
        TypedFirst(observe, prefix, state.paste, bytes[0], rest);
        RunPlain(observe, effects, prefix, state, bytes[0], rest);
        RunDoubled(observe, effects, prefix, state.(paste := observe(state.paste, bytes[0]).0), bytes[1..]);
      }
    }
  }

  lemma {:induction false} ReplaceLength(prefix: Byte, subst: seq<Atom>, bytes: seq<Byte>)
    ensures subst == [] ==> |Replace(prefix, subst, bytes)| <= |bytes| - if prefix in bytes then 1 else 0
    ensures |subst| == 1 ==> |Replace(prefix, subst, bytes)| == |bytes|
    ensures |subst| > 1 ==> |Replace(prefix, subst, bytes)| >= |bytes| + if prefix in bytes then 1 else 0
  {
    if bytes != [] {
      ReplaceLength(prefix, subst, bytes[1..]);
      assert prefix in bytes <==> bytes[0] == prefix || prefix in bytes[1..];
    }
  }

  lemma {:induction false} ReplaceAt(prefix: Byte, subst: seq<Atom>, bytes: seq<Byte>, i: nat)
    requires |subst| == 1 && i < |bytes| && |Replace(prefix, subst, bytes)| == |bytes|
    ensures Replace(prefix, subst, bytes)[i] == if bytes[i] == prefix then subst[0] else Key(bytes[i])
  {
    ReplaceLength(prefix, subst, bytes[1..]);
    if i > 0 {
      ReplaceAt(prefix, subst, bytes[1..], i - 1);
    }
  }

  lemma ReplaceIsIdentity(prefix: Byte, subst: seq<Atom>, bytes: seq<Byte>)
    ensures Replace(prefix, subst, bytes) == Keys(bytes) <==> prefix !in bytes || subst == [Key(prefix)]
  {
    ReplaceLength(prefix, subst, bytes);
    if |subst| == 1 {
      forall i | 0 <= i < |bytes|
        ensures Replace(prefix, subst, bytes)[i] == if bytes[i] == prefix then subst[0] else Key(bytes[i])
      {
        ReplaceAt(prefix, subst, bytes, i);
      }
      if prefix in bytes {
        var i :| 0 <= i < |bytes| && bytes[i] == prefix;
        assert Keys(bytes)[i] == Key(prefix);
      }
    } else if prefix !in bytes {
      ReplaceNothing(prefix, subst, bytes);
    }
  }

  lemma {:induction false} ReplaceNothing(prefix: Byte, subst: seq<Atom>, bytes: seq<Byte>)
    requires prefix !in bytes
    ensures Replace(prefix, subst, bytes) == Keys(bytes)
  {
    if bytes != [] {
      assert bytes[0] in bytes;
      ReplaceNothing(prefix, subst, bytes[1..]);
      assert [Key(bytes[0])] + Keys(bytes[1..]) == Keys(bytes);
    }
  }

  lemma {:induction false} DoubledAction<P>(
    observe: Observer<P>, effects: Effects, prefix: Byte, state: State<P>, bytes: seq<Byte>
  )
    requires !state.nested && !state.pending && PrefixesTyped(observe, prefix, state.paste, Double(prefix, bytes))
    requires prefix in bytes && effects(prefix).Act?
    ensures Run(observe, effects, prefix, state, Double(prefix, bytes)).action.Some?
    decreases |bytes|
  {
    var rest := Double(prefix, bytes[1..]);
    if bytes[0] == prefix {
      PairTyped(observe, prefix, state.paste, rest);
      assert [prefix, prefix] + rest == [prefix] + ([prefix] + rest);
      RunPrefix(observe, effects, prefix, state, [prefix] + rest);
      var armed := state.(pending := true, paste := observe(state.paste, prefix).0);
      RunArmed(observe, effects, prefix, armed, prefix, rest);
    } else {
      TypedFirst(observe, prefix, state.paste, bytes[0], rest);
      RunPlain(observe, effects, prefix, state, bytes[0], rest);
      DoubledAction(observe, effects, prefix, state.(paste := observe(state.paste, bytes[0]).0), bytes[1..]);
    }
  }

  /**
   With any observer that claims no prefix byte of the doubled stream, doubling every prefix byte delivers
   the original bytes exactly when the prefix key itself types the prefix.
   */
  lemma DoublingDelivers<P>(
    observe: Observer<P>, effects: Effects, prefix: Byte, state: State<P>, bytes: seq<Byte>
  )
    requires !state.nested && !state.pending && PrefixesTyped(observe, prefix, state.paste, Double(prefix, bytes))
    ensures var run := Run(observe, effects, prefix, state, Double(prefix, bytes));
            run.action.None? && run.sent == Keys(bytes) <==> prefix !in bytes || effects(prefix) == Type([prefix])
  {
    if prefix in bytes && effects(prefix).Act? {
      DoubledAction(observe, effects, prefix, state, bytes);
    } else {
      RunDoubled(observe, effects, prefix, state, bytes);
      ReplaceIsIdentity(prefix, SentBy(effects(prefix)), bytes);
      SentByLiteral(effects(prefix), prefix);
    }
  }

  lemma SentByLiteral(effect: Effect, prefix: Byte)
    ensures SentBy(effect) == [Key(prefix)] <==> effect == Type([prefix])
  {
    if effect.Type? && SentBy(effect) == [Key(prefix)] {
      assert |effect.bytes| == 1 && Keys(effect.bytes)[0] == Key(effect.bytes[0]);
    }
  }

  /** With the shipped key table: exactly when neither the configuration nor a built-in binds the prefix key. */
  lemma DoublingWithKeyTable<P>(observe: Observer<P>, cfg: Config, state: State<P>, bytes: seq<Byte>)
    requires !state.nested && !state.pending
    requires PrefixesTyped(observe, cfg.prefix, state.paste, Double(cfg.prefix, bytes))
    ensures var run := Run(observe, Table(cfg), cfg.prefix, state, Double(cfg.prefix, bytes));
            run.action.None? && run.sent == Keys(bytes) <==>
            cfg.prefix !in bytes || (ConfiguredEffect(cfg.prefix, cfg).None? && !BuiltinKey(cfg.prefix))
  {
    DoublingDelivers(observe, Table(cfg), cfg.prefix, state, bytes);
    UnboundKeysAreTyped(cfg, cfg.prefix);
  }

  // ----- What is destructive is asked for first

  /** The commands that close something, and the switch that guards each. */
  predicate Guarded(cfg: Config, command: Command) {
    (command == KillPane && cfg.confirmClose) || (command == KillWindow && cfg.confirmTabClose)
  }

  /** The switches only turn the guarded commands into questions: every other key does what it does without them. */
  lemma SwitchesOnlyAsk(cfg: Config, key: Byte)
    ensures var unasked := Resolve(cfg.(confirmClose := false, confirmTabClose := false), key);
            Resolve(cfg, key) ==
            if unasked.Send? && Guarded(cfg, unasked.command) then Act(Confirm(unasked.command)) else unasked
  {
  }

  ghost predicate AsksFirst(cfg: Config, sent: seq<Atom>, action: Option<Action>) {
    && (forall command :: Guarded(cfg, command) ==> Do(command) !in sent)
    && (action.Some? && action.value.Confirm? ==> Guarded(cfg, action.value.command))
  }

  lemma StepAsksFirst<P>(observe: Observer<P>, cfg: Config, state: State<P>, b: Byte)
    ensures var o := Step(observe, Table(cfg), cfg.prefix, state, b); AsksFirst(cfg, o.sent, o.action)
  {
    SwitchesOnlyAsk(cfg, b);
  }

  /**
   For every observer, configuration, state and byte stream: a guarded command is never sent by a key, and
   only a guarded command is asked about.
   */
  lemma {:induction false} NeverClosesUnasked<P>(observe: Observer<P>, cfg: Config, state: State<P>, bytes: seq<Byte>)
    ensures var run := Run(observe, Table(cfg), cfg.prefix, state, bytes); AsksFirst(cfg, run.sent, run.action)
    decreases |bytes|
  {
    if bytes != [] {
      StepAsksFirst(observe, cfg, state, bytes[0]);
      NeverClosesUnasked(observe, cfg, Step(observe, Table(cfg), cfg.prefix, state, bytes[0]).state, bytes[1..]);
    }
  }
}
