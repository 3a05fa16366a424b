/**
 How the attach loop hands keys to the action picker and to the prefix automaton: the
 picker opens at the first prefix that arms this client, and no key is lost on the way.
 */
module QuickActions {
  import opened Bytes
  import opened KeyBindings
  import opened PrefixKeys
  import opened PrefixLaws

  /** Whether the picker opens: the keys forwarded before it and the query bytes after it. */
  datatype Begin<P> = Closed | Opened(state: State<P>, forwarded: seq<Byte>, query: seq<Byte>)

  /** The first typed prefix byte in the batch, for a nested client the first doubled one. */
  function FirstPrefix<P>(
    observe: Observer<P>, prefix: Byte, doubled: bool, paste: P, bytes: seq<Byte>
  ): (at: Option<nat>)
    ensures at.Some? ==> at.value < |bytes| && bytes[at.value] == prefix
    ensures at.Some? && doubled ==> at.value + 1 < |bytes| && bytes[at.value + 1] == prefix
    decreases |bytes|
  {
    if bytes == [] then None
    else
      var (next, pasted) := observe(paste, bytes[0]);
      if !pasted && bytes[0] == prefix && (doubled ==> |bytes| > 1 && bytes[1] == prefix) then Some(0)
      else
        match FirstPrefix(observe, prefix, doubled, next, bytes[1..])
        case None => None
        case Some(i) => Some(i + 1)
  }

  /** Where typing stops: at that prefix, or at the end. */
  function TypedUntil<P>(observe: Observer<P>, prefix: Byte, doubled: bool, paste: P, bytes: seq<Byte>): (n: nat)
    ensures n <= |bytes|
  {
    var at := FirstPrefix(observe, prefix, doubled, paste, bytes);
    if at.Some? then at.value else |bytes|
  }

  function ObserveAll<P>(observe: Observer<P>, paste: P, bytes: seq<Byte>): P
    decreases |bytes|
  {
    if bytes == [] then paste else ObserveAll(observe, observe(paste, bytes[0]).0, bytes[1..])
  }

  /** A prefix held back by a nested client is forwarded with the keys that follow it. */
  function HeldPrefix<P>(prefix: Byte, state: State<P>): seq<Byte> {
    if state.nested && state.pending then [prefix] else []
  }

  function OpenAt<P>(
    observe: Observer<P>, prefix: Byte, state: State<P>, bytes: seq<Byte>, at: nat, consumed: nat
  ): Begin<P>
    requires at + consumed <= |bytes|
  {
    Opened(state.(pending := false, outer := false, paste := ObserveAll(observe, state.paste, bytes[..at + consumed])),
           if at > 0 then HeldPrefix(prefix, state) + bytes[..at] else [],
           bytes[at + consumed..])
  }

  function BeginQuickActions<P>(observe: Observer<P>, prefix: Byte, state: State<P>, bytes: seq<Byte>): Begin<P> {
    if state.nested then
      if state.pending && bytes != [] && bytes[0] == prefix then OpenAt(observe, prefix, state, bytes, 0, 1)
      else
        match FirstPrefix(observe, prefix, true, state.paste, bytes)
        case None => Closed
        case Some(at) => OpenAt(observe, prefix, state, bytes, at, 2)
    else if state.pending then Closed
    else
      match FirstPrefix(observe, prefix, false, state.paste, bytes)
      case None => Closed
      case Some(at) => OpenAt(observe, prefix, state, bytes, at, 1)
  }

  /** The batch the automaton gets, and the tail the loop keeps for its next round. */
  function Trim<P>(state: State<P>, chunk: seq<Byte>): (parts: (seq<Byte>, seq<Byte>))
    ensures parts.0 + parts.1 == chunk
  {
    if (state.pending || state.outer) && chunk != [] then (chunk[..1], chunk[1..]) else (chunk, [])
  }

  // ----- The picker takes over without losing a key

  /**
   When the picker opens, the held prefix and the batch are exactly the forwarded keys, the
   prefix bytes that opened it (two for a nested client), and the query.
   */
  lemma PickerReassembles<P>(observe: Observer<P>, prefix: Byte, state: State<P>, bytes: seq<Byte>)
    requires BeginQuickActions(observe, prefix, state, bytes).Opened?
    ensures var open := BeginQuickActions(observe, prefix, state, bytes);
            HeldPrefix(prefix, state) + bytes ==
            open.forwarded + (if state.nested then [prefix, prefix] else [prefix]) + open.query
  {
    if state.nested && !(state.pending && bytes != [] && bytes[0] == prefix) {
      var at := FirstPrefix(observe, prefix, true, state.paste, bytes).value;
      assert bytes == bytes[..at] + [prefix, prefix] + bytes[at + 2..];
    } else if !state.nested {
      var at := FirstPrefix(observe, prefix, false, state.paste, bytes).value;
      assert bytes == bytes[..at] + [prefix] + bytes[at + 1..];
    } else {
      assert bytes == [prefix] + bytes[1..];
    }
  }

  // ----- A plain client: any observer

  lemma {:induction false} PlainUntilPrefix<P>(
    observe: Observer<P>, effects: Effects, prefix: Byte, state: State<P>, bytes: seq<Byte>
  )
    requires !state.nested && !state.pending
    ensures var n := TypedUntil(observe, prefix, false, state.paste, bytes);
            Run(observe, effects, prefix, state, bytes[..n]) ==
            Outcome(state.(paste := ObserveAll(observe, state.paste, bytes[..n])), Keys(bytes[..n]), None, n)
    decreases |bytes|
  {
    var n := TypedUntil(observe, prefix, false, state.paste, bytes);
    if n > 0 {
      var next := state.(paste := observe(state.paste, bytes[0]).0);
      assert TypedUntil(observe, prefix, false, next.paste, bytes[1..]) == n - 1;
      PlainUntilPrefix(observe, effects, prefix, next, bytes[1..]);
      assert bytes[..n] == [bytes[0]] + bytes[1..][..n - 1];
      TypeFirst(observe, effects, prefix, state, bytes[0], bytes[1..][..n - 1]);
    }
  }

  /** A typed key, and then only typed keys. */
  lemma TypeFirst<P>(observe: Observer<P>, effects: Effects, prefix: Byte, state: State<P>, b: Byte, rest: seq<Byte>)
    requires var next := state.(paste := observe(state.paste, b).0);
             && Step(observe, effects, prefix, state, b) == Outcome(next, [Key(b)], None, 1)
             && Run(observe, effects, prefix, next, rest) ==
                Outcome(next.(paste := ObserveAll(observe, next.paste, rest)), Keys(rest), None, |rest|)
    ensures Run(observe, effects, prefix, state, [b] + rest) ==
            Outcome(state.(paste := ObserveAll(observe, state.paste, [b] + rest)), Keys([b] + rest), None, 1 + |rest|)
  {
    var first := Step(observe, effects, prefix, state, b);
    RunCons(observe, effects, prefix, state, b, rest, first);
    KeysConcat([b], rest);
    ObserveCons(observe, state.paste, b, rest);
  }

  lemma RunCons<P>(
    observe: Observer<P>, effects: Effects, prefix: Byte, state: State<P>, b: Byte, rest: seq<Byte>, first: Outcome<P>
  )
    requires first == Step(observe, effects, prefix, state, b) && first.action.None?
    ensures Run(observe, effects, prefix, state, [b] + rest) ==
            Run(observe, effects, prefix, first.state, rest).After(first.sent, 1)
  {
    assert ([b] + rest)[1..] == rest;
  }

  lemma ObserveCons<P>(observe: Observer<P>, paste: P, b: Byte, rest: seq<Byte>)
    ensures ObserveAll(observe, paste, [b] + rest) == ObserveAll(observe, observe(paste, b).0, rest)
  {
    assert ([b] + rest)[1..] == rest;
  }

  lemma {:induction false} FirstPrefixIsTyped<P>(
    observe: Observer<P>, prefix: Byte, doubled: bool, paste: P, bytes: seq<Byte>
  )
    requires FirstPrefix(observe, prefix, doubled, paste, bytes).Some?
    ensures var at := FirstPrefix(observe, prefix, doubled, paste, bytes).value;
            !observe(ObserveAll(observe, paste, bytes[..at]), prefix).1
    decreases |bytes|
  {
    var (next, pasted) := observe(paste, bytes[0]);
    var at := FirstPrefix(observe, prefix, doubled, paste, bytes).value;
    if at > 0 {
      FirstPrefixIsTyped(observe, prefix, doubled, next, bytes[1..]);
      assert bytes[..at][1..] == bytes[1..][..at - 1];
    }
  }

  lemma {:induction false} ObserveConcat<P>(observe: Observer<P>, paste: P, u: seq<Byte>, b: Byte)
    ensures ObserveAll(observe, paste, u + [b]) == observe(ObserveAll(observe, paste, u), b).0
    decreases |u|
  {
    if u == [] {
      assert (u + [b])[1..] == [];
    } else {
      assert (u + [b])[1..] == u[1..] + [b];
      ObserveConcat(observe, observe(paste, u[0]).0, u[1..], b);
    }
  }

  lemma RunOne<P>(observe: Observer<P>, effects: Effects, prefix: Byte, state: State<P>, b: Byte)
    ensures Run(observe, effects, prefix, state, [b]) == Step(observe, effects, prefix, state, b)
  {
    assert [b][1..] == [];
  }

  lemma RunThenOne<P>(
    observe: Observer<P>, effects: Effects, prefix: Byte, state: State<P>, u: seq<Byte>, mid: State<P>,
    sent: seq<Atom>, b: Byte
  )
    requires Run(observe, effects, prefix, state, u) == Outcome(mid, sent, None, |u|)
    ensures Run(observe, effects, prefix, state, u + [b]) == Step(observe, effects, prefix, mid, b).After(sent, |u|)
  {
    SplitIndependence(observe, effects, prefix, state, u, [b]);
    RunOne(observe, effects, prefix, mid, b);
  }

  /** The automaton reads the keys before the picker's prefix as typed keys, and is then armed. */
  lemma PlainPickerArms<P>(observe: Observer<P>, effects: Effects, prefix: Byte, state: State<P>, bytes: seq<Byte>)
    requires !state.nested && BeginQuickActions(observe, prefix, state, bytes).Opened?
    ensures var open := BeginQuickActions(observe, prefix, state, bytes);
            var n := |bytes| - |open.query|;
            Run(observe, effects, prefix, state, bytes[..n]) ==
            Outcome(state.(pending := true, paste := open.state.paste), Keys(open.forwarded), None, n)
  {
    var at := FirstPrefix(observe, prefix, false, state.paste, bytes).value;
    PlainUntilPrefix(observe, effects, prefix, state, bytes);
    FirstPrefixIsTyped(observe, prefix, false, state.paste, bytes);
    var mid := state.(paste := ObserveAll(observe, state.paste, bytes[..at]));
    RunThenOne(observe, effects, prefix, state, bytes[..at], mid, Keys(bytes[..at]), prefix);
    ObserveConcat(observe, state.paste, bytes[..at], prefix);
    assert bytes[..at] + [prefix] == bytes[..at + 1];
    assert Keys(bytes[..at]) + [] == Keys(bytes[..at]);
    assert [] + bytes[..at] == bytes[..at];
  }

  // ----- A nested client

  const NO_EFFECTS: Effects := (b: Byte) => Ignore

  /** The state after one byte; what an armed key does has no influence on it. */
  function Onward<P>(observe: Observer<P>, prefix: Byte, state: State<P>, b: Byte): State<P> {
    Step(observe, NO_EFFECTS, prefix, state, b).state
  }

  lemma OnwardIsStep<P>(observe: Observer<P>, effects: Effects, prefix: Byte, state: State<P>, b: Byte)
    ensures Step(observe, effects, prefix, state, b).state == Onward(observe, prefix, state, b)
  {
  }

  /** No prefix that a nested client holds, or is armed by, is directly followed by a byte the observer claims. */
  ghost predicate HeldApart<P>(observe: Observer<P>, prefix: Byte, state: State<P>, bytes: seq<Byte>)
    decreases |bytes|
  {
    bytes != [] ==>
      && !(state.nested && (state.pending || state.outer) && observe(state.paste, bytes[0]).1)
      && HeldApart(observe, prefix, Onward(observe, prefix, state, bytes[0]), bytes[1..])
  }

  /** No held prefix is directly followed by a claimed byte other than the prefix itself. */
  ghost predicate HeldInOrder<P>(observe: Observer<P>, prefix: Byte, state: State<P>, bytes: seq<Byte>)
    decreases |bytes|
  {
    bytes != [] ==>
      && !(state.pending && bytes[0] != prefix && observe(state.paste, bytes[0]).1)
      && HeldInOrder(observe, prefix, Onward(observe, prefix, state, bytes[0]), bytes[1..])
  }

  /** No two typed prefixes arm the client. */
  ghost predicate NeverArms<P>(observe: Observer<P>, prefix: Byte, state: State<P>, bytes: seq<Byte>)
    decreases |bytes|
  {
    bytes != [] ==>
      var next := Onward(observe, prefix, state, bytes[0]);
      !next.outer && NeverArms(observe, prefix, next, bytes[1..])
  }

  /** What a nested client delivered and still holds back is what it was given, in order. */
  ghost predicate InOrder<P>(prefix: Byte, state: State<P>, bytes: seq<Byte>, run: Outcome<P>) {
    Keys(HeldPrefix(prefix, state) + bytes) == run.sent + Keys(HeldPrefix(prefix, run.state))
  }

  /** One byte that arms nothing: typed in order, unless it is claimed while a prefix is held. */
  lemma NestedStep<P>(observe: Observer<P>, effects: Effects, prefix: Byte, state: State<P>, b: Byte, rest: seq<Byte>)
    requires state.nested && !state.outer && !Onward(observe, prefix, state, b).outer
    ensures var first := Step(observe, effects, prefix, state, b);
            var late := state.pending && b != prefix && observe(state.paste, b).1;
            && first.action.None? && first.used == 1 && first.state == Onward(observe, prefix, state, b)
            && first.state.nested && first.state.paste == observe(state.paste, b).0
            && (late ==> first.sent == [Key(b)])
            && (!late ==> Keys(HeldPrefix(prefix, state) + ([b] + rest)) ==
                          first.sent + Keys(HeldPrefix(prefix, first.state) + rest))
  {
    var first := Step(observe, effects, prefix, state, b);
    var w, v := HeldPrefix(prefix, state) + ([b] + rest), HeldPrefix(prefix, first.state) + rest;
    if !(state.pending && b != prefix && observe(state.paste, b).1) {
      assert v == w[|w| - |v|..];
      assert first.sent == Keys(w[..|w| - |v|]);
      KeysConcat(w[..|w| - |v|], v);
      assert w[..|w| - |v|] + v == w;
    }
  }

  lemma SameTail<T>(a: seq<T>, x: seq<T>, y: seq<T>)
    ensures a + x == a + y <==> x == y
  {
    if a + x == a + y {
      assert x == (a + x)[|a|..] && y == (a + y)[|a|..];
    }
  }

  lemma InOrderStep<P>(prefix: Byte, state: State<P>, bytes: seq<Byte>, first: Outcome<P>, run: Outcome<P>)
    requires bytes != []
    requires Keys(HeldPrefix(prefix, state) + bytes) == first.sent + Keys(HeldPrefix(prefix, first.state) + bytes[1..])
    ensures InOrder(prefix, state, bytes, run.After(first.sent, 1)) <==> InOrder(prefix, first.state, bytes[1..], run)
  {
    var held := Keys(HeldPrefix(prefix, run.state));
    assert (first.sent + run.sent) + held == first.sent + (run.sent + held);
    SameTail(first.sent, Keys(HeldPrefix(prefix, first.state) + bytes[1..]), run.sent + held);
  }

  /**
   Without a doubled prefix a nested client uses every byte and runs nothing. It delivers the bytes in
   order, holding back at most one prefix, exactly if no held prefix is directly followed by another
   byte that the observer claims: that byte overtakes the prefix.
   */
  lemma {:induction false} NestedConserves<P>(
    observe: Observer<P>, effects: Effects, prefix: Byte, state: State<P>, bytes: seq<Byte>
  )
    requires state.nested && !state.outer && NeverArms(observe, prefix, state, bytes)
    ensures var run := Run(observe, effects, prefix, state, bytes);
            && run.action.None? && run.used == |bytes|
            && run.state == State(run.state.pending, false, true, ObserveAll(observe, state.paste, bytes))
            && (InOrder(prefix, state, bytes, run) <==> HeldInOrder(observe, prefix, state, bytes))
    decreases |bytes|
  {
    if bytes != [] {
      var b, rest := bytes[0], bytes[1..];
      var first := Step(observe, effects, prefix, state, b);
      assert bytes == [b] + rest;
      NestedStep(observe, effects, prefix, state, b, rest);
      NestedConserves(observe, effects, prefix, first.state, rest);
      var run := Run(observe, effects, prefix, first.state, rest);
      if state.pending && b != prefix && observe(state.paste, b).1 {
        Overtaken(prefix, state, bytes, first, run);
      } else {
        InOrderStep(prefix, state, bytes, first, run);
      }
    } else {
      assert HeldPrefix(prefix, state) + bytes == HeldPrefix(prefix, state);
    }
  }

  lemma Overtaken<P>(prefix: Byte, state: State<P>, bytes: seq<Byte>, first: Outcome<P>, run: Outcome<P>)
    requires state.nested && state.pending && bytes != [] && bytes[0] != prefix && first.sent == [Key(bytes[0])]
    ensures !InOrder(prefix, state, bytes, run.After(first.sent, 1))
  {
    var expected := Keys(HeldPrefix(prefix, state) + bytes);
    assert expected[0] == Key(prefix);
    var sent := (first.sent + run.sent) + Keys(HeldPrefix(prefix, run.state));
    assert sent[0] == Key(bytes[0]);
  }

  /** Up to its first doubled prefix a nested client whose prefixes stay apart types everything, in order. */
  lemma {:induction false} NestedUntilDouble<P>(
    observe: Observer<P>, effects: Effects, prefix: Byte, state: State<P>, bytes: seq<Byte>
  )
    requires state.nested && !state.outer && !(state.pending && bytes != [] && bytes[0] == prefix)
    requires HeldApart(observe, prefix, state, bytes[..TypedUntil(observe, prefix, true, state.paste, bytes)])
    ensures var n := TypedUntil(observe, prefix, true, state.paste, bytes);
            var run := Run(observe, effects, prefix, state, bytes[..n]);
            && run.action.None? && run.used == n
            && run.state == State(run.state.pending, false, true, ObserveAll(observe, state.paste, bytes[..n]))
            && InOrder(prefix, state, bytes[..n], run)
            && (n < |bytes| ==> !run.state.pending)
    decreases |bytes|
  {
    var n := TypedUntil(observe, prefix, true, state.paste, bytes);
    if n == 0 {
      assert bytes[..0] == [] && HeldPrefix(prefix, state) + [] == HeldPrefix(prefix, state);
    } else {
      var b, rest := bytes[0], bytes[1..];
      var first := Step(observe, effects, prefix, state, b);
      assert bytes[..n][0] == b && bytes[..n][1..] == rest[..n - 1] && bytes[..n] == [b] + rest[..n - 1];
      NestedStep(observe, effects, prefix, state, b, rest[..n - 1]);
      assert TypedUntil(observe, prefix, true, first.state.paste, rest) == n - 1;
      NestedUntilDouble(observe, effects, prefix, first.state, rest);
      InOrderStep(prefix, state, bytes[..n], first, Run(observe, effects, prefix, first.state, rest[..n - 1]));
    }
  }

  /** Two typed prefixes in a row arm a nested client. */
  lemma NestedDoubleArms<P>(
    observe: Observer<P>, effects: Effects, prefix: Byte, state: State<P>, u: seq<Byte>, mid: State<P>, sent: seq<Atom>
  )
    requires Run(observe, effects, prefix, state, u) == Outcome(mid, sent, None, |u|)
    requires mid.nested && !mid.outer && !mid.pending
    requires !observe(mid.paste, prefix).1 && !observe(observe(mid.paste, prefix).0, prefix).1
    ensures Run(observe, effects, prefix, state, u + [prefix] + [prefix]) ==
            Outcome(mid.(outer := true, paste := observe(observe(mid.paste, prefix).0, prefix).0), sent, None, |u| + 2)
  {
    RunThenOne(observe, effects, prefix, state, u, mid, sent, prefix);
    var held := mid.(pending := true, paste := observe(mid.paste, prefix).0);
    assert sent + [] == sent;
    RunThenOne(observe, effects, prefix, state, u + [prefix], held, sent, prefix);
  }

  lemma {:induction false} HeldApartSplit<P>(
    observe: Observer<P>, effects: Effects, prefix: Byte, state: State<P>, u: seq<Byte>, v: seq<Byte>
  )
    requires HeldApart(observe, prefix, state, u + v)
    ensures HeldApart(observe, prefix, state, u)
    ensures var run := Run(observe, effects, prefix, state, u);
            run.action.None? ==> HeldApart(observe, prefix, run.state, v)
    decreases |u|
  {
    if u == [] {
      assert u + v == v;
    } else {
      assert (u + v)[0] == u[0] && (u + v)[1..] == u[1..] + v;
      OnwardIsStep(observe, effects, prefix, state, u[0]);
      HeldApartSplit(observe, effects, prefix, Onward(observe, prefix, state, u[0]), u[1..], v);
    }
  }

  /** The nested automaton reads the keys before the picker's prefixes as typed keys, and is then armed. */
  lemma NestedPickerArms<P>(observe: Observer<P>, effects: Effects, prefix: Byte, state: State<P>, bytes: seq<Byte>)
    requires state.nested && !state.outer
    requires var open := BeginQuickActions(observe, prefix, state, bytes);
             open.Opened? && |open.query| <= |bytes| &&
               HeldApart(observe, prefix, state, bytes[..|bytes| - |open.query|])
    ensures var open := BeginQuickActions(observe, prefix, state, bytes);
            var n := |bytes| - |open.query|;
            Run(observe, effects, prefix, state, bytes[..n]) ==
            Outcome(state.(pending := false, outer := true, paste := open.state.paste), Keys(open.forwarded), None, n)
  {
    if state.pending && bytes != [] && bytes[0] == prefix {
      assert bytes[..1] == [prefix] == [] + [prefix];
      RunOne(observe, effects, prefix, state, prefix);
      ObserveConcat(observe, state.paste, [], prefix);
      assert Keys([]) == [];
    } else {
      var at := FirstPrefix(observe, prefix, true, state.paste, bytes).value;
      NestedOpens(observe, effects, prefix, state, bytes, at);
    }
  }

  lemma NestedOpens<P>(
    observe: Observer<P>, effects: Effects, prefix: Byte, state: State<P>, bytes: seq<Byte>, at: nat
  )
    requires state.nested && !state.outer && !(state.pending && bytes != [] && bytes[0] == prefix)
    requires FirstPrefix(observe, prefix, true, state.paste, bytes) == Some(at)
    requires HeldApart(observe, prefix, state, bytes[..at + 2])
    ensures Run(observe, effects, prefix, state, bytes[..at + 2]) ==
            Outcome(State(false, true, true, ObserveAll(observe, state.paste, bytes[..at + 2])),
                    if at > 0 then Keys(HeldPrefix(prefix, state) + bytes[..at]) else [], None, at + 2)
  {
    var u := bytes[..at];
    assert u + [prefix, prefix] == bytes[..at + 2] && u + [prefix] == bytes[..at + 1];
    HeldApartSplit(observe, effects, prefix, state, u, [prefix, prefix]);
    NestedUntilDouble(observe, effects, prefix, state, bytes);
    var run := Run(observe, effects, prefix, state, u);
    assert run.sent + Keys([]) == run.sent;
    FirstPrefixIsTyped(observe, prefix, true, state.paste, bytes);
    SecondIsTyped(observe, prefix, run.state);
    ObserveConcat(observe, state.paste, u, prefix);
    ObserveConcat(observe, state.paste, u + [prefix], prefix);
    assert u + [prefix] + [prefix] == bytes[..at + 2];
    NestedDoubleArms(observe, effects, prefix, state, u, run.state, run.sent);
  }

  lemma SecondIsTyped<P>(observe: Observer<P>, prefix: Byte, state: State<P>)
    requires state.nested && !state.outer && !state.pending && !observe(state.paste, prefix).1
    requires HeldApart(observe, prefix, state, [prefix, prefix])
    ensures !observe(observe(state.paste, prefix).0, prefix).1
  {
    assert [prefix, prefix][1..] == [prefix];
    var held := Onward(observe, prefix, state, prefix);
    assert held.pending && held.paste == observe(state.paste, prefix).0;
    assert HeldApart(observe, prefix, held, [prefix]);
  }

  // ----- The loop's discipline

  /** The next key that is not claimed takes effect. */
  predicate IsArmed<P>(state: State<P>) { if state.nested then state.outer else state.pending }

  /** An armed key acts before the last byte. */
  ghost predicate ActsEarly<P>(
    observe: Observer<P>, effects: Effects, prefix: Byte, state: State<P>, bytes: seq<Byte>
  )
    decreases |bytes|
  {
    && |bytes| > 1
    && (|| (IsArmed(state) && !observe(state.paste, bytes[0]).1 && effects(bytes[0]).Act?)
        || ActsEarly(observe, effects, prefix, Onward(observe, prefix, state, bytes[0]), bytes[1..]))
  }

  /** A batch leaves bytes unused exactly if an armed key acts before its last byte. */
  lemma {:induction false} UnusedExactlyWhen<P>(
    observe: Observer<P>, effects: Effects, prefix: Byte, state: State<P>, bytes: seq<Byte>
  )
    ensures var run := Run(observe, effects, prefix, state, bytes);
            run.used <= |bytes| && (run.used < |bytes| <==> ActsEarly(observe, effects, prefix, state, bytes))
    decreases |bytes|
  {
    if bytes != [] {
      OnwardIsStep(observe, effects, prefix, state, bytes[0]);
      UnusedExactlyWhen(observe, effects, prefix, Onward(observe, prefix, state, bytes[0]), bytes[1..]);
    }
  }

  /** The state before byte `i`. */
  ghost function At<P>(observe: Observer<P>, prefix: Byte, state: State<P>, bytes: seq<Byte>, i: nat): State<P>
    requires i <= |bytes|
  {
    if i == 0 then state
    else Onward(observe, prefix, At(observe, prefix, state, bytes, i - 1), bytes[i - 1])
  }

  /** Whether the observer claims byte `i`. */
  ghost predicate Claims<P>(observe: Observer<P>, prefix: Byte, state: State<P>, bytes: seq<Byte>, i: nat)
    requires i < |bytes|
  {
    observe(At(observe, prefix, state, bytes, i).paste, bytes[i]).1
  }

  lemma {:induction false} AtTail<P>(observe: Observer<P>, prefix: Byte, state: State<P>, bytes: seq<Byte>, i: nat)
    requires i < |bytes|
    ensures At(observe, prefix, state, bytes, i + 1) ==
            At(observe, prefix, Onward(observe, prefix, state, bytes[0]), bytes[1..], i)
  {
    if i > 0 {
      AtTail(observe, prefix, state, bytes, i - 1);
      assert bytes[1..][i - 1] == bytes[i];
    }
  }

  /** Byte `k` is an armed key that acts. */
  ghost predicate ActsAt<P>(
    observe: Observer<P>, effects: Effects, prefix: Byte, state: State<P>, bytes: seq<Byte>, k: nat
  ) {
    && k < |bytes| && IsArmed(At(observe, prefix, state, bytes, k))
    && !Claims(observe, prefix, state, bytes, k) && effects(bytes[k]).Act?
  }

  lemma {:induction false} ActsEarlyAt<P>(
    observe: Observer<P>, effects: Effects, prefix: Byte, state: State<P>, bytes: seq<Byte>
  )
    ensures ActsEarly(observe, effects, prefix, state, bytes) <==>
            exists k: nat :: k + 1 < |bytes| && ActsAt(observe, effects, prefix, state, bytes, k)
    decreases |bytes|
  {
    if |bytes| > 1 {
      var next, rest := Onward(observe, prefix, state, bytes[0]), bytes[1..];
      ActsEarlyAt(observe, effects, prefix, next, rest);
      if IsArmed(state) && !observe(state.paste, bytes[0]).1 && effects(bytes[0]).Act? {
        assert ActsAt(observe, effects, prefix, state, bytes, 0);
      } else {
        forall k: nat | k < |rest|
          ensures ActsAt(observe, effects, prefix, next, rest, k) <==>
                  ActsAt(observe, effects, prefix, state, bytes, k + 1)
        {
          AtTail(observe, prefix, state, bytes, k);
        }
        if k: nat :| k + 1 < |rest| && ActsAt(observe, effects, prefix, next, rest, k) {
          assert ActsAt(observe, effects, prefix, state, bytes, k + 1);
        }
        if k: nat :| k + 1 < |bytes| && ActsAt(observe, effects, prefix, state, bytes, k) {
          assert k > 0 && ActsAt(observe, effects, prefix, next, rest, k - 1);
        }
      }
    }
  }

  /** All bytes strictly between two positions are claimed. */
  ghost predicate ClaimedBetween<P>(
    observe: Observer<P>, prefix: Byte, state: State<P>, bytes: seq<Byte>, i: nat, j: nat
  )
    requires j <= |bytes|
  {
    forall h :: i < h < j ==> Claims(observe, prefix, state, bytes, h)
  }

  /** A typed prefix. */
  ghost predicate TypesPrefix<P>(observe: Observer<P>, prefix: Byte, state: State<P>, bytes: seq<Byte>, i: nat)
    requires i < |bytes|
  {
    bytes[i] == prefix && !Claims(observe, prefix, state, bytes, i)
  }

  /** A nested client that is armed got so by a second prefix; only claimed bytes came since. */
  lemma {:induction false} ArmedBy<P>(observe: Observer<P>, prefix: Byte, state: State<P>, bytes: seq<Byte>, k: nat)
    returns (j: nat)
    requires state.nested && !state.outer && k <= |bytes| && At(observe, prefix, state, bytes, k).outer
    ensures j < k && TypesPrefix(observe, prefix, state, bytes, j)
    ensures ClaimedBetween(observe, prefix, state, bytes, j, k)
    ensures At(observe, prefix, state, bytes, j).pending && !At(observe, prefix, state, bytes, j).outer
    decreases k
  {
    StaysNested(observe, prefix, state, bytes, k - 1);
    if Claims(observe, prefix, state, bytes, k - 1) {
      j := ArmedBy(observe, prefix, state, bytes, k - 1);
    } else {
      j := k - 1;
    }
  }

  /** And one that holds a prefix got it by typing; only claimed bytes came since. */
  lemma {:induction false} HeldBy<P>(observe: Observer<P>, prefix: Byte, state: State<P>, bytes: seq<Byte>, j: nat)
    returns (i: nat)
    requires state.nested && !state.pending && !state.outer && j <= |bytes|
    requires At(observe, prefix, state, bytes, j).pending && !At(observe, prefix, state, bytes, j).outer
    ensures i < j && TypesPrefix(observe, prefix, state, bytes, i)
    ensures ClaimedBetween(observe, prefix, state, bytes, i, j)
    ensures !At(observe, prefix, state, bytes, i).pending && !At(observe, prefix, state, bytes, i).outer
    decreases j
  {
    StaysNested(observe, prefix, state, bytes, j - 1);
    if Claims(observe, prefix, state, bytes, j - 1) {
      i := HeldBy(observe, prefix, state, bytes, j - 1);
    } else {
      i := j - 1;
    }
  }

  lemma {:induction false} StaysNested<P>(observe: Observer<P>, prefix: Byte, state: State<P>, bytes: seq<Byte>, i: nat)
    requires i <= |bytes|
    ensures At(observe, prefix, state, bytes, i).nested == state.nested
  {
    if i > 0 {
      StaysNested(observe, prefix, state, bytes, i - 1);
    }
  }

  /** Claimed bytes change neither a held prefix nor an armed state. */
  lemma {:induction false} ClaimedKeep<P>(
    observe: Observer<P>, prefix: Byte, state: State<P>, bytes: seq<Byte>, i: nat, j: nat
  )
    requires i < j <= |bytes| && ClaimedBetween(observe, prefix, state, bytes, i, j)
    ensures var before, after := At(observe, prefix, state, bytes, i + 1), At(observe, prefix, state, bytes, j);
            after.pending == before.pending && after.outer == before.outer
    decreases j
  {
    if i + 1 < j {
      ClaimedKeep(observe, prefix, state, bytes, i, j - 1);
      assert Claims(observe, prefix, state, bytes, j - 1);
    }
  }

  /**
   The shape of a drop: a prefix that is held, claimed bytes behind it, a second prefix, perhaps more claimed
   bytes, a key that acts, and something behind it.
   */
  ghost predicate DropsAt<P>(
    observe: Observer<P>, effects: Effects, prefix: Byte, state: State<P>, bytes: seq<Byte>, i: nat, j: nat, k: nat
  ) {
    && i + 1 < j < k < |bytes| - 1
    && !At(observe, prefix, state, bytes, i).pending && !At(observe, prefix, state, bytes, i).outer
    && TypesPrefix(observe, prefix, state, bytes, i) && ClaimedBetween(observe, prefix, state, bytes, i, j)
    && TypesPrefix(observe, prefix, state, bytes, j) && ClaimedBetween(observe, prefix, state, bytes, j, k)
    && !Claims(observe, prefix, state, bytes, k) && effects(bytes[k]).Act?
  }

  /** In a resting nested client, with no doubled prefix in the batch: a key acts early exactly in that shape. */
  lemma {:induction false} DropShape<P>(
    observe: Observer<P>, effects: Effects, prefix: Byte, state: State<P>, bytes: seq<Byte>
  )
    requires state.nested && !state.pending && !state.outer
    requires FirstPrefix(observe, prefix, true, state.paste, bytes) == None
    ensures ActsEarly(observe, effects, prefix, state, bytes) <==>
            exists i: nat, j: nat, k: nat :: DropsAt(observe, effects, prefix, state, bytes, i, j, k)
  {
    ActsEarlyAt(observe, effects, prefix, state, bytes);
    if k: nat :| k + 1 < |bytes| && ActsAt(observe, effects, prefix, state, bytes, k) {
      StaysNested(observe, prefix, state, bytes, k);
      var j := ArmedBy(observe, prefix, state, bytes, k);
      var i := HeldBy(observe, prefix, state, bytes, j);
      NotAdjacent(observe, prefix, state, bytes, i);
      assert DropsAt(observe, effects, prefix, state, bytes, i, j, k);
    }
    if i: nat, j: nat, k: nat :| DropsAt(observe, effects, prefix, state, bytes, i, j, k) {
      StaysNested(observe, prefix, state, bytes, i);
      StaysNested(observe, prefix, state, bytes, j);
      StaysNested(observe, prefix, state, bytes, k);
      ClaimedKeep(observe, prefix, state, bytes, i, j);
      ClaimedKeep(observe, prefix, state, bytes, j, k);
      assert ActsAt(observe, effects, prefix, state, bytes, k);
    }
  }

  /** Where no doubled prefix is found, a typed prefix is not followed by another. */
  lemma {:induction false} NotAdjacent<P>(observe: Observer<P>, prefix: Byte, state: State<P>, bytes: seq<Byte>, i: nat)
    requires FirstPrefix(observe, prefix, true, state.paste, bytes) == None
    requires i < |bytes| && TypesPrefix(observe, prefix, state, bytes, i)
    ensures i + 1 < |bytes| ==> bytes[i + 1] != prefix
    decreases i
  {
    if i > 0 {
      var next := Onward(observe, prefix, state, bytes[0]);
      AtTail(observe, prefix, state, bytes, i - 1);
      assert bytes[1..][i - 1] == bytes[i];
      NotAdjacent(observe, prefix, next, bytes[1..], i - 1);
    }
  }

  /**
   When the picker stays closed, the automaton uses up the whole batch it is given, and no key of the chunk is
   dropped, since the rest is kept for the next round: always in a plain client, and in a nested one exactly
   if no key acts before the last byte in the shape of a drop.
   */
  lemma NoKeyIsDropped<P>(observe: Observer<P>, effects: Effects, prefix: Byte, state: State<P>, chunk: seq<Byte>)
    requires BeginQuickActions(observe, prefix, state, chunk).Closed?
    ensures var (batch, tail) := Trim(state, chunk);
            var run := Run(observe, effects, prefix, state, batch);
            && (run.used == |batch| <==> !ActsEarly(observe, effects, prefix, state, batch))
            && (!state.nested || tail != [] ==> run.used == |batch|)
            && (run.used == |batch| && run.action.Some? && !state.nested ==> |batch| == 1)
            && (state.nested && !state.pending && !state.outer ==>
                  (run.used == |batch| <==>
                   !exists i: nat, j: nat, k: nat :: DropsAt(observe, effects, prefix, state, chunk, i, j, k)))
  {
    var (batch, tail) := Trim(state, chunk);
    UnusedExactlyWhen(observe, effects, prefix, state, batch);
    if (state.pending || state.outer) && chunk != [] {
      assert batch == [chunk[0]];
    } else if state.nested {
      if !state.pending && !state.outer {
        DropShape(observe, effects, prefix, state, chunk);
      }
    } else if chunk != [] {
      assert chunk[..|chunk|] == chunk;
      PlainUntilPrefix(observe, effects, prefix, state, chunk);
    }
  }

  /** If no held prefix is followed by a claimed byte, nothing is dropped and an action comes only from a lone byte. */
  lemma ApartDropsNothing<P>(observe: Observer<P>, effects: Effects, prefix: Byte, state: State<P>, chunk: seq<Byte>)
    requires BeginQuickActions(observe, prefix, state, chunk).Closed?
    requires state.nested ==> HeldApart(observe, prefix, state, Trim(state, chunk).0)
    ensures var (batch, tail) := Trim(state, chunk);
            var run := Run(observe, effects, prefix, state, batch);
            run.used == |batch| && (run.action.Some? ==> |batch| == 1)
  {
    var (batch, tail) := Trim(state, chunk);
    if (state.pending || state.outer) && chunk != [] {
      assert batch == [chunk[0]];
      RunOne(observe, effects, prefix, state, chunk[0]);
    } else if chunk != [] {
      assert chunk[..|chunk|] == chunk;
      if state.nested {
        NestedUntilDouble(observe, effects, prefix, state, chunk);
      } else {
        PlainUntilPrefix(observe, effects, prefix, state, chunk);
      }
    }
  }

  /**
   A shortcut typed into the fresh picker takes the automaton's own path: opening the picker,
   re-arming the prefix and processing the query is processing the whole batch at once.
   */
  lemma PickerIsTransparent<P>(
    observe: Observer<P>, effects: Effects, prefix: Byte, state: State<P>, bytes: seq<Byte>
  )
    requires !state.outer && BeginQuickActions(observe, prefix, state, bytes).Opened?
    requires BeginQuickActions(observe, prefix, state, bytes).query != []
    requires state.nested ==>
               var open := BeginQuickActions(observe, prefix, state, bytes);
               |open.query| <= |bytes| && HeldApart(observe, prefix, state, bytes[..|bytes| - |open.query| + 1])
    ensures var open := BeginQuickActions(observe, prefix, state, bytes);
            var armed := open.state.(pending := true, outer := state.nested);
            Run(observe, effects, prefix, state, bytes) ==
            Run(observe, effects, prefix, armed, open.query).After(Keys(open.forwarded), |bytes| - |open.query|)
  {
    var open := BeginQuickActions(observe, prefix, state, bytes);
    var n := |bytes| - |open.query|;
    assert bytes == bytes[..n] + open.query;
    if state.nested {
      assert bytes[..n + 1] == bytes[..n] + open.query[..1];
      HeldApartSplit(observe, effects, prefix, state, bytes[..n], open.query[..1]);
      NestedPickerArms(observe, effects, prefix, state, bytes);
    } else {
      PlainPickerArms(observe, effects, prefix, state, bytes);
    }
    SplitIndependence(observe, effects, prefix, state, bytes[..n], open.query);
    var mid := Run(observe, effects, prefix, state, bytes[..n]).state;
    SameWhenArmed(observe, effects, prefix, mid, open.state.(pending := true, outer := state.nested), open.query);
  }

  lemma SameWhenArmed<P>(
    observe: Observer<P>, effects: Effects, prefix: Byte, a: State<P>, b: State<P>, bytes: seq<Byte>
  )
    requires bytes != [] && a.paste == b.paste && a.nested == b.nested
    requires a.nested ==> a.outer && b.outer && !observe(a.paste, bytes[0]).1
    requires !a.nested ==> a == b
    ensures Run(observe, effects, prefix, a, bytes) == Run(observe, effects, prefix, b, bytes)
  {
    assert Step(observe, effects, prefix, a, bytes[0]) == Step(observe, effects, prefix, b, bytes[0]);
  }

  // ----- The source's loops

  method FindPrefix<P>(
    observe: Observer<P>, prefix: Byte, doubled: bool, paste: P, bytes: seq<Byte>
  ) returns (at: Option<nat>)
    ensures at == FirstPrefix(observe, prefix, doubled, paste, bytes)
  {
    var seen, rest, i := paste, bytes, 0;
    while rest != []
      invariant FirstPrefix(observe, prefix, doubled, paste, bytes) ==
                match FirstPrefix(observe, prefix, doubled, seen, rest) case None => None case Some(k) => Some(k + i)
      decreases |rest|
    {
      var (next, pasted) := observe(seen, rest[0]);
      if !pasted && rest[0] == prefix && (doubled ==> |rest| > 1 && rest[1] == prefix) {
        return Some(i);
      }
      seen, rest, i := next, rest[1..], i + 1;
    }
    at := None;
  }

  /** Opens the picker at a prefix that was found: the keys before it are forwarded. */
  method OpenHere<P>(
    s: PrefixState<P>, observe: Observer<P>, prefix: Byte, bytes: seq<Byte>, at: nat, consumed: nat, out: seq<Frame>
  ) returns (query: seq<Byte>, frames: seq<Frame>)
    requires NoEmptyInput(out) && at + consumed <= |bytes|
    modifies s
    ensures var open := OpenAt(observe, prefix, old(s.Value()), bytes, at, consumed);
            query == open.query && s.Value() == open.state && Sent(out, frames, [], Keys(open.forwarded))
  {
    var leading := if at == 0 then [] else (if s.nested && s.pending then [prefix] else []) + bytes[..at];
    frames := FlushPassthrough(leading, out);
    s.paste := ObserveAll(observe, s.paste, bytes[..at + consumed]);
    s.pending, s.outerPending := false, false;
    query := bytes[at + consumed..];
  }

  /** Opens the picker, or leaves the key state and the outgoing frames alone. */
  method OpenPicker<P>(s: PrefixState<P>, observe: Observer<P>, prefix: Byte, bytes: seq<Byte>, out: seq<Frame>)
    returns (query: Option<seq<Byte>>, frames: seq<Frame>)
    requires NoEmptyInput(out)
    modifies s
    ensures match BeginQuickActions(observe, prefix, old(s.Value()), bytes)
            case Closed => query == None && frames == out && s.Value() == old(s.Value())
            case Opened(state, forwarded, rest) =>
              query == Some(rest) && s.Value() == state && Sent(out, frames, [], Keys(forwarded))
  {
    var rest;
    if s.nested && s.pending && bytes != [] && bytes[0] == prefix {
      rest, frames := OpenHere(s, observe, prefix, bytes, 0, 1, out);
      return Some(rest), frames;
    }
    if !s.nested && s.pending {
      return None, out;
    }
    var found := FindPrefix(observe, prefix, s.nested, s.paste, bytes);
    if found.None? {
      return None, out;
    }
    rest, frames := OpenHere(s, observe, prefix, bytes, found.value, if s.nested then 2 else 1, out);
    return Some(rest), frames;
  }
}
