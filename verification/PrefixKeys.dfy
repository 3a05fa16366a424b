/**
 The prefix-key automaton of the attach client. It is stated for any paste observer and
 any table of key effects, so nothing below depends on either.
 */
module PrefixKeys {
  import opened Bytes
  import opened KeyBindings

  /** Frames sent to the server. */
  datatype Frame = Input(bytes: seq<Byte>) | Order(command: Command)

  /** What the server receives, byte by byte and command by command. */
  datatype Atom = Key(byte: Byte) | Do(command: Command)

  type Observer<!P> = (P, Byte) -> (P, bool)

  type Effects = Byte -> Effect

  datatype State<P> = State(pending: bool, outer: bool, nested: bool, paste: P)

  /** Everything a batch of keys did: the new state, what was sent, the action, the bytes used. */
  datatype Outcome<P> = Outcome(state: State<P>, sent: seq<Atom>, action: Option<Action>, used: nat) {
    function After(before: seq<Atom>, read: nat): Outcome<P> {
      Outcome(state, before + sent, action, read + used)
    }
  }

  function Keys(bytes: seq<Byte>): (atoms: seq<Atom>)
    ensures |atoms| == |bytes| && forall i :: 0 <= i < |bytes| ==> atoms[i] == Key(bytes[i])
  {
    seq(|bytes|, i requires 0 <= i < |bytes| => Key(bytes[i]))
  }

  /** One byte that follows an armed prefix. */
  function Obey<P>(state: State<P>, effect: Effect): Outcome<P> {
    match effect
    case Ignore => Outcome(state, [], None, 1)
    case Act(action) => Outcome(state, [], Some(action), 1)
    case Send(command) => Outcome(state, [Do(command)], None, 1)
    case Type(bytes) => Outcome(state, Keys(bytes), None, 1)
  }

  /** One byte of a nested client: a single prefix belongs to the inner Workspace, a double one to this client. */
  function StepNested<P>(prefix: Byte, s: State<P>, b: Byte): Outcome<P> {
    if s.pending then
      if b == prefix then Outcome(s.(pending := false, outer := true), [], None, 1)
      else Outcome(s.(pending := false), [Key(prefix), Key(b)], None, 1)
    else if b == prefix then Outcome(s.(pending := true), [], None, 1)
    else Outcome(s, [Key(b)], None, 1)
  }

  function Step<P>(observe: Observer<P>, effects: Effects, prefix: Byte, state: State<P>, b: Byte): Outcome<P> {
    var (paste, pasted) := observe(state.paste, b);
    var s := state.(paste := paste);
    if pasted then Outcome(s, [Key(b)], None, 1)
    else if s.nested && !s.outer then StepNested(prefix, s, b)
    else if s.nested || s.pending then
      Obey(s.(pending := false, outer := s.outer && !s.nested), effects(b))
    else if b == prefix then Outcome(s.(pending := true), [], None, 1)
    else Outcome(s, [Key(b)], None, 1)
  }

  /** A batch stops at the first action. */
  function Run<P>(observe: Observer<P>, effects: Effects, prefix: Byte, state: State<P>, bytes: seq<Byte>): Outcome<P>
    decreases |bytes|
  {
    if bytes == [] then Outcome(state, [], None, 0)
    else
      var first := Step(observe, effects, prefix, state, bytes[0]);
      if first.action.Some? then first
      else Run(observe, effects, prefix, first.state, bytes[1..]).After(first.sent, 1)
  }

  // ----- Frames and what they carry

  function Flatten(frames: seq<Frame>): seq<Atom> {
    if frames == [] then []
    else (match frames[0] case Input(bytes) => Keys(bytes) case Order(command) => [Do(command)]) + Flatten(frames[1..])
  }

  ghost predicate NoEmptyInput(frames: seq<Frame>) {
    forall i :: 0 <= i < |frames| ==> frames[i] != Input([])
  }

  lemma {:induction false} FlattenConcat(a: seq<Frame>, b: seq<Frame>)
    ensures Flatten(a + b) == Flatten(a) + Flatten(b)
  {
    if a == [] {
      assert a + b == b;
    } else {
      assert (a + b)[1..] == a[1..] + b;
      FlattenConcat(a[1..], b);
    }
  }

  lemma FlattenOne(frame: Frame)
    ensures Flatten([frame]) == match frame case Input(bytes) => Keys(bytes) case Order(command) => [Do(command)]
  {
    assert [frame][1..] == [];
  }

  lemma KeysConcat(a: seq<Byte>, b: seq<Byte>)
    ensures Keys(a + b) == Keys(a) + Keys(b)
  {
  }

  // ----- The loop over a batch

  /** The typed bytes become one frame, and an empty batch none. */
  method FlushPassthrough(passthrough: seq<Byte>, out: seq<Frame>) returns (flushed: seq<Frame>)
    requires NoEmptyInput(out)
    ensures NoEmptyInput(flushed)
    ensures Flatten(flushed) == Flatten(out) + Keys(passthrough)
    ensures out <= flushed
  {
    flushed := out;
    if passthrough != [] {
      flushed := out + [Input(passthrough)];
      FlattenConcat(out, [Input(passthrough)]);
      FlattenOne(Input(passthrough));
    }
  }

  lemma {:induction false} RunTail<P>(
    observe: Observer<P>, effects: Effects, prefix: Byte, state: State<P>, rest: seq<Byte>, sent: seq<Atom>, used: nat
  )
    requires rest != []
    ensures var first := Step(observe, effects, prefix, state, rest[0]);
            Run(observe, effects, prefix, state, rest).After(sent, used) ==
            (if first.action.Some? then first.After(sent, used)
             else Run(observe, effects, prefix, first.state, rest[1..]).After(sent + first.sent, used + 1))
  {
    var first := Step(observe, effects, prefix, state, rest[0]);
    var tail := Run(observe, effects, prefix, first.state, rest[1..]);
    assert sent + (first.sent + tail.sent) == (sent + first.sent) + tail.sent;
  }

  /** What the loop has sent and still holds back is what the automaton sent so far. */
  ghost predicate Sent(out: seq<Frame>, frames: seq<Frame>, passthrough: seq<Byte>, sent: seq<Atom>) {
    && NoEmptyInput(frames) && out <= frames
    && Flatten(frames) + Keys(passthrough) == Flatten(out) + sent
  }

  lemma SentMore(out: seq<Frame>, frames: seq<Frame>, passthrough: seq<Byte>, sent: seq<Atom>, more: seq<Byte>)
    requires Sent(out, frames, passthrough, sent)
    ensures Sent(out, frames, passthrough + more, sent + Keys(more))
  {
    KeysConcat(passthrough, more);
    assert Flatten(frames) + (Keys(passthrough) + Keys(more)) == (Flatten(frames) + Keys(passthrough)) + Keys(more);
    assert Flatten(out) + (sent + Keys(more)) == (Flatten(out) + sent) + Keys(more);
  }

  lemma SentOrder(out: seq<Frame>, frames: seq<Frame>, sent: seq<Atom>, command: Command)
    requires Sent(out, frames, [], sent)
    ensures Sent(out, frames + [Order(command)], [], sent + [Do(command)])
  {
    FlattenConcat(frames, [Order(command)]);
    FlattenOne(Order(command));
    assert Flatten(frames) + Keys([]) == Flatten(frames);
    assert Flatten(out) + (sent + [Do(command)]) == (Flatten(out) + sent) + [Do(command)];
  }

  class PrefixState<P> {
    var pending: bool
    var outerPending: bool
    var nested: bool
    var paste: P

    ghost function Value(): State<P>
      reads this
    {
      State(pending, outerPending, nested, paste)
    }

    constructor (nested: bool, paste: P)
      ensures Value() == State(false, false, nested, paste)
    {
      this.nested, this.paste := nested, paste;
      pending, outerPending := false, false;
    }

    /** A nested client hands single prefixes on and keeps doubled ones. */
    method TypeNested(prefix: Byte, b: Byte) returns (typed: seq<Byte>)
      modifies this
      ensures var step := StepNested(prefix, old(Value()), b);
              Value() == step.state && Keys(typed) == step.sent && step.action.None?
    {
      typed := [];
      if pending {
        pending := false;
        if b == prefix {
          outerPending := true;
        } else {
          typed := [prefix, b];
        }
      } else if b == prefix {
        pending := true;
      } else {
        typed := [b];
      }
    }

    /** One byte up to the point where an armed key takes effect. */
    method Advance(
      observe: Observer<P>, ghost effects: Effects, prefix: Byte, b: Byte
    ) returns (armed: bool, typed: seq<Byte>)
      modifies this
      ensures Step(observe, effects, prefix, old(Value()), b) ==
              if armed then Obey(Value(), effects(b)) else Outcome(Value(), Keys(typed), None, 1)
      ensures armed ==> typed == []
    {
      armed, typed := false, [];
      var (next, pasted) := observe(paste, b);
      paste := next;
      if pasted {
        typed := [b];
        return;
      }
      if nested && !outerPending {
        typed := TypeNested(prefix, b);
        return;
      }
      if nested {
        outerPending, pending := false, true;
      }
      if pending {
        pending, armed := false, true;
      } else if b == prefix {
        pending := true;
      } else {
        typed := [b];
      }
    }

    method ProcessInput(observe: Observer<P>, effects: Effects, prefix: Byte, bytes: seq<Byte>, out: seq<Frame>)
      returns (action: Option<Action>, frames: seq<Frame>)
      requires NoEmptyInput(out)
      modifies this
      ensures var run := Run(observe, effects, prefix, old(Value()), bytes);
              Value() == run.state && action == run.action && Sent(out, frames, [], run.sent)
    {
      frames := out;
      var passthrough: seq<Byte>, rest := [], bytes;
      ghost var sent: seq<Atom>, used := [], 0;
      ghost var whole := Run(observe, effects, prefix, Value(), bytes);
      while rest != []
        invariant Sent(out, frames, passthrough, sent)
        invariant whole == Run(observe, effects, prefix, Value(), rest).After(sent, used)
        decreases |rest|
      {
        var b := rest[0];
        ghost var first := Step(observe, effects, prefix, Value(), b);
        RunTail(observe, effects, prefix, Value(), rest, sent, used);
        var armed, typed := Advance(observe, effects, prefix, b);
        rest := rest[1..];
        if armed {
          // Typed bytes are sent before the binding acts.
          frames := FlushPassthrough(passthrough, frames);
          passthrough := [];
          match effects(b)
          case Ignore =>
          case Act(a) =>
            return Some(a), frames;
          case Send(command) =>
            SentOrder(out, frames, sent, command);
            frames := frames + [Order(command)];
            sent, used := sent + first.sent, used + 1;
            continue;
          case Type(keys) =>
            typed := keys;
        }
        SentMore(out, frames, passthrough, sent, typed);
        passthrough := passthrough + typed;
        sent, used := sent + first.sent, used + 1;
      }
      frames := FlushPassthrough(passthrough, frames);
      action := None;
    }
  }
}
