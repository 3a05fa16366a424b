/**
 The decoder and whoever takes its keys, as one machine. Keys that are given back go in front of the
 held-back escape in the decoder's own key buffer, so the next read decodes them again; a beginning of
 a mouse report that is held meanwhile goes in front of them.
 */
module TailQueue {
  import opened Bytes
  import opened SgrMouse
  import opened StdinScan
  import opened StdinUnits
  import opened StdinFragments

  /**
   Whoever takes the mouse events and then the keys of a read: its next state, and how many of the last keys it
   gives back; it keeps the first.
   */
  type Taker<!S> = (S, seq<MouseEvent>, seq<Byte>) -> (S, nat)

  /** What was delivered for good, the two buffers, and the taker. */
  datatype Loop<S> = Loop(delivered: Out, carry: Carry, taker: S)

  function Literal(keys: seq<Byte>): Out { Out([], keys, None) }

  /** The keys that are handed over for good. */
  function Handed<S>(take: Taker<S>, taker: S, events: seq<MouseEvent>, keys: seq<Byte>): (n: nat)
    requires keys != []
    ensures 0 < n <= |keys|
  {
    var back := take(taker, events, keys).1;
    if back < |keys| then |keys| - back else 1
  }

  /** One decoded read: its events and keys go to the taker, and the keys given back are queued. */
  function Hand<S>(take: Taker<S>, s: Loop<S>, out: Out, carry: Carry): Loop<S> {
    var next := take(s.taker, out.events, out.keys).0;
    if out.keys == [] then Loop(s.delivered.Then(out), carry, next)
    else
      var n := Handed(take, s.taker, out.events, out.keys);
      Loop(s.delivered.Then(out.(keys := out.keys[..n])), carry.(key := out.keys[n..] + carry.key), next)
  }

  /** One step of the loop; a read that returned no bytes is not a read. */
  function Do<S>(machine: Machine, take: Taker<S>, s: Loop<S>, step: Step): Loop<S> {
    if step == Chunk([]) then s
    else
      var (out, carry) := machine(s.carry, step);
      Hand(take, s, out, carry)
  }

  function RunLoop<S>(machine: Machine, take: Taker<S>, s: Loop<S>, steps: seq<Step>): Loop<S>
    decreases |steps|
  {
    if steps == [] then s else RunLoop(machine, take, Do(machine, take, s, steps[0]), steps[1..])
  }

  /** A read arrives while keys are queued and a mouse beginning is held: the beginning overtakes the keys. */
  predicate Overtakes<S>(s: Loop<S>, step: Step) {
    step.Chunk? && step.chunk != [] && s.carry.mouse != [] && s.carry.key != []
  }

  ghost predicate InTurn<S>(machine: Machine, take: Taker<S>, s: Loop<S>, steps: seq<Step>)
    decreases |steps|
  {
    steps != [] ==> !Overtakes(s, steps[0]) && InTurn(machine, take, Do(machine, take, s, steps[0]), steps[1..])
  }

  /** A dry read hands over an ESC with nothing behind it. */
  predicate LetsEscapeGo<S>(machine: Machine, take: Taker<S>, s: Loop<S>, step: Step) {
    && step.Idle? && s.carry.key != [] && s.carry.key[|s.carry.key| - 1] == ESC
    && Do(machine, take, s, step).carry.key == []
  }

  /** Where dry reads do that. */
  ghost function EscapeGoes<S>(machine: Machine, take: Taker<S>, s: Loop<S>, step: Step, pos: nat): set<nat> {
    if LetsEscapeGo(machine, take, s, step) then {pos} else {}
  }

  ghost function EscapesGoAt<S>(
    machine: Machine, take: Taker<S>, s: Loop<S>, steps: seq<Step>, pos: nat
  ): (dry: set<nat>)
    ensures forall d :: d in dry ==> d >= pos
    decreases |steps|
  {
    if steps == [] then {}
    else EscapeGoes(machine, take, s, steps[0], pos)
         + EscapesGoAt(machine, take, Do(machine, take, s, steps[0]), steps[1..], pos + |steps[0].Bytes()|)
  }

  // ----- Keys that can be decoded again

  predicate IsLiteral(u: Unit) { u.meaning == Literal(u.bytes) }

  ghost predicate Spells(parse: Reader, ws: seq<Unit>, keys: seq<Byte>) {
    AllUnits(parse, ws) && Encode(ws) == keys && forall i :: 0 <= i < |ws| ==> IsLiteral(ws[i])
  }

  /** Keys that decode to themselves, whatever follows them. */
  ghost predicate Queueable(parse: Reader, keys: seq<Byte>) {
    exists ws :: Spells(parse, ws, keys)
  }

  lemma QueueableNothing(parse: Reader)
    ensures Queueable(parse, [])
  {
    assert Spells(parse, [], []);
  }

  lemma QueueableConcat(parse: Reader, a: seq<Byte>, b: seq<Byte>)
    requires Queueable(parse, a) && Queueable(parse, b)
    ensures Queueable(parse, a + b)
  {
    var u :| Spells(parse, u, a);
    var v :| Spells(parse, v, b);
    EncodeConcat(u, v);
    assert Spells(parse, u + v, a + b);
  }

  lemma QueueableText(parse: Reader, text: seq<Byte>)
    requires ESC !in text
    ensures Queueable(parse, text)
  {
    TextsAreUnits(parse, text);
    TextsEncode(text);
    TextsAreLiteral(text);
    assert Spells(parse, Texts(text), text);
  }

  lemma {:induction false} TextsAreLiteral(text: seq<Byte>)
    ensures forall i :: 0 <= i < |Texts(text)| ==> IsLiteral(Texts(text)[i])
  {
    if text != [] {
      TextsAreLiteral(text[1..]);
    }
  }

  lemma QueueableUnit(parse: Reader, u: Unit)
    requires IsUnit(parse, u) && IsLiteral(u)
    ensures Queueable(parse, u.bytes)
  {
    assert [u][1..] == [];
    assert Encode([u]) == u.bytes + Encode([]);
    assert u.bytes + [] == u.bytes;
    assert Spells(parse, [u], u.bytes);
  }

  lemma SpellsTail(parse: Reader, ws: seq<Unit>, keys: seq<Byte>)
    requires Spells(parse, ws, keys) && ws != []
    ensures Spells(parse, ws[1..], Encode(ws[1..])) && keys == ws[0].bytes + Encode(ws[1..])
  {
  }

  /** What is left of such keys after the first few is such keys again. */
  lemma {:induction false} QueueableSuffix(parse: Reader, ws: seq<Unit>, keys: seq<Byte>, n: nat)
    requires Spells(parse, ws, keys) && n <= |keys|
    ensures Queueable(parse, keys[n..])
    decreases |ws|
  {
    if n == 0 {
      assert keys[0..] == keys;
    } else if ws != [] {
      SpellsTail(parse, ws, keys);
      var e, rest := ws[0].bytes, Encode(ws[1..]);
      if n < |e| {
        assert keys[n..] == e[n..] + rest;
        TailIsText(parse, ws[0], n);
        QueueableText(parse, e[n..]);
        QueueableConcat(parse, e[n..], rest);
      } else {
        assert keys[n..] == rest[n - |e|..];
        QueueableSuffix(parse, ws[1..], rest, n - |e|);
      }
    }
  }

  // ----- The keys of a read can be queued

  lemma {:induction false} DeliveredQueueable(parse: Reader, delivered: Out, us: seq<Unit>, at: nat)
    requires AllUnits(parse, us) && Queueable(parse, delivered.keys)
    ensures Queueable(parse, Deliver(delivered, us, at, {}).keys)
    decreases |us|
  {
    if us != [] {
      UnitKeysQueueable(parse, us[0]);
      QueueableConcat(parse, delivered.keys, us[0].meaning.keys);
      DeliveredQueueable(parse, delivered.Then(us[0].meaning), us[1..], at + |us[0].bytes|);
    }
  }

  lemma UnitKeysQueueable(parse: Reader, u: Unit)
    requires IsUnit(parse, u)
    ensures Queueable(parse, u.meaning.keys)
  {
    if IsLiteral(u) {
      QueueableUnit(parse, u);
    } else {
      assert u.meaning.keys == [];
      QueueableNothing(parse);
    }
  }

  /** An overlong beginning that was not waited for is a unit of its own. */
  lemma HeldQueueable(parse: Reader, u: Unit, p: seq<Byte>)
    requires IsUnit(parse, u) && p != [] && StrictPrefix(p, u.bytes)
    ensures Queueable(parse, Held(p).0.keys)
  {
    BeginningShape(parse, u, p);
    if Held(p).0 == NOTHING {
      QueueableNothing(parse);
    } else {
      var v := Unit(p, Literal(p));
      assert KeyBytes(p) && !IsFocusReport(p);
      QueueableUnit(parse, v);
    }
  }

  lemma ReadQueueable(parse: Reader, us: seq<Unit>, raw: seq<Byte>, rest: seq<Byte>)
    requires AllUnits(parse, us) && raw + rest == Encode(us)
    ensures Queueable(parse, ReadOnto(parse)(NOTHING, raw).0.keys)
  {
    var k := Cut(us, |raw|);
    var n := |raw| - |Encode(us[..k])|;
    CutBytes(us, k);
    QueueableNothing(parse);
    DeliveredQueueable(parse, NOTHING, us[..k], 0);
    if n == 0 {
      SameSplit(raw, rest, Encode(us[..k]), Encode(us[k..]));
      ReadBetween(parse, NOTHING, us[..k], 0, {});
    } else {
      SplitInside(us, k, n, raw, rest);
      ReadInside(parse, NOTHING, us, k, n, 0, {});
      HeldQueueable(parse, us[k], us[k].bytes[..n]);
      QueueableConcat(parse, Deliver(NOTHING, us[..k], 0, {}).keys, Held(us[k].bytes[..n]).0.keys);
    }
  }
}
