/** Every run of decoder and taker in which nothing is overtaken delivers what the units mean. */
module QueueRuns {
  import opened Bytes
  import opened SgrMouse
  import opened StdinScan
  import opened StdinUnits
  import opened StdinFragments
  import opened TailQueue

  /** Where a run stands: the queued keys, the beginning that is held, the units still unread, the bytes read. */
  datatype Spot = Spot(queue: seq<Byte>, held: Carry, unread: seq<Unit>, pos: nat)

  /** The decoder's point if the queued keys are counted as delivered. */
  function PointOf(delivered: Out, spot: Spot): Point {
    Point(delivered.Then(Literal(spot.queue)), spot.held, spot.unread, spot.pos)
  }

  ghost predicate Tracks(parse: Reader, delivered: Out, carry: Carry, spot: Spot, rest: seq<Byte>) {
    && carry == Carry(spot.held.mouse, spot.queue + spot.held.key)
    && Queueable(parse, spot.queue)
    && Consistent(parse, PointOf(delivered, spot), rest)
  }

  // ----- Reading behind queued keys

  lemma {:induction false} LiteralDelivers(parse: Reader, delivered: Out, ws: seq<Unit>, keys: seq<Byte>, at: nat)
    requires Spells(parse, ws, keys)
    ensures Deliver(delivered, ws, at, {}) == delivered.Then(Literal(keys))
    decreases |ws|
  {
    if ws == [] {
      assert delivered.keys + [] == delivered.keys && delivered.events + [] == delivered.events;
    } else {
      SpellsTail(parse, ws, keys);
      var e, rest := ws[0].bytes, Encode(ws[1..]);
      LiteralDelivers(parse, delivered.Then(Literal(e)), ws[1..], rest, at + |e|);
      ThenAssociates(delivered, Literal(e), Literal(rest));
      assert Literal(e).Then(Literal(rest)) == Literal(e + rest);
    }
  }

  lemma NothingThen(a: Out)
    ensures NOTHING.Then(a) == a
  {
    assert [] + a.events == a.events && [] + a.keys == a.keys;
  }

  /** Queued keys are decoded to themselves, and what follows them as if it stood alone. */
  lemma ReadBehind(parse: Reader, queue: seq<Byte>, s: seq<Byte>)
    requires Queueable(parse, queue)
    ensures ReadOnto(parse)(NOTHING, queue + s) ==
            (Literal(queue).Then(ReadOnto(parse)(NOTHING, s).0), ReadOnto(parse)(NOTHING, s).1)
  {
    var ws :| Spells(parse, ws, queue);
    ReadUnits(parse, NOTHING, ws, s, 0, {});
    LiteralDelivers(parse, NOTHING, ws, queue, 0);
    NothingThen(Literal(queue));
    ReadFrom(parse, Literal(queue), s);
  }

  lemma ReadFrom(parse: Reader, delivered: Out, s: seq<Byte>)
    ensures ReadOnto(parse)(delivered, s) ==
            (delivered.Then(ReadOnto(parse)(NOTHING, s).0), ReadOnto(parse)(NOTHING, s).1)
  {
    NothingThen(Settle(Scan(parse, s)).0);
  }

  lemma ReadIs(parse: Reader, carry: Carry, chunk: seq<Byte>)
    ensures Read(parse, carry, chunk) == ReadOnto(parse)(NOTHING, carry.mouse + carry.key + chunk)
  {
    NothingThen(Read(parse, carry, chunk).0);
  }

  /** A read behind a queue with nothing held in the mouse buffer: the queue, and then the read without it. */
  lemma ReadQueued(parse: Reader, queue: seq<Byte>, held: Carry, chunk: seq<Byte>)
    requires Queueable(parse, queue) && (queue == [] || held.mouse == [])
    ensures var (out, carry) := Read(parse, held, chunk);
            Read(parse, Carry(held.mouse, queue + held.key), chunk) == (Literal(queue).Then(out), carry)
  {
    ReadIs(parse, held, chunk);
    ReadIs(parse, Carry(held.mouse, queue + held.key), chunk);
    QueuedBytes(queue, held, chunk);
    ReadBehind(parse, queue, held.mouse + held.key + chunk);
  }

  lemma QueuedBytes(queue: seq<Byte>, held: Carry, chunk: seq<Byte>)
    requires queue == [] || held.mouse == []
    ensures held.mouse + (queue + held.key) + chunk == queue + (held.mouse + held.key + chunk)
  {
  }

  lemma ReadKeysQueueable(parse: Reader, held: Carry, chunk: seq<Byte>, us: seq<Unit>, rest: seq<Byte>)
    requires AllUnits(parse, us) && held.Bytes() + (chunk + rest) == Encode(us)
    ensures Queueable(parse, Read(parse, held, chunk).0.keys)
  {
    var raw := held.mouse + held.key + chunk;
    assert raw + rest == held.Bytes() + (chunk + rest);
    ReadQueueable(parse, us, raw, rest);
    ReadIs(parse, held, chunk);
  }

  // ----- Handing keys over

  /** The keys of a read, split into those handed over and those queued. */
  ghost predicate Splits<S>(s: Loop<S>, out: Out, carry: Carry, after: Loop<S>, queue: seq<Byte>) {
    && |queue| <= |out.keys| && queue == out.keys[|out.keys| - |queue|..] && (out.keys != [] ==> |queue| < |out.keys|)
    && after.carry == Carry(carry.mouse, queue + carry.key)
    && after.delivered.Then(Literal(queue)) == s.delivered.Then(out)
  }

  lemma HandSplits<S>(take: Taker<S>, s: Loop<S>, out: Out, carry: Carry) returns (queue: seq<Byte>)
    ensures Splits(s, out, carry, Hand(take, s, out, carry), queue)
  {
    var after := Hand(take, s, out, carry);
    if out.keys == [] {
      queue := [];
      assert [] + carry.key == carry.key;
      ThenNothing(after.delivered);
    } else {
      var n := Handed(take, s.taker, out.events, out.keys);
      queue := out.keys[n..];
      var kept := out.(keys := out.keys[..n]);
      assert out.keys[..n] + queue == out.keys && out.events + [] == out.events;
      assert kept.Then(Literal(queue)) == out;
      ThenAssociates(s.delivered, kept, Literal(queue));
    }
  }

  /** Keys whose every shorter end can be queued. */
  ghost predicate TailsQueueable(parse: Reader, keys: seq<Byte>) {
    forall n :: 0 < n <= |keys| ==> Queueable(parse, keys[n..])
  }

  lemma Land<S>(parse: Reader, take: Taker<S>, s: Loop<S>, out: Out, q: Point, rest: seq<Byte>) returns (spot: Spot)
    requires Consistent(parse, q, rest) && q.delivered == s.delivered.Then(out) && TailsQueueable(parse, out.keys)
    ensures var t := Hand(take, s, out, q.carry);
            Tracks(parse, t.delivered, t.carry, spot, rest) && PointOf(t.delivered, spot) == q
  {
    var queue := HandSplits(take, s, out, q.carry);
    QueueableNothing(parse);
    if out.keys != [] {
      assert Queueable(parse, out.keys[|out.keys| - |queue|..]);
    }
    spot := Spot(queue, q.carry, q.unread, q.pos);
  }

  lemma TailsOf(parse: Reader, keys: seq<Byte>)
    requires Queueable(parse, keys)
    ensures TailsQueueable(parse, keys)
  {
    var ws: seq<Unit> :| Spells(parse, ws, keys);
    forall n | 0 < n <= |keys| ensures Queueable(parse, keys[n..]) {
      QueueableSuffix(parse, ws, keys, n);
    }
  }

  // ----- One read

  lemma ChunkTracks<S>(
    parse: Reader, take: Taker<S>, s: Loop<S>, spot: Spot, chunk: seq<Byte>, rest: seq<Byte>, later: set<nat>
  ) returns (next: Spot)
    requires Tracks(parse, s.delivered, s.carry, spot, chunk + rest) && chunk != [] && !Overtakes(s, Chunk(chunk))
    requires forall d :: d in later ==> d >= spot.pos + |chunk|
    ensures var (out, carry) := Read(parse, s.carry, chunk);
            var t := Hand(take, s, out, carry);
            && Tracks(parse, t.delivered, t.carry, next, rest) && next.pos == spot.pos + |chunk|
            && Total(PointOf(t.delivered, next), later) == Total(PointOf(s.delivered, spot), later)
            && NewFrom(next.unread, spot.unread)
  {
    NotOvertaken(s.carry, spot);
    var out, q := ReadOn(parse, s.delivered, spot, chunk, rest, later);
    next := Land(parse, take, s, out, q, rest);
  }

  /** The read itself: the queue, what the chunk adds, and the point the decoder reaches. */
  lemma ReadOn(parse: Reader, delivered: Out, spot: Spot, chunk: seq<Byte>, rest: seq<Byte>, later: set<nat>)
    returns (out: Out, q: Point)
    requires Consistent(parse, PointOf(delivered, spot), chunk + rest) && Queueable(parse, spot.queue)
    requires (spot.queue == [] || spot.held.mouse == []) && forall d :: d in later ==> d >= spot.pos + |chunk|
    ensures Read(parse, Carry(spot.held.mouse, spot.queue + spot.held.key), chunk) == (out, q.carry)
    ensures q.delivered == delivered.Then(out) && q.pos == spot.pos + |chunk| && TailsQueueable(parse, out.keys)
    ensures Consistent(parse, q, rest) && Total(q, later) == Total(PointOf(delivered, spot), later)
    ensures NewFrom(q.unread, spot.unread)
  {
    ReadQueued(parse, spot.queue, spot.held, chunk);
    q := ReadStep(parse, PointOf(delivered, spot), chunk, rest, later);
    ReadKeysQueueable(parse, spot.held, chunk, spot.unread, rest);
    var more := Read(parse, spot.held, chunk).0;
    out := Literal(spot.queue).Then(more);
    QueueableConcat(parse, spot.queue, more.keys);
    TailsOf(parse, out.keys);
    ThenAssociates(delivered, Literal(spot.queue), more);
  }

  lemma NotOvertaken(carry: Carry, spot: Spot)
    requires carry == Carry(spot.held.mouse, spot.queue + spot.held.key)
    requires carry.mouse == [] || carry.key == []
    ensures spot.queue == [] || spot.held.mouse == []
  {
  }

  lemma SuffixQueueable(parse: Reader, keys: seq<Byte>, queue: seq<Byte>)
    requires Queueable(parse, keys) && |queue| <= |keys| && queue == keys[|keys| - |queue|..]
    ensures Queueable(parse, queue)
  {
    var ws :| Spells(parse, ws, keys);
    QueueableSuffix(parse, ws, keys, |keys| - |queue|);
  }

  // ----- One dry read

  lemma {:induction false} StripQueue(parse: Reader, ws: seq<Unit>, queue: seq<Byte>, x: seq<Byte>)
    requires Spells(parse, ws, queue)
    ensures StripFocus(queue + x) == Focus(StripFocus(x).focused, queue + StripFocus(x).keys)
    decreases |ws|
  {
    if ws == [] {
      assert queue + x == x && queue + StripFocus(x).keys == StripFocus(x).keys;
    } else {
      SpellsTail(parse, ws, queue);
      var e, rest := ws[0].bytes, Encode(ws[1..]);
      StripQueue(parse, ws[1..], rest, x);
      StripLiteral(parse, ws[0], rest + x);
      Grouped(e, rest, x);
      Grouped(e, rest, StripFocus(x).keys);
    }
  }

  lemma Grouped(a: seq<Byte>, b: seq<Byte>, c: seq<Byte>)
    ensures (a + b) + c == a + (b + c)
  {
  }

  lemma StripLiteral(parse: Reader, u: Unit, q: seq<Byte>)
    requires IsUnit(parse, u) && IsLiteral(u)
    ensures StripFocus(u.bytes + q) == Focus(StripFocus(q).focused, u.bytes + StripFocus(q).keys)
  {
    if IsText(u) {
      StripText(u.bytes, q);
    } else {
      assert IsKey(u);
      StripKey(u, q);
    }
  }

  lemma StripHeld(parse: Reader, held: Carry, unread: seq<Unit>)
    requires AllUnits(parse, unread) && Holds(held, unread)
    ensures StripFocus(held.key) == Focus(None, held.key)
  {
    var key := held.key;
    if key != [] {
      HeldKey(held, unread);
      BeginningShape(parse, unread[0], key);
      if |key| == 1 {
        StripLoneEscape(key);
      } else {
        StripKeyStart(key);
      }
    }
  }

  /** What a dry read does: nothing, or it releases the queue and the held key together. */
  lemma DryQueued(parse: Reader, queue: seq<Byte>, held: Carry, unread: seq<Unit>)
    requires Queueable(parse, queue) && AllUnits(parse, unread) && Holds(held, unread)
    ensures var carry := Carry(held.mouse, queue + held.key);
            Dry(carry) == if carry.key != [] && !IncompleteCsiKey(carry.key)
                          then (Literal(carry.key), Carry(held.mouse, [])) else (NOTHING, carry)
  {
    var ws :| Spells(parse, ws, queue);
    StripQueue(parse, ws, queue, held.key);
    StripHeld(parse, held, unread);
  }

  /** Nothing was handed over of the held key: it is held as before, behind what is left of the queue. */
  lemma KeepsHeld(parse: Reader, delivered: Out, spot: Spot, rest: seq<Byte>, after: Out, left: seq<Byte>)
    requires Consistent(parse, PointOf(delivered, spot), rest) && Queueable(parse, spot.queue)
    requires |spot.held.key| <= |left| <= |spot.queue| + |spot.held.key|
    requires left == (spot.queue + spot.held.key)[|spot.queue| + |spot.held.key| - |left|..]
    requires after.Then(Literal(left)) == delivered.Then(Literal(spot.queue + spot.held.key))
    ensures var queue := left[..|left| - |spot.held.key|];
            && queue + spot.held.key == left && Queueable(parse, queue)
            && after.Then(Literal(queue)) == delivered.Then(Literal(spot.queue))
  {
    var key, queue := spot.held.key, left[..|left| - |spot.held.key|];
    assert left[|left| - |key|..] == key;
    assert queue == spot.queue[|spot.queue| - |queue|..];
    SuffixQueueable(parse, spot.queue, queue);
    assert Literal(queue).Then(Literal(key)) == Literal(left);
    assert Literal(spot.queue).Then(Literal(key)) == Literal(spot.queue + key);
    ThenAssociates(after, Literal(queue), Literal(key));
    ThenAssociates(delivered, Literal(spot.queue), Literal(key));
    SameKeys(after.Then(Literal(queue)), delivered.Then(Literal(spot.queue)), key);
  }

  lemma SameKeys(a: Out, b: Out, keys: seq<Byte>)
    requires a.Then(Literal(keys)) == b.Then(Literal(keys))
    ensures a == b
  {
    var x, y := a.Then(Literal(keys)), b.Then(Literal(keys));
    assert x == y && x.keys == y.keys;
    assert a.keys + keys == x.keys == b.keys + keys;
    assert |x.keys| == |a.keys| + |keys| == |b.keys| + |keys|;
    SameSplit(a.keys, keys, b.keys, keys);
    assert x.events == a.events + [] == a.events && y.events == b.events + [] == b.events;
    assert x.focused == a.focused && y.focused == b.focused;
  }

  /** Some of the held key was handed over: the rest of its unit is now text. */
  lemma LosesHeld(
    parse: Reader, delivered: Out, spot: Spot, rest: seq<Byte>, after: Out, left: seq<Byte>, dry: set<nat>,
    later: set<nat>
  ) returns (next: Spot)
    requires Consistent(parse, PointOf(delivered, spot), rest) && forall d :: d in later ==> d >= spot.pos
    requires |left| < |spot.held.key| && left == spot.held.key[|spot.held.key| - |left|..]
    requires after.Then(Literal(left)) == delivered.Then(Literal(spot.queue + spot.held.key))
    requires dry == {spot.pos} || (dry == {} && spot.held.key != [ESC])
    ensures Tracks(parse, after, Carry([], left), next, rest) && next.pos == spot.pos && spot.held.mouse == []
    ensures Total(PointOf(after, next), later) == Total(PointOf(delivered, spot), dry + later)
    ensures NewFrom(next.unread, spot.unread)
  {
    var key := spot.held.key;
    var q := ReleasePointKey(parse, PointOf(delivered, spot), rest, dry, later);
    SameDelivered(delivered, spot.queue, key);
    assert Queueable(parse, key[|key| - |left|..]);
    next := AtPoint(parse, after, left, q, rest);
  }

  lemma SameDelivered(delivered: Out, queue: seq<Byte>, key: seq<Byte>)
    ensures delivered.Then(Literal(queue)).Then(Literal(key)) == delivered.Then(Literal(queue + key))
  {
    ThenAssociates(delivered, Literal(queue), Literal(key));
    assert Literal(queue).Then(Literal(key)) == Literal(queue + key);
  }

  lemma ReleasePointKey(parse: Reader, p: Point, rest: seq<Byte>, dry: set<nat>, later: set<nat>) returns (q: Point)
    requires Consistent(parse, p, rest) && p.carry.key != [] && forall d :: d in later ==> d >= p.pos
    requires dry == {p.pos} || (dry == {} && p.carry.key != [ESC])
    ensures q.delivered == p.delivered.Then(Literal(p.carry.key)) && q.carry == EMPTY && q.pos == p.pos
    ensures Consistent(parse, q, rest) && Total(q, later) == Total(p, dry + later)
    ensures p.carry.mouse == [] && TailsQueueable(parse, p.carry.key) && NewFrom(q.unread, p.unread)
  {
    HeldKey(p.carry, p.unread);
    q := ReleaseKey(parse, p.delivered, p.unread, p.carry.key, rest, p.pos, later);
    DryAdjusts(parse, p, dry, later);
    AfterKeyIsText(parse, p.unread, p.carry.key, q.unread);
  }

  lemma AfterKeyIsText(parse: Reader, us: seq<Unit>, key: seq<Byte>, now: seq<Unit>)
    requires AllUnits(parse, us) && us != [] && key != [] && StrictPrefix(key, us[0].bytes)
    requires now == Texts(us[0].bytes[|key|..]) + us[1..]
    ensures TailsQueueable(parse, key) && NewFrom(now, us)
  {
    TailsOfHeld(parse, us[0], key);
    assert us[0 + 1..] == us[1..];
    TextsNew(parse, us, 0, |key|);
  }

  lemma DryAdjusts(parse: Reader, p: Point, dry: set<nat>, later: set<nat>)
    requires |p.carry.Bytes()| <= p.pos && AllUnits(parse, p.unread) && Holds(p.carry, p.unread) && p.carry.key != []
    requires dry == {p.pos} || (dry == {} && p.carry.key != [ESC])
    ensures Total(p, {p.pos} + later) == Total(p, dry + later)
  {
    if dry == {} {
      HeldKey(p.carry, p.unread);
      NotTornInside(parse, p.delivered, p.unread, p.carry.key, p.pos, later);
      assert {} + later == later;
    }
  }

  lemma TailsOfHeld(parse: Reader, u: Unit, key: seq<Byte>)
    requires IsUnit(parse, u) && key != [] && StrictPrefix(key, u.bytes)
    ensures TailsQueueable(parse, key)
  {
    BeginningShape(parse, u, key);
    forall n | 0 < n <= |key| ensures Queueable(parse, key[n..]) {
      assert key[n..] == key[1..][n - 1..];
      QueueableText(parse, key[n..]);
    }
  }

  lemma AtPoint(parse: Reader, after: Out, left: seq<Byte>, q: Point, rest: seq<Byte>) returns (next: Spot)
    requires Consistent(parse, q, rest) && q.carry == EMPTY && Queueable(parse, left)
    requires q.delivered == after.Then(Literal(left))
    ensures Tracks(parse, after, Carry([], left), next, rest) && PointOf(after, next) == q
  {
    next := Spot(left, EMPTY, q.unread, q.pos);
    assert left + [] == left;
  }

  /** Only a lone ESC is torn off a unit by being handed over. */
  lemma NotTornInside(parse: Reader, delivered: Out, us: seq<Unit>, key: seq<Byte>, pos: nat, later: set<nat>)
    requires AllUnits(parse, us) && us != [] && key != [] && StrictPrefix(key, us[0].bytes) && |key| <= pos &&
            key != [ESC]
    ensures Deliver(delivered, us, pos - |key|, {pos} + later) == Deliver(delivered, us, pos - |key|, later)
  {
    BeginningShape(parse, us[0], key);
    DryInsideUnit(delivered, us, pos - |key|, later, pos);
  }

  lemma LoneGoes(queue: seq<Byte>, key: seq<Byte>, left: seq<Byte>)
    requires |left| < |key|
    ensures key == [ESC] ==> Goes(queue + key, left)
  {
  }

  lemma IdleTracks<S>(parse: Reader, take: Taker<S>, s: Loop<S>, spot: Spot, rest: seq<Byte>, later: set<nat>)
    returns (next: Spot)
    requires Tracks(parse, s.delivered, s.carry, spot, rest) && forall d :: d in later ==> d >= spot.pos
    ensures var (out, carry) := Dry(s.carry);
            var t := Hand(take, s, out, carry);
            && Tracks(parse, t.delivered, t.carry, next, rest) && next.pos == spot.pos
            && Total(PointOf(t.delivered, next), later) ==
               Total(PointOf(s.delivered, spot), (if Goes(s.carry.key, t.carry.key) then {spot.pos} else {}) + later)
            && NewFrom(next.unread, spot.unread)
  {
    DryQueued(parse, spot.queue, spot.held, spot.unread);
    var (out, carry) := Dry(s.carry);
    if s.carry.key != [] && !IncompleteCsiKey(s.carry.key) {
      var left := HandSplits(take, s, out, carry);
      assert left + [] == left;
      next := KeysGo(parse, s.delivered, spot, rest, Hand(take, s, out, carry).delivered, left, later);
    } else {
      next := spot;
      assert {} + later == later;
      ThenNothing(s.delivered);
    }
  }

  /** A dry read released the key buffer, and `left` came back. */
  lemma KeysGo(
    parse: Reader, delivered: Out, spot: Spot, rest: seq<Byte>, after: Out, left: seq<Byte>, later: set<nat>
  ) returns (next: Spot)
    requires Queueable(parse, spot.queue) && Consistent(parse, PointOf(delivered, spot), rest)
    requires spot.queue + spot.held.key != [] && forall d :: d in later ==> d >= spot.pos
    requires var keys := spot.queue + spot.held.key;
             && |left| < |keys| && left == keys[|keys| - |left|..]
             && after.Then(Literal(left)) == delivered.Then(Literal(keys))
    ensures Tracks(parse, after, Carry(spot.held.mouse, left), next, rest) && next.pos == spot.pos
    ensures Total(PointOf(after, next), later) ==
            Total(PointOf(delivered, spot),
                  (if Goes(spot.queue + spot.held.key, left) then {spot.pos} else {}) + later)
    ensures NewFrom(next.unread, spot.unread)
  {
    if |left| >= |spot.held.key| {
      assert {} + later == later;
      KeepsHeld(parse, delivered, spot, rest, after, left);
      next := spot.(queue := left[..|left| - |spot.held.key|]);
      if left == [] {
        DryKeeps(PointOf(delivered, spot), later);
      }
    } else {
      LeftOfHeld(spot, left);
      LoneGoes(spot.queue, spot.held.key, left);
      next := LosesHeld(parse, delivered, spot, rest, after, left,
                        if Goes(spot.queue + spot.held.key, left) then {spot.pos} else {}, later);
    }
  }

  /** A key buffer that ended with ESC has been emptied. */
  predicate Goes(before: seq<Byte>, after: seq<Byte>) {
    before != [] && before[|before| - 1] == ESC && after == []
  }

  lemma LeftOfHeld(spot: Spot, left: seq<Byte>)
    requires |left| < |spot.held.key|
    requires left == (spot.queue + spot.held.key)[|spot.queue + spot.held.key| - |left|..]
    ensures left == spot.held.key[|spot.held.key| - |left|..]
  {
  }

  // ----- Whole runs

  /** A step led from one spot to another without changing what it all comes to. */
  ghost predicate Leads<S>(
    parse: Reader, s: Loop<S>, spot: Spot, t: Loop<S>, next: Spot, n: nat, rest: seq<Byte>, dry: set<nat>,
    later: set<nat>
  ) {
    && Tracks(parse, t.delivered, t.carry, next, rest) && next.pos == spot.pos + n
    && |spot.held.Bytes()| <= spot.pos && NewFrom(next.unread, spot.unread)
    && Total(PointOf(t.delivered, next), later) == Total(PointOf(s.delivered, spot), dry + later)
  }

  lemma IdleLeads<S>(parse: Reader, take: Taker<S>, s: Loop<S>, spot: Spot, rest: seq<Byte>, later: set<nat>)
    returns (next: Spot)
    requires Tracks(parse, s.delivered, s.carry, spot, rest) && forall d :: d in later ==> d >= spot.pos
    ensures Leads(parse, s, spot, Do(Decoding(parse), take, s, Idle), next, 0, rest,
                  EscapeGoes(Decoding(parse), take, s, Idle, spot.pos), later)
  {
    next := IdleTracks(parse, take, s, spot, rest, later);
  }

  lemma ChunkLeads<S>(
    parse: Reader, take: Taker<S>, s: Loop<S>, spot: Spot, chunk: seq<Byte>, rest: seq<Byte>, later: set<nat>
  ) returns (next: Spot)
    requires Tracks(parse, s.delivered, s.carry, spot, chunk + rest) && !Overtakes(s, Chunk(chunk))
    requires forall d :: d in later ==> d >= spot.pos + |chunk|
    ensures Leads(parse, s, spot, Do(Decoding(parse), take, s, Chunk(chunk)), next, |chunk|, rest, {}, later)
  {
    assert {} + later == later;
    if chunk == [] {
      assert [] + rest == rest;
      next := spot;
    } else {
      next := ChunkTracks(parse, take, s, spot, chunk, rest, later);
    }
  }

  lemma StepTracks<S>(
    parse: Reader, take: Taker<S>, s: Loop<S>, spot: Spot, step: Step, rest: seq<Byte>, later: set<nat>
  ) returns (next: Spot)
    requires Tracks(parse, s.delivered, s.carry, spot, step.Bytes() + rest) && !Overtakes(s, step)
    requires forall d :: d in later ==> d >= spot.pos + |step.Bytes()|
    ensures Leads(parse, s, spot, Do(Decoding(parse), take, s, step), next, |step.Bytes()|, rest,
                  EscapeGoes(Decoding(parse), take, s, step, spot.pos), later)
  {
    assert [] + rest == rest;
    match step
    case Idle => next := IdleLeads(parse, take, s, spot, rest, later);
    case Chunk(chunk) => next := ChunkLeads(parse, take, s, spot, chunk, rest, later);
  }

  /** A run of steps, each of which keeps an invariant and a total. */
  ghost predicate Keeps<S(!new)>(
    good: (Loop<S>, Spot, seq<Byte>) -> bool, total: (Loop<S>, Spot, set<nat>) -> Out, machine: Machine, take: Taker<S>
  ) {
    forall s, spot, step, rest, later ::
      Kept(good, total, machine, take, s, spot, step, rest, later)
  }

  ghost predicate Kept<S>(
    good: (Loop<S>, Spot, seq<Byte>) -> bool, total: (Loop<S>, Spot, set<nat>) -> Out, machine: Machine, take: Taker<S>,
    s: Loop<S>, spot: Spot, step: Step, rest: seq<Byte>, later: set<nat>
  ) {
    good(s, spot, step.Bytes() + rest) && !Overtakes(s, step) &&
      (forall d :: d in later ==> d >= spot.pos + |step.Bytes()|) ==>
      exists next :: Moves(good, total, machine, take, s, spot, step, rest, later, next)
  }

  ghost predicate Moves<S>(
    good: (Loop<S>, Spot, seq<Byte>) -> bool, total: (Loop<S>, Spot, set<nat>) -> Out, machine: Machine, take: Taker<S>,
    s: Loop<S>, spot: Spot, step: Step, rest: seq<Byte>, later: set<nat>, next: Spot
  ) {
    var t := Do(machine, take, s, step);
    && good(t, next, rest) && next.pos == spot.pos + |step.Bytes()|
    && total(t, next, later) == total(s, spot, EscapeGoes(machine, take, s, step, spot.pos) + later)
  }

  ghost function Tracking<S(!new)>(parse: Reader, us: seq<Unit>): (Loop<S>, Spot, seq<Byte>) -> bool {
    (s: Loop<S>, spot: Spot, rest: seq<Byte>) =>
      Tracks(parse, s.delivered, s.carry, spot, rest) && NewFrom(spot.unread, us)
  }

  lemma StillFrom(a: seq<Unit>, b: seq<Unit>, c: seq<Unit>)
    requires NewFrom(a, b) && NewFrom(b, c)
    ensures NewFrom(a, c)
  {
  }

  ghost function Totalling<S(!new)>(): (Loop<S>, Spot, set<nat>) -> Out {
    (s: Loop<S>, spot: Spot, dry: set<nat>) =>
      if |spot.held.Bytes()| <= spot.pos then Total(PointOf(s.delivered, spot), dry) else NOTHING
  }

  lemma DecodingKeeps<S(!new)>(parse: Reader, us: seq<Unit>, take: Taker<S>)
    ensures Keeps(Tracking<S>(parse, us), Totalling<S>(), Decoding(parse), take)
  {
    forall s, spot, step, rest, later
      ensures Kept(Tracking<S>(parse, us), Totalling<S>(), Decoding(parse), take, s, spot, step, rest, later)
    {
      if Tracking<S>(parse, us)(s, spot, step.Bytes() + rest) && !Overtakes(s, step)
         && (forall d :: d in later ==> d >= spot.pos + |step.Bytes()|) {
        var next := StepTracks(parse, take, s, spot, step, rest, later);
        StillFrom(next.unread, spot.unread, us);
        assert Moves(Tracking<S>(parse, us), Totalling<S>(), Decoding(parse), take, s, spot, step, rest, later, next);
      }
    }
  }

  lemma {:induction false} RunMoves<S(!new)>(
    good: (Loop<S>, Spot, seq<Byte>) -> bool, total: (Loop<S>, Spot, set<nat>) -> Out, machine: Machine, take: Taker<S>,
    s: Loop<S>, spot: Spot, steps: seq<Step>, rest: seq<Byte>
  ) returns (next: Spot)
    requires Keeps(good, total, machine, take) && good(s, spot, Input(steps) + rest) && InTurn(machine, take, s, steps)
    ensures good(RunLoop(machine, take, s, steps), next, rest) && next.pos == spot.pos + |Input(steps)|
    ensures total(RunLoop(machine, take, s, steps), next, {}) ==
            total(s, spot, EscapesGoAt(machine, take, s, steps, spot.pos))
    decreases |steps|
  {
    if steps == [] {
      assert [] + rest == rest;
      next := spot;
    } else {
      var step, tail := steps[0], Input(steps[1..]) + rest;
      InputFirst(steps, rest);
      var t := Do(machine, take, s, step);
      var more := EscapesGoAt(machine, take, t, steps[1..], spot.pos + |step.Bytes()|);
      assert Kept(good, total, machine, take, s, spot, step, tail, more);
      var mid :| Moves(good, total, machine, take, s, spot, step, tail, more, mid);
      next := RunMoves(good, total, machine, take, t, mid, steps[1..], rest);
    }
  }

  /** A run in which nothing is overtaken tracks the units and keeps the total. */
  lemma RunTracks<S(!new)>(
    parse: Reader, us: seq<Unit>, take: Taker<S>, s: Loop<S>, spot: Spot, steps: seq<Step>, rest: seq<Byte>
  ) returns (next: Spot)
    requires Tracks(parse, s.delivered, s.carry, spot, Input(steps) + rest) && InTurn(Decoding(parse), take, s, steps)
    requires NewFrom(spot.unread, us)
    ensures var end := RunLoop(Decoding(parse), take, s, steps);
            && Tracks(parse, end.delivered, end.carry, next, rest) && NewFrom(next.unread, us)
            && Total(PointOf(end.delivered, next), {}) ==
               Total(PointOf(s.delivered, spot), EscapesGoAt(Decoding(parse), take, s, steps, spot.pos))
  {
    DecodingKeeps(parse, us, take);
    next := RunMoves(Tracking<S>(parse, us), Totalling<S>(), Decoding(parse), take, s, spot, steps, rest);
  }

  /** The same from the beginning, with nothing held or queued. */
  lemma RunTracksUnits<S(!new)>(
    parse: Reader, take: Taker<S>, taker: S, us: seq<Unit>, steps: seq<Step>, rest: seq<Byte>
  ) returns (next: Spot)
    requires AllUnits(parse, us) && Input(steps) + rest == Encode(us)
    requires InTurn(Decoding(parse), take, Loop(NOTHING, EMPTY, taker), steps)
    ensures var start := Loop(NOTHING, EMPTY, taker);
            var end := RunLoop(Decoding(parse), take, start, steps);
            && Tracks(parse, end.delivered, end.carry, next, rest) && NewFrom(next.unread, us)
            && Total(PointOf(end.delivered, next), {}) ==
               Deliver(NOTHING, us, 0, EscapesGoAt(Decoding(parse), take, start, steps, 0))
  {
    var start := Loop(NOTHING, EMPTY, taker);
    StartTracks(parse, us);
    StartTotal(us, EscapesGoAt(Decoding(parse), take, start, steps, 0));
    next := RunTracks(parse, us, take, start, Spot([], EMPTY, us, 0), steps, rest);
  }

  lemma StartTotal(us: seq<Unit>, dry: set<nat>)
    ensures Total(PointOf(NOTHING, Spot([], EMPTY, us, 0)), dry) == Deliver(NOTHING, us, 0, dry)
  {
    ThenNothing(NOTHING);
  }

  /**
   Whoever takes the keys, and however many of them it gives back: if nothing is overtaken, a run over
   the encoding of units ends with nothing in the mouse buffer, and what was delivered followed by the
   queued keys is what the units mean, torn only where a dry read emptied the key buffer after an ESC.
   */
  lemma RunDelivers<S(!new)>(parse: Reader, take: Taker<S>, taker: S, us: seq<Unit>, steps: seq<Step>)
    requires AllUnits(parse, us) && Input(steps) == Encode(us)
    requires InTurn(Decoding(parse), take, Loop(NOTHING, EMPTY, taker), steps)
    ensures var start := Loop(NOTHING, EMPTY, taker);
            var end := RunLoop(Decoding(parse), take, start, steps);
            && end.carry.mouse == []
            && end.delivered.Then(Literal(end.carry.key)) ==
               Deliver(NOTHING, us, 0, EscapesGoAt(Decoding(parse), take, start, steps, 0))
  {
    assert Input(steps) + [] == Input(steps);
    var end := RunTracksUnits(parse, take, taker, us, steps, []);
    EndTracks(parse, RunLoop(Decoding(parse), take, Loop(NOTHING, EMPTY, taker), steps), end);
  }

  lemma StartTracks(parse: Reader, us: seq<Unit>)
    requires AllUnits(parse, us)
    ensures Tracks(parse, NOTHING, EMPTY, Spot([], EMPTY, us, 0), Encode(us))
    ensures PointOf(NOTHING, Spot([], EMPTY, us, 0)) == Point(NOTHING, EMPTY, us, 0)
  {
    QueueableNothing(parse);
    ThenNothing(NOTHING);
    ConsistentEmpty(parse, NOTHING, us, 0);
  }

  lemma EndTracks<S>(parse: Reader, end: Loop<S>, spot: Spot)
    requires Tracks(parse, end.delivered, end.carry, spot, [])
    ensures end.carry == Carry([], spot.queue) && spot.unread == [] && spot.held == EMPTY
    ensures Total(PointOf(end.delivered, spot), {}) == end.delivered.Then(Literal(spot.queue))
  {
    NothingUnread(parse, spot.held, spot.unread);
    assert spot.queue + [] == spot.queue;
  }
}
