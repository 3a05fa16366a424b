/**
 What becomes of a run after a read has overtaken queued keys: however the rest is cut into reads, it
 comes to what one read of all the bytes would yield.
 */
module OvertakenRuns {
  import opened Bytes
  import opened SgrMouse
  import opened StdinScan
  import opened StdinUnits
  import opened StdinFragments
  import opened TailQueue
  import opened QueueRuns
  import opened Overtaking

  /** Everything delivered, and the queued keys behind it. */
  function InAll<S>(s: Loop<S>): Out { s.delivered.Then(Literal(s.carry.key)) }

  /** No dry read in the run hands over an ESC with nothing behind it. */
  ghost predicate NoEscapeGoes<S>(machine: Machine, take: Taker<S>, s: Loop<S>, steps: seq<Step>)
    decreases |steps|
  {
    steps != [] ==>
      && !LetsEscapeGo(machine, take, s, steps[0])
      && NoEscapeGoes(machine, take, Do(machine, take, s, steps[0]), steps[1..])
  }

  /** A run to the end of the input comes to `due`. */
  ghost predicate ComesTo<S>(parse: Reader, take: Taker<S>, s: Loop<S>, steps: seq<Step>, due: Out, stuck: seq<Byte>) {
    var end := RunLoop(Decoding(parse), take, s, steps);
    InAll(end) == due && end.carry.mouse == stuck
  }

  ghost predicate Undisturbed<S>(parse: Reader, take: Taker<S>, s: Loop<S>, steps: seq<Step>) {
    InTurn(Decoding(parse), take, s, steps) && NoEscapeGoes(Decoding(parse), take, s, steps)
  }

  lemma {:induction false} NoneGoes<S>(machine: Machine, take: Taker<S>, s: Loop<S>, steps: seq<Step>, pos: nat)
    requires NoEscapeGoes(machine, take, s, steps)
    ensures EscapesGoAt(machine, take, s, steps, pos) == {}
    decreases |steps|
  {
    if steps != [] {
      NoneGoes(machine, take, Do(machine, take, s, steps[0]), steps[1..], pos + |steps[0].Bytes()|);
    }
  }

  /** From a tracked state the rest of the input comes to the total. */
  lemma TrackedComesTo<S(!new)>(parse: Reader, take: Taker<S>, s: Loop<S>, spot: Spot, steps: seq<Step>, due: Out)
    requires Tracks(parse, s.delivered, s.carry, spot, Input(steps)) && Undisturbed(parse, take, s, steps)
    requires Total(PointOf(s.delivered, spot), {}) == due
    ensures ComesTo(parse, take, s, steps, due, [])
  {
    assert Input(steps) + [] == Input(steps);
    var end := RunTracks(parse, spot.unread, take, s, spot, steps, []);
    NoneGoes(Decoding(parse), take, s, steps, spot.pos);
    EndTracks(parse, RunLoop(Decoding(parse), take, s, steps), end);
  }

  // ----- After a read of units, with something in front of them

  lemma TailsBehind(parse: Reader, b: seq<Byte>, keys: seq<Byte>)
    requires b != [] && ESC !in b[1..] && Queueable(parse, keys)
    ensures TailsQueueable(parse, b + keys)
  {
    var ws: seq<Unit> :| Spells(parse, ws, keys);
    forall n | 0 < n <= |b + keys| ensures Queueable(parse, (b + keys)[n..]) {
      if n <= |b| {
        assert (b + keys)[n..] == b[n..] + keys;
        assert b[n..] == b[1..][n - 1..];
        QueueableText(parse, b[n..]);
        QueueableConcat(parse, b[n..], keys);
      } else {
        assert (b + keys)[n..] == keys[n - |b|..];
        QueueableSuffix(parse, ws, keys, n - |b|);
      }
    }
  }

  /**
   A read whose bytes are units, cut anywhere, with something in front of them that is already decided
   (`front`, and the keys it ends with), and an undisturbed run after it.
   */
  lemma UnitsComeTo<S(!new)>(
    parse: Reader, take: Taker<S>, s: Loop<S>, front: Out, y: seq<Byte>, us: seq<Unit>, steps: seq<Step>
  )
    requires AllUnits(parse, us) && y + Input(steps) == Encode(us)
    requires front.keys == [] || (front.keys != [] && ESC !in front.keys[1..])
    requires var (out, carry) := Settle(Scan(parse, y));
             Undisturbed(parse, take, Hand(take, s, front.Then(out), carry), steps)
    ensures var (out, carry) := Settle(Scan(parse, y));
            ComesTo(parse, take, Hand(take, s, front.Then(out), carry), steps,
              s.delivered.Then(front).Then(Means(us)), [])
  {
    var (out, carry) := Settle(Scan(parse, y));
    var d := s.delivered.Then(front);
    var q := ReadAnywhere(parse, d, us, y, Input(steps), 0, {});
    assert q.carry == carry && q.delivered == d.Then(out);
    ThenAssociates(s.delivered, front, out);
    ReadQueueable(parse, us, y, Input(steps));
    NothingThen(out);
    FrontTails(parse, front, out.keys);
    var spot := Land(parse, take, s, front.Then(out), q, Input(steps));
    DeliverMeans(d, us, 0);
    TrackedComesTo(parse, take, Hand(take, s, front.Then(out), carry), spot, steps, d.Then(Means(us)));
  }

  lemma FrontTails(parse: Reader, front: Out, keys: seq<Byte>)
    requires Queueable(parse, keys) && (front.keys == [] || (front.keys != [] && ESC !in front.keys[1..]))
    ensures TailsQueueable(parse, front.keys + keys)
  {
    if front.keys == [] {
      assert [] + keys == keys;
      TailsOf(parse, keys);
    } else {
      TailsBehind(parse, front.keys, keys);
    }
  }

  // ----- A broken-off `ESC [` in front of another escape

  /** An `ESC [` with parameters that another ESC cuts off. */
  predicate BrokenOff(b: seq<Byte>) {
    && |b| >= 2 && b[0] == ESC && b[1] == OPEN && ESC !in b[1..]
    && (|b| > 2 ==> b[2] !in {LESS, FOCUS_IN, FOCUS_OUT})
  }

  lemma ScanBroken(parse: Reader, b: seq<Byte>, y: seq<Byte>)
    requires BrokenOff(b) && y != [] && y[0] == ESC
    ensures Scan(parse, b + y) == Scan(parse, y).After([], b)
  {
    if |b| > 2 {
      ScanKey(parse, b, y);
    } else {
      assert b == [ESC, OPEN];
      ScanBare(parse, y);
    }
  }

  lemma ScanBare(parse: Reader, y: seq<Byte>)
    requires y != [] && y[0] == ESC
    ensures Scan(parse, [ESC, OPEN] + y) == Scan(parse, y).After([], [ESC, OPEN])
  {
    var w := [ESC, OPEN] + y;
    assert w[1..] == [OPEN] + y && w[2] == ESC;
    assert Scan(parse, w) == Scan(parse, [OPEN] + y).After([], [ESC]);
    ScanText(parse, [OPEN], y);
    Scan(parse, y).AfterAfter([], [ESC], [], [OPEN]);
    assert [ESC] + [OPEN] == [ESC, OPEN];
  }

  lemma StripBroken(b: seq<Byte>, z: seq<Byte>)
    requires BrokenOff(b) && z != [] && z[0] == ESC
    ensures StripFocus(b + z) == Focus(StripFocus(z).focused, b + StripFocus(z).keys)
  {
    if |b| > 2 {
      StripEscape(b, z);
    } else {
      assert b == [ESC, OPEN];
      var w := b + z;
      assert w[1..] == [OPEN] + z && ([OPEN] + z)[1..] == z && w[2] == ESC;
      assert StripFocus([OPEN] + z) == Focus(StripFocus(z).focused, [OPEN] + StripFocus(z).keys);
      assert [ESC] + ([OPEN] + StripFocus(z).keys) == b + StripFocus(z).keys;
    }
  }

  lemma PartialBroken(b: seq<Byte>, z: seq<Byte>)
    requires BrokenOff(b) && z != [] && z[0] == ESC
    ensures PartialEscape(b + z) == PartialEscape(z)
  {
    assert (b + z)[1..] == b[1..] + z;
    assert z[0] in b[1..] + z;
    PartialAfterTexts(b[1..], z);
  }

  /** What was broken off is typed, and the rest is decoded as if it stood alone. */
  lemma SettleBroken(parse: Reader, b: seq<Byte>, e: Unit, y: seq<Byte>)
    requires BrokenOff(b) && IsKey(e) && IsLiteral(e)
    ensures var s := e.bytes + y;
            Settle(Scan(parse, b + s)) == (Literal(b).Then(Settle(Scan(parse, s)).0), Settle(Scan(parse, s)).1)
  {
    var s := e.bytes + y;
    ScanBroken(parse, b, s);
    ScanKey(parse, e.bytes, y);
    var pass, more := Scan(parse, s).pass, Scan(parse, y).pass;
    assert pass == e.bytes + more;
    PartialBroken(b, pass);
    PartialAfterKey(e.bytes, more);
    SettledAfter(e.bytes, more);
    StripBroken(b, Settled(pass));
    SettleAfterPass(Unit(b, Literal(b)), Scan(parse, s));
  }

  // ----- `ESC [` and keys, as units

  /** What an `ESC [` in front of queued keys becomes: a key that ends among them, or something broken off. */
  ghost predicate Reads(parse: Reader, whole: seq<Byte>, inside: seq<Byte>, front: seq<Byte>, vs: seq<Unit>) {
    && AllUnits(parse, vs) && front + Encode(vs) == whole
    && (front != [] ==>
          BrokenOff(front) && vs != [] && IsKey(vs[0]) && IsLiteral(vs[0]) && front + vs[0].bytes <= inside)
  }

  /** A text that ends any CSI it continues: with a final byte, or by being too long. */
  predicate Ends(r: seq<Byte>) { r != [] && ESC !in r && (IsFinal(r[|r| - 1]) || |r| > 16) }

  lemma KeyOf(parse: Reader, b: seq<Byte>, xs: seq<Byte>) returns (k: Unit)
    requires BrokenOff(b) && xs != [] && ESC !in xs && (|b| == 2 ==> xs[0] !in {LESS, FOCUS_IN, FOCUS_OUT})
    requires forall i :: 2 <= i < |b| ==> !IsFinal(b[i])
    requires (IsFinal(xs[|xs| - 1]) || |xs| > 16) && forall i :: 0 <= i < |xs| - 1 ==> !IsFinal(xs[i])
    ensures IsUnit(parse, k) && k.bytes == b + xs && IsLiteral(k)
  {
    k := Unit(b + xs, Literal(b + xs));
    var e := k.bytes;
    assert e[1..] == b[1..] + xs && e[|e| - 1] == xs[|xs| - 1];
    assert e[2] == if |b| > 2 then b[2] else xs[0];
    assert KeyBytes(e) && !IsFocusReport(e);
  }

  lemma EncodeCons(parse: Reader, k: Unit, vs: seq<Unit>)
    requires IsUnit(parse, k) && AllUnits(parse, vs)
    ensures AllUnits(parse, [k] + vs) && Encode([k] + vs) == k.bytes + Encode(vs)
  {
    assert ([k] + vs)[1..] == vs;
  }

  lemma EncodeText(parse: Reader, text: seq<Byte>, us: seq<Unit>)
    requires ESC !in text && AllUnits(parse, us)
    ensures AllUnits(parse, Texts(text) + us) && Encode(Texts(text) + us) == text + Encode(us)
  {
    TextsAreUnits(parse, text);
    TextsEncode(text);
    EncodeConcat(Texts(text), us);
  }

  lemma ReadsInRest(parse: Reader, b: seq<Byte>, r: seq<Byte>, us: seq<Unit>) returns (vs: seq<Unit>)
    requires BrokenOff(b) && |b| > 2 && (forall i :: 2 <= i < |b| ==> !IsFinal(b[i])) && AllUnits(parse, us)
    requires Ends(r)
    ensures Reads(parse, b + (r + Encode(us)), b, [], vs)
  {
    var f := FirstIndex(r, IsFinal);
    var j := if f < |r| then f else |r| - 1;
    var xs, tail := r[..j + 1], r[j + 1..];
    var k := KeyOf(parse, b, xs);
    EncodeText(parse, tail, us);
    vs := [k] + (Texts(tail) + us);
    EncodeCons(parse, k, Texts(tail) + us);
    Regroup(b, xs, tail, Encode(us));
    assert xs + tail == r && [] + Encode(vs) == Encode(vs);
  }

  lemma Regroup(a: seq<Byte>, b: seq<Byte>, c: seq<Byte>, d: seq<Byte>)
    ensures (a + b) + (c + d) == a + ((b + c) + d) && (a + b) + (c + d) == (a + (b + c)) + d
  {
  }

  lemma ReadsFinal(parse: Reader, b: seq<Byte>, ws: seq<Unit>, queue: seq<Byte>, zs: seq<Unit>) returns (vs: seq<Unit>)
    requires BrokenOff(b) && (forall i :: 2 <= i < |b| ==> !IsFinal(b[i])) && Spells(parse, ws, queue) &&
            AllUnits(parse, zs)
    requires ws != [] && IsText(ws[0]) && IsFinal(ws[0].bytes[0])
    requires |b| == 2 ==> queue != [] && queue[0] !in {LESS, FOCUS_IN, FOCUS_OUT}
    ensures Reads(parse, b + queue + Encode(zs), b + queue, [], vs)
  {
    SpellsTail(parse, ws, queue);
    var e, more := ws[0].bytes, Encode(ws[1..]);
    var k := KeyOf(parse, b, e);
    EncodeConcat(ws[1..], zs);
    EncodeCons(parse, k, ws[1..] + zs);
    vs := [k] + (ws[1..] + zs);
    Regroup(b, e, more, Encode(zs));
    assert [] + Encode(vs) == Encode(vs);
  }

  lemma ReadsBroken(parse: Reader, b: seq<Byte>, ws: seq<Unit>, queue: seq<Byte>, zs: seq<Unit>)
    requires BrokenOff(b) && Spells(parse, ws, queue) && AllUnits(parse, zs) && ws != [] && IsKey(ws[0])
    ensures Reads(parse, b + queue + Encode(zs), b + queue, b, ws + zs)
  {
    SpellsTail(parse, ws, queue);
    EncodeConcat(ws, zs);
    Front(b, ws[0].bytes, Encode(ws[1..]), Encode(zs));
    assert IsLiteral(ws[0]) && (ws + zs)[0] == ws[0];
  }

  lemma Front(b: seq<Byte>, e: seq<Byte>, more: seq<Byte>, z: seq<Byte>)
    ensures b + e <= b + (e + more) && b + ((e + more) + z) == b + (e + more) + z
  {
    assert b + (e + more) == (b + e) + more;
  }

  lemma {:induction false} ReadsAmong(
    parse: Reader, b: seq<Byte>, ws: seq<Unit>, queue: seq<Byte>, r: seq<Byte>, us: seq<Unit>
  ) returns (front: seq<Byte>, vs: seq<Unit>)
    requires BrokenOff(b) && (forall i :: 2 <= i < |b| ==> !IsFinal(b[i])) && Spells(parse, ws, queue)
    requires |b| == 2 ==> queue != [] && queue[0] !in {LESS, FOCUS_IN, FOCUS_OUT}
    requires Ends(r) && AllUnits(parse, us)
    ensures Reads(parse, b + queue + (r + Encode(us)), b + queue, front, vs)
    decreases |ws|
  {
    EncodeText(parse, r, us);
    if ws == [] {
      vs := ReadsInRest(parse, b, r, us);
      front := [];
      assert b + queue == b;
    } else if IsKey(ws[0]) {
      ReadsBroken(parse, b, ws, queue, Texts(r) + us);
      front, vs := b, ws + (Texts(r) + us);
    } else if IsFinal(ws[0].bytes[0]) {
      vs := ReadsFinal(parse, b, ws, queue, Texts(r) + us);
      front := [];
    } else {
      SpellsTail(parse, ws, queue);
      var e := ws[0].bytes;
      LongerBroken(b, e[0]);
      assert e == [e[0]];
      assert b + queue == (b + e) + Encode(ws[1..]);
      front, vs := ReadsAmong(parse, b + e, ws[1..], Encode(ws[1..]), r, us);
    }
  }

  lemma LongerBroken(b: seq<Byte>, x: Byte)
    requires BrokenOff(b) && x != ESC && !IsFinal(x) && (forall i :: 2 <= i < |b| ==> !IsFinal(b[i]))
    requires |b| == 2 ==> x !in {LESS, FOCUS_IN, FOCUS_OUT}
    ensures BrokenOff(b + [x]) && forall i :: 2 <= i < |b + [x]| ==> !IsFinal((b + [x])[i])
  {
    assert (b + [x])[1..] == b[1..] + [x];
  }

  // ----- The rest of the run, case by case

  /** The state after the read that overtook. */
  function AfterRead<S>(parse: Reader, take: Taker<S>, s: Loop<S>, raw: seq<Byte>): Loop<S> {
    var (out, carry) := Settle(Scan(parse, raw));
    Hand(take, s, out, carry)
  }

  /** The run comes to what one read of all the bytes yields. */
  ghost predicate AsOneRead<S>(parse: Reader, take: Taker<S>, s: Loop<S>, raw: seq<Byte>, steps: seq<Step>) {
    var whole := raw + Input(steps);
    ComesTo(parse, take, AfterRead(parse, take, s, raw), steps, s.delivered.Then(Yield(parse, whole)),
      Stuck(parse, whole))
  }

  /** The bytes of a read and of what follows it: something the read decodes for good, and units behind it. */
  ghost predicate Fronts(parse: Reader, raw: seq<Byte>, x: seq<Byte>, front: Out, y: seq<Byte>, vs: seq<Unit>) {
    && AllUnits(parse, vs) && y + x == Encode(vs)
    && (front.keys == [] || ESC !in front.keys[1..])
    && Settle(Scan(parse, raw)) == (front.Then(Settle(Scan(parse, y)).0), Settle(Scan(parse, y)).1)
    && Yield(parse, raw + x) == front.Then(Yield(parse, Encode(vs)))
    && Stuck(parse, raw + x) == Stuck(parse, Encode(vs))
  }

  lemma FrontAsOneRead<S(!new)>(
    parse: Reader, take: Taker<S>, s: Loop<S>, raw: seq<Byte>, front: Out, y: seq<Byte>, vs: seq<Unit>, steps: seq<Step>
  )
    requires Fronts(parse, raw, Input(steps), front, y, vs)
    requires Undisturbed(parse, take, AfterRead(parse, take, s, raw), steps)
    ensures AsOneRead(parse, take, s, raw, steps)
  {
    UnitsComeTo(parse, take, s, front, y, vs, steps);
    YieldUnits(parse, vs);
    ThenAssociates(s.delivered, front, Means(vs));
  }

  lemma NothingFronts(parse: Reader, raw: seq<Byte>, x: seq<Byte>, vs: seq<Unit>)
    requires AllUnits(parse, vs) && raw + x == Encode(vs)
    ensures Fronts(parse, raw, x, NOTHING, raw, vs)
  {
    NothingThen(Settle(Scan(parse, raw)).0);
    NothingThen(Yield(parse, Encode(vs)));
  }

  /** A report that a terminator ended. */
  lemma OpenFronts(parse: Reader, g: seq<Byte>, term: Byte, y: seq<Byte>, x: seq<Byte>, vs: seq<Unit>)
    requires Open(g) && IsTerminator(term) && AllUnits(parse, vs) && y + x == Encode(vs)
    ensures Fronts(parse, g + [term] + y, x, Out(EventOf(parse, g[3..], term), [], None), y, vs)
  {
    var front := Out(EventOf(parse, g[3..], term), [], None);
    SettleOpen(parse, g, term, y);
    YieldOpen(parse, g, term, Encode(vs));
    Assoc(g + [term], y, x);
    FrontsFrom(parse, g + [term] + y, g + [term] + Encode(vs), x, front, y, vs);
  }

  lemma SettleOpen(parse: Reader, g: seq<Byte>, term: Byte, y: seq<Byte>)
    requires Open(g) && IsTerminator(term)
    ensures var front := Out(EventOf(parse, g[3..], term), [], None);
            Settle(Scan(parse, g + [term] + y)) == (front.Then(Settle(Scan(parse, y)).0), Settle(Scan(parse, y)).1)
  {
    ScanOpen(parse, g, term, y);
    SettleAfterReport(EventOf(parse, g[3..], term), Scan(parse, y));
  }

  lemma Assoc(a: seq<Byte>, b: seq<Byte>, c: seq<Byte>)
    ensures (a + b) + c == a + (b + c)
  {
  }

  lemma FrontsFrom(
    parse: Reader, raw: seq<Byte>, whole: seq<Byte>, x: seq<Byte>, front: Out, y: seq<Byte>, vs: seq<Unit>
  )
    requires AllUnits(parse, vs) && y + x == Encode(vs) && (front.keys == [] || ESC !in front.keys[1..])
    requires whole == raw + x
    requires Settle(Scan(parse, raw)) == (front.Then(Settle(Scan(parse, y)).0), Settle(Scan(parse, y)).1)
    requires Yield(parse, whole) == front.Then(Yield(parse, Encode(vs)))
    requires Stuck(parse, whole) == Stuck(parse, Encode(vs))
    ensures Fronts(parse, raw, x, front, y, vs)
  {
  }

  lemma YieldBroken(parse: Reader, b: seq<Byte>, e: Unit, y: seq<Byte>)
    requires BrokenOff(b) && IsKey(e) && IsLiteral(e)
    ensures Yield(parse, b + (e.bytes + y)) == Literal(b).Then(Yield(parse, e.bytes + y))
    ensures Stuck(parse, b + (e.bytes + y)) == Stuck(parse, e.bytes + y)
  {
    SettleBroken(parse, b, e, y);
    var (out, carry) := Settle(Scan(parse, e.bytes + y));
    ThenAssociates(Literal(b), out, Literal(carry.key));
  }

  lemma BrokenFronts(parse: Reader, b: seq<Byte>, y: seq<Byte>, x: seq<Byte>, vs: seq<Unit>)
    requires BrokenOff(b) && AllUnits(parse, vs) && vs != [] && IsKey(vs[0]) && IsLiteral(vs[0])
    requires vs[0].bytes <= y && y + x == Encode(vs)
    ensures Fronts(parse, b + y, x, Literal(b), y, vs)
  {
    var e := vs[0];
    assert y == e.bytes + y[|e.bytes|..];
    SettleBroken(parse, b, e, y[|e.bytes|..]);
    YieldBroken(parse, b, e, Encode(vs[1..]));
    Assoc(b, y, x);
    FrontsFrom(parse, b + y, b + Encode(vs), x, Literal(b), y, vs);
  }

  lemma TypedFronts(parse: Reader, queue: seq<Byte>, c: seq<Byte>, r: seq<Byte>, us: seq<Unit>, x: seq<Byte>)
    returns (front: Out, y: seq<Byte>, vs: seq<Unit>)
    requires Queueable(parse, queue) && queue != [] && queue[0] !in {LESS, FOCUS_IN, FOCUS_OUT}
    requires Ends(r) && AllUnits(parse, us) && r + Encode(us) == c + x
    ensures Fronts(parse, [ESC, OPEN] + queue + c, x, front, y, vs)
  {
    var ws: seq<Unit> :| Spells(parse, ws, queue);
    var b: seq<Byte> := [ESC, OPEN];
    var raw := b + queue + c;
    var broken;
    broken, vs := ReadsAmong(parse, b, ws, queue, r, us);
    assert raw + x == b + queue + (c + x);
    if broken == [] {
      assert [] + Encode(vs) == Encode(vs);
      NothingFronts(parse, raw, x, vs);
      front, y := NOTHING, raw;
    } else {
      CutFront(broken, vs[0].bytes, b + queue, c, x, Encode(vs));
      front, y := Literal(broken), raw[|broken|..];
      BrokenFronts(parse, broken, y, x, vs);
    }
  }

  lemma CutFront(front: seq<Byte>, e: seq<Byte>, inside: seq<Byte>, c: seq<Byte>, x: seq<Byte>, z: seq<Byte>)
    requires front + e <= inside && inside + c + x == front + z
    ensures var y := (inside + c)[|front|..];
            inside + c == front + y && e <= y && y + x == z
  {
    var raw := inside + c;
    var y := raw[|front|..];
    assert front + e == inside[..|front + e|] == raw[..|front + e|];
    assert front == raw[..|front|] && e == y[..|e|];
    SameSplit(front, y + x, front, z);
  }

  lemma FocusFronts(parse: Reader, queue: seq<Byte>, c: seq<Byte>, r: seq<Byte>, us: seq<Unit>, x: seq<Byte>)
    returns (vs: seq<Unit>)
    requires Queueable(parse, queue) && queue != [] && (queue[0] == FOCUS_IN || queue[0] == FOCUS_OUT)
    requires ESC !in r && AllUnits(parse, us) && r + Encode(us) == c + x
    ensures Fronts(parse, [ESC, OPEN] + queue + c, x, NOTHING, [ESC, OPEN] + queue + c, vs)
  {
    var f := Unit([ESC, OPEN, queue[0]], Out([], [], Some(queue[0] == FOCUS_IN)));
    QueueRest(parse, queue, r);
    var ws: seq<Unit> :| Spells(parse, ws, queue[1..] + r);
    EncodeConcat(ws, us);
    EncodeCons(parse, f, ws + us);
    vs := [f] + (ws + us);
    Shuffle(queue, r, Encode(us), c, x);
    NothingFronts(parse, [ESC, OPEN] + queue + c, x, vs);
  }

  lemma Shuffle(queue: seq<Byte>, r: seq<Byte>, z: seq<Byte>, c: seq<Byte>, x: seq<Byte>)
    requires queue != [] && r + z == c + x
    ensures [ESC, OPEN, queue[0]] + ((queue[1..] + r) + z) == [ESC, OPEN] + queue + c + x
  {
    assert [ESC, OPEN] + queue + c + x == [ESC, OPEN] + queue + (c + x);
    assert queue == [queue[0]] + queue[1..];
  }

  lemma EarlyFronts(
    parse: Reader, m: seq<Byte>, w: seq<Byte>, s: seq<Byte>, c: seq<Byte>, r: seq<Byte>, us: seq<Unit>,
    x: seq<Byte>
  )
    returns (front: Out, vs: seq<Unit>)
    requires w != [] && Open((m + w)[..|m + w| - 1]) && IsTerminator(w[|w| - 1]) && Queueable(parse, s)
    requires ESC !in r && AllUnits(parse, us) && r + Encode(us) == c + x
    ensures Fronts(parse, m + (w + s) + c, x, front, s + c, vs)
  {
    var g, term := (m + w)[..|m + w| - 1], w[|w| - 1];
    assert m + w == g + [term];
    var ws: seq<Unit> :| Spells(parse, ws, s);
    EncodeText(parse, r, us);
    EncodeConcat(ws, Texts(r) + us);
    vs := ws + (Texts(r) + us);
    Assoc(s, c, x);
    EarlySplit(m, w, s, c, g, term);
    OpenFronts(parse, g, term, s + c, x, vs);
    front := Out(EventOf(parse, g[3..], term), [], None);
  }

  lemma EarlySplit(m: seq<Byte>, w: seq<Byte>, s: seq<Byte>, c: seq<Byte>, g: seq<Byte>, term: Byte)
    requires m + w == g + [term]
    ensures m + (w + s) + c == g + [term] + (s + c)
  {
    assert m + (w + s) + c == (m + w) + (s + c);
  }

  // ----- A report that is still open

  /** An open report that never ends, or ends where units begin. */
  ghost predicate EndsAtUnits(parse: Reader, whole: seq<Byte>) {
    Open(whole) || exists g, term, vs :: EndsAt(parse, whole, g, term, vs)
  }

  ghost predicate EndsAt(parse: Reader, whole: seq<Byte>, g: seq<Byte>, term: Byte, vs: seq<Unit>) {
    Open(g) && IsTerminator(term) && AllUnits(parse, vs) && whole == g + [term] + Encode(vs)
  }

  lemma {:induction false} OpenEnds(parse: Reader, g: seq<Byte>, us: seq<Unit>)
    requires Open(g) && AllUnits(parse, us)
    ensures EndsAtUnits(parse, g + Encode(us))
    decreases |us|
  {
    if us == [] {
      assert g + [] == g;
    } else {
      var e, rest := us[0].bytes, Encode(us[1..]);
      var init, last := e[..|e| - 1], e[|e| - 1];
      forall i | 0 <= i < |init| ensures !IsTerminator(init[i]) {
        TerminatorIsLast(parse, us[0], i);
      }
      assert init + [last] == e;
      if IsTerminator(last) {
        Regroup(g, init, [last], rest);
        assert EndsAt(parse, g + Encode(us), g + init, last, us[1..]);
      } else {
        Assoc(g, e, rest);
        assert Open(g + e);
        OpenEnds(parse, g + e, us[1..]);
      }
    }
  }

  lemma OpenQueueEnds(parse: Reader, m: seq<Byte>, queue: seq<Byte>, r: seq<Byte>, u: Unit, us: seq<Unit>)
    requires IsUnit(parse, u) && u.bytes == m + r && r != [] && |m| >= 2 && AllUnits(parse, us) && Open(m + queue)
    ensures EndsAtUnits(parse, m + queue + (r + Encode(us)))
  {
    var g, init, last := m + queue, r[..|r| - 1], r[|r| - 1];
    RestStaysOpen(parse, m, r, u);
    assert init + [last] == r;
    if IsTerminator(last) {
      Regroup(g, init, [last], Encode(us));
      assert EndsAt(parse, g + (r + Encode(us)), g + init, last, us);
    } else {
      Assoc(g, r, Encode(us));
      assert Open(g + r);
      OpenEnds(parse, g + r, us);
    }
  }

  lemma RestStaysOpen(parse: Reader, m: seq<Byte>, r: seq<Byte>, u: Unit)
    requires IsUnit(parse, u) && u.bytes == m + r && r != [] && |m| >= 2
    ensures forall i :: 0 <= i < |r| - 1 ==> !IsTerminator(r[i])
  {
    forall i | 0 <= i < |r| - 1 ensures !IsTerminator(r[i]) {
      assert r[i] == u.bytes[|m| + i];
      TerminatorIsLast(parse, u, |m| + i);
    }
  }

  /** Reading on in an open report: it stays open. */
  lemma StaysOpen(parse: Reader, g: seq<Byte>)
    requires Open(g)
    ensures Settle(Scan(parse, g)) == (NOTHING, Carry(g, []))
  {
    SettleMouseStart(parse, g);
  }

  /** The read in which an open report ends. */
  lemma EndOfOpen<S(!new)>(
    parse: Reader, take: Taker<S>, s: Loop<S>, raw: seq<Byte>, steps: seq<Step>, g: seq<Byte>, term: Byte, vs: seq<Unit>
  )
    requires EndsAt(parse, raw + Input(steps), g, term, vs) && !Open(raw) && |raw| >= 3 && raw[..3] == [ESC, OPEN, LESS]
    requires Undisturbed(parse, take, AfterRead(parse, take, s, raw), steps)
    ensures AsOneRead(parse, take, s, raw, steps)
  {
    var x := Input(steps);
    EndIsIn(raw, x, g, term, Encode(vs));
    var y := raw[|g| + 1..];
    OpenFronts(parse, g, term, y, x, vs);
    FrontAsOneRead(parse, take, s, raw, Out(EventOf(parse, g[3..], term), [], None), y, vs, steps);
  }

  lemma EndIsIn(raw: seq<Byte>, x: seq<Byte>, g: seq<Byte>, term: Byte, z: seq<Byte>)
    requires raw + x == g + [term] + z && Open(g) && !Open(raw) && |raw| >= 3 && raw[..3] == [ESC, OPEN, LESS]
    ensures |g| < |raw| && raw == g + [term] + raw[|g| + 1..] && raw[|g| + 1..] + x == z
  {
    assert raw[0] == ESC && raw[1] == OPEN && raw[2] == LESS by {
      assert raw[..3][0] == raw[0] && raw[..3][1] == raw[1] && raw[..3][2] == raw[2];
    }
    var i :| 3 <= i < |raw| && IsTerminator(raw[i]);
    assert (raw + x)[i] == raw[i];
    assert i < |g| ==> (g + [term] + z)[i] == g[i];
    assert raw == (raw + x)[..|raw|];
    SameSplit(g + [term], raw[|g| + 1..] + x, g + [term], z);
  }

  lemma ComesToStep<S>(
    parse: Reader, take: Taker<S>, s: Loop<S>, t: Loop<S>, steps: seq<Step>, due: Out, stuck: seq<Byte>
  )
    requires steps != [] && t == Do(Decoding(parse), take, s, steps[0])
    requires ComesTo(parse, take, t, steps[1..], due, stuck)
    ensures ComesTo(parse, take, s, steps, due, stuck)
  {
  }

  lemma UndisturbedStep<S>(parse: Reader, take: Taker<S>, s: Loop<S>, steps: seq<Step>)
    requires steps != [] && Undisturbed(parse, take, s, steps)
    ensures Undisturbed(parse, take, Do(Decoding(parse), take, s, steps[0]), steps[1..])
  {
  }

  lemma {:induction false} OpenRun<S(!new)>(parse: Reader, take: Taker<S>, s: Loop<S>, g: seq<Byte>, steps: seq<Step>)
    requires s.carry == Carry(g, []) && Open(g) && EndsAtUnits(parse, g + Input(steps))
    requires Undisturbed(parse, take, s, steps)
    ensures var whole := g + Input(steps);
            ComesTo(parse, take, s, steps, s.delivered.Then(Yield(parse, whole)), Stuck(parse, whole))
    decreases |steps|, 0
  {
    if steps == [] {
      assert g + [] == g;
      StaysOpen(parse, g);
      ThenNothing(NOTHING);
    } else {
      InputFirst(steps, []);
      Assoc(g, steps[0].Bytes(), Input(steps[1..]));
      assert Input(steps) + [] == Input(steps) && Input(steps[1..]) + [] == Input(steps[1..]);
      UndisturbedStep(parse, take, s, steps);
      if steps[0].Idle? || steps[0].chunk == [] {
        var t := Do(Decoding(parse), take, s, steps[0]);
        assert g + [] == g;
        OpenPauses(parse, take, s, g, steps[0]);
        OpenRun(parse, take, t, g, steps[1..]);
        var whole := g + Input(steps);
        ComesToStep(parse, take, s, t, steps, s.delivered.Then(Yield(parse, whole)), Stuck(parse, whole));
      } else {
        var raw := g + steps[0].chunk;
        DoesRead(parse, take, s, g, steps[0].chunk);
        assert raw[..3] == [ESC, OPEN, LESS];
        OpenAsOneRead(parse, take, s, raw, steps[1..]);
        ReadThenRun(parse, take, s, g, steps);
      }
    }
  }

  lemma ReadThenRun<S>(parse: Reader, take: Taker<S>, s: Loop<S>, g: seq<Byte>, steps: seq<Step>)
    requires s.carry == Carry(g, []) && steps != [] && steps[0].Chunk? && steps[0].chunk != []
    requires AsOneRead(parse, take, s, g + steps[0].chunk, steps[1..])
    ensures var whole := g + Input(steps);
            ComesTo(parse, take, s, steps, s.delivered.Then(Yield(parse, whole)), Stuck(parse, whole))
  {
    var raw := g + steps[0].chunk;
    var whole := raw + Input(steps[1..]);
    DoesRead(parse, take, s, g, steps[0].chunk);
    Assoc(g, steps[0].chunk, Input(steps[1..]));
    ComesToStep(parse, take, s, AfterRead(parse, take, s, raw), steps,
                s.delivered.Then(Yield(parse, whole)), Stuck(parse, whole));
  }

  lemma OpenPauses<S>(parse: Reader, take: Taker<S>, s: Loop<S>, g: seq<Byte>, step: Step)
    requires s.carry == Carry(g, []) && (step.Idle? || step.chunk == [])
    ensures var t := Do(Decoding(parse), take, s, step);
            t.carry == s.carry && t.delivered == s.delivered
  {
    ThenNothing(s.delivered);
  }

  lemma DoesRead<S>(parse: Reader, take: Taker<S>, s: Loop<S>, g: seq<Byte>, chunk: seq<Byte>)
    requires s.carry == Carry(g, []) && chunk != []
    ensures Do(Decoding(parse), take, s, Chunk(chunk)) == AfterRead(parse, take, s, g + chunk)
  {
    assert g + [] + chunk == g + chunk;
  }

  lemma NotOpenWhole(raw: seq<Byte>, x: seq<Byte>)
    requires !Open(raw) && |raw| >= 3
    ensures !Open(raw + x)
  {
    if raw[0] == ESC && raw[1] == OPEN && raw[2] == LESS {
      var i :| 3 <= i < |raw| && IsTerminator(raw[i]);
      assert (raw + x)[i] == raw[i];
    } else {
      assert (raw + x)[0] == raw[0] && (raw + x)[1] == raw[1] && (raw + x)[2] == raw[2];
    }
  }

  // ----- Every way together

  lemma {:induction false} OpenAsOneRead<S(!new)>(
    parse: Reader, take: Taker<S>, s: Loop<S>, raw: seq<Byte>, steps: seq<Step>
  )
    requires |raw| >= 3 && raw[..3] == [ESC, OPEN, LESS] && EndsAtUnits(parse, raw + Input(steps))
    requires Undisturbed(parse, take, AfterRead(parse, take, s, raw), steps)
    ensures AsOneRead(parse, take, s, raw, steps)
    decreases |steps|, 1
  {
    if Open(raw) {
      StaysOpen(parse, raw);
      ThenNothing(s.delivered);
      OpenRun(parse, take, AfterRead(parse, take, s, raw), raw, steps);
    } else {
      NotOpenWhole(raw, Input(steps));
      var h, term, vs :| EndsAt(parse, raw + Input(steps), h, term, vs);
      EndOfOpen(parse, take, s, raw, steps, h, term, vs);
    }
  }

  lemma MouseAsOneRead<S(!new)>(
    parse: Reader, take: Taker<S>, s: Loop<S>, m: seq<Byte>, queue: seq<Byte>, c: seq<Byte>,
    r: seq<Byte>, u: Unit, us: seq<Unit>, steps: seq<Step>
  )
    requires IsUnit(parse, u) && u.bytes == m + r && r != [] && |m| >= 2 && AllUnits(parse, us)
    requires queue != [] && ((|m| > 2 && m[2] == LESS) || (|m| == 2 && queue[0] == LESS))
    requires Queueable(parse, queue) && r + Encode(us) == c + Input(steps)
    requires Undisturbed(parse, take, AfterRead(parse, take, s, m + queue + c), steps)
    ensures AsOneRead(parse, take, s, m + queue + c, steps)
  {
    var j := FirstIndex(queue, IsTerminator);
    var raw := m + queue + c;
    BeginningShape(parse, u, m);
    CsiShape(parse, m, r, u);
    if j == |queue| {
      OpenQueueEnds(parse, m, queue, r, u, us);
      Assoc(m + queue, c, Input(steps));
      FirstThree(m, queue, c);
      OpenAsOneRead(parse, take, s, raw, steps);
    } else {
      OpenBefore(m, queue, j);
      var front, y, vs := QueueEndsIt(parse, m, queue, j, c, r, us, Input(steps));
      FrontAsOneRead(parse, take, s, raw, front, y, vs, steps);
    }
  }

  lemma FirstThree(m: seq<Byte>, queue: seq<Byte>, c: seq<Byte>)
    requires |m| >= 2 && m[0] == ESC && m[1] == OPEN && queue != []
    requires (|m| > 2 && m[2] == LESS) || (|m| == 2 && queue[0] == LESS)
    ensures |m + queue + c| >= 3 && (m + queue + c)[..3] == [ESC, OPEN, LESS]
  {
  }

  lemma QueueEndsIt(
    parse: Reader, m: seq<Byte>, queue: seq<Byte>, j: nat, c: seq<Byte>, r: seq<Byte>, us: seq<Unit>, x: seq<Byte>
  ) returns (front: Out, y: seq<Byte>, vs: seq<Unit>)
    requires j < |queue| && IsTerminator(queue[j]) && Open((m + queue[..j + 1])[..|m + queue[..j + 1]| - 1])
    requires Queueable(parse, queue) && ESC !in r && AllUnits(parse, us) && r + Encode(us) == c + x
    ensures Fronts(parse, m + queue + c, x, front, y, vs)
  {
    var w, rest := queue[..j + 1], queue[j + 1..];
    assert w + rest == queue;
    SuffixQueueable(parse, queue, rest);
    front, vs := EarlyFronts(parse, m, w, rest, c, r, us, x);
    y := rest + c;
  }

  lemma RestEnds(parse: Reader, r: seq<Byte>, u: Unit)
    requires IsUnit(parse, u) && u.bytes == [ESC, OPEN] + r && r != []
    ensures Ends(r)
  {
    CsiShape(parse, [ESC, OPEN], r, u);
    assert r[|r| - 1] == u.bytes[|u.bytes| - 1];
  }

  /** After a read that overtook queued keys, an undisturbed run comes to what one read of all the bytes yields. */
  lemma OvertakenAsOneRead<S(!new)>(
    parse: Reader, take: Taker<S>, s: Loop<S>, m: seq<Byte>, queue: seq<Byte>, c: seq<Byte>,
    r: seq<Byte>, u: Unit, us: seq<Unit>, steps: seq<Step>
  )
    requires IsUnit(parse, u) && u.bytes == m + r && r != [] && |m| >= 2 && AllUnits(parse, us)
    requires (|m| > 2 ==> m[2] == LESS) && Queueable(parse, queue) && queue != [] && r + Encode(us) == c + Input(steps)
    requires Undisturbed(parse, take, AfterRead(parse, take, s, m + queue + c), steps)
    ensures AsOneRead(parse, take, s, m + queue + c, steps)
  {
    CsiShape(parse, m, r, u);
    if |m| > 2 || queue[0] == LESS {
      MouseAsOneRead(parse, take, s, m, queue, c, r, u, us, steps);
    } else {
      assert m == [ESC, OPEN];
      OtherAsOneRead(parse, take, s, queue, c, r, u, us, steps);
    }
  }

  lemma OtherAsOneRead<S(!new)>(
    parse: Reader, take: Taker<S>, s: Loop<S>, queue: seq<Byte>, c: seq<Byte>, r: seq<Byte>, u: Unit, us: seq<Unit>,
    steps: seq<Step>
  )
    requires IsUnit(parse, u) && u.bytes == [ESC, OPEN] + r && r != [] && AllUnits(parse, us)
    requires Queueable(parse, queue) && queue != [] && queue[0] != LESS && r + Encode(us) == c + Input(steps)
    requires Undisturbed(parse, take, AfterRead(parse, take, s, [ESC, OPEN] + queue + c), steps)
    ensures AsOneRead(parse, take, s, [ESC, OPEN] + queue + c, steps)
  {
    RestEnds(parse, r, u);
    var raw := [ESC, OPEN] + queue + c;
    if queue[0] == FOCUS_IN || queue[0] == FOCUS_OUT {
      var vs := FocusFronts(parse, queue, c, r, us, Input(steps));
      FrontAsOneRead(parse, take, s, raw, NOTHING, raw, vs, steps);
    } else {
      var front, y, vs := TypedFronts(parse, queue, c, r, us, Input(steps));
      FrontAsOneRead(parse, take, s, raw, front, y, vs, steps);
    }
  }

  /**
   Exactly when an overtaken run is right: with an undisturbed run after it, what it comes to is what was
   due if and only if the token whose beginning was held is a mouse or focus report and the queued keys
   were a whole number of copies of the bytes that complete it.
   */
  lemma OvertakenRunExactly<S(!new)>(
    parse: Reader, take: Taker<S>, s: Loop<S>, c: seq<Byte>, r: seq<Byte>, u: Unit, us: seq<Unit>, steps: seq<Step>
  )
    requires IsUnit(parse, u) && u.bytes == s.carry.mouse + r && r != [] && |s.carry.mouse| >= 2 && AllUnits(parse, us)
    requires |s.carry.mouse| > 2 ==> s.carry.mouse[2] == LESS
    requires Queueable(parse, s.carry.key) && s.carry.key != [] && c != [] && r + Encode(us) == c + Input(steps)
    requires Undisturbed(parse, take, Do(Decoding(parse), take, s, Chunk(c)), steps)
    ensures var t := Do(Decoding(parse), take, s, Chunk(c));
            ComesTo(parse, take, t, steps, s.delivered.Then(Due(s.carry.key, u, us)), [])
            <==> u.meaning.keys == [] && Repeats(s.carry.key, r)
  {
    var m, q := s.carry.mouse, s.carry.key;
    var raw := m + q + c;
    assert Do(Decoding(parse), take, s, Chunk(c)) == AfterRead(parse, take, s, raw);
    OvertakenAsOneRead(parse, take, s, m, q, c, r, u, us, steps);
    OvertakenExactly(parse, m, q, r, u, us);
    WholeBytes(m, q, c, r, Encode(us), Input(steps));
    DecidesInAll(parse, s.delivered, raw + Input(steps), Due(q, u, us), u.meaning.keys == [] && Repeats(q, r));
  }

  lemma WholeBytes(m: seq<Byte>, q: seq<Byte>, c: seq<Byte>, r: seq<Byte>, z: seq<Byte>, x: seq<Byte>)
    requires r + z == c + x
    ensures m + q + c + x == m + q + r + z
  {
    Assoc(m + q, c, x);
    Assoc(m + q, r, z);
  }

  lemma DecidesInAll(parse: Reader, delivered: Out, raw: seq<Byte>, due: Out, right: bool)
    requires IsExact(parse, raw, due, right)
    ensures Stuck(parse, raw) == [] && delivered.Then(Yield(parse, raw)) == delivered.Then(due) <==> right
  {
    if Stuck(parse, raw) == [] {
      DecidesBehind(delivered, Yield(parse, raw), due, right);
    }
  }
}
